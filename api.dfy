/** The server connection (`kwplib.KwApiCon`) as the tool sees it: the requests it
    sends, the replies it reads, and the rule that the first fatal reply ends the run. */
module Api {
  import opened Exits

  /** The two kinds of filter the tool synchronises. */
  datatype Kind = ModuleKind | ViewKind

  datatype Verb = Create | Update

  /** The kind-specific fields of an upsert request. */
  datatype Payload =
    | ModuleFields(paths: string, allowAll: bool)
    | ViewFields(query: string, tags: string)

  /** One call of `execute_query`, by the value of its `action` field:
      `projects`; `modules` or `views`; `create_module`, `update_module`,
      `create_view` or `update_view`. */
  datatype Request =
    | ListProjects
    | ListItems(project: string, kind: Kind)
    | Upsert(project: string, verb: Verb, kind: Kind, name: string, payload: Payload)

  /** The `action` string sent for a request. */
  function ActionName(r: Request): string {
    match r
    case ListProjects => "projects"
    case ListItems(_, ModuleKind) => "modules"
    case ListItems(_, ViewKind) => "views"
    case Upsert(_, Create, ModuleKind, _, _) => "create_module"
    case Upsert(_, Update, ModuleKind, _, _) => "update_module"
    case Upsert(_, Create, ViewKind, _, _) => "create_view"
    case Upsert(_, Update, ViewKind, _, _) => "update_view"
  }

  /** The server can tell every kind of request from its `action` alone: two requests
      with the same action are of the same kind, with the same verb. */
  lemma ActionNameTellsKind(a: Request, b: Request)
    requires ActionName(a) == ActionName(b)
    ensures a.ListProjects? == b.ListProjects? && a.ListItems? == b.ListItems? && a.Upsert? == b.Upsert?
    ensures a.ListItems? ==> a.kind == b.kind
    ensures a.Upsert? ==> a.kind == b.kind && a.verb == b.verb
  {
  }

  /** A decoded JSON line of a reply: with or without a `name` field. */
  datatype Record = Named(name: string) | Unnamed

  /** A reply: `error_msg` (empty on success) and the `response` lines. */
  datatype Reply = Reply(errorMsg: string, records: seq<Record>)

  /** The server, as oracles: the reply to the project query, the reply listing the
      modules or views of a project, and the `error_msg` of an upsert given its
      position in the sequence of all calls. */
  datatype Server = Server(
    projects: Reply,
    items: (string, Kind) -> Reply,
    errors: (nat, Request) -> string)

  /** The reply to `req` when it is call number `position` of the run. */
  function Respond(server: Server, position: nat, req: Request): (r: Reply)
    ensures req.Upsert? ==> r.records == []
  {
    match req
    case ListProjects => server.projects
    case ListItems(p, k) => server.items(p, k)
    case Upsert(_, _, _, _, _) => Reply(server.errors(position, req), [])
  }

  predicate AllNamed(records: seq<Record>) {
    forall i :: 0 <= i < |records| ==> records[i].Named?
  }

  /** The names of the named records, in reply order. */
  function Names(records: seq<Record>): (names: seq<string>)
    ensures |names| <= |records|
    ensures AllNamed(records) ==>
      (|names| == |records| && forall i :: 0 <= i < |records| ==> names[i] == records[i].name)
  {
    if records == [] then []
    else if records[0].Named? then [records[0].name] + Names(records[1..])
    else Names(records[1..])
  }

  /** Whether the tool stops on reading `reply` to `req`, and why: the project query
      and the upserts fail on a non-empty `error_msg`; the project query and the item
      queries fail on a record without a name. The item queries ignore `error_msg`. */
  function Failure(req: Request, reply: Reply): (r: Option<Fatal>)
    ensures r.None? <==>
      (!req.ListItems? ==> reply.errorMsg == "") && (!req.Upsert? ==> AllNamed(reply.records))
    ensures r.Some? && r.value.ServerError? ==> r.value.message == reply.errorMsg
  {
    match req
    case ListProjects =>
      if reply.errorMsg != "" then Some(ServerError(reply.errorMsg))
      else if !AllNamed(reply.records) then Some(MalformedRecord)
      else None
    case ListItems(p, _) =>
      if !AllNamed(reply.records) then Some(ItemWithoutName(p)) else None
    case Upsert(_, _, _, _, _) =>
      if reply.errorMsg != "" then Some(ServerError(reply.errorMsg)) else None
  }

  /** `get_items` reads only the records of its reply: whatever `error_msg` says, an item
      query fails exactly when a record has no name. */
  lemma ItemQueriesIgnoreErrorMsg(p: string, k: Kind, reply: Reply)
    ensures Failure(ListItems(p, k), reply) == Failure(ListItems(p, k), Reply("", reply.records))
    ensures Failure(ListItems(p, k), reply).Some? <==> !AllNamed(reply.records)
  {
  }

  /** The failure that request `log[i]` meets as call number `i`. */
  function FailureAt(server: Server, log: seq<Request>, i: nat): Option<Fatal>
    requires i < |log|
  {
    Failure(log[i], Respond(server, i, log[i]))
  }

  /** Sends `reqs` one after the other after the calls already in `log`, and stops
      right after the first one whose reply is fatal. */
  function Issue(log: seq<Request>, reqs: seq<Request>, server: Server): (r: Exit<seq<Request>>)
    ensures |log| <= |r.state| <= |log| + |reqs|
    ensures r.Done? ==> r.state == log + reqs
    decreases |reqs|
  {
    if reqs == [] then Done(log)
    else
      var log' := log + [reqs[0]];
      match Failure(reqs[0], Respond(server, |log|, reqs[0]))
      case Some(e) => Stopped(log', e)
      case None => Issue(log', reqs[1..], server)
  }

  /** One step of `Issue`. */
  lemma IssueStep(log: seq<Request>, req: Request, rest: seq<Request>, server: Server)
    ensures Issue(log, [req] + rest, server) ==
      match Failure(req, Respond(server, |log|, req))
      case Some(e) => Stopped(log + [req], e)
      case None => Issue(log + [req], rest, server)
  {
    assert ([req] + rest)[0] == req && ([req] + rest)[1..] == rest;
  }

  /** Issuing `a + b` is issuing `a` and then, if nothing failed, `b`. */
  lemma {:induction false} IssueAppend(log: seq<Request>, a: seq<Request>, b: seq<Request>, server: Server)
    ensures Issue(log, a + b, server) ==
      match Issue(log, a, server)
      case Done(l) => Issue(l, b, server)
      case Stopped(l, e) => Stopped(l, e)
    decreases |a|
  {
    if a != [] {
      assert (a + b)[0] == a[0] && (a + b)[1..] == a[1..] + b;
      IssueAppend(log + [a[0]], a[1..], b, server);
    } else {
      assert a + b == b;
    }
  }

  /** What is issued is a prefix of `reqs`; all of it when the run goes on; when it
      stops, the last call issued is the one whose reply was fatal, and every call
      before it succeeded. */
  lemma {:induction false} IssuePrefix(log: seq<Request>, reqs: seq<Request>, server: Server)
    ensures var r := Issue(log, reqs, server);
      && |log| <= |r.state| <= |log| + |reqs|
      && r.state == log + reqs[..|r.state| - |log|]
      && (r.Done? ==> r.state == log + reqs)
      && (r.Stopped? ==> |r.state| > |log| && FailureAt(server, r.state, |r.state| - 1) == Some(r.reason))
      && (forall i :: |log| <= i < |r.state| && (r.Done? || i < |r.state| - 1) ==>
            FailureAt(server, r.state, i) == None)
    decreases |reqs|
  {
    if reqs != [] {
      var log' := log + [reqs[0]];
      assert FailureAt(server, log', |log|) == Failure(reqs[0], Respond(server, |log|, reqs[0]));
      if Failure(reqs[0], Respond(server, |log|, reqs[0])).None? {
        IssuePrefix(log', reqs[1..], server);
        var r := Issue(log', reqs[1..], server);
        assert reqs[..|r.state| - |log|] == [reqs[0]] + reqs[1..][..|r.state| - |log'|];
        forall i | |log| <= i < |r.state| && (r.Done? || i < |r.state| - 1)
          ensures FailureAt(server, r.state, i) == None
        {
          if i == |log| {
            assert r.state[i] == reqs[0];
          }
        }
      } else {
        assert reqs[..1] == [reqs[0]];
      }
    }
  }
}
