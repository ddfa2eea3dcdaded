/** The sync engine (`add_modules`, `add_views`, `get_items`) and its confirmation gate:
    for every selected project, list the project's existing items of one kind, then
    create or update every local item of that kind. */
module Sync {
  import opened PyText
  import opened Exits
  import opened Api

  // ----- The confirmation gate -----

  /** The answer to the prompt lets the phase go on: `'Y' == proceed.strip().upper()`.
      The answers that confirm are `y` and `Y`, with any white space around them. */
  function Confirmed(answer: string): (confirmed: bool)
    ensures confirmed <==> Strip(answer) == "Y" || Strip(answer) == "y"
  {
    var t := Strip(answer);
    assert Upper(t) == "Y" ==> |t| == 1 && UpperChar(t[0]) == 'Y' && t == [t[0]];
    assert t == "y" ==> Upper(t)[0] == UpperChar('y') == 'Y';
    Upper(t) == "Y"
  }

  /** A phase goes on when the tool runs silently or the user confirmed. */
  predicate Proceeds(silent: bool, answer: string) {
    silent || Confirmed(answer)
  }

  // ----- The requests of one phase -----

  /** The entries of the local map `m` in an order in which `iteritems` may yield them:
      each key once, with its value. */
  ghost predicate Enumerates(entries: seq<(string, string)>, m: map<string, string>) {
    && |entries| == |m|
    && (forall i :: 0 <= i < |entries| ==> entries[i].0 in m && m[entries[i].0] == entries[i].1)
    && (forall i, j :: 0 <= i < j < |entries| ==> entries[i].0 != entries[j].0)
    && (forall k :: k in m ==> exists i :: 0 <= i < |entries| && entries[i].0 == k)
  }

  /** The upsert of one local item in a project whose existing items of that kind are
      `existing`: the decision of `add_modules` and `add_views` is update iff the project
      already has an item of that name, else create; the module payload is the paths with
      `allow_all` set, the view payload the query with the tag `auto-created`. */
  function UpsertFor(kind: Kind, project: string, existing: seq<string>, entry: (string, string)): (r: Request)
    ensures r.Upsert? && r.project == project && r.kind == kind && r.name == entry.0
    ensures r.verb == Update <==> entry.0 in existing
    ensures r.payload == if kind == ModuleKind then ModuleFields(entry.1, true) else ViewFields(entry.1, "auto-created")
  {
    var verb := if entry.0 in existing then Update else Create;
    var payload := match kind
      case ModuleKind => ModuleFields(entry.1, true)
      case ViewKind => ViewFields(entry.1, "auto-created");
    Upsert(project, verb, kind, entry.0, payload)
  }

  /** The upserts of all local items in one project, in enumeration order: one each. */
  function Upserts(kind: Kind, project: string, existing: seq<string>, entries: seq<(string, string)>): (r: seq<Request>)
    ensures |r| == |entries|
    decreases |entries|
  {
    if entries == [] then []
    else [UpsertFor(kind, project, existing, entries[0])] + Upserts(kind, project, existing, entries[1..])
  }

  /** The names `get_items` collects for a project. */
  function Existing(server: Server, project: string, kind: Kind): seq<string> {
    Names(server.items(project, kind).records)
  }

  /** The requests for one project when nothing fails: the query of its existing items,
      then one upsert per local item. */
  function Block(kind: Kind, project: string, entries: seq<(string, string)>, server: Server): (r: seq<Request>)
    ensures |r| == |entries| + 1 && r[0] == ListItems(project, kind)
  {
    [ListItems(project, kind)] + Upserts(kind, project, Existing(server, project, kind), entries)
  }

  /** Every request of a phase when nothing fails: the block of each project in order. */
  function Plan(kind: Kind, projects: seq<string>, entries: seq<(string, string)>, server: Server): (r: seq<Request>)
    ensures |r| == BlockStart(|projects|, |entries| + 1)
    decreases |projects|
  {
    if projects == [] then []
    else Block(kind, projects[0], entries, server) + Plan(kind, projects[1..], entries, server)
  }

  /** The plan of a phase behind its gate: nothing at all when the user declined. */
  function PhasePlan(silent: bool, answer: string, kind: Kind, projects: seq<string>,
                     entries: seq<(string, string)>, server: Server): (r: seq<Request>)
    ensures !Proceeds(silent, answer) ==> r == []
    ensures Proceeds(silent, answer) ==> |r| == |projects| * (|entries| + 1)
  {
    PlanLength(kind, projects, entries, server);
    if Proceeds(silent, answer) then Plan(kind, projects, entries, server) else []
  }

  /** The number of upserts in a sequence of requests. */
  function UpsertCount(reqs: seq<Request>): nat
    decreases |reqs|
  {
    if reqs == [] then 0 else (if reqs[0].Upsert? then 1 else 0) + UpsertCount(reqs[1..])
  }

  // ----- Properties -----

  lemma {:induction false} UpsertsAt(kind: Kind, project: string, existing: seq<string>, entries: seq<(string, string)>)
    ensures forall j :: 0 <= j < |entries| ==>
      Upserts(kind, project, existing, entries)[j] == UpsertFor(kind, project, existing, entries[j])
    decreases |entries|
  {
    if entries != [] {
      UpsertsAt(kind, project, existing, entries[1..]);
      var u := Upserts(kind, project, existing, entries);
      forall j | 0 <= j < |entries| ensures u[j] == UpsertFor(kind, project, existing, entries[j]) {
        if j > 0 { assert entries[1..][j - 1] == entries[j]; }
      }
    }
  }

  lemma MulSucc(n: nat, w: nat)
    requires n > 0
    ensures n * w == (n - 1) * w + w
  {
  }

  /** A phase has one block of `|entries| + 1` requests per project. */
  lemma {:induction false} PlanLength(kind: Kind, projects: seq<string>, entries: seq<(string, string)>, server: Server)
    ensures |Plan(kind, projects, entries, server)| == |projects| * (|entries| + 1)
    decreases |projects|
  {
    if projects != [] {
      var p := projects[0];
      UpsertsAt(kind, p, Existing(server, p, kind), entries);
      PlanLength(kind, projects[1..], entries, server);
      MulSucc(|projects|, |entries| + 1);
    }
  }

  /** Where block `i` starts when every block has `w` requests. */
  function BlockStart(i: nat, w: nat): nat
  {
    if i == 0 then 0 else BlockStart(i - 1, w) + w
  }

  lemma {:induction false} BlockStartIsProduct(i: nat, w: nat)
    ensures BlockStart(i, w) == i * w
  {
    if i > 0 {
      BlockStartIsProduct(i - 1, w);
      MulSucc(i, w);
    }
  }

  /** A block is the query of the project's items followed by one upsert per entry. */
  lemma BlockAt(kind: Kind, project: string, entries: seq<(string, string)>, server: Server, j: nat)
    requires j < |entries|
    ensures var b := Block(kind, project, entries, server);
      && |b| == |entries| + 1
      && b[0] == ListItems(project, kind)
      && b[1 + j] == UpsertFor(kind, project, Existing(server, project, kind), entries[j])
  {
    var ups := Upserts(kind, project, Existing(server, project, kind), entries);
    UpsertsAt(kind, project, Existing(server, project, kind), entries);
    assert Block(kind, project, entries, server)[1 + j] == ups[j];
  }

  /** The blocks of a sequence of projects, one after the other. */
  function Concat<T>(projects: seq<string>, block: string -> seq<T>): seq<T>
    decreases |projects|
  {
    if projects == [] then [] else block(projects[0]) + Concat(projects[1..], block)
  }

  /** When every block has `w` elements, element `k` of block `i` sits at
      `BlockStart(i, w) + k`. */
  lemma {:induction false} ConcatAt<T>(projects: seq<string>, block: string -> seq<T>, w: nat, i: nat, k: nat)
    requires forall p | p in projects :: |block(p)| == w
    requires i < |projects| && k < w
    ensures BlockStart(i, w) + k < |Concat(projects, block)|
    ensures Concat(projects, block)[BlockStart(i, w) + k] == block(projects[i])[k]
    decreases i
  {
    var c := Concat(projects, block);
    assert projects[0] in projects;
    assert c == block(projects[0]) + Concat(projects[1..], block);
    if i > 0 {
      forall p | p in projects[1..] ensures |block(p)| == w {
        assert p in projects;
      }
      ConcatAt(projects[1..], block, w, i - 1, k);
      assert projects[i] == projects[1..][i - 1];
    }
  }

  function BlockOf(kind: Kind, entries: seq<(string, string)>, server: Server): string -> seq<Request> {
    project => Block(kind, project, entries, server)
  }

  lemma {:induction false} PlanIsConcat(kind: Kind, projects: seq<string>, entries: seq<(string, string)>, server: Server)
    ensures Plan(kind, projects, entries, server) == Concat(projects, BlockOf(kind, entries, server))
    decreases |projects|
  {
    if projects != [] {
      PlanIsConcat(kind, projects[1..], entries, server);
    }
  }

  /** Block `i` of a phase is the block of project `i`, element by element. */
  lemma PlanBlock(kind: Kind, projects: seq<string>, entries: seq<(string, string)>,
                  server: Server, i: nat, k: nat)
    requires i < |projects| && k <= |entries|
    ensures var plan, o := Plan(kind, projects, entries, server), BlockStart(i, |entries| + 1);
      o + k < |plan| && k < |Block(kind, projects[i], entries, server)| && plan[o + k] == Block(kind, projects[i], entries, server)[k]
  {
    var block := BlockOf(kind, entries, server);
    assert forall p | p in projects :: |block(p)| == |entries| + 1;
    PlanIsConcat(kind, projects, entries, server);
    ConcatAt(projects, block, |entries| + 1, i, k);
  }

  /** Block `i` of a phase opens with the query of project `i`'s items ... */
  lemma PlanQueryAt(kind: Kind, projects: seq<string>, entries: seq<(string, string)>, server: Server, i: nat)
    requires i < |projects|
    ensures var plan, o := Plan(kind, projects, entries, server), BlockStart(i, |entries| + 1);
      o < |plan| && plan[o] == ListItems(projects[i], kind)
  {
    PlanBlock(kind, projects, entries, server, i, 0);
  }

  /** ... and has at offset `1 + j` the upsert of entry `j`, decided against that
      project's own items. */
  lemma PlanAt(kind: Kind, projects: seq<string>, entries: seq<(string, string)>, server: Server,
               i: nat, j: nat)
    requires i < |projects| && j < |entries|
    ensures var plan, o := Plan(kind, projects, entries, server), BlockStart(i, |entries| + 1);
      && o + 1 + j < |plan|
      && plan[o + 1 + j] == UpsertFor(kind, projects[i], Existing(server, projects[i], kind), entries[j])
  {
    PlanBlock(kind, projects, entries, server, i, 1 + j);
    BlockAt(kind, projects[i], entries, server, j);
  }

  lemma {:induction false} UpsertCountAppend(a: seq<Request>, b: seq<Request>)
    ensures UpsertCount(a + b) == UpsertCount(a) + UpsertCount(b)
    decreases |a|
  {
    if a == [] {
      assert a + b == b;
    } else {
      assert (a + b)[0] == a[0] && (a + b)[1..] == a[1..] + b;
      UpsertCountAppend(a[1..], b);
    }
  }

  lemma {:induction false} UpsertsCount(kind: Kind, project: string, existing: seq<string>, entries: seq<(string, string)>)
    ensures UpsertCount(Upserts(kind, project, existing, entries)) == |entries|
    decreases |entries|
  {
    if entries != [] {
      UpsertsCount(kind, project, existing, entries[1..]);
      UpsertCountAppend([UpsertFor(kind, project, existing, entries[0])], Upserts(kind, project, existing, entries[1..]));
    }
  }

  /** A phase that goes through issues |projects| x |local items| upserts. */
  lemma {:induction false} PlanUpsertCount(kind: Kind, projects: seq<string>, entries: seq<(string, string)>, server: Server)
    ensures UpsertCount(Plan(kind, projects, entries, server)) == |projects| * |entries|
    decreases |projects|
  {
    if projects != [] {
      var p := projects[0];
      var ups := Upserts(kind, p, Existing(server, p, kind), entries);
      PlanUpsertCount(kind, projects[1..], entries, server);
      UpsertsCount(kind, p, Existing(server, p, kind), entries);
      UpsertCountAppend([ListItems(p, kind)], ups);
      UpsertCountAppend(Block(kind, p, entries, server), Plan(kind, projects[1..], entries, server));
      MulSucc(|projects|, |entries|);
    }
  }

  /** For each project and each local item there is exactly one upsert of that item in
      the project's block, and it is decided against that project's existing items:
      every other upsert of the block names another item. */
  lemma OncePerProjectAndItem(kind: Kind, projects: seq<string>, entries: seq<(string, string)>,
                              m: map<string, string>, server: Server, i: nat, k: string)
    requires Enumerates(entries, m)
    requires i < |projects| && k in m
    ensures var plan, o := Plan(kind, projects, entries, server), BlockStart(i, |entries| + 1);
      && o + 1 + |entries| <= |plan|
      && exists j :: (
        && 0 <= j < |entries| && entries[j] == (k, m[k])
        && plan[o + 1 + j] == UpsertFor(kind, projects[i], Existing(server, projects[i], kind), (k, m[k]))
        && (forall p :: o + 1 <= p < o + 1 + |entries| && p != o + 1 + j ==>
              plan[p].Upsert? && plan[p].name != k))
  {
    var plan, o := Plan(kind, projects, entries, server), BlockStart(i, |entries| + 1);
    var j := EntryOf(entries, m, k);
    PlanAt(kind, projects, entries, server, i, j);
    BlockNamesEntries(kind, projects, entries, server, i, plan, o);
    forall p | o + 1 <= p < o + 1 + |entries| && p != o + 1 + j
      ensures plan[p].Upsert? && plan[p].name != k
    {
      assert plan[p].name == entries[p - o - 1].0;
    }
  }

  /** Block `i` fits in the plan, and its upsert at position `p` names entry `p - o - 1`,
      where `o` is where the block starts. */
  lemma BlockNamesEntries(kind: Kind, projects: seq<string>, entries: seq<(string, string)>, server: Server, i: nat,
                          plan: seq<Request>, o: nat)
    requires i < |projects|
    requires plan == Plan(kind, projects, entries, server) && o == BlockStart(i, |entries| + 1)
    ensures o + 1 + |entries| <= |plan|
    ensures forall p :: o + 1 <= p < o + 1 + |entries| ==>
      plan[p].Upsert? && plan[p].name == entries[p - o - 1].0
  {
    BlockFits(kind, projects, entries, server, i);
    forall p | o + 1 <= p < o + 1 + |entries|
      ensures plan[p].Upsert? && plan[p].name == entries[p - o - 1].0
    {
      PlanNamesAt(kind, projects, entries, server, i, p - o - 1);
    }
  }

  lemma BlockFits(kind: Kind, projects: seq<string>, entries: seq<(string, string)>, server: Server, i: nat)
    requires i < |projects|
    ensures BlockStart(i, |entries| + 1) + 1 + |entries| <= |Plan(kind, projects, entries, server)|
  {
    PlanQueryAt(kind, projects, entries, server, i);
    if |entries| > 0 {
      PlanAt(kind, projects, entries, server, i, |entries| - 1);
    }
  }

  lemma PlanNamesAt(kind: Kind, projects: seq<string>, entries: seq<(string, string)>, server: Server,
                    i: nat, j: nat)
    requires i < |projects| && j < |entries|
    ensures var plan, o := Plan(kind, projects, entries, server), BlockStart(i, |entries| + 1);
      && o + 1 + j < |plan| && plan[o + 1 + j].Upsert? && plan[o + 1 + j].name == entries[j].0
  {
    PlanAt(kind, projects, entries, server, i, j);
  }

  /** Each key of an enumerated map sits at exactly one position of the enumeration. */
  lemma EntryOf(entries: seq<(string, string)>, m: map<string, string>, k: string) returns (j: nat)
    requires Enumerates(entries, m) && k in m
    ensures j < |entries| && entries[j] == (k, m[k])
    ensures forall j' :: 0 <= j' < |entries| && entries[j'].0 == k ==> j' == j
  {
    j :| 0 <= j < |entries| && entries[j].0 == k;
  }

  /** A declined phase issues nothing and does not stop the tool. */
  lemma DeclinedPhaseIsEmpty(log: seq<Request>, silent: bool, answer: string, kind: Kind,
                             projects: seq<string>, entries: seq<(string, string)>, server: Server)
    requires !silent && !Confirmed(answer)
    ensures Issue(log, PhasePlan(silent, answer, kind, projects, entries, server), server) == Done(log)
  {
  }
}
