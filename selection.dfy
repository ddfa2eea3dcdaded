/** The project selector (`get_project_list`): the names of the projects the server
    reports, kept when the user's pattern matches them, in server order. The compiled
    regular expression's `match` (a match anchored at the start of the name) is the
    predicate `matches`. */
module Selection {
  import opened Exits
  import opened Api

  /** The names that `matches` accepts, in their order. */
  function Filter(names: seq<string>, matches: string -> bool): seq<string>
    decreases |names|
  {
    if names == [] then []
    else (if matches(names[0]) then [names[0]] else []) + Filter(names[1..], matches)
  }

  /** Filtering keeps the order: it can be done piece by piece. */
  lemma {:induction false} FilterAppend(a: seq<string>, b: seq<string>, matches: string -> bool)
    ensures Filter(a + b, matches) == Filter(a, matches) + Filter(b, matches)
    decreases |a|
  {
    if a == [] {
      assert a + b == b;
    } else {
      assert (a + b)[0] == a[0] && (a + b)[1..] == a[1..] + b;
      FilterAppend(a[1..], b, matches);
    }
  }

  /** A matching name is kept as often as it occurs; any other name is dropped. */
  lemma {:induction false} FilterCount(names: seq<string>, matches: string -> bool, x: string)
    ensures multiset(Filter(names, matches))[x] == if matches(x) then multiset(names)[x] else 0
    decreases |names|
  {
    if names != [] {
      FilterCount(names[1..], matches, x);
      assert names == [names[0]] + names[1..];
      assert multiset(names) == multiset([names[0]]) + multiset(names[1..]);
    }
  }

  /** A name is selected iff it was reported and matches. */
  lemma FilterMembers(names: seq<string>, matches: string -> bool, x: string)
    ensures x in Filter(names, matches) <==> x in names && matches(x)
  {
    FilterCount(names, matches, x);
    assert x in Filter(names, matches) <==> multiset(Filter(names, matches))[x] > 0;
    assert x in names <==> multiset(names)[x] > 0;
  }

  /** A pattern that matches everything (the default, empty pattern) keeps every name. */
  lemma {:induction false} FilterAll(names: seq<string>, matches: string -> bool)
    requires forall n :: n in names ==> matches(n)
    ensures Filter(names, matches) == names
    decreases |names|
  {
    if names != [] {
      assert names[0] in names;
      assert forall n :: n in names[1..] ==> n in names;
      FilterAll(names[1..], matches);
    }
  }

  /** A pattern that matches no reported name selects nothing. */
  lemma {:induction false} FilterNone(names: seq<string>, matches: string -> bool)
    requires forall n :: n in names ==> !matches(n)
    ensures Filter(names, matches) == []
    decreases |names|
  {
    if names != [] {
      assert names[0] in names;
      assert forall n :: n in names[1..] ==> n in names;
      FilterNone(names[1..], matches);
    }
  }

  /** The loop of `get_project_list` over the decoded records, appending to `acc`:
      a record without a name stops the tool, and nothing else does. It selects at most
      one name per record it reads. */
  function Select(acc: seq<string>, records: seq<Record>, matches: string -> bool): (r: Exit<seq<string>>)
    ensures |acc| <= |r.state| <= |acc| + |records|
    ensures r.Stopped? ==> r.reason == MalformedRecord
    decreases |records|
  {
    if records == [] then Done(acc)
    else
      match records[0]
      case Unnamed => Stopped(acc, MalformedRecord)
      case Named(n) => Select(if matches(n) then acc + [n] else acc, records[1..], matches)
  }

  /** `get_project_list` after the query: a non-empty `error_msg` stops the tool before
      any record is read. */
  function ProjectList(acc: seq<string>, reply: Reply, matches: string -> bool): (r: Exit<seq<string>>)
    ensures |acc| <= |r.state| <= |acc| + |reply.records|
    ensures r.Stopped? ==> r.reason == MalformedRecord || r.reason == ServerError(reply.errorMsg)
  {
    if reply.errorMsg != "" then Stopped(acc, ServerError(reply.errorMsg))
    else Select(acc, reply.records, matches)
  }

  /** The loop goes through iff every record has a name, and then appends exactly the
      matching names in server order. */
  lemma {:induction false} SelectOutcome(acc: seq<string>, records: seq<Record>, matches: string -> bool)
    ensures Select(acc, records, matches).Done? <==> AllNamed(records)
    ensures AllNamed(records) ==>
      Select(acc, records, matches).state == acc + Filter(Names(records), matches)
    decreases |records|
  {
    if records == [] {
      assert acc + [] == acc;
    } else {
      var rest := records[1..];
      assert AllNamed(records) <==> records[0].Named? && AllNamed(rest) by {
        if records[0].Named? && AllNamed(rest) {
          forall i | 0 <= i < |records| ensures records[i].Named? {
            if i > 0 { assert records[i] == rest[i - 1]; }
          }
        }
        if AllNamed(records) {
          forall i | 0 <= i < |rest| ensures rest[i].Named? {
            assert rest[i] == records[i + 1];
          }
        }
      }
      if records[0].Named? {
        var n := records[0].name;
        var acc' := if matches(n) then acc + [n] else acc;
        SelectOutcome(acc', rest, matches);
        assert Names(records) == [n] + Names(rest);
        assert Filter(Names(records), matches) == (if matches(n) then [n] else []) + Filter(Names(rest), matches);
        assert acc' + Filter(Names(rest), matches) == acc + Filter(Names(records), matches);
      } else {
        assert !AllNamed(records);
      }
    }
  }

  /** The selector stops exactly when the reply is fatal for the project query, for the
      same reason; otherwise the selected projects are exactly the reported names that
      match, in server order, after those already selected. */
  lemma ProjectListOutcome(acc: seq<string>, reply: Reply, matches: string -> bool)
    ensures ProjectList(acc, reply, matches).Fault() == Failure(ListProjects, reply)
    ensures ProjectList(acc, reply, matches).Done? ==>
      ProjectList(acc, reply, matches).state == acc + Filter(Names(reply.records), matches)
  {
    SelectOutcome(acc, reply.records, matches);
    if reply.errorMsg == "" && !AllNamed(reply.records) {
      assert Select(acc, reply.records, matches).Stopped?;
    }
  }

  /** With the default pattern every reported project is processed, in server order. */
  lemma DefaultPatternSelectsAll(reply: Reply, matches: string -> bool)
    requires forall n :: matches(n)
    requires reply.errorMsg == "" && AllNamed(reply.records)
    ensures ProjectList([], reply, matches) == Done(Names(reply.records))
  {
    ProjectListOutcome([], reply, matches);
    FilterAll(Names(reply.records), matches);
    assert [] + Names(reply.records) == Names(reply.records);
  }
}
