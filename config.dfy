/** The configuration loader (`parse_config_files`, `parse_config_file`): every section
    of every configuration file declares a module or a view; the loader collects them
    into two name-to-value maps and stops at the first section it cannot accept. */
module Config {
  import opened Exits
  import opened PyText

  /** One section of an INI file as ConfigParser reports it: its name and its items. */
  datatype Section = Section(name: string, items: map<string, string>)

  /** The modules (name to `paths`) and the views (name to `query`) found so far. */
  datatype Defs = Defs(modules: map<string, string>, views: map<string, string>)

  const NoDefs := Defs(map[], map[])

  /** The section declares `type = t`. */
  predicate HasType(s: Section, t: string) {
    "type" in s.items && s.items["type"] == t
  }

  /** `e` keeps every definition of `d`, under the same name and with the same value. */
  predicate Keeps(d: Defs, e: Defs) {
    && (forall k :: k in d.modules ==> k in e.modules && e.modules[k] == d.modules[k])
    && (forall k :: k in d.views ==> k in e.views && e.views[k] == d.views[k])
  }

  /** One turn of the loop of `parse_config_file`. Order of the checks: `type` present,
      then for a module (view) the duplicate name before the missing `paths` (`query`).
      A rejected section changes nothing; an accepted one adds its own name to the map
      of its own type and nothing else. */
  function Step(d: Defs, s: Section): (r: Exit<Defs>)
    ensures r.Stopped? ==> r.state == d
    ensures r.Done? ==> Keeps(d, r.state)
    ensures r.Done? && HasType(s, "module") ==>
      r.state.modules.Keys == d.modules.Keys + {s.name} && s.name !in d.modules && r.state.views == d.views
    ensures r.Done? && !HasType(s, "module") ==>
      && HasType(s, "view")
      && r.state.views.Keys == d.views.Keys + {s.name} && s.name !in d.views && r.state.modules == d.modules
  {
    if "type" !in s.items then Stopped(d, MissingType(s.name))
    else if s.items["type"] == "module" then
      if s.name in d.modules then Stopped(d, ModuleAlreadyDefined(s.name))
      else if "paths" !in s.items then Stopped(d, MissingPaths(s.name))
      else Done(d.(modules := d.modules[s.name := s.items["paths"]]))
    else if s.items["type"] == "view" then
      if s.name in d.views then Stopped(d, ViewAlreadyDefined(s.name))
      else if "query" !in s.items then Stopped(d, MissingQuery(s.name))
      else Done(d.(views := d.views[s.name := s.items["query"]]))
    else Stopped(d, UnknownType(s.name))
  }

  /** `parse_config_file`: the sections of one file, in order, after the definitions `d`.
      No definition made earlier is lost or overwritten. */
  function ParseSections(d: Defs, secs: seq<Section>): (r: Exit<Defs>)
    ensures Keeps(d, r.state)
    decreases |secs|
  {
    if secs == [] then Done(d)
    else
      match Step(d, secs[0])
      case Done(d') => ParseSections(d', secs[1..])
      case Stopped(d', e) => Stopped(d', e)
  }

  /** The loop of `parse_config_files` over the file names; `read` gives the sections
      ConfigParser finds in a file (none for a file it cannot open). No definition of an
      earlier file is lost or overwritten by a later one. */
  function ParseFiles(d: Defs, names: seq<string>, read: string -> seq<Section>): (r: Exit<Defs>)
    ensures Keeps(d, r.state)
    decreases |names|
  {
    if names == [] then Done(d)
    else
      match ParseSections(d, read(names[0]))
      case Done(d') => ParseFiles(d', names[1..], read)
      case Stopped(d', e) => Stopped(d', e)
  }

  /** The file names in the `--config-files` argument: `config_files.strip().split(',')`.
      There is at least one, none holds a comma, and joined with commas they give back the
      stripped argument. */
  function FileNames(configFiles: string): (names: seq<string>)
    ensures |names| >= 1
    ensures forall i :: 0 <= i < |names| ==> ',' !in names[i]
    ensures Join(names, ',') == Strip(configFiles)
  {
    JoinSplit(Strip(configFiles), ',');
    Split(Strip(configFiles), ',')
  }

  /** Everything the loader does, starting from no definitions. */
  function Load(configFiles: string, read: string -> seq<Section>): Exit<Defs> {
    ParseFiles(NoDefs, FileNames(configFiles), read)
  }

  /** The sections of all the files, in order. */
  function AllSections(names: seq<string>, read: string -> seq<Section>): seq<Section>
    decreases |names|
  {
    if names == [] then [] else read(names[0]) + AllSections(names[1..], read)
  }

  // ----- The rules of one section -----

  /** A section without `type`, or with a `type` other than `module` and `view`, is fatal. */
  lemma TypeRule(d: Defs, s: Section)
    ensures "type" !in s.items ==> Step(d, s) == Stopped(d, MissingType(s.name))
    ensures !HasType(s, "module") && !HasType(s, "view") && "type" in s.items ==>
      Step(d, s) == Stopped(d, UnknownType(s.name))
  {
  }

  /** A module section is accepted iff its name is new and it has `paths`; a duplicate is
      reported as such even without `paths`; acceptance records the paths and leaves the
      views alone. */
  lemma ModuleRule(d: Defs, s: Section)
    requires HasType(s, "module")
    ensures Step(d, s).Done? <==> s.name !in d.modules && "paths" in s.items
    ensures s.name in d.modules ==> Step(d, s) == Stopped(d, ModuleAlreadyDefined(s.name))
    ensures s.name !in d.modules && "paths" !in s.items ==> Step(d, s) == Stopped(d, MissingPaths(s.name))
    ensures Step(d, s).Done? ==>
      Step(d, s).state.modules == d.modules[s.name := s.items["paths"]] && Step(d, s).state.views == d.views
  {
  }

  /** The view rule, with `query` for `paths`. */
  lemma ViewRule(d: Defs, s: Section)
    requires HasType(s, "view")
    ensures Step(d, s).Done? <==> s.name !in d.views && "query" in s.items
    ensures s.name in d.views ==> Step(d, s) == Stopped(d, ViewAlreadyDefined(s.name))
    ensures s.name !in d.views && "query" !in s.items ==> Step(d, s) == Stopped(d, MissingQuery(s.name))
    ensures Step(d, s).Done? ==>
      Step(d, s).state.views == d.views[s.name := s.items["query"]] && Step(d, s).state.modules == d.modules
  {
  }

  // ----- Sequences of sections -----

  /** Parsing `a + b` is parsing `a` and then, if that went through, `b`. */
  lemma {:induction false} ParseAppend(d: Defs, a: seq<Section>, b: seq<Section>)
    ensures ParseSections(d, a + b) ==
      match ParseSections(d, a)
      case Done(d') => ParseSections(d', b)
      case Stopped(d', e) => Stopped(d', e)
    decreases |a|
  {
    if a == [] {
      assert a + b == b;
    } else {
      assert (a + b)[0] == a[0] && (a + b)[1..] == a[1..] + b;
      match Step(d, a[0])
      case Done(d') => ParseAppend(d', a[1..], b);
      case Stopped(_, _) =>
    }
  }

  /** The first section that fails decides the outcome: nothing after it is looked at. */
  lemma StopsAtFirstFailure(d: Defs, secs: seq<Section>, k: nat, before: Defs)
    requires k < |secs|
    requires ParseSections(d, secs[..k]) == Done(before)
    requires Step(before, secs[k]).Stopped?
    ensures ParseSections(d, secs) == Step(before, secs[k])
  {
    assert secs == secs[..k] + [secs[k]] + secs[k + 1..];
    assert secs[..k] + [secs[k]] + secs[k + 1..] == secs[..k] + ([secs[k]] + secs[k + 1..]);
    ParseAppend(d, secs[..k], [secs[k]] + secs[k + 1..]);
  }

  /** The files are read one after the other into the same two maps: parsing them is
      parsing all their sections in a row. */
  lemma {:induction false} ParseFilesInARow(d: Defs, names: seq<string>, read: string -> seq<Section>)
    ensures ParseFiles(d, names, read) == ParseSections(d, AllSections(names, read))
    decreases |names|
  {
    if names != [] {
      ParseAppend(d, read(names[0]), AllSections(names[1..], read));
      match ParseSections(d, read(names[0]))
      case Done(d') => ParseFilesInARow(d', names[1..], read);
      case Stopped(_, _) =>
    }
  }

  // ----- Which inputs are accepted, and what they produce -----

  /** Every section of type `t` has the item `field`, a name not in `known`, and a name
      that no other section of type `t` has. */
  ghost predicate Fresh(known: set<string>, secs: seq<Section>, t: string, field: string) {
    && (forall i :: 0 <= i < |secs| && HasType(secs[i], t) ==>
          field in secs[i].items && secs[i].name !in known)
    && (forall i, j :: 0 <= i < j < |secs| && HasType(secs[i], t) && HasType(secs[j], t) ==>
          secs[i].name != secs[j].name)
  }

  /** The condition under which parsing `secs` after `d` goes through: every section is
      a module or a view, and in each of the two separate namespaces the names are new
      and the required item is present. */
  ghost predicate Acceptable(d: Defs, secs: seq<Section>) {
    && Typed(secs)
    && Fresh(d.modules.Keys, secs, "module", "paths")
    && Fresh(d.views.Keys, secs, "view", "query")
  }

  /** The name-to-`field` map of the sections of type `t` (a later one wins, which only
      matters for inputs that are not accepted). */
  function Declared(secs: seq<Section>, t: string, field: string): map<string, string>
    decreases |secs|
  {
    if secs == [] then map[]
    else
      var here: map<string, string> :=
        if HasType(secs[0], t) && field in secs[0].items then map[secs[0].name := secs[0].items[field]]
        else map[];
      here + Declared(secs[1..], t, field)
  }

  lemma FreshCons(known: set<string>, secs: seq<Section>, t: string, field: string)
    requires secs != []
    ensures Fresh(known, secs, t, field) <==>
      && (HasType(secs[0], t) ==> field in secs[0].items && secs[0].name !in known)
      && Fresh(if HasType(secs[0], t) then known + {secs[0].name} else known, secs[1..], t, field)
  {
    var s, rest := secs[0], secs[1..];
    var known' := if HasType(s, t) then known + {s.name} else known;
    if Fresh(known, secs, t, field) {
      forall i | 0 <= i < |rest| && HasType(rest[i], t)
        ensures field in rest[i].items && rest[i].name !in known'
      {
        assert rest[i] == secs[i + 1];
      }
      forall i, j | 0 <= i < j < |rest| && HasType(rest[i], t) && HasType(rest[j], t)
        ensures rest[i].name != rest[j].name
      {
        assert rest[i] == secs[i + 1] && rest[j] == secs[j + 1];
      }
    }
    if (HasType(s, t) ==> field in s.items && s.name !in known) && Fresh(known', rest, t, field) {
      forall i | 0 <= i < |secs| && HasType(secs[i], t)
        ensures field in secs[i].items && secs[i].name !in known
      {
        if i > 0 { assert secs[i] == rest[i - 1]; }
      }
      forall i, j | 0 <= i < j < |secs| && HasType(secs[i], t) && HasType(secs[j], t)
        ensures secs[i].name != secs[j].name
      {
        assert secs[j] == rest[j - 1];
        if i > 0 { assert secs[i] == rest[i - 1]; }
      }
    }
  }

  /** Every section of `secs` is a module or a view. */
  ghost predicate Typed(secs: seq<Section>) {
    forall i :: 0 <= i < |secs| ==> HasType(secs[i], "module") || HasType(secs[i], "view")
  }

  lemma TypedCons(secs: seq<Section>)
    requires secs != []
    ensures Typed(secs) <==> (HasType(secs[0], "module") || HasType(secs[0], "view")) && Typed(secs[1..])
  {
    var rest := secs[1..];
    if Typed(secs) {
      forall i | 0 <= i < |rest| ensures HasType(rest[i], "module") || HasType(rest[i], "view") {
        assert rest[i] == secs[i + 1];
      }
    }
    if (HasType(secs[0], "module") || HasType(secs[0], "view")) && Typed(rest) {
      forall i | 0 <= i < |secs| ensures HasType(secs[i], "module") || HasType(secs[i], "view") {
        if i > 0 { assert secs[i] == rest[i - 1]; }
      }
    }
  }

  /** An input is acceptable iff its first section passes and the rest is acceptable
      after it. */
  lemma AcceptableCons(d: Defs, secs: seq<Section>)
    requires secs != []
    ensures Acceptable(d, secs) <==>
      Step(d, secs[0]).Done? && Acceptable(Step(d, secs[0]).state, secs[1..])
  {
    var s := secs[0];
    TypedCons(secs);
    FreshCons(d.modules.Keys, secs, "module", "paths");
    FreshCons(d.views.Keys, secs, "view", "query");
    assert Typed(secs) == (forall i :: 0 <= i < |secs| ==> HasType(secs[i], "module") || HasType(secs[i], "view"));
    assert Typed(secs[1..]) == (forall i :: 0 <= i < |secs[1..]| ==> HasType(secs[1..][i], "module") || HasType(secs[1..][i], "view"));
    if Step(d, s).Done? {
      var d1 := Step(d, s).state;
      if HasType(s, "module") {
        assert d1.modules.Keys == d.modules.Keys + {s.name} && d1.views == d.views;
      } else {
        assert d1.views.Keys == d.views.Keys + {s.name} && d1.modules == d.modules;
      }
    }
  }

  lemma UpdateThenUnion(m: map<string, string>, k: string, v: string, later: map<string, string>)
    ensures m[k := v] + later == m + (map[k := v] + later)
  {
    var lhs, rhs := m[k := v] + later, m + (map[k := v] + later);
    assert lhs.Keys == rhs.Keys;
    forall x | x in lhs.Keys ensures lhs[x] == rhs[x] {
    }
  }

  /** A module section that passes adds its paths to the module map and nothing to the
      view map. */
  lemma DeclaredConsModule(d: Defs, secs: seq<Section>)
    requires secs != [] && HasType(secs[0], "module") && Step(d, secs[0]).Done?
    ensures var d1 := Step(d, secs[0]).state;
      && d1.modules + Declared(secs[1..], "module", "paths") == d.modules + Declared(secs, "module", "paths")
      && d1.views + Declared(secs[1..], "view", "query") == d.views + Declared(secs, "view", "query")
  {
    var s, rest := secs[0], secs[1..];
    var paths := s.items["paths"];
    assert Step(d, s).state == Defs(d.modules[s.name := paths], d.views);
    var dm := Declared(rest, "module", "paths");
    var dv := Declared(rest, "view", "query");
    assert Declared(secs, "module", "paths") == map[s.name := paths] + dm;
    UpdateThenUnion(d.modules, s.name, paths, dm);
    assert !HasType(s, "view");
    assert Declared(secs, "view", "query") == map[] + dv;
    assert map[] + dv == dv;
  }

  /** A view section that passes adds its query to the view map and nothing to the
      module map. */
  lemma DeclaredConsView(d: Defs, secs: seq<Section>)
    requires secs != [] && HasType(secs[0], "view") && Step(d, secs[0]).Done?
    ensures var d1 := Step(d, secs[0]).state;
      && d1.modules + Declared(secs[1..], "module", "paths") == d.modules + Declared(secs, "module", "paths")
      && d1.views + Declared(secs[1..], "view", "query") == d.views + Declared(secs, "view", "query")
  {
    var s, rest := secs[0], secs[1..];
    var query := s.items["query"];
    assert !HasType(s, "module");
    assert Step(d, s).state == Defs(d.modules, d.views[s.name := query]);
    var dm := Declared(rest, "module", "paths");
    var dv := Declared(rest, "view", "query");
    assert Declared(secs, "view", "query") == map[s.name := query] + dv;
    UpdateThenUnion(d.views, s.name, query, dv);
    assert Declared(secs, "module", "paths") == map[] + dm;
    assert map[] + dm == dm;
  }

  /** The loader accepts exactly the acceptable inputs, and then adds to each map
      exactly the declarations of its kind. */
  lemma {:induction false} ParseOutcome(d: Defs, secs: seq<Section>)
    ensures ParseSections(d, secs).Done? <==> Acceptable(d, secs)
    ensures ParseSections(d, secs).Done? ==>
      && ParseSections(d, secs).state.modules == d.modules + Declared(secs, "module", "paths")
      && ParseSections(d, secs).state.views == d.views + Declared(secs, "view", "query")
    decreases |secs|
  {
    if secs == [] {
      assert d.modules + map[] == d.modules && d.views + map[] == d.views;
    } else {
      AcceptableCons(d, secs);
      if Step(d, secs[0]).Done? {
        ParseOutcome(Step(d, secs[0]).state, secs[1..]);
        if HasType(secs[0], "module") { DeclaredConsModule(d, secs); } else { DeclaredConsView(d, secs); }
      }
    }
  }

  /** `m` holds exactly the declarations of type `t`, each from exactly one section. */
  ghost predicate FromOneSection(secs: seq<Section>, t: string, field: string, m: map<string, string>) {
    && (forall i :: 0 <= i < |secs| && HasType(secs[i], t) ==>
          field in secs[i].items && secs[i].name in m && m[secs[i].name] == secs[i].items[field])
    && (forall k :: k in m ==> exists i :: 0 <= i < |secs| && HasType(secs[i], t) && secs[i].name == k)
    && (forall i, j :: 0 <= i < j < |secs| && HasType(secs[i], t) && HasType(secs[j], t) ==>
          secs[i].name != secs[j].name)
  }

  lemma {:induction false} DeclaredFrom(secs: seq<Section>, t: string, field: string)
    requires Fresh({}, secs, t, field)
    ensures FromOneSection(secs, t, field, Declared(secs, t, field))
    decreases |secs|
  {
    if secs != [] {
      var s, rest := secs[0], secs[1..];
      FreshCons({}, secs, t, field);
      var known := if HasType(s, t) then {s.name} else {};
      assert Fresh(known, rest, t, field);
      assert Fresh({}, rest, t, field);
      DeclaredFrom(rest, t, field);
      var dr := Declared(rest, t, field);
      var m := Declared(secs, t, field);
      assert HasType(s, t) ==> s.name !in dr;
      forall i | 0 <= i < |secs| && HasType(secs[i], t)
        ensures field in secs[i].items && secs[i].name in m && m[secs[i].name] == secs[i].items[field]
      {
        if i > 0 { assert secs[i] == rest[i - 1]; }
      }
      forall k | k in m ensures exists i :: 0 <= i < |secs| && HasType(secs[i], t) && secs[i].name == k {
        if k !in dr {
          assert HasType(secs[0], t) && secs[0].name == k;
        } else {
          var i :| 0 <= i < |rest| && HasType(rest[i], t) && rest[i].name == k;
          assert secs[i + 1] == rest[i];
        }
      }
    }
  }

  /** After a successful run from no definitions, every module name and every view name
      was declared by exactly one section of its kind, with the value that section gives;
      a module and a view may share a name. */
  lemma EachDefinitionFromOneSection(secs: seq<Section>, r: Defs)
    requires ParseSections(NoDefs, secs) == Done(r)
    ensures FromOneSection(secs, "module", "paths", r.modules)
    ensures FromOneSection(secs, "view", "query", r.views)
  {
    ParseOutcome(NoDefs, secs);
    assert Fresh({}, secs, "module", "paths") && Fresh({}, secs, "view", "query");
    DeclaredFrom(secs, "module", "paths");
    DeclaredFrom(secs, "view", "query");
    EmptyUnion(Declared(secs, "module", "paths"));
    EmptyUnion(Declared(secs, "view", "query"));
  }

  lemma EmptyUnion(m: map<string, string>)
    ensures map[] + m == m
  {
  }

  /** The two namespaces are separate: what a view section does does not depend on the
      modules defined so far, and leaves them as they are. */
  lemma ViewSectionIgnoresModules(d: Defs, s: Section, m: map<string, string>)
    requires HasType(s, "view")
    ensures Step(d.(modules := m), s) ==
      match Step(d, s)
      case Done(e) => Done(e.(modules := m))
      case Stopped(e, f) => Stopped(e.(modules := m), f)
  {
  }

  /** Likewise, a module section does not depend on the views defined so far. */
  lemma ModuleSectionIgnoresViews(d: Defs, s: Section, v: map<string, string>)
    requires HasType(s, "module")
    ensures Step(d.(views := v), s) ==
      match Step(d, s)
      case Done(e) => Done(e.(views := v))
      case Stopped(e, f) => Stopped(e.(views := v), f)
  {
  }

  /** For example, one name may be a module in one file and a view in another. */
  lemma SharedNameAcrossKinds(read: string -> seq<Section>)
    requires read("a.ini") == [Section("core", map["type" := "module", "paths" := "src/a,src/b"])]
    requires read("b.ini") == [Section("core", map["type" := "view", "query" := "severity:1"])]
    ensures ParseFiles(NoDefs, ["a.ini", "b.ini"], read) ==
      Done(Defs(map["core" := "src/a,src/b"], map["core" := "severity:1"]))
  {
    var d1 := Defs(map["core" := "src/a,src/b"], map[]);
    assert ParseSections(NoDefs, read("a.ini")) == Done(d1);
    assert ParseSections(d1, read("b.ini")) == Done(Defs(map["core" := "src/a,src/b"], map["core" := "severity:1"]));
  }
}
