/** The tool: the `KwServerFilters` object, whose methods change its maps, its project
    list and the sequence of requests sent to the server, and `main`, which runs them. */
module Filters {
  import opened PyText
  import opened Exits
  import opened Api
  import opened Config
  import opened Selection
  import opened Sync

  /** Some order in which a dict may yield its items: `iteritems` promises none, so the
      keys are taken in an arbitrary order. */
  method Enumerate(m: map<string, string>) returns (entries: seq<(string, string)>)
    ensures Enumerates(entries, m)
  {
    entries := [];
    var rest := m.Keys;
    while rest != {}
      invariant rest <= m.Keys
      invariant |entries| + |rest| == |m|
      invariant forall i :: 0 <= i < |entries| ==>
        entries[i].0 in m && entries[i].0 !in rest && m[entries[i].0] == entries[i].1
      invariant forall i, j :: 0 <= i < j < |entries| ==> entries[i].0 != entries[j].0
      invariant forall k :: k in m && k !in rest ==> exists i :: 0 <= i < |entries| && entries[i].0 == k
      decreases rest
    {
      var k :| k in rest;
      ghost var previous := entries;
      entries := entries + [(k, m[k])];
      rest := rest - {k};
      assert entries[|entries| - 1].0 == k;
      assert forall i :: 0 <= i < |previous| ==> entries[i] == previous[i];
    }
  }

  class KwServerFilters {
    /** The server connection (`self.kwapicon`). */
    const server: Server
    /** `re.compile(re_project).match`, as a predicate on project names. */
    const matches: string -> bool
    /** The `--config-files` argument. */
    const configFiles: string
    const silent: bool

    var modules: map<string, string>
    var views: map<string, string>
    var projects: seq<string>
    /** Every request sent to the server so far, in order. */
    var log: seq<Request>

    /** `__init__` up to its final call of `parse_config_files`, which is the separate
        method `ParseConfigFiles` because it can stop the tool. */
    constructor (server: Server, matches: string -> bool, configFiles: string, silent: bool)
      ensures this.server == server && this.matches == matches
      ensures this.configFiles == configFiles && this.silent == silent
      ensures modules == map[] && views == map[] && projects == [] && log == []
    {
      this.server := server;
      this.matches := matches;
      this.configFiles := configFiles;
      this.silent := silent;
      modules, views, projects, log := map[], map[], [], [];
    }

    /** `self.kwapicon.execute_query(values)`: the request is sent and answered. */
    method ExecuteQuery(req: Request) returns (reply: Reply)
      modifies this`log
      ensures log == old(log) + [req]
      ensures reply == Respond(server, |old(log)|, req)
    {
      reply := Respond(server, |log|, req);
      log := log + [req];
    }

    /** `parse_config_file`: the sections of one file, into `modules` and `views`. */
    method ParseConfigFile(name: string, read: string -> seq<Section>) returns (fatal: Option<Fatal>)
      modifies this`modules, this`views
      ensures var r := ParseSections(old(Defs(modules, views)), read(name));
        Defs(modules, views) == r.state && fatal == r.Fault()
    {
      var sections := read(name);
      var i := 0;
      while i < |sections|
        invariant 0 <= i <= |sections|
        invariant ParseSections(old(Defs(modules, views)), sections) ==
                  ParseSections(Defs(modules, views), sections[i..])
      {
        var s := sections[i];
        assert sections[i..][0] == s && sections[i..][1..] == sections[i + 1..];
        if "type" !in s.items {
          return Some(MissingType(s.name));
        }
        var itemType := s.items["type"];
        if itemType == "module" {
          if s.name in modules {
            return Some(ModuleAlreadyDefined(s.name));
          }
          if "paths" !in s.items {
            return Some(MissingPaths(s.name));
          }
          modules := modules[s.name := s.items["paths"]];
        } else if itemType == "view" {
          if s.name in views {
            return Some(ViewAlreadyDefined(s.name));
          }
          if "query" !in s.items {
            return Some(MissingQuery(s.name));
          }
          views := views[s.name := s.items["query"]];
        } else {
          return Some(UnknownType(s.name));
        }
        i := i + 1;
      }
      return None;
    }

    /** `parse_config_files`: every file named in `--config-files`, in order. */
    method ParseConfigFiles(read: string -> seq<Section>) returns (fatal: Option<Fatal>)
      modifies this`modules, this`views
      ensures var r := ParseFiles(old(Defs(modules, views)), FileNames(configFiles), read);
        Defs(modules, views) == r.state && fatal == r.Fault()
    {
      var names := Split(Strip(configFiles), ',');
      var i := 0;
      while i < |names|
        invariant 0 <= i <= |names|
        invariant ParseFiles(old(Defs(modules, views)), names, read) ==
                  ParseFiles(Defs(modules, views), names[i..], read)
      {
        assert names[i..][0] == names[i] && names[i..][1..] == names[i + 1..];
        fatal := ParseConfigFile(names[i], read);
        if fatal.Some? {
          return;
        }
        i := i + 1;
      }
      return None;
    }

    /** `get_project_list`: query the projects and append the matching names to
        `projects`. */
    method GetProjectList() returns (fatal: Option<Fatal>)
      modifies this`projects, this`log
      ensures log == old(log) + [ListProjects]
      ensures var r := ProjectList(old(projects), server.projects, matches);
        projects == r.state && fatal == r.Fault()
    {
      var reply := ExecuteQuery(ListProjects);
      if reply.errorMsg != "" {
        return Some(ServerError(reply.errorMsg));
      }
      var records := reply.records;
      var i := 0;
      while i < |records|
        invariant 0 <= i <= |records|
        invariant log == old(log) + [ListProjects]
        invariant Select(old(projects), records, matches) == Select(projects, records[i..], matches)
      {
        assert records[i..][0] == records[i] && records[i..][1..] == records[i + 1..];
        match records[i]
        case Unnamed =>
          return Some(MalformedRecord);
        case Named(n) =>
          if matches(n) {
            projects := projects + [n];
          }
        i := i + 1;
      }
      return None;
    }

    /** `get_items`: the names of a project's existing modules or views. The reply's
        `error_msg` is not looked at; a record without a name stops the tool. */
    method GetItems(project: string, kind: Kind) returns (items: seq<string>, fatal: Option<Fatal>)
      modifies this`log
      ensures log == old(log) + [ListItems(project, kind)]
      ensures fatal == Failure(ListItems(project, kind), server.items(project, kind))
      ensures fatal.None? ==> items == Existing(server, project, kind)
    {
      var reply := ExecuteQuery(ListItems(project, kind));
      var records := reply.records;
      items := [];
      var i := 0;
      while i < |records|
        invariant 0 <= i <= |records|
        invariant forall j :: 0 <= j < i ==> records[j].Named?
        invariant Names(records) == items + Names(records[i..])
      {
        assert records[i..][0] == records[i] && records[i..][1..] == records[i + 1..];
        match records[i]
        case Unnamed =>
          return items, Some(ItemWithoutName(project));
        case Named(n) =>
          items := items + [n];
        i := i + 1;
      }
      assert records[i..] == [];
      return items, None;
    }

    /** The inner loop of `add_modules` and `add_views`: create or update every local
        item in one project, stopping at the first reply with an `error_msg`. */
    method UpsertItems(kind: Kind, project: string, existing: seq<string>, es: seq<(string, string)>)
      returns (fatal: Option<Fatal>)
      modifies this`log
      ensures var r := Issue(old(log), Upserts(kind, project, existing, es), server);
        log == r.state && fatal == r.Fault()
    {
      var j := 0;
      while j < |es|
        invariant 0 <= j <= |es|
        invariant Issue(old(log), Upserts(kind, project, existing, es), server) ==
                  Issue(log, Upserts(kind, project, existing, es[j..]), server)
      {
        assert es[j..][0] == es[j] && es[j..][1..] == es[j + 1..];
        var req := UpsertFor(kind, project, existing, es[j]);
        IssueStep(log, req, Upserts(kind, project, existing, es[j + 1..]), server);
        var reply := ExecuteQuery(req);
        if reply.errorMsg != "" {
          return Some(ServerError(reply.errorMsg));
        }
        j := j + 1;
      }
      assert es[j..] == [];
      return None;
    }

    /** The body of the loop over projects in `add_modules` and `add_views`: list the
        project's items of `kind`, then create or update every local item. */
    method UpdateProject(kind: Kind, project: string, es: seq<(string, string)>) returns (fatal: Option<Fatal>)
      modifies this`log
      ensures var r := Issue(old(log), Block(kind, project, es, server), server);
        log == r.state && fatal == r.Fault()
    {
      ghost var ups := Upserts(kind, project, Existing(server, project, kind), es);
      IssueStep(log, ListItems(project, kind), ups, server);
      var existing;
      existing, fatal := GetItems(project, kind);
      if fatal.Some? {
        return;
      }
      fatal := UpsertItems(kind, project, existing, es);
    }

    /** The body shared by `add_modules` and `add_views`: behind the confirmation gate,
        every project in turn, with the local items of `kind` taken in the order `es`;
        the first failing request stops the tool. */
    method AddItems(kind: Kind, es: seq<(string, string)>, answer: string) returns (fatal: Option<Fatal>)
      modifies this`log
      ensures var r := Issue(old(log), PhasePlan(silent, answer, kind, projects, es, server), server);
        log == r.state && fatal == r.Fault()
    {
      if !silent && !Confirmed(answer) {
        return None;
      }
      ghost var plan := Plan(kind, projects, es, server);
      assert PhasePlan(silent, answer, kind, projects, es, server) == plan;
      var todo := projects;
      while todo != []
        invariant Issue(old(log), plan, server) == Issue(log, Plan(kind, todo, es, server), server)
        decreases |todo|
      {
        IssueAppend(log, Block(kind, todo[0], es, server), Plan(kind, todo[1..], es, server), server);
        fatal := UpdateProject(kind, todo[0], es);
        if fatal.Some? {
          return;
        }
        todo := todo[1..];
      }
      return None;
    }

    /** `add_modules` */
    method AddModules(answer: string) returns (fatal: Option<Fatal>, ghost entries: seq<(string, string)>)
      modifies this`log
      ensures Enumerates(entries, modules)
      ensures var r := Issue(old(log), PhasePlan(silent, answer, ModuleKind, projects, entries, server), server);
        log == r.state && fatal == r.Fault()
    {
      var es := Enumerate(modules);
      fatal := AddItems(ModuleKind, es, answer);
      entries := es;
    }

    /** `add_views` */
    method AddViews(answer: string) returns (fatal: Option<Fatal>, ghost entries: seq<(string, string)>)
      modifies this`log
      ensures Enumerates(entries, views)
      ensures var r := Issue(old(log), PhasePlan(silent, answer, ViewKind, projects, entries, server), server);
        log == r.state && fatal == r.Fault()
    {
      var es := Enumerate(views);
      fatal := AddItems(ViewKind, es, answer);
      entries := es;
    }
  }

  /** A whole run, given the enumeration orders of the two maps: load the configuration,
      query and select the projects, then the module phase and the view phase, each
      behind its own confirmation. Nothing is sent to the server unless the whole
      configuration is accepted; otherwise the project query comes first, and a failed
      selection sends nothing after it. */
  function Session(configFiles: string, read: string -> seq<Section>, server: Server,
                   matches: string -> bool, silent: bool, moduleAnswer: string, viewAnswer: string,
                   moduleEntries: seq<(string, string)>, viewEntries: seq<(string, string)>): (r: Exit<seq<Request>>)
    ensures Load(configFiles, read).Stopped? ==> r == Stopped([], Load(configFiles, read).reason)
    ensures r.state == [] <==> Load(configFiles, read).Stopped?
    ensures Load(configFiles, read).Done? ==> r.state[0] == ListProjects
    ensures Load(configFiles, read).Done? && ProjectList([], server.projects, matches).Stopped? ==>
      r == Stopped([ListProjects], ProjectList([], server.projects, matches).reason)
  {
    match Load(configFiles, read)
    case Stopped(_, e) => Stopped([], e)
    case Done(_) =>
      match ProjectList([], server.projects, matches)
      case Stopped(_, e) => Stopped([ListProjects], e)
      case Done(projects) =>
        var modulePlan := PhasePlan(silent, moduleAnswer, ModuleKind, projects, moduleEntries, server);
        IssuePrefix([ListProjects], modulePlan, server);
        match Issue([ListProjects], modulePlan, server)
        case Stopped(l, e) => Stopped(l, e)
        case Done(l) =>
          var viewPlan := PhasePlan(silent, viewAnswer, ViewKind, projects, viewEntries, server);
          IssuePrefix(l, viewPlan, server);
          Issue(l, viewPlan, server)
  }

  /** The stages of `Session` one after the other. */
  lemma SessionStages(configFiles: string, read: string -> seq<Section>, server: Server,
                      matches: string -> bool, silent: bool, moduleAnswer: string, viewAnswer: string,
                      moduleEntries: seq<(string, string)>, viewEntries: seq<(string, string)>)
    ensures var c := Load(configFiles, read);
      var p := ProjectList([], server.projects, matches);
      var m := Issue([ListProjects], PhasePlan(silent, moduleAnswer, ModuleKind, p.state, moduleEntries, server), server);
      Session(configFiles, read, server, matches, silent, moduleAnswer, viewAnswer, moduleEntries, viewEntries) ==
        if c.Stopped? then Stopped([], c.reason)
        else if p.Stopped? then Stopped([ListProjects], p.reason)
        else if m.Stopped? then m
        else Issue(m.state, PhasePlan(silent, viewAnswer, ViewKind, p.state, viewEntries, server), server)
  {
  }

  /** `main`: exit status 1 on any fatal condition, 0 otherwise (a declined phase
      included). The answers stand for what `raw_input` reads at the two prompts. */
  method Run(server: Server, matches: string -> bool, configFiles: string, read: string -> seq<Section>,
             silent: bool, moduleAnswer: string, viewAnswer: string)
    returns (exitCode: int, log: seq<Request>, ghost moduleEntries: seq<(string, string)>,
             ghost viewEntries: seq<(string, string)>)
    ensures var c := Load(configFiles, read);
      var p := ProjectList([], server.projects, matches);
      c.Done? && p.Done? ==>
        && Enumerates(moduleEntries, c.state.modules)
        && (Issue([ListProjects], PhasePlan(silent, moduleAnswer, ModuleKind, p.state, moduleEntries, server), server).Done? ==>
              Enumerates(viewEntries, c.state.views))
    ensures var r := Session(configFiles, read, server, matches, silent, moduleAnswer, viewAnswer,
                             moduleEntries, viewEntries);
      log == r.state && (exitCode == if r.Done? then 0 else 1)
    ensures var c := Load(configFiles, read);
      var p := ProjectList([], server.projects, matches);
      && (c.Stopped? ==> log == [] && exitCode == 1)
      && (c.Done? && p.Stopped? ==> log == [ListProjects] && exitCode == 1)
      && (c.Done? && p.Done? ==> |log| >= 1 && log[0] == ListProjects)
  {
    moduleEntries, viewEntries := [], [];
    SessionStages(configFiles, read, server, matches, silent, moduleAnswer, viewAnswer, moduleEntries, viewEntries);
    var tool := new KwServerFilters(server, matches, configFiles, silent);
    ghost var c := Load(configFiles, read);
    var fatal := tool.ParseConfigFiles(read);
    assert Defs(tool.modules, tool.views) == c.state && fatal == c.Fault();
    if fatal.Some? {
      return 1, tool.log, moduleEntries, viewEntries;
    }
    ghost var p := ProjectList([], server.projects, matches);
    fatal := tool.GetProjectList();
    assert tool.projects == p.state && fatal == p.Fault();
    if fatal.Some? {
      return 1, tool.log, moduleEntries, viewEntries;
    }
    assert tool.log == [ListProjects] && tool.server == server && tool.silent == silent;
    ghost var before := tool.log;
    fatal, moduleEntries := tool.AddModules(moduleAnswer);
    SessionStages(configFiles, read, server, matches, silent, moduleAnswer, viewAnswer, moduleEntries, viewEntries);
    assert tool.log == Issue(before, PhasePlan(silent, moduleAnswer, ModuleKind, p.state, moduleEntries, server), server).state;
    ghost var m := Issue([ListProjects], PhasePlan(silent, moduleAnswer, ModuleKind, p.state, moduleEntries, server), server);
    assert tool.log == m.state && fatal == m.Fault();
    if fatal.Some? {
      PhasesInOneRun(configFiles, read, server, matches, silent, moduleAnswer, viewAnswer, moduleEntries, viewEntries);
      return 1, tool.log, moduleEntries, viewEntries;
    }
    fatal, viewEntries := tool.AddViews(viewAnswer);
    SessionStages(configFiles, read, server, matches, silent, moduleAnswer, viewAnswer, moduleEntries, viewEntries);
    PhasesInOneRun(configFiles, read, server, matches, silent, moduleAnswer, viewAnswer, moduleEntries, viewEntries);
    assert tool.views == c.state.views;
    exitCode := if fatal.Some? then 1 else 0;
    log := tool.log;
  }

  /** Once the projects are selected, the two phases are one run of the requests of
      both plans: the first failing request ends it, so everything sent is a prefix
      of the project query followed by both plans, and a run that does not stop sends
      all of it. */
  lemma PhasesInOneRun(configFiles: string, read: string -> seq<Section>, server: Server,
                       matches: string -> bool, silent: bool, moduleAnswer: string, viewAnswer: string,
                       moduleEntries: seq<(string, string)>, viewEntries: seq<(string, string)>)
    requires Load(configFiles, read).Done?
    requires ProjectList([], server.projects, matches).Done?
    ensures var projects := ProjectList([], server.projects, matches).state;
      var all := PhasePlan(silent, moduleAnswer, ModuleKind, projects, moduleEntries, server)
               + PhasePlan(silent, viewAnswer, ViewKind, projects, viewEntries, server);
      var r := Session(configFiles, read, server, matches, silent, moduleAnswer, viewAnswer,
                       moduleEntries, viewEntries);
      && r == Issue([ListProjects], all, server)
      && 1 <= |r.state| <= 1 + |all|
      && r.state == [ListProjects] + all[..|r.state| - 1]
      && (r.Done? ==> r.state == [ListProjects] + all)
  {
    var projects := ProjectList([], server.projects, matches).state;
    var a := PhasePlan(silent, moduleAnswer, ModuleKind, projects, moduleEntries, server);
    var b := PhasePlan(silent, viewAnswer, ViewKind, projects, viewEntries, server);
    IssueAppend([ListProjects], a, b, server);
    IssuePrefix([ListProjects], a + b, server);
  }
}
