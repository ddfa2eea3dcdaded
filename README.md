# kwserverfilters in Dafny

`kwserverfilters.py` keeps the modules and views of every project on a Klocwork
server in sync with local INI configuration files. It runs in three stages:

1. **Configuration loading.** `parse_config_files` and `parse_config_file` read each
   file named in the comma-separated `--config-files` argument, in order. Every section
   declares a module (`type = module`, `paths = ...`) or a view (`type = view`,
   `query = ...`). The sections are collected into two maps, `modules` and `views`.
   A missing or unknown `type`, a name declared twice, or a missing `paths`/`query`
   stops the tool.
2. **Project selection.** `get_project_list` asks the server for its projects and
   keeps the names that match `--re-project`, in server order. An `error_msg` in the
   reply, or a record without a name, stops the tool.
3. **Sync.** `add_modules` and `add_views` each run after a `[Y/N]` confirmation,
   unless `--silent` is given. For every selected project, the tool lists the
   project's existing items of that kind with `get_items`. It then sends one create
   request, or one update request, per local item. The first upsert whose reply
   carries an `error_msg` stops the tool.

The model keeps this structure:

- `text.dfy` (`PyText`): the three string methods the tool uses, `strip`, `split` and
  `upper`.
- `exits.dfy` (`Exits`): the reasons the tool stops, and `Exit<S>`, a run that either
  went on or stopped (with the state it held at the stop).
- `api.dfy` (`Api`):
  - the requests and their replies;
  - the server, modelled as oracles;
  - `Issue`, which sends requests one after the other and stops at the first fatal
    reply.
- `config.dfy` (`Config`): the loader as a fold over sections, and what it accepts and
  produces.
- `selection.dfy` (`Selection`): the selector as an order-preserving filter.
- `sync.dfy` (`Sync`):
  - the confirmation gate;
  - the create-or-update decision;
  - `Plan`, the full request sequence of a phase when nothing fails.
- `messages.dfy` (`Messages`): the text of the configuration errors.
- `filters.dfy` (`Filters`):
  - the class `KwServerFilters`, with the fields `modules`, `views`, `projects` and a
    request `log`;
  - its methods, which mirror the Python methods loop for loop and are each proved
    against the functions above;
  - `Run`, for `main`.

Requests are logged in the order they are sent. Each sync method is proved to leave
exactly `Issue(log, plan)` in the log: the requests it sends are a prefix of the plan,
and they stop right after the first failing request.

## Model

| member | source | states |
|---|---|---|
| PyText.StripStart | kwserverfilters.py:185 | the result is what follows the input's leading white space; everything removed is white space; the result does not start with white space |
| PyText.StripEnd | kwserverfilters.py:185 | the result is a prefix of the input; everything removed is white space; the result does not end with white space |
| PyText.Strip | kwserverfilters.py:185 | the result is the slice of the input that starts where its leading white space ends; only white space lies before and after that slice; the result has no white space at either end; it is empty iff the leading white space is the whole input |
| PyText.StripEmpty | kwserverfilters.py:185 | stripping gives the empty string iff the input is all white space |
| PyText.Upper | kwserverfilters.py:121 | same length; each character is upper-cased on its own |
| PyText.Split | kwserverfilters.py:185 | at least one piece; no piece contains the separator |
| PyText.JoinSplit | kwserverfilters.py:185 | joining the pieces with the separator gives back the argument |
| PyText.SplitAfterPiece | kwserverfilters.py:185 | a leading piece without the separator becomes the front of the first part |
| PyText.SplitJoin | kwserverfilters.py:185 | splitting joined pieces that hold no separator gives back those pieces |
| PyText.SplitCount | kwserverfilters.py:185 | there is one more file name than there are commas |
| Api.ActionNameTellsKind | kwserverfilters.py:128-130 | two requests with the same `action` string (the strings also chosen at lines 93, 156-158 and 177) are of the same kind, and upserts with the same action have the same verb |
| Api.Respond | kwserverfilters.py:139-140 | the reply to an upsert (here and at lines 167-168) carries no records: only its `error_msg` is ever read |
| Api.Names | kwserverfilters.py:179-180 | never more names than records; when every record is named, the names are the records' names in order |
| Api.Failure | kwserverfilters.py:97-111 | a reply is not fatal iff its `error_msg` is empty (unless it answers an item query) and every record is named (unless it answers an upsert), the rules read here, at lines 140-141 and 168-169 for upserts and at lines 179-180 for item queries; a server error carries the reply's `error_msg` |
| Api.ItemQueriesIgnoreErrorMsg | kwserverfilters.py:179 | an item query fails iff a record has no name, whatever its `error_msg` |
| Api.Issue | kwserverfilters.py:124-141 | the log grows by at most the requests given; a run that does not stop logs all of them, in order |
| Api.IssueAppend | kwserverfilters.py:124-141 | sending `a + b` is sending `a` and then, only if nothing failed, `b` |
| Api.IssuePrefix | kwserverfilters.py:139-141 | the log is a prefix of the requests; all of them when nothing failed; on a stop, the last request logged is the one that failed, with that reason, and every earlier one succeeded |
| Config.Step | kwserverfilters.py:193-215 | a rejected section leaves the definitions as they were; an accepted one keeps every earlier definition and adds its own name, which was new, to the map of its own type and leaves the other map alone |
| Config.ParseSections | kwserverfilters.py:188-215 | no definition made before the file is lost or overwritten, whether the file goes through or stops |
| Config.ParseFiles | kwserverfilters.py:184-186 | no definition of an earlier file is lost or overwritten by a later file |
| Config.FileNames | kwserverfilters.py:185 | at least one file name; none holds a comma; joined with commas they give back the stripped argument |
| Config.TypeRule | kwserverfilters.py:193-215 | the reasons `Step` gives for a section without `type` and for a `type` other than module and view (a rejected section changes nothing, by `Step`'s own contract) |
| Config.ModuleRule | kwserverfilters.py:196-204 | for a module section: accepted iff its name is new and it has `paths`; the duplicate is reported before a missing `paths`; acceptance sets `modules[name]` to the paths and leaves `views` alone |
| Config.ViewRule | kwserverfilters.py:205-213 | the module rule with views and `query` |
| Config.ViewSectionIgnoresModules | kwserverfilters.py:205-213 | replacing the modules map changes neither the outcome of a view section nor its effect on the views |
| Config.ModuleSectionIgnoresViews | kwserverfilters.py:196-204 | replacing the views map changes neither the outcome of a module section nor its effect on the modules |
| Config.ParseAppend | kwserverfilters.py:191-215 | parsing a + b is parsing a and then, if that went through, b |
| Config.StopsAtFirstFailure | kwserverfilters.py:191-215 | the first section that fails decides the result; no later section is looked at |
| Config.ParseFilesInARow | kwserverfilters.py:184-186 | the files are one run of their sections in order, into the same two maps |
| Config.AcceptableCons | kwserverfilters.py:191-215 | an input is acceptable iff its first section passes and the rest is acceptable after it |
| Config.ParseOutcome | kwserverfilters.py:188-215 | the loader succeeds iff every section is typed, every module (view) has `paths` (`query`), and no name repeats within a kind or clashes with what came before; on success each map grows by exactly the new declarations |
| Config.DeclaredFrom | kwserverfilters.py:196-213 | with unique names, the declarations map holds exactly the declared names, each with its section's value |
| Config.EachDefinitionFromOneSection | kwserverfilters.py:197-213 | after a successful load, every module and every view came from exactly one section of its type, with that section's value |
| Config.SharedNameAcrossKinds | kwserverfilters.py:196-213 | one example: the same name is a module in one file and a view in another without error (the general fact is the two rules above that ignore the other map) |
| Selection.Select | kwserverfilters.py:99-111 | the projects only grow, by at most one name per record read; the loop stops for no reason but a record without a name |
| Selection.ProjectList | kwserverfilters.py:95-111 | the projects grow by at most one name per record; the only reasons to stop are the reply's own `error_msg` and a record without a name |
| Selection.FilterAppend | kwserverfilters.py:99-109 | selection can be done piece by piece: it keeps the order |
| Selection.FilterCount | kwserverfilters.py:99-109 | a matching name is kept as often as it was reported; any other name is dropped |
| Selection.FilterMembers | kwserverfilters.py:103-106 | a name is selected iff it was reported and matches |
| Selection.FilterAll | kwserverfilters.py:103-106 | a pattern that matches every name keeps all of them |
| Selection.FilterNone | kwserverfilters.py:103-109 | a pattern that matches no name selects nothing |
| Selection.SelectOutcome | kwserverfilters.py:99-111 | the loop goes through iff every record is named, and then appends exactly the matching names in server order |
| Selection.ProjectListOutcome | kwserverfilters.py:95-111 | the selector stops exactly when the project query's reply is fatal (error first, then an unnamed record); otherwise the projects grow by the matching names in order |
| Selection.DefaultPatternSelectsAll | kwserverfilters.py:95-106 | with the default pattern every reported project is kept, in order |
| Sync.Confirmed | kwserverfilters.py:118-123 | an answer confirms iff, stripped, it is `Y` or `y` |
| Sync.UpsertFor | kwserverfilters.py:127-137 | the upsert (here and at lines 155-165) is for the given project, kind and item name; it updates iff the name is among the project's existing items and creates otherwise; the module payload is its paths with `allow_all`, the view payload its query with the tag `auto-created` |
| Sync.Upserts | kwserverfilters.py:127-139 | one upsert per local item |
| Sync.Block | kwserverfilters.py:124-139 | a project's requests open with the query of its items, followed by one upsert per local item |
| Sync.Plan | kwserverfilters.py:124-141 | the blocks of all projects, one after the other: the plan is as long as the start of a block one past the last project |
| Sync.PhasePlan | kwserverfilters.py:116-142 | a declined phase has no requests; otherwise \|projects\| x (\|items\| + 1) requests |
| Sync.DeclinedPhaseIsEmpty | kwserverfilters.py:118-123 | a declined phase sends nothing and does not stop the tool |
| Sync.UpsertsAt | kwserverfilters.py:127-139 | one upsert per local item, in enumeration order |
| Sync.PlanLength | kwserverfilters.py:124-141 | a phase that goes through sends \|projects\| x (\|items\| + 1) requests |
| Sync.PlanQueryAt | kwserverfilters.py:124-126 | block i of a phase opens with the item query of project i |
| Sync.PlanAt | kwserverfilters.py:124-139 | position j of block i's upserts holds the decision for local item j, taken against project i's own existing items |
| Sync.BlockNamesEntries | kwserverfilters.py:124-137 | block i fits in the plan, and each of its upserts names the local item at the same position of the enumeration |
| Sync.PlanUpsertCount | kwserverfilters.py:124-141 | a phase that goes through sends \|projects\| x \|items\| upserts |
| Sync.OncePerProjectAndItem | kwserverfilters.py:124-137 | for every project and every local item, the project's block holds an upsert of that item decided against that project's existing items, and every other upsert of the block names another item |
| Sync.BlockStartIsProduct | kwserverfilters.py:124-139 | block i starts at i x (\|items\| + 1) |
| Messages.ConfigMessage | kwserverfilters.py:193-215 | there is a message exactly for the configuration faults |
| Messages.ConfigMessageAsWritten | kwserverfilters.py:193-215 | the messages the loader prints: the same as `ConfigMessage`, except for a view without a query |
| Messages.ViewFaultReadsAsModuleFault | kwserverfilters.py:208-209 | as written, a view without a query and a module without paths of the same name give one and the same message |
| Messages.ConfigMessageInjective | kwserverfilters.py:193-215 | with the corrected wording, the message tells both the kind of fault and the section |
| Filters.Enumerate | kwserverfilters.py:127 | yields every entry of the map exactly once, in some order, as `iteritems` does |
| Filters.KwServerFilters.constructor | kwserverfilters.py:69-84 | stores the settings and starts with no modules, no views, no projects and an empty log |
| Filters.KwServerFilters.ExecuteQuery | kwserverfilters.py:96 | appends the request to the log and returns the server's reply to it as that call |
| Filters.KwServerFilters.ParseConfigFile | kwserverfilters.py:188-215 | the maps and the fault are those of `ParseSections` on the file's sections |
| Filters.KwServerFilters.ParseConfigFiles | kwserverfilters.py:184-186 | the maps and the fault are those of `ParseFiles` on the comma-separated file names |
| Filters.KwServerFilters.GetProjectList | kwserverfilters.py:90-114 | logs one project query; the projects and the fault are those of `ProjectList` |
| Filters.KwServerFilters.GetItems | kwserverfilters.py:172-182 | logs one item query; fails iff a record has no name, and otherwise returns the names in order |
| Filters.KwServerFilters.UpsertItems | kwserverfilters.py:127-141 | the log and the fault are those of `Issue` on the project's upserts |
| Filters.KwServerFilters.UpdateProject | kwserverfilters.py:124-141 | the log and the fault are those of `Issue` on the project's block |
| Filters.KwServerFilters.AddItems | kwserverfilters.py:116-142 | the log and the fault are those of `Issue` on the gated plan of the phase |
| Filters.KwServerFilters.AddModules | kwserverfilters.py:116-142 | the module phase over an enumeration of `modules` |
| Filters.KwServerFilters.AddViews | kwserverfilters.py:144-170 | the view phase over an enumeration of `views` |
| Filters.Session | kwserverfilters.py:55-65 | a run sends nothing iff the configuration (loaded by the constructor, lines 86-87) is rejected; otherwise the project query comes first; a failed selection sends nothing after it |
| Filters.Run | kwserverfilters.py:45-65 | the log is that of `Session`; the exit status is 0 iff nothing was fatal; a configuration error sends nothing and exits 1, a selection error sends only the project query and exits 1, otherwise the project query comes first |
| Filters.PhasesInOneRun | kwserverfilters.py:59-62 | after a successful selection, both phases are one run of both plans: what is sent is a prefix of the project query followed by both plans, and all of it when nothing fails |

## Left out

- Command-line parsing and logging: `argparse`, `getpass` and every logger call. `Run` takes the settings as parameters.
- `kwplib.KwApiCon`, the network client, is not part of this model. The server is the oracle `Server`:
  - the reply to the project query;
  - the reply to an item query for each project and kind;
  - the `error_msg` of an upsert, given its position among all calls.
- Repeated item queries: the item oracle is keyed by project and kind only. A project that the server lists twice is therefore shown the same items both times.
- `json.loads`: records are already decoded, either named or unnamed. A line that is not valid JSON is not modelled.
- The record text in the selector's error message: an unnamed record carries no text, so the message that quotes the raw line is not modelled.
- Crash versus clean exit: a record without `name` in `get_items` raises `KeyError`, not a clean exit. Both end the run, so the model treats it as a fatal outcome like the others.
- `ConfigParser`: file I/O and INI lexing. Each file is given as its sequence of sections.
  - Key lower-casing, `DEFAULT` sections, interpolation and the merging of repeated sections within one file are not modelled.
  - A file that cannot be read yields no sections, as ConfigParser does.
- `re.compile` and `re.match`: modelled by the predicate `matches`. An invalid pattern, which raises before the project query is sent, is not modelled.
- `raw_input`: the answers to the two prompts are parameters.
- Dictionary order: the order in which `iteritems` yields entries is any enumeration of the map. Every property holds for every enumeration.
- `__init__` and the loader: `__init__` calls `parse_config_files`, but a Dafny constructor cannot stop the tool. `Run` therefore calls `ParseConfigFiles` right after construction, with the same effect.
- Message texts, partly: only the configuration errors' message texts are modelled (`Messages`). The server-error texts are not.

## Findings

| source | as written | input that shows it | evidently intended | confidence | as-written member | corrected member |
|---|---|---|---|---|---|---|
| kwserverfilters.py:208-209 | a view section without `query` exits with the message for a module without `paths` | a section `[core]` with `type = view` and no `query` | a message that names a missing query in a view | not executed | Messages.ViewFaultReadsAsModuleFault | Messages.ConfigMessageInjective |
