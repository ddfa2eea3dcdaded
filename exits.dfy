/** How a run of the tool ends. Every fatal condition of the source is a
    `sys.exit(message)` (or, in one place, an uncaught `KeyError`); here it is a
    value that carries its reason, together with the state the tool held when it stopped. */
module Exits {

  datatype Option<+T> = None | Some(value: T)

  /** The reasons the tool stops. */
  datatype Fatal =
    | MissingType(section: string)           // a section without `type`
    | UnknownType(section: string)           // a `type` other than module or view
    | ModuleAlreadyDefined(section: string)  // a module name seen before
    | MissingPaths(section: string)          // a module section without `paths`
    | ViewAlreadyDefined(section: string)    // a view name seen before
    | MissingQuery(section: string)          // a view section without `query`
    | ServerError(message: string)           // the server's reply carried an error
    | MalformedRecord                        // a project record without a name
    | ItemWithoutName(project: string)       // an item record without a name

  /** The state `S` reached, and whether the tool went on normally or stopped. */
  datatype Exit<S> = Done(state: S) | Stopped(state: S, reason: Fatal) {
    function Fault(): Option<Fatal> {
      if Stopped? then Some(reason) else None
    }
  }
}
