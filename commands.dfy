/** The panel's fixed command table: `help`, `dev`, `state` and `call`. */
module Commands {
  import opened Wrappers
  import opened Hooks

  const HelpText := "Commands: help | dev | state | call <fn> [args...]"
  const DevPresent := "__DEV__ present \U{2705}"
  const DevMissing := "__DEV__ missing \U{274C}"
  const StateHint := "Add __DEV__.getState() in game code."
  const CallUsage := "Usage: call <fn> [args...]"

  /** The four own names of the table; nothing else is a command. */
  const Names: set<string> := {"help", "dev", "state", "call"}

  /**
   * The property names every plain object inherits from `Object.prototype`.
   * The table lookup `commands[name]` also finds these; the model does not
   * (see `Dispatch.RunUnknown`).
   */
  const InheritedNames: set<string> := {
    "constructor", "hasOwnProperty", "isPrototypeOf", "propertyIsEnumerable",
    "toString", "toLocaleString", "valueOf", "__proto__",
    "__defineGetter__", "__defineSetter__", "__lookupGetter__", "__lookupSetter__"
  }

  /**
   * The inherited names that are functions on a plain object, so that
   * `__DEV__?.[name]` finds them on any plain-object hook.
   */
  const InheritedFns: set<string> := InheritedNames - {"__proto__"}

  /** A hook built as a plain object: its inherited function members are present. */
  predicate PlainObjectHook(hook: Hook) {
    hook.Present? && InheritedFns <= hook.fns.Keys
  }

  function NoSuchFn(fnName: string): string {
    "No such __DEV__ fn: " + fnName
  }

  function GetStateError(e: Thrown): string {
    "getState error: " + ErrorText(e)
  }

  /** `dev`: reports whether the hook is there, and nothing else. */
  function Dev(hook: Hook): (r: string)
    ensures r == DevPresent <==> hook.Present?
    ensures r == DevMissing <==> hook.Absent?
  {
    if hook.Present? then DevPresent else DevMissing
  }

  /**
   * `state`: without a hook or its accessor, a hint; otherwise the serialised
   * snapshot (possibly `undefined`), with a failure of the accessor or the
   * serialiser turned into a `getState error:` line.  It never throws.
   */
  function State(hook: Hook): (r: Option<string>)
    ensures hook.Absent? || hook.getState.None? ==> r == Some(StateHint)
    ensures hook.Present? && hook.getState.Some? && hook.getState.value.Returned? ==>
              r == hook.getState.value.value
    ensures hook.Present? && hook.getState.Some? && hook.getState.value.Threw? ==>
              r == Some(GetStateError(hook.getState.value.error))
  {
    if hook.Absent? || hook.getState.None? then Some(StateHint)
    else match hook.getState.value
      case Returned(json) => json
      case Threw(e) => Some(GetStateError(e))
  }

  /**
   * `call <fn> [args...]`: the first argument names a function member of the
   * hook, which receives the remaining arguments unchanged and in order; an
   * `undefined` result reads `ok`.  A throw of the member is passed on.
   */
  function Call(hook: Hook, args: seq<string>): (r: Outcome<string>)
    ensures args == [] ==> r == Returned(CallUsage)
    ensures args != [] && args[0] != [] && (hook.Absent? || args[0] !in hook.fns) ==>
              r == Returned(NoSuchFn(args[0]))
    ensures args != [] && args[0] != [] && hook.Present? && args[0] in hook.fns ==>
              match hook.fns[args[0]](args[1..])
              case Returned(None) => r == Returned("ok")
              case Returned(Some(s)) => r == Returned(s)
              case Threw(e) => r == Threw(e)
  {
    if args == [] || args[0] == [] then Returned(CallUsage)
    else
      var fnName := args[0];
      if hook.Absent? || fnName !in hook.fns then Returned(NoSuchFn(fnName))
      else match hook.fns[fnName](args[1..])
        case Returned(None) => Returned("ok")
        case Returned(Some(s)) => Returned(s)
        case Threw(e) => Threw(e)
  }

  /**
   * Invokes the command `name` of the table with `args`.  `help`, `dev` and
   * `state` never throw and ignore their arguments; only `call` can throw, and
   * only by passing on the throw of the host function it invoked.
   */
  function Invoke(name: string, args: seq<string>, hook: Hook): (r: Outcome<Option<string>>)
    requires name in Names
    ensures name == "help" ==> r == Returned(Some(HelpText))
    ensures name == "dev" ==> r == Returned(Some(Dev(hook)))
    ensures name == "state" ==> r == Returned(State(hook))
    ensures r.Threw? ==>
              name == "call" && args != [] && hook.Present? && args[0] in hook.fns &&
              hook.fns[args[0]](args[1..]) == Threw(r.error)
  {
    match name
    case "help" => Returned(Some(HelpText))
    case "dev" => Returned(Some(Dev(hook)))
    case "state" => Returned(State(hook))
    case "call" =>
      match Call(hook, args)
      case Returned(s) => Returned(Some(s))
      case Threw(e) => Threw(e)
  }
}
