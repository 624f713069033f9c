/**
 * The host application's debug hook, `window.__DEV__`, seen only through what
 * the panel can observe of it: whether it is there, whether it has a
 * `getState` accessor, and which of its members are functions.
 */
module Hooks {
  import opened Wrappers

  /**
   * A value thrown by host code: its `message` property (empty when missing or
   * falsy) and its conversion to a string.
   */
  datatype Thrown = Thrown(message: string, shown: string)

  /** The text of `e?.message || e` used in the panel's error lines. */
  function ErrorText(e: Thrown): (r: string)
    ensures e.message != [] ==> r == e.message
    ensures e.message == [] ==> r == e.shown
  {
    if e.message != [] then e.message else e.shown
  }

  /** What a call into host code did: returned a value, or threw. */
  datatype Outcome<+T> = Returned(value: T) | Threw(error: Thrown)

  /**
   * A function member of the hook, given its string arguments.  `Some(s)` is a
   * return value `out` with `String(out) == s`; `None` is `undefined`.
   */
  type HostFn = seq<string> -> Outcome<Option<string>>

  /**
   * `Absent`: `window.__DEV__` is not set.  `Present`: `getState` is the
   * combined outcome of `JSON.stringify(__DEV__.getState(), null, 2)` when the
   * accessor exists (`None` inside `Returned` is `undefined`), and `fns` maps
   * every name for which `__DEV__[name]` is a function to its behaviour.
   * That includes inherited members: for a plain object, every name of
   * `Object.prototype` except `__proto__` (`toString`, `constructor`, ...).
   * The behaviour is that of a call without `this`, as `fn(...args)` makes it.
   */
  datatype Hook =
    | Absent
    | Present(getState: Option<Outcome<Option<string>>>, fns: map<string, HostFn>)
}
