# Dev panel: activation gate and command dispatcher

A model of the core of `rs/js/debugPanel.js`, the in-browser developer overlay
of the game. Three parts of that script are modelled:

- **Activation gate.** A `debug=1` query value writes `"1"` under the storage
  key `DEBUG_ENABLED`. The panel is built only when the stored value is exactly
  `"1"`. "Disable" removes that key again.
- **Command dispatcher** (`run`). It trims the input line, splits it on runs of
  white space into a command name and positional arguments, and looks the name
  up in the four-entry table `help`, `dev`, `state`, `call`. The outcome
  becomes one log line. An unknown name gives a fixed diagnostic, and a throw
  inside a command gives an `Error:` line, provided the thrown value has a
  `message` or a string form (see "## Left out").
- **Log.** `log(msg)` prepends `msg` and a line break to the log's text, so the
  log is a newest-first sequence of entries.

The host's debug hook `window.__DEV__` is abstract (`Hooks.Hook`). It is either
absent, or present with an optional `getState` outcome and a map from member
names to function behaviours. A behaviour receives the string arguments and
returns `undefined`, returns a value (given by its string conversion), or
throws.

Files and modules:

- `wrappers.dfy` (`Wrappers`): `Option`.
- `lexer.dfy` (`Lexer`): the ECMAScript white-space set, `trim`, `split(/\s+/)`, and their properties.
- `hooks.dfy` (`Hooks`): the hook abstraction and thrown values.
- `commands.dfy` (`Commands`): the command table and its exact strings.
- `dispatch.dfy` (`Dispatch`): parsing and dispatch of one input line, as functions, with lemmas per command at the level of the typed line.
- `panel.dfy` (`Panel`): the activation gate as functions on the storage map, and the class `DebugPanel` whose methods update the storage, the log and whether the panel is attached. Its button and input methods require `enabled`, because the script attaches those handlers only after the gate at line 7 lets it through.

Three behaviours of the code that the model keeps or sets aside:

- The lookup `commands[name]` at line 80 also finds the members every object
  inherits from `Object.prototype` (`toString`, `constructor`, ...), so those
  names are dispatched to built-in functions rather than reported as unknown.
  The model's table has the four own names only, and `Dispatch.RunUnknown`
  makes no claim for the inherited names (`Commands.InheritedNames`).
- `JSON.stringify(undefined)` is `undefined`, so when `getState` returns
  `undefined` the `state` command returns `undefined` and `log` writes the
  word `undefined`. The model keeps this (`Dispatch.Show`).
- Storage errors are not caught: if `localStorage` throws at line 5 or 6, the
  script stops before the panel is built. The model assumes storage is always
  available.

## Model

The `Dispatch.Run...` lemmas take the input line as `Dispatch.Line`: white-space padding, then the tokens with a non-empty white-space run of any length and kind between each two of them.

| member | source | states |
|---|---|---|
| `Lexer.IsSpace` | rs/js/debugPanel.js:77-79 | the ECMAScript WhiteSpace and LineTerminator code points, the one set that both `trim()` and `\s` use |
| `Lexer.LeadingSpace` | rs/js/debugPanel.js:77 | the count of leading characters that `trim()` removes: all of them are white space and the next one, if any, is not |
| `Lexer.TrailingSpace` | rs/js/debugPanel.js:77 | the count of trailing characters that `trim()` removes: all of them are white space and the one before them, if any, is not |
| `Lexer.Trim` | rs/js/debugPanel.js:77 | `trim()` yields an infix of the input with only white space cut on either side, no white space at its edges, and it is empty exactly when the input is all white space |
| `Lexer.TrimPadded` | rs/js/debugPanel.js:77 | trimming any white-space padding of an edge-trimmed string gives that string back, so `Trim` is determined uniquely |
| `Lexer.TrimKeepsNonSpace` | rs/js/debugPanel.js:77 | trimming removes no character that is not white space |
| `Lexer.Split` | rs/js/debugPanel.js:79 | `split(/\s+/)` yields at least one field, and no field contains white space |
| `Lexer.SplitConcat` | rs/js/debugPanel.js:79 | the fields of `split(/\s+/)`, concatenated in order, are the input with its white space removed |
| `Lexer.SplitTrimmedIsTokens` | rs/js/debugPanel.js:77-79 | splitting a trimmed non-blank line yields only non-empty fields |
| `Lexer.SplitAfterRun` | rs/js/debugPanel.js:79 | a white-space run of any length and kind before a word yields exactly one empty field, so `split(/\s+/)` treats a run as one separator |
| `Lexer.SplitJoin` | rs/js/debugPanel.js:79 | splitting tokens written with any non-empty white-space runs between them gives back the same tokens, in order |
| `Lexer.SplitSpells` | rs/js/debugPanel.js:79 | every string is its `split(/\s+/)` fields with one non-empty white-space run between consecutive fields, so fields are cut at every run and nowhere else |
| `Lexer.SplitInnerFields` | rs/js/debugPanel.js:79 | only the first and the last field of `split(/\s+/)` can be empty, so each gap between fields is a maximal white-space run |
| `Lexer.TrimSpells` | rs/js/debugPanel.js:77-79 | every string is white-space padding around the fields of its trimmed text, written with white-space runs between them |
| `Hooks.ErrorText` | rs/js/debugPanel.js:82 | `e?.message || e` (also at line 65): the thrown value's `message` when it is non-empty, otherwise its string form |
| `Commands.Dev` | rs/js/debugPanel.js:59-61 | `dev` returns the "present" string exactly when the hook exists and the "missing" string exactly when it does not |
| `Commands.State` | rs/js/debugPanel.js:62-66 | `state` returns the hint when the hook or its `getState` is absent, the serialised snapshot (possibly `undefined`) when it succeeds, and `getState error: <message>` when it throws; it never throws |
| `Commands.Call` | rs/js/debugPanel.js:67-73 | `call` with no function name returns the usage string; for a name that is not a function of the hook it returns `No such __DEV__ fn: <name>`; otherwise it calls that function with the remaining arguments unchanged and returns `ok` for `undefined`, the stringified result otherwise, and passes a throw on |
| `Commands.Invoke` | rs/js/debugPanel.js:55-74 | `help`, `dev` and `state` never throw and ignore their arguments, and `help` always gives the usage string; a throw can come only from `call`, and only as the throw of the host function it invoked with the given arguments |
| `Dispatch.Parse` | rs/js/debugPanel.js:77-79 | a line parses to nothing exactly when it is blank; otherwise the name and the arguments are non-empty, white-space-free tokens whose concatenation is the line without its white space; where the cuts fall is stated by `ParseLine` and `ParseSplitsAtRuns` |
| `Dispatch.ParseLine` | rs/js/debugPanel.js:77-79 | a command typed as tokens with any white-space runs between them and any white-space padding parses to token 0 as the name and the other tokens, in order, as arguments |
| `Dispatch.ParseSplitsAtRuns` | rs/js/debugPanel.js:77-79 | conversely, the parsed name and arguments are exactly the pieces of the input between its white-space runs, so with `ParseLine` the parse of every line is determined |
| `Dispatch.ParseCanonical` | rs/js/debugPanel.js:77-79 | every parsed command has a canonical one-blank spelling that parses to the same command |
| `Dispatch.Show` | rs/js/debugPanel.js:53 | `${msg}`: a returned string shows as itself, `undefined` as the word `undefined` |
| `Dispatch.Respond` | rs/js/debugPanel.js:80-82 | a name outside the table gives `Unknown: <name> (try: help)`; a known command's result is shown as is; a throw is caught and shown as `Error: <text>`, and only `call` can throw; `help` always gives the usage string |
| `Dispatch.RunLine` | rs/js/debugPanel.js:76-83 | one `run` logs nothing exactly when the input is blank after trimming |
| `Dispatch.RunUnknown` | rs/js/debugPanel.js:80-81 | a name outside the table and outside `Object.prototype` logs exactly `Unknown: <name> (try: help)` for every hook, so no hook member is invoked |
| `Dispatch.RunHelp` | rs/js/debugPanel.js:56-58 | a `help` line logs the usage string whatever arguments follow it |
| `Dispatch.RunDev` | rs/js/debugPanel.js:59-61 | a `dev` line logs the "present" string exactly when the hook exists, and the "missing" string exactly when it does not |
| `Dispatch.RunState` | rs/js/debugPanel.js:62-66 | a `state` line logs the hint, the snapshot, or `getState error: <message>`, as the hook dictates |
| `Dispatch.RunCallUsage` | rs/js/debugPanel.js:67-68 | `call` alone, with any white-space padding, logs `Usage: call <fn> [args...]` |
| `Dispatch.RunCallMissing` | rs/js/debugPanel.js:69-70 | `call f ...` logs `No such __DEV__ fn: f` when the hook is absent or has no function `f` |
| `Dispatch.RunCallInvokes` | rs/js/debugPanel.js:71-82 | `call f a1 ... an`, with any white-space runs between the tokens, calls `f` with exactly the strings `a1 ... an`, and logs `ok` for `undefined`, the stringified result otherwise, and `Error: <message>` when `f` throws |
| `Dispatch.RunCallInherited` | rs/js/debugPanel.js:69-72 | on a plain-object hook, `call` finds the inherited functions (`toString`, `constructor`, ...) as well: `call f ...` logs `No such __DEV__ fn: f` for such an `f` only if the function itself returns that text |
| `Panel.IsEnabled` | rs/js/debugPanel.js:6 | the panel is enabled exactly when storage holds `"1"` under `DEBUG_ENABLED` |
| `Panel.Activate` | rs/js/debugPanel.js:4-6 | `debug=1` writes `"1"` under `DEBUG_ENABLED` and keeps every other key; any other query leaves storage untouched; afterwards the panel is on exactly when the query was `debug=1` or the flag was already `"1"` |
| `Panel.Forget` | rs/js/debugPanel.js:89 | "Disable" removes `DEBUG_ENABLED` and nothing else, and the panel is then off |
| `Panel.ActivationPersists` | rs/js/debugPanel.js:5-6 | after one bootstrap with `debug=1`, every later bootstrap is on, whatever its query |
| `Panel.DisableThenBootstrap` | rs/js/debugPanel.js:89 | after "Disable", the next bootstrap (lines 5-6) is on exactly when it carries `debug=1` |
| `Panel.Render` | rs/js/debugPanel.js:53 | the log element's `textContent`: empty exactly when there are no entries, and otherwise ending in a line break |
| `Panel.DebugPanel.Bootstrap` | rs/js/debugPanel.js:4-7 | bootstrap runs the activation step, fixes `enabled` from the stored flag, and only an enabled panel is attached and greets with `Dev Panel enabled. Type: help` (line 91) |
| `Panel.DebugPanel.Log` | rs/js/debugPanel.js:53 | `log` prepends exactly one entry; the log text becomes the message, a line break, and the old text |
| `Panel.DebugPanel.Run` | rs/js/debugPanel.js:76-83 | a blank line leaves the log unchanged; any other line prepends exactly the line `RunLine` gives, the old log stays as the suffix, and storage is untouched |
| `Panel.DebugPanel.ShowState` | rs/js/debugPanel.js:87 | the "State" button prepends what `state` returns |
| `Panel.DebugPanel.Close` | rs/js/debugPanel.js:88 | closing detaches the panel and changes neither log nor storage |
| `Panel.DebugPanel.Disable` | rs/js/debugPanel.js:89 | "Disable" removes the flag from storage, detaches the panel and keeps the log |

## Left out

- DOM construction and CSS (lines 9-50): markup and styling only.
- Event wiring (lines 85-88): the Run button and the Enter key are `DebugPanel.Run` on the input's text; the other buttons are `ShowState`, `Close` and `Disable`. Browser events themselves are not modelled.
- `localStorage` and `URLSearchParams`: storage is a `map<string, string>` that is always available. The query is the value of `params.get("debug")` as an `Option`.
- `JSON.stringify(..., null, 2)`: the serialiser is not modelled. The hook's `getState` outcome already holds the serialised text, `undefined`, or the throw of the accessor or serialiser.
- What the hook's functions do: only their names, their string result (`String(out)`) or their throw are modelled. Side effects on the game, a `String(out)` conversion that itself throws, and asynchronous results are not modelled.
- JavaScript truthiness: `window.__DEV__` and `getState` are either present or absent. A truthy non-function `getState`, a falsy `__DEV__` such as `0`, and a truthy non-string `message` are collapsed into these cases.
- `Hooks.Thrown`: a thrown value is its `message` (empty when falsy) and its string form. A value with neither, such as a `Symbol` or `Object.create(null)`, makes `${e?.message || e}` itself throw. At line 82 that throw escapes `run` and nothing is logged. At line 65 it makes `state` throw: `run` then logs `Error: ...` instead of `getState error: ...`, and the "State" button (line 87) logs nothing.
- Commands.State: does not model a `getState` throw whose value has neither `message` nor a string form, for the reason in the line above.
- Dispatch.RunLine: does not model the throw that escapes `run` when a command throws a value with neither `message` nor a string form; neither does `Panel.DebugPanel.Run`.
- `Hooks.Hook`: the `getState` accessor and the function map are independent. `call getState` is modelled through the map alone.
- Inherited `Object.prototype` names: `commands[name]` at line 80 also finds `toString`, `constructor` and the other inherited members. The model's table (`Commands.Names`) holds only the four own names, so the model logs the unknown-name diagnostic where the script would call the built-in.
- Dispatch.RunCallMissing: the lookup `window.__DEV__?.[fnName]` at line 69 also finds inherited functions, so on a plain-object hook `call toString` and the like invoke the inherited function rather than report it missing. The lemma is right only when `Hooks.Hook.fns` lists every name that is a function on the hook, inherited ones included (`Commands.PlainObjectHook`, `Dispatch.RunCallInherited`). What those inherited functions return when called without `this` is not modelled.
- Dispatch.RunUnknown: makes no claim for the names in `Commands.InheritedNames`, because the script dispatches them to built-in functions.
- The input element cannot hold line breaks; the model accepts any string.
