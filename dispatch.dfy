/**
 * `run`: trim the input line, split it into a command name and positional
 * arguments, look the name up in the command table and turn the outcome into
 * the one line that is logged.  Nothing thrown by a command escapes.
 */
module Dispatch {
  import opened Wrappers
  import opened Lexer
  import opened Hooks
  import opened Commands

  /** A parsed command line: token 0 and the tokens after it. */
  datatype Command = Command(name: string, args: seq<string>)

  /**
   * Trim, then `split(/\s+/)`.  A blank line parses to nothing; any other line
   * parses to tokens that, concatenated, are the line without its white space.
   */
  function Parse(input: string): (r: Option<Command>)
    ensures r.None? <==> AllSpace(input)
    ensures r.Some? ==> IsToken(r.value.name) && AllTokens(r.value.args)
    ensures r.Some? ==> Concat([r.value.name] + r.value.args) == RemoveSpaces(input)
  {
    var raw := Trim(input);
    if raw == [] then None
    else
      var toks := Split(raw);
      SplitTrimmedIsTokens(raw);
      SplitConcat(raw);
      TrimKeepsNonSpace(input);
      assert [toks[0]] + toks[1..] == toks;
      assert forall i :: 0 <= i < |toks[1..]| ==> toks[1..][i] == toks[i + 1];
      Some(Command(toks[0], toks[1..]))
  }

  /** `${msg}` for a command's result: `undefined` reads "undefined". */
  function Show(v: Option<string>): (r: string)
    ensures v.Some? ==> r == v.value
    ensures v.None? ==> r == "undefined"
  {
    match v
    case Some(s) => s
    case None => "undefined"
  }

  function UnknownLine(name: string): string {
    "Unknown: " + name + " (try: help)"
  }

  /**
   * The line logged for a parsed command: the diagnostic for a name outside
   * the table, otherwise the command's result, with a throw caught and shown
   * as an `Error:` line.  Only `call` can produce an `Error:` line.
   */
  function Respond(c: Command, hook: Hook): (r: string)
    ensures c.name !in Names ==> r == UnknownLine(c.name)
    ensures c.name in Names && Invoke(c.name, c.args, hook).Returned? ==>
              r == Show(Invoke(c.name, c.args, hook).value)
    ensures c.name in Names && Invoke(c.name, c.args, hook).Threw? ==>
              c.name == "call" && r == "Error: " + ErrorText(Invoke(c.name, c.args, hook).error)
    ensures c.name == "help" ==> r == HelpText
  {
    if c.name !in Names then UnknownLine(c.name)
    else match Invoke(c.name, c.args, hook)
      case Returned(v) => Show(v)
      case Threw(e) => "Error: " + ErrorText(e)
  }

  /** What one `run` of `input` logs: nothing exactly when the line is blank. */
  function RunLine(input: string, hook: Hook): (line: Option<string>)
    ensures line.None? <==> AllSpace(input)
  {
    match Parse(input)
    case None => None
    case Some(c) => Some(Respond(c, hook))
  }

  /** The input `p + name sep0 arg0 sep1 arg1 ... + q` used by the lemmas below. */
  function Line(p: string, name: string, args: seq<string>, seps: seq<string>, q: string): string
    requires |seps| == |args|
  {
    p + JoinWith([name] + args, seps) + q
  }

  /**
   * Spelling round-trip of `Parse`: a command typed as tokens with any white-space runs
   * between them and any white-space padding parses back to those tokens.
   */
  lemma ParseLine(p: string, toks: seq<string>, seps: seq<string>, q: string)
    requires AllSpace(p) && AllSpace(q)
    requires |toks| >= 1 && AllTokens(toks)
    requires |seps| == |toks| - 1 && Separators(seps)
    ensures Parse(p + JoinWith(toks, seps) + q) == Some(Command(toks[0], toks[1..]))
  {
    JoinEdges(toks, seps);
    TrimPadded(p, JoinWith(toks, seps), q);
    SplitJoin(toks, seps);
  }

  /**
   * Converse of `ParseLine`: the parsed name and arguments are exactly the
   * pieces of the input between its white-space runs, so tokens are cut at
   * every run of white space and nowhere else.
   */
  lemma ParseSplitsAtRuns(input: string)
    requires Parse(input).Some?
    ensures exists p, seps, q ::
              AllSpace(p) && AllSpace(q) && Separators(seps) &&
              |seps| == |Parse(input).value.args| &&
              input == Line(p, Parse(input).value.name, Parse(input).value.args, seps, q)
  {
    var c := Parse(input).value;
    ParsedTokens(input, c);
    TrimSpells(input);
    var p, seps, q :| AllSpace(p) && AllSpace(q) && |seps| == |Split(Trim(input))| - 1 && Separators(seps) &&
                      input == p + JoinWith(Split(Trim(input)), seps) + q;
    assert input == Line(p, c.name, c.args, seps, q);
  }

  /** The parsed tokens are the fields of the trimmed line. */
  lemma ParsedTokens(input: string, c: Command)
    requires Parse(input) == Some(c)
    ensures Split(Trim(input)) == [c.name] + c.args
  {
    var toks := Split(Trim(input));
    assert c == Command(toks[0], toks[1..]);
    assert [toks[0]] + toks[1..] == toks;
  }

  /** Every parse result has a canonical one-blank spelling that parses to it again. */
  lemma ParseCanonical(input: string)
    requires Parse(input).Some?
    ensures Parse(Join([Parse(input).value.name] + Parse(input).value.args)) == Parse(input)
  {
    var c := Parse(input).value;
    var toks := [c.name] + c.args;
    var j := Join(toks);
    ConsTokens(c.name, c.args);
    ParseLine("", toks, Blanks(|c.args|), "");
    assert "" + j + "" == j;
    assert toks[0] == c.name && toks[1..] == c.args;
  }

  lemma ParseOfLine(p: string, name: string, args: seq<string>, seps: seq<string>, q: string)
    requires AllSpace(p) && AllSpace(q) && IsToken(name) && AllTokens(args)
    requires |seps| == |args| && Separators(seps)
    ensures Parse(Line(p, name, args, seps, q)) == Some(Command(name, args))
  {
    var toks := [name] + args;
    ConsTokens(name, args);
    assert toks[1..] == args;
    ParseLine(p, toks, seps, q);
  }

  lemma RunParsed(input: string, c: Command, hook: Hook)
    requires Parse(input) == Some(c)
    ensures RunLine(input, hook) == Some(Respond(c, hook))
  {
  }

  lemma ConsTokens(t: string, ts: seq<string>)
    requires IsToken(t) && AllTokens(ts)
    ensures AllTokens([t] + ts)
  {
    forall i | 0 <= i < |[t] + ts| ensures IsToken(([t] + ts)[i]) {
      if i > 0 { assert ([t] + ts)[i] == ts[i - 1]; }
    }
  }

  /**
   * A name outside the table logs the fixed diagnostic, whatever the hook:
   * nothing is invoked.  Names inherited from `Object.prototype` are excluded,
   * since the table lookup finds them.
   */
  lemma RunUnknown(p: string, name: string, args: seq<string>, seps: seq<string>, q: string, hook: Hook)
    requires AllSpace(p) && AllSpace(q) && IsToken(name) && AllTokens(args)
    requires |seps| == |args| && Separators(seps)
    requires name !in Names && name !in InheritedNames
    ensures RunLine(Line(p, name, args, seps, q), hook) == Some("Unknown: " + name + " (try: help)")
  {
    ParseOfLine(p, name, args, seps, q);
    RunParsed(Line(p, name, args, seps, q), Command(name, args), hook);
  }

  /** `help` logs the usage string, whatever arguments follow it. */
  lemma RunHelp(p: string, args: seq<string>, seps: seq<string>, q: string, hook: Hook)
    requires AllSpace(p) && AllSpace(q) && AllTokens(args)
    requires |seps| == |args| && Separators(seps)
    ensures RunLine(Line(p, "help", args, seps, q), hook) == Some(HelpText)
  {
    ParseOfLine(p, "help", args, seps, q);
    RunParsed(Line(p, "help", args, seps, q), Command("help", args), hook);
  }

  /** `dev` logs the "present" string exactly when the hook is there. */
  lemma RunDev(p: string, args: seq<string>, seps: seq<string>, q: string, hook: Hook)
    requires AllSpace(p) && AllSpace(q) && AllTokens(args)
    requires |seps| == |args| && Separators(seps)
    ensures RunLine(Line(p, "dev", args, seps, q), hook) == Some(DevPresent) <==> hook.Present?
    ensures RunLine(Line(p, "dev", args, seps, q), hook) == Some(DevMissing) <==> hook.Absent?
  {
    ParseOfLine(p, "dev", args, seps, q);
    RunParsed(Line(p, "dev", args, seps, q), Command("dev", args), hook);
  }

  /** `state` logs the hint, the snapshot, or the accessor's error. */
  lemma RunState(p: string, args: seq<string>, seps: seq<string>, q: string, hook: Hook)
    requires AllSpace(p) && AllSpace(q) && AllTokens(args)
    requires |seps| == |args| && Separators(seps)
    ensures hook.Absent? || hook.getState.None? ==>
              RunLine(Line(p, "state", args, seps, q), hook) == Some(StateHint)
    ensures hook.Present? && hook.getState.Some? && hook.getState.value.Returned? ==>
              RunLine(Line(p, "state", args, seps, q), hook) == Some(Show(hook.getState.value.value))
    ensures hook.Present? && hook.getState.Some? && hook.getState.value.Threw? ==>
              RunLine(Line(p, "state", args, seps, q), hook) ==
              Some("getState error: " + ErrorText(hook.getState.value.error))
  {
    ParseOfLine(p, "state", args, seps, q);
    RunParsed(Line(p, "state", args, seps, q), Command("state", args), hook);
  }

  /** `call` on its own logs its usage string. */
  lemma RunCallUsage(p: string, q: string, hook: Hook)
    requires AllSpace(p) && AllSpace(q)
    ensures RunLine(Line(p, "call", [], [], q), hook) == Some(CallUsage)
  {
    ParseOfLine(p, "call", [], [], q);
    RunParsed(Line(p, "call", [], [], q), Command("call", []), hook);
    RespondCallUsage(hook);
  }

  /** `call f ...` for an `f` that is not a function of the hook logs the diagnostic and invokes nothing. */
  lemma RunCallMissing(p: string, f: string, args: seq<string>, seps: seq<string>, q: string, hook: Hook)
    requires AllSpace(p) && AllSpace(q) && IsToken(f) && AllTokens(args)
    requires |seps| == |args| + 1 && Separators(seps)
    requires hook.Absent? || f !in hook.fns
    ensures RunLine(Line(p, "call", [f] + args, seps, q), hook) == Some("No such __DEV__ fn: " + f)
  {
    ConsTokens(f, args);
    ParseOfLine(p, "call", [f] + args, seps, q);
    RunParsed(Line(p, "call", [f] + args, seps, q), Command("call", [f] + args), hook);
    RespondCallMissing(f, args, hook);
  }

  lemma RespondCallUsage(hook: Hook)
    ensures Respond(Command("call", []), hook) == CallUsage
  {
  }

  lemma RespondCallMissing(f: string, args: seq<string>, hook: Hook)
    requires f != [] && (hook.Absent? || f !in hook.fns)
    ensures Respond(Command("call", [f] + args), hook) == "No such __DEV__ fn: " + f
  {
    assert ([f] + args)[0] == f;
  }

  /**
   * `call f a1 ... an` invokes `f` with exactly the strings `a1 ... an`; it
   * logs "ok" for `undefined`, the stringified result otherwise, and
   * "Error: ..." when `f` throws.
   */
  lemma RunCallInvokes(p: string, f: string, args: seq<string>, seps: seq<string>, q: string, hook: Hook)
    requires AllSpace(p) && AllSpace(q) && IsToken(f) && AllTokens(args)
    requires |seps| == |args| + 1 && Separators(seps)
    requires hook.Present? && f in hook.fns
    ensures match hook.fns[f](args)
            case Returned(None) => RunLine(Line(p, "call", [f] + args, seps, q), hook) == Some("ok")
            case Returned(Some(s)) => RunLine(Line(p, "call", [f] + args, seps, q), hook) == Some(s)
            case Threw(e) => RunLine(Line(p, "call", [f] + args, seps, q), hook) == Some("Error: " + ErrorText(e))
  {
    ConsTokens(f, args);
    ParseOfLine(p, "call", [f] + args, seps, q);
    RunParsed(Line(p, "call", [f] + args, seps, q), Command("call", [f] + args), hook);
    RespondCall(f, args, hook);
  }

  lemma RespondCall(f: string, args: seq<string>, hook: Hook)
    requires f != [] && hook.Present? && f in hook.fns
    ensures match hook.fns[f](args)
            case Returned(None) => Respond(Command("call", [f] + args), hook) == "ok"
            case Returned(Some(s)) => Respond(Command("call", [f] + args), hook) == s
            case Threw(e) => Respond(Command("call", [f] + args), hook) == "Error: " + ErrorText(e)
  {
    assert ([f] + args)[0] == f && ([f] + args)[1..] == args;
  }

  /**
   * On a plain-object hook, `call` finds the inherited functions too
   * (`toString`, `constructor`, ...): the missing-function line appears only
   * when the invoked function itself returns that very text.
   */
  lemma RunCallInherited(p: string, f: string, args: seq<string>, seps: seq<string>, q: string, hook: Hook)
    requires AllSpace(p) && AllSpace(q) && IsToken(f) && AllTokens(args)
    requires |seps| == |args| + 1 && Separators(seps)
    requires PlainObjectHook(hook) && f in InheritedFns
    ensures RunLine(Line(p, "call", [f] + args, seps, q), hook) == Some(NoSuchFn(f)) ==>
              hook.fns[f](args) == Returned(Some(NoSuchFn(f)))
  {
    ConsTokens(f, args);
    ParseOfLine(p, "call", [f] + args, seps, q);
    RunParsed(Line(p, "call", [f] + args, seps, q), Command("call", [f] + args), hook);
    RespondCallFound(f, args, hook);
  }

  lemma RespondCallFound(f: string, args: seq<string>, hook: Hook)
    requires f != [] && hook.Present? && f in hook.fns
    ensures Respond(Command("call", [f] + args), hook) == NoSuchFn(f) ==>
              hook.fns[f](args) == Returned(Some(NoSuchFn(f)))
  {
    RespondCall(f, args, hook);
    match hook.fns[f](args)
    case Returned(None) =>
      assert "ok"[0] != NoSuchFn(f)[0];
    case Returned(Some(s)) =>
    case Threw(e) =>
      assert ("Error: " + ErrorText(e))[0] != NoSuchFn(f)[0];
  }
}
