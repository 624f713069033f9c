/**
 * The panel's state: the browser storage that holds the activation flag, and
 * the log shown in the panel, newest entry first.
 */
module Panel {
  import opened Wrappers
  import opened Hooks
  import opened Commands
  import opened Dispatch

  /** The storage key of the persisted flag, and the one value that means "on". */
  const DebugKey := "DEBUG_ENABLED"
  const On := "1"

  /** The first line a freshly enabled panel logs. */
  const Greeting := "Dev Panel enabled. Type: help"

  predicate IsEnabled(storage: map<string, string>) {
    DebugKey in storage && storage[DebugKey] == On
  }

  /**
   * The activation step at bootstrap: the query value of `debug` (`None` when
   * the parameter is missing) and the storage before; the result is the
   * storage after.  Only `debug=1` writes, and then the panel is on; otherwise
   * storage is untouched and the panel is on exactly when the flag was.
   */
  function Activate(query: Option<string>, storage: map<string, string>): (r: map<string, string>)
    ensures query == Some(On) ==> DebugKey in r && r[DebugKey] == On
    ensures query == Some(On) ==> forall k :: k in storage && k != DebugKey ==> k in r && r[k] == storage[k]
    ensures query == Some(On) ==> r.Keys == storage.Keys + {DebugKey}
    ensures query != Some(On) ==> r == storage
    ensures IsEnabled(r) <==> query == Some(On) || IsEnabled(storage)
  {
    if query == Some(On) then storage[DebugKey := On] else storage
  }

  /** The "Disable" action on storage: removes the flag and leaves every other key as it was. */
  function Forget(storage: map<string, string>): (r: map<string, string>)
    ensures !IsEnabled(r) && DebugKey !in r
    ensures r.Keys == storage.Keys - {DebugKey}
    ensures forall k :: k in r ==> r[k] == storage[k]
  {
    storage - {DebugKey}
  }

  /** Once `debug=1` has been seen, every later bootstrap is enabled, with or without the query. */
  lemma ActivationPersists(first: map<string, string>, later: Option<string>)
    ensures IsEnabled(Activate(later, Activate(Some(On), first)))
  {
  }

  /** After "Disable", a bootstrap is enabled again exactly when it carries `debug=1`. */
  lemma DisableThenBootstrap(storage: map<string, string>, query: Option<string>)
    ensures IsEnabled(Activate(query, Forget(storage))) <==> query == Some(On)
  {
  }

  /** The text content of the log element: each entry followed by a line break, newest first. */
  function Render(entries: seq<string>): (r: string)
    ensures r == [] <==> entries == []
    ensures entries != [] ==> r[|r| - 1] == '\n'
  {
    if entries == [] then "" else entries[0] + "\n" + Render(entries[1..])
  }

  class DebugPanel {
    /** The origin's `localStorage`. */
    var storage: map<string, string>
    /** The entries of the log element, newest first. */
    var log: seq<string>
    /** Decided once at bootstrap; later changes to storage do not affect it. */
    const enabled: bool
    /** Whether the panel is still attached to the page. */
    var mounted: bool

    /**
     * Bootstrap: run the activation step; if the panel is on, build it and log
     * the greeting, else do nothing more.
     */
    constructor Bootstrap(query: Option<string>, initial: map<string, string>)
      ensures storage == Activate(query, initial)
      ensures enabled == IsEnabled(storage)
      ensures mounted == enabled
      ensures log == if enabled then [Greeting] else []
    {
      var s := Activate(query, initial);
      storage := s;
      enabled := IsEnabled(s);
      mounted := IsEnabled(s);
      log := [];
      new;
      if enabled {
        Log(Greeting);
      }
    }

    function Text(): string
      reads this
    {
      Render(log)
    }

    /** `log(msg)`: prepends one entry and keeps the old content as the suffix. */
    method Log(msg: string)
      modifies this
      ensures log == [msg] + old(log)
      ensures Text() == msg + "\n" + old(Text())
      ensures storage == old(storage) && mounted == old(mounted)
    {
      log := [msg] + log;
      assert log[1..] == old(log);
    }

    /** `run` on the text of the command input. */
    method Run(input: string, hook: Hook)
      requires enabled
      modifies this
      ensures RunLine(input, hook).None? ==> log == old(log)
      ensures RunLine(input, hook).Some? ==> log == [RunLine(input, hook).value] + old(log)
      ensures RunLine(input, hook).Some? ==> Text() == RunLine(input, hook).value + "\n" + old(Text())
      ensures storage == old(storage) && mounted == old(mounted)
    {
      var raw := Lexer.Trim(input);
      if raw == [] {
        assert Parse(input).None?;
        return;
      }
      var toks := Lexer.Split(raw);
      var name, args := toks[0], toks[1..];
      assert Parse(input) == Some(Command(name, args));
      if name !in Names {
        Log(UnknownLine(name));
        return;
      }
      var outcome := Invoke(name, args, hook);
      match outcome {
        case Returned(v) => Log(Show(v));
        case Threw(e) => Log("Error: " + ErrorText(e));
      }
    }

    /** The "State" button: logs what the `state` command returns. */
    method ShowState(hook: Hook)
      requires enabled
      modifies this
      ensures log == [Show(State(hook))] + old(log)
      ensures storage == old(storage) && mounted == old(mounted)
    {
      Log(Show(State(hook)));
    }

    /** The close button: detaches the panel; log and storage stay. */
    method Close()
      requires enabled
      modifies this
      ensures !mounted
      ensures log == old(log) && storage == old(storage)
    {
      mounted := false;
    }

    /** The "Disable" button: clears the flag and detaches the panel. */
    method Disable()
      requires enabled
      modifies this
      ensures storage == Forget(old(storage))
      ensures !mounted
      ensures log == old(log)
    {
      storage := Forget(storage);
      mounted := false;
    }
  }
}
