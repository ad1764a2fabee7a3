/**
 * The entry point of rasa_complete.py for one command line: look the command
 * line up in the cache (removing it), recompute the suggestions when the entry
 * is missing, falsy or stale, store the suggestions back, and emit them.
 *
 * The clock is read twice in the source, once for the staleness test and once
 * when storing; these are the parameters `now` and `later`. `cachingOff` stands
 * for the caching-off environment variable having a non-empty value (an empty
 * value is falsy in Python and leaves caching on).
 */
module Completion {
  import opened Wrappers
  import opened Strings
  import opened HelpText
  import opened Probe
  import opened SuggestionCache

  /** The suggestions found in a help text: the optional arguments first, then
      the positional ones. */
  function Suggestions(help: string): seq<string> {
    FindOptionalArguments(help) + FindPositionalArguments(help)
  }

  /** One run: the in-memory dictionary afterwards (written back to the cache
      file only when caching is on and the run succeeds), the tool calls made,
      and the suggestions emitted or the error that ends the run. */
  datatype Run = Run(entries: map<string, Value>, calls: seq<seq<string>>, emitted: Result<seq<string>, string>)

  function Lookup(entries: map<string, Value>, command: string): Option<Value> {
    if command in entries then Some(entries[command]) else None
  }

  /** What one run of the script does, as a function of its inputs. */
  function Outcome(entries: map<string, Value>, command: string, now: int, later: int,
                   cachingOff: bool, respond: Oracle): Run
  {
    var cached := Lookup(entries, command);
    var rest := entries - {command};
    if MustRecompute(cached, now) then
      var probe := Backoff(command, respond);
      match probe.help
      case Err(e) => Run(rest, probe.calls, Err(e))
      case Ok(help) =>
        var possibilities := Suggestions(help);
        Run(Stored(rest, command, possibilities, later, cachingOff), probe.calls, Ok(possibilities))
    else
      var possibilities := cached.value.args;
      Run(Stored(rest, command, possibilities, later, cachingOff), [], Ok(possibilities))
  }

  /** With caching on, a run that emits suggestions leaves the key set grown by
      exactly the command line, which then maps to what was emitted stamped with
      the time of storing; every other key keeps its value. */
  lemma RunStoresCommand(entries: map<string, Value>, command: string, now: int, later: int, respond: Oracle)
    ensures var run := Outcome(entries, command, now, later, false, respond);
      run.emitted.Ok? ==>
        && run.entries.Keys == entries.Keys + {command}
        && run.entries[command] == Entry(run.emitted.value, later)
        && forall k :: k in entries && k != command ==> run.entries[k] == entries[k]
  {
    var run := Outcome(entries, command, now, later, false, respond);
    var cached := Lookup(entries, command);
    var rest := entries - {command};
    assert rest.Keys + {command} == entries.Keys + {command};
    if MustRecompute(cached, now) {
      var probe := Backoff(command, respond);
      if probe.help.Ok? {
        var possibilities := Suggestions(probe.help.value);
        assert run == Run(Stored(rest, command, possibilities, later, false), probe.calls, Ok(possibilities));
      }
    } else {
      var possibilities := cached.value.args;
      assert run == Run(Stored(rest, command, possibilities, later, false), [], Ok(possibilities));
    }
  }

  /** With caching off, or when probing fails, nothing is stored: the in-memory
      dictionary is the one read, less the popped command line. It is not
      written back, so the cache file keeps the command line. */
  lemma RunWithoutStore(entries: map<string, Value>, command: string, now: int, later: int,
                        cachingOff: bool, respond: Oracle)
    ensures var run := Outcome(entries, command, now, later, cachingOff, respond);
      (cachingOff || run.emitted.Err?) ==> run.entries == entries - {command}
  {
  }

  /** A cache hit makes no tool call, emits the cached suggestions, and (with
      caching on) re-stores them with a new timestamp, sliding the expiry forward. */
  lemma HitRefreshes(entries: map<string, Value>, command: string, now: int, later: int,
                     cachingOff: bool, respond: Oracle)
    requires command in entries && !MustRecompute(Some(entries[command]), now)
    ensures var run := Outcome(entries, command, now, later, cachingOff, respond);
      && run.calls == []
      && run.emitted == Ok(entries[command].args)
      && (!cachingOff ==> run.entries[command] == Entry(entries[command].args, later))
  {
  }

  /** A miss probes the tool as `Backoff` does and emits the optional arguments
      of the help text followed by its positional ones. */
  lemma MissProbes(entries: map<string, Value>, command: string, now: int, later: int,
                   cachingOff: bool, respond: Oracle)
    requires MustRecompute(Lookup(entries, command), now)
    ensures var run := Outcome(entries, command, now, later, cachingOff, respond);
      var probe := Backoff(command, respond);
      && run.calls == probe.calls
      && (probe.help.Ok? ==> run.emitted == Ok(FindOptionalArguments(probe.help.value) + FindPositionalArguments(probe.help.value)))
      && (probe.help.Err? ==> run.emitted == Err(probe.help.error))
  {
  }

  /** A second run within `MaxCachingTime` seconds of the first one's store is a
      hit: it makes no tool call and emits what the first run emitted. */
  lemma SecondRunHits(entries: map<string, Value>, command: string, now: int, later: int,
                      now2: int, later2: int, respond: Oracle)
    requires now2 - later <= MaxCachingTime
    ensures var first := Outcome(entries, command, now, later, false, respond);
      var second := Outcome(first.entries, command, now2, later2, false, respond);
      first.emitted.Ok? ==> second.calls == [] && second.emitted == first.emitted
  {
    var first := Outcome(entries, command, now, later, false, respond);
    if first.emitted.Ok? {
      RunStoresCommand(entries, command, now, later, respond);
      assert Lookup(first.entries, command) == Some(Entry(first.emitted.value, later));
    }
  }

  /** The script's main flow: pops the command line from the cache, recomputes
      the suggestions if needed, stores them and returns them (an error from the
      tool ends the run before anything is stored). */
  method Complete(currentCommand: string, cached: Cache, tool: Tool, now: int, later: int, cachingOff: bool)
    returns (r: Result<seq<string>, string>)
    modifies cached, tool
    ensures var run := Outcome(old(cached.entries), currentCommand, now, later, cachingOff, tool.respond);
      && cached.entries == run.entries
      && tool.calls == old(tool.calls) + run.calls
      && r == run.emitted
  {
    var cachedResult := cached.Pop(currentCommand);
    var possibilities: seq<string>;
    if MustRecompute(cachedResult, now) {
      var helpInput := CallRasaUntilValid(currentCommand, tool);
      if helpInput.Err? {
        return Err(helpInput.error);
      }
      // The source names these the other way round; the optional ones come first.
      var positionalArguments := FindOptionalArguments(helpInput.value);
      var optionalArguments := FindPositionalArguments(helpInput.value);
      possibilities := positionalArguments + optionalArguments;
    } else {
      possibilities := cachedResult.value.args;
    }
    StoreCache(currentCommand, possibilities, cached, later, cachingOff);
    r := Ok(possibilities);
  }
}
