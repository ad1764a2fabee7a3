/**
 * The command prober of rasa_complete.py: `call_rasa` appends "--help" to the
 * argument list it is given and runs the tool; `call_rasa_until_valid` tries the
 * whole command line once and, unless the tool says an argument value is still
 * missing, retries exactly once with the last token dropped.
 *
 * The tool is an oracle from an argument list to `Ok(stdout)` or `Err(stderr)`
 * (a non-zero exit status); a `Tool` object records every argument list it is
 * run with, so that contracts can speak of the calls made.
 */
module Probe {
  import opened Wrappers
  import opened Strings

  /** The stderr phrase by which the tool reports an argument that still lacks its value. */
  const ExpectedArgumentError := "expected one argument"

  const HelpFlag := "--help"

  /** What running the tool with an argument list yields. */
  type Oracle = seq<string> -> Result<string, string>

  /** A Python list of strings, which the code changes in place. */
  class ArgList {
    var items: seq<string>

    constructor (items: seq<string>)
      ensures this.items == items
    {
      this.items := items;
    }

    /** `list.append(x)` */
    method Append(x: string)
      modifies this
      ensures items == old(items) + [x]
    {
      items := items + [x];
    }

    /** `list.copy()`: a new list with the same items. */
    method Copy() returns (c: ArgList)
      ensures fresh(c) && c.items == items
    {
      c := new ArgList(items);
    }

    /** `list[:-1]`: a new list without the last item; an empty list stays empty. */
    method DropLastItem() returns (c: ArgList)
      ensures fresh(c) && c.items == DropLast(items)
    {
      c := new ArgList(DropLast(items));
    }
  }

  /** The wrapped command-line tool: a fixed oracle and the log of the argument
      lists it has been run with. */
  class Tool {
    const respond: Oracle
    var calls: seq<seq<string>>

    constructor (respond: Oracle)
      ensures this.respond == respond && calls == []
    {
      this.respond := respond;
      calls := [];
    }

    /** `subprocess.check_output(args)`: one run of the tool. */
    method Run(args: seq<string>) returns (r: Result<string, string>)
      modifies this
      ensures calls == old(calls) + [args]
      ensures r == respond(args)
    {
      calls := calls + [args];
      r := respond(args);
    }
  }

  /** call_rasa: appends "--help" to `command` in place and runs the tool with it. */
  method CallRasa(command: ArgList, tool: Tool) returns (r: Result<string, string>)
    modifies command, tool
    ensures command.items == old(command.items) + [HelpFlag]
    ensures tool.calls == old(tool.calls) + [command.items]
    ensures r == tool.respond(command.items)
  {
    command.Append(HelpFlag);
    r := tool.Run(command.items);
  }

  /** The calls made by one probe and the help text it produces (or the error it propagates). */
  datatype ProbeResult = ProbeResult(calls: seq<seq<string>>, help: Result<string, string>)

  /** What call_rasa_until_valid does, for a given oracle. At most two calls are
      made. The first passes the whole command line's tokens and "--help"; its
      output, if it succeeds, is the help text. A failure whose stderr reports a
      missing argument value gives the empty help text and no further call; any
      other failure leads to exactly one more call, with the last token dropped,
      whose outcome is the result. So an error can only come from that second call. */
  function Backoff(command: string, respond: Oracle): (p: ProbeResult)
    ensures 1 <= |p.calls| <= 2
    ensures p.calls[0] == Tokens(command) + [HelpFlag]
    ensures |p.calls| == 2 <==>
      respond(p.calls[0]).Err? && !Contains(respond(p.calls[0]).error, ExpectedArgumentError)
    ensures |p.calls| == 2 ==> p.calls[1] == DropLast(Tokens(command)) + [HelpFlag]
    ensures |p.calls| == 2 ==> p.help == respond(p.calls[1])
    ensures |p.calls| == 1 && respond(p.calls[0]).Ok? ==> p.help == respond(p.calls[0])
    ensures |p.calls| == 1 && respond(p.calls[0]).Err? ==> p.help == Ok("")
    ensures p.help.Err? ==> |p.calls| == 2
  {
    var tokens := Tokens(command);
    var first := tokens + [HelpFlag];
    match respond(first)
    case Ok(stdout) => ProbeResult([first], Ok(stdout))
    case Err(stderr) =>
      if Contains(stderr, ExpectedArgumentError) then ProbeResult([first], Ok(""))
      else
        var second := DropLast(tokens) + [HelpFlag];
        ProbeResult([first, second], respond(second))
  }

  /** Every probed argument list is "--help" after a prefix of the command
      line's tokens that is at most one token shorter than all of them. */
  lemma BackoffProbesPrefixes(command: string, respond: Oracle)
    ensures var p := Backoff(command, respond);
      forall k :: 0 <= k < |p.calls| ==>
        && |p.calls[k]| >= 1
        && p.calls[k][|p.calls[k]| - 1] == HelpFlag
        && p.calls[k][..|p.calls[k]| - 1] <= Tokens(command)
        && |p.calls[k]| >= |Tokens(command)|
  {
    var tokens := Tokens(command);
    var p := Backoff(command, respond);
    assert (tokens + [HelpFlag])[..|tokens|] == tokens;
    if |p.calls| == 2 {
      var d := DropLast(tokens);
      assert (d + [HelpFlag])[..|d|] == d;
      if tokens != [] {
        assert d == tokens[..|tokens| - 1];
      }
    }
  }

  /** The probe consults the tool only at the argument lists it records: two
      tools that agree there give the same calls and the same result. */
  lemma BackoffDependsOnlyOnCalls(command: string, respond: Oracle, other: Oracle)
    requires var p := Backoff(command, respond);
      forall k :: 0 <= k < |p.calls| ==> respond(p.calls[k]) == other(p.calls[k])
    ensures Backoff(command, respond) == Backoff(command, other)
  {
    var p := Backoff(command, respond);
    assert respond(p.calls[0]) == other(p.calls[0]);
  }

  /** The missing-argument signal is recognised wherever it stands in stderr. */
  lemma BackoffStopsOnExpectedArgument(command: string, respond: Oracle, before: string, after: string)
    requires respond(Tokens(command) + [HelpFlag]) == Err(before + ExpectedArgumentError + after)
    ensures Backoff(command, respond) == ProbeResult([Tokens(command) + [HelpFlag]], Ok(""))
  {
    ContainsInfix(before, ExpectedArgumentError, after);
  }

  /** call_rasa_until_valid: runs the tool as `Backoff` describes and returns its
      help text or its error. The token list is copied before the first call,
      which appends to the copy, so the retry drops the last TOKEN, not "--help". */
  method CallRasaUntilValid(command: string, tool: Tool) returns (r: Result<string, string>)
    modifies tool
    ensures tool.calls == old(tool.calls) + Backoff(command, tool.respond).calls
    ensures r == Backoff(command, tool.respond).help
  {
    var commandAsArray := new ArgList(Tokens(command));
    var copy := commandAsArray.Copy();
    r := CallRasa(copy, tool);
    assert commandAsArray.items == Tokens(command);
    if r.Err? {
      if Contains(r.error, ExpectedArgumentError) {
        // An argument value is expected (a path, a port, ...).
        r := Ok("");
      } else {
        var shorter := commandAsArray.DropLastItem();
        r := CallRasa(shorter, tool);
      }
    }
  }
}
