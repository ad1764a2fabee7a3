/**
 * Worked examples: lemmas about the model on small fixed inputs, chosen where
 * the behaviour of rasa_complete.py is easy to misread: the positional pieces keep their inner
 * spaces, a flag right after `[` is not reported, and the prober retries only
 * once.
 */
module Scenarios {
  import opened Wrappers
  import opened Strings
  import opened HelpText
  import opened Probe

  /** A one-line text that begins with `{` and ends with `}` captures everything in between. */
  lemma WholeLineGroup(t: string)
    requires |t| >= 2 && t[0] == '{' && t[|t| - 1] == '}' && '\n' !in t
    ensures CapturedGroup(t) == Some(t[1..|t| - 1])
  {
    assert forall k :: 0 <= k < |t| ==> t[k] != '\n';
    assert CloseAt(t, 0) == Some(|t| - 1);
  }

  /** "{a, b}" gives "a" and " b": the group is stripped as a whole and the
      pieces are not, so the second piece keeps its leading space. */
  lemma PositionalKeepsInnerSpaces(t: string)
    requires t == "{a, b}"
    ensures FindPositionalArguments(t) == ["a", " b"]
  {
    WholeLineGroup(t);
    assert t[1..5] == "a, b";
    StripUnpadded(t[1..5]);
    var pieces := ["a", " b"];
    assert pieces[1..] == [" b"];
    assert Join(pieces[1..], ',') == " b";
    assert "a" + [','] + " b" == "a, b";
    assert Join(pieces, ',') == "a, b";
    assert ',' !in "a" && ',' !in " b";
    PositionalPiecesDetermined(t, pieces);
  }

  /** The greedy group runs to the last `}` of its line: "{a}{b}" captures "a}{b". */
  lemma PositionalGreedyAcrossGroups(t: string)
    requires t == "{a}{b}"
    ensures FindPositionalArguments(t) == ["a}{b"]
  {
    WholeLineGroup(t);
    var g := t[1..5];
    StripUnpadded(g);
    assert forall k :: 0 <= k < |g| ==> g[k] != ',';
    PositionalPiecesDetermined(t, [g]);
    assert g == "a}{b";
  }

  /** "{}" gives a single empty piece, as `"".split(",")` does. */
  lemma EmptyBraces(t: string)
    requires t == "{}"
    ensures FindPositionalArguments(t) == [""]
  {
    assert CloseAt(t, 0) == Some(1);
    PositionalPiecesDetermined(t, [""]);
  }

  /** "{a\nb}" has no positional arguments: its only braces are on different lines. */
  lemma PositionalNeedsOneLine()
    ensures FindPositionalArguments("{a\nb}") == []
  {
    var t := "{a\nb}";
    forall a: nat, b: nat ensures !BracedOnLine(t, a, b) {
      if a == 0 && b == 4 {
        assert t[2] == '\n';
      }
    }
  }

  /** From `p` on, a text where the pattern can begin nowhere has no matches. */
  lemma {:induction false} NoFlagFrom(s: string, p: nat)
    requires p <= |s|
    requires forall q: nat :: !FlagAt(s, q)
    ensures FlagSpans(s, p) == []
    decreases |s| - p
  {
    if p < |s| {
      NoFlagFrom(s, p + 1);
    }
  }

  /** No span can be reported where the pattern cannot begin. */
  lemma NoFlagNoSpans(s: string)
    requires forall q: nat :: !FlagAt(s, q)
    ensures FindOptionalArguments(s) == []
  {
    NoFlagFrom(s, 0);
  }

  /** A flag immediately after `[` is not reported. */
  lemma BracketedFlagSkipped()
    ensures FindOptionalArguments("x[--hidden") == []
  {
    var s := "x[--hidden";
    forall q: nat ensures !FlagAt(s, q) {
      if q == 1 {
        assert s[1] == '[';
      }
    }
    NoFlagNoSpans(s);
  }

  /** A flag after a space is reported without that space. */
  lemma FlagAfterSpace(t: string)
    requires t == " --a"
    ensures FindOptionalArguments(t) == ["--a"]
  {
    assert FlagAt(t, 0);
    assert RunEnd(t, 1) == 4;
    assert FlagSpans(t, 0) == [Span(1, 4)];
    assert t[1..4] == "--a";
  }

  /** A flag at the very start of the text is not reported: the pattern needs a
      character before the dashes. */
  lemma FlagAtStartSkipped(t: string)
    requires t == "--a"
    ensures FindOptionalArguments(t) == []
  {
    NoFlagNoSpans(t);
  }

  /** A tool whose help works only for "a" alone. */
  function OnlyA(args: seq<string>): Result<string, string> {
    if args == ["a", HelpFlag] then Ok("usage: a") else Err("invalid choice")
  }

  /** The command line "a b c" splits into its three letters. */
  lemma ThreeTokens(command: string)
    requires command == "a b c"
    ensures Tokens(command) == ["a", "b", "c"]
  {
    assert Join(["a", "b", "c"], ' ') == command;
    TokensOfJoin(["a", "b", "c"]);
  }

  /** For "a b c" with only "a" valid, the prober tries "a b c --help" and
      "a b --help", and the second failure is the result: it never reaches "a --help". */
  lemma SingleRetry(command: string)
    requires command == "a b c"
    ensures Backoff(command, OnlyA) ==
      ProbeResult([["a", "b", "c", HelpFlag], ["a", "b", HelpFlag]], Err("invalid choice"))
  {
    ThreeTokens(command);
    var tokens := Tokens(command);
    assert DropLast(tokens) == ["a", "b"];
    var first := tokens + [HelpFlag];
    var second := DropLast(tokens) + [HelpFlag];
    assert first != ["a", HelpFlag] && second != ["a", HelpFlag];
    var e := OnlyA(first).error;
    assert |e| < |ExpectedArgumentError|;
    assert !Contains(e, ExpectedArgumentError);
    assert OnlyA(second) == Err("invalid choice");
    var p := Backoff(command, OnlyA);
    assert p.calls[0] == first && |p.calls| == 2;
    assert p.calls == [first, second];
    assert first == ["a", "b", "c", HelpFlag] && second == ["a", "b", HelpFlag];
    assert p.help == Err("invalid choice");
  }
}
