/**
 * The two help-text extractors of rasa_complete.py, each a fixed regular
 * expression written out as index arithmetic on the text:
 *
 *   find_positional_arguments: `re.search(r"{(.*)}")`, then strip and split on ","
 *   find_optional_arguments:   `re.findall(r"[^\[](--[^\s]+)")`, each group stripped
 *
 * Python's `.` matches every character except a line feed, and `\s` is the
 * whitespace class of `Strings.IsSpace`.
 */
module HelpText {
  import opened Wrappers
  import opened Strings

  // ---------------------------------------------------------------------------
  // find_positional_arguments
  // ---------------------------------------------------------------------------

  /** `{` at `i` and `}` at `j` on the same line: the pattern `{(.*)}` matches `s[i..j + 1]`. */
  predicate BracedOnLine(s: string, i: nat, j: nat) {
    i < j < |s| && s[i] == '{' && s[j] == '}' && forall k :: i < k < j ==> s[k] != '\n'
  }

  /** The first line feed at or after `i`, or the end of the text. */
  function LineEnd(s: string, i: nat): (e: nat)
    requires i <= |s|
    ensures i <= e <= |s|
    ensures forall k :: i <= k < e ==> s[k] != '\n'
    ensures e == |s| || s[e] == '\n'
    decreases |s| - i
  {
    if i == |s| || s[i] == '\n' then i else LineEnd(s, i + 1)
  }

  /** The last `}` in `s[lo..hi]`, if there is one. */
  function LastClose(s: string, lo: nat, hi: nat): (r: Option<nat>)
    requires lo <= hi <= |s|
    ensures r.None? ==> forall k :: lo <= k < hi ==> s[k] != '}'
    ensures r.Some? ==> lo <= r.value < hi && s[r.value] == '}'
    ensures r.Some? ==> forall k :: r.value < k < hi ==> s[k] != '}'
    decreases hi - lo
  {
    if lo == hi then None
    else if s[hi - 1] == '}' then Some(hi - 1)
    else LastClose(s, lo, hi - 1)
  }

  /** Where the greedy `.*` stops when the pattern is tried with its `{` at `i`:
      the last `}` of that line. `None` when the pattern cannot match there. */
  function CloseAt(s: string, i: nat): (r: Option<nat>)
    requires i < |s|
    ensures r.Some? ==> BracedOnLine(s, i, r.value)
    ensures forall j: nat :: BracedOnLine(s, i, j) ==> r.Some? && j <= r.value
  {
    if s[i] == '{' then
      LastClose(s, i + 1, LineEnd(s, i + 1))
    else None
  }

  /** A match of `{(.*)}`: the indices of its `{` and its `}`. */
  datatype Match = Match(open: nat, close: nat)

  /** `re.search` from position `i`: the leftmost start where the pattern matches,
      with the longest match there. */
  function Search(s: string, i: nat): (r: Option<Match>)
    requires i <= |s|
    ensures r.None? ==> forall a: nat, b: nat :: i <= a ==> !BracedOnLine(s, a, b)
    ensures r.Some? ==> i <= r.value.open && BracedOnLine(s, r.value.open, r.value.close)
    ensures r.Some? ==> forall a: nat, b: nat :: i <= a < r.value.open ==> !BracedOnLine(s, a, b)
    ensures r.Some? ==> forall b: nat :: BracedOnLine(s, r.value.open, b) ==> b <= r.value.close
    decreases |s| - i
  {
    if i == |s| then None
    else
      match CloseAt(s, i)
      case Some(j) => Some(Match(i, j))
      case None => Search(s, i + 1)
  }

  /** `matched.group(1)`: what `(.*)` captures, if the pattern matches at all.
      It starts right after the leftmost `{` that has a `}` later on its line,
      ends at the last `}` of that line, and so never holds a line feed, though
      it may hold further braces. */
  function CapturedGroup(text: string): (g: Option<string>)
    ensures g.None? <==> forall a: nat, b: nat :: !BracedOnLine(text, a, b)
    ensures g.Some? ==> '\n' !in g.value
    ensures g.Some? ==> exists m: Match :: IsFirstGreedyMatch(text, m) && g.value == text[m.open + 1..m.close]
  {
    match Search(text, 0)
    case None => None
    case Some(m) =>
      var g := text[m.open + 1..m.close];
      assert forall k :: 0 <= k < |g| ==> g[k] == text[m.open + 1 + k];
      assert IsFirstGreedyMatch(text, m);
      Some(g)
  }

  /** `m` is the match `re.search` reports: no match begins further left, and
      none that begins at the same `{` is longer. */
  ghost predicate IsFirstGreedyMatch(text: string, m: Match) {
    && BracedOnLine(text, m.open, m.close)
    && (forall a: nat, b: nat :: a < m.open ==> !BracedOnLine(text, a, b))
    && (forall b: nat :: BracedOnLine(text, m.open, b) ==> b <= m.close)
  }

  /** find_positional_arguments: empty exactly when no `{` has a `}` after it on
      its line; otherwise the comma-separated pieces of the stripped group, which
      joined by "," give that stripped group back. Only the group as a whole is
      stripped, so a piece may begin or end with whitespace. */
  function FindPositionalArguments(text: string): (r: seq<string>)
    ensures r == [] <==> forall a: nat, b: nat :: !BracedOnLine(text, a, b)
    ensures CapturedGroup(text).Some? ==> Join(r, ',') == Strip(CapturedGroup(text).value)
    ensures forall k :: 0 <= k < |r| ==> ',' !in r[k]
  {
    match CapturedGroup(text)
    case None => []
    case Some(g) => Split(Strip(g), ',')
  }

  /** The pieces are determined by the stripped group: they are exactly its split. */
  lemma PositionalPiecesDetermined(text: string, pieces: seq<string>)
    requires CapturedGroup(text).Some?
    requires |pieces| >= 1 && forall k :: 0 <= k < |pieces| ==> ',' !in pieces[k]
    requires Join(pieces, ',') == Strip(CapturedGroup(text).value)
    ensures FindPositionalArguments(text) == pieces
  {
    SplitJoin(pieces, ',');
  }

  // ---------------------------------------------------------------------------
  // find_optional_arguments
  // ---------------------------------------------------------------------------

  /** `[^\[](--[^\s]+)` can match with its first character at `p`: a character
      other than `[`, two dashes, and at least one non-whitespace character. */
  predicate FlagAt(s: string, p: nat) {
    p + 3 < |s| && s[p] != '[' && s[p + 1] == '-' && s[p + 2] == '-' && !IsSpace(s[p + 3])
  }

  /** The group of one `findall` match: `s[start..end]`. */
  datatype Span = Span(start: nat, end: nat)

  /** A span is a match: the consumed character before it can start the pattern,
      and the group runs to the end of its run of non-whitespace. */
  predicate IsFlag(s: string, sp: Span) {
    1 <= sp.start <= |s| && FlagAt(s, sp.start - 1) && sp.end == RunEnd(s, sp.start)
  }

  /** `findall` from position `p`: try the pattern at `p`; on a match resume
      after it, otherwise at `p + 1`. */
  function FlagSpans(s: string, p: nat): (r: seq<Span>)
    requires p <= |s|
    ensures forall k :: 0 <= k < |r| ==> IsFlag(s, r[k]) && p < r[k].start
    decreases |s| - p
  {
    if p == |s| then []
    else if FlagAt(s, p) then
      var e := RunEnd(s, p + 1);
      [Span(p + 1, e)] + FlagSpans(s, e)
    else FlagSpans(s, p + 1)
  }

  predicate InOrder(r: seq<Span>) {
    forall k :: 0 < k < |r| ==> r[k - 1].end <= r[k].start - 1
  }

  /** Matches come in text order and never overlap: each one, with the character
      it consumes before it, begins at or after the end of the one before. */
  lemma {:induction false} FlagSpansOrdered(s: string, p: nat)
    requires p <= |s|
    ensures InOrder(FlagSpans(s, p))
    decreases |s| - p
  {
    if p < |s| {
      if FlagAt(s, p) {
        var e := RunEnd(s, p + 1);
        FlagSpansOrdered(s, e);
        var r := FlagSpans(s, p);
        assert r[0] == Span(p + 1, e);
        assert r[1..] == FlagSpans(s, e);
        assert forall k :: 1 <= k < |r| ==> r[k] == FlagSpans(s, e)[k - 1];
      } else {
        FlagSpansOrdered(s, p + 1);
        assert FlagSpans(s, p) == FlagSpans(s, p + 1);
      }
    }
  }

  /** Position `q` lies within the match `sp`, counting the character it consumes before its group. */
  predicate Covers(sp: Span, q: nat) {
    sp.start - 1 <= q < sp.end
  }

  /** No match is skipped: every place at or after `p` where the pattern could
      begin is inside a reported match (counting its consumed character). */
  lemma {:induction false} FlagSpansComplete(s: string, p: nat, q: nat)
    requires p <= q && FlagAt(s, q)
    requires p <= |s|
    ensures exists k :: 0 <= k < |FlagSpans(s, p)| && Covers(FlagSpans(s, p)[k], q)
    decreases |s| - p
  {
    var r := FlagSpans(s, p);
    if FlagAt(s, p) {
      var e := RunEnd(s, p + 1);
      if q < e {
        assert r[0] == Span(p + 1, e);
        assert Covers(r[0], q);
      } else {
        FlagSpansComplete(s, e, q);
        var rest := FlagSpans(s, e);
        var k :| 0 <= k < |rest| && Covers(rest[k], q);
        assert r[k + 1] == rest[k];
        assert Covers(r[k + 1], q);
      }
    } else {
      assert p < q;
      FlagSpansComplete(s, p + 1, q);
      assert r == FlagSpans(s, p + 1);
    }
  }

  /** find_optional_arguments: the group of each `findall` match, stripped. Each
      is `text[start..end]` for its span, starts with "--", is at least three
      characters long and holds no whitespace, so the strip changes nothing. */
  function FindOptionalArguments(text: string): (r: seq<string>)
    ensures |r| == |FlagSpans(text, 0)|
    ensures forall k :: 0 <= k < |r| ==> r[k] == Group(text, FlagSpans(text, 0)[k])
    ensures forall k :: 0 <= k < |r| ==> |r[k]| >= 3 && r[k][0] == '-' && r[k][1] == '-' && NoSpace(r[k])
  {
    StrippedGroups(text, FlagSpans(text, 0))
  }

  /** The text of a match's group: "--" and at least one more character, none of
      them whitespace. */
  function Group(s: string, sp: Span): (g: string)
    requires IsFlag(s, sp)
    ensures |g| >= 3 && g[0] == '-' && g[1] == '-' && NoSpace(g)
  {
    FlagGroup(s, sp);
    s[sp.start..sp.end]
  }

  /** `[match.strip() for match in matched]` */
  function StrippedGroups(s: string, spans: seq<Span>): (r: seq<string>)
    requires forall k :: 0 <= k < |spans| ==> IsFlag(s, spans[k])
    ensures |r| == |spans|
    ensures forall k :: 0 <= k < |r| ==> r[k] == Group(s, spans[k])
    decreases |spans|
  {
    if spans == [] then []
    else
      var g := Group(s, spans[0]);
      StripUnpadded(g);
      var head := Strip(g);
      var rest := StrippedGroups(s, spans[1..]);
      assert forall k :: 1 <= k < |spans| ==> spans[1..][k - 1] == spans[k];
      [head] + rest
  }

  /** The group of a match is "--" and at least one more character, none of
      them whitespace, so stripping it changes nothing. */
  lemma FlagGroup(s: string, sp: Span)
    requires IsFlag(s, sp)
    ensures sp.start + 3 <= sp.end <= |s|
    ensures var g := s[sp.start..sp.end]; |g| >= 3 && g[0] == '-' && g[1] == '-' && NoSpace(g)
    ensures Strip(s[sp.start..sp.end]) == s[sp.start..sp.end]
  {
    var p := sp.start;
    assert !IsSpace(s[p]) && !IsSpace(s[p + 1]) && !IsSpace(s[p + 2]);
    assert RunEnd(s, p) == RunEnd(s, p + 1) == RunEnd(s, p + 2);
    StripUnpadded(s[sp.start..sp.end]);
  }
}
