/**
 * The pieces of Python's string library that the completion script relies on:
 * the whitespace class shared by `str.split()`, `str.strip()` and the regex
 * class `\s`, and `str.strip()`, `str.split(sep)`, `str.split()` and `sep.join`.
 */
module Strings {

  /** Python's `str.isspace` for a single code point: the characters that
      `str.split()`, `str.strip()` and `\s` treat as whitespace. */
  predicate IsSpace(c: char) {
    var n := c as int;
    (9 <= n <= 13) || (28 <= n <= 32) || n == 0x85 || n == 0xA0 || n == 0x1680
    || (0x2000 <= n <= 0x200A) || n == 0x2028 || n == 0x2029 || n == 0x202F
    || n == 0x205F || n == 0x3000
  }

  predicate NoSpace(s: string) {
    forall k :: 0 <= k < |s| ==> !IsSpace(s[k])
  }

  predicate AllSpace(s: string) {
    forall k :: 0 <= k < |s| ==> IsSpace(s[k])
  }

  /** The end of the maximal run of non-whitespace characters that starts at `i`. */
  function RunEnd(s: string, i: nat): (e: nat)
    requires i <= |s|
    ensures i <= e <= |s|
    ensures NoSpace(s[i..e])
    ensures e == |s| || IsSpace(s[e])
    decreases |s| - i
  {
    if i == |s| || IsSpace(s[i]) then i else RunEnd(s, i + 1)
  }

  /** A run boundary is determined by its contents: whoever finds one finds `RunEnd`. */
  lemma {:induction false} RunEndAt(s: string, i: nat, e: nat)
    requires i <= e <= |s|
    requires NoSpace(s[i..e])
    requires e == |s| || IsSpace(s[e])
    ensures RunEnd(s, i) == e
    decreases e - i
  {
    if i < e {
      assert !IsSpace(s[i..e][0]);
      assert s[i + 1..e] == s[i..e][1..];
      RunEndAt(s, i + 1, e);
    }
  }

  /** `s` lies in `t` at offset `a`, with only whitespace around it. */
  predicate StrippedAt(t: string, s: string, a: nat) {
    a + |s| <= |t| && t[a..a + |s|] == s && AllSpace(t[..a]) && AllSpace(t[a + |s|..])
  }

  /** The first index at or after `i` that does not hold whitespace, or `|s|`. */
  function SkipSpace(s: string, i: nat): (e: nat)
    requires i <= |s|
    ensures i <= e <= |s|
    ensures forall k :: i <= k < e ==> IsSpace(s[k])
    ensures e == |s| || !IsSpace(s[e])
    decreases |s| - i
  {
    if i == |s| || !IsSpace(s[i]) then i else SkipSpace(s, i + 1)
  }

  /** The start of the run of whitespace that ends at `j`. */
  function SpaceTail(s: string, j: nat): (e: nat)
    requires j <= |s|
    ensures e <= j
    ensures forall k :: e <= k < j ==> IsSpace(s[k])
    ensures e == 0 || !IsSpace(s[e - 1])
  {
    if j == 0 || !IsSpace(s[j - 1]) then j else SpaceTail(s, j - 1)
  }

  /** `s.strip()`: whitespace removed from both ends. */
  function Strip(s: string): string {
    var a := SkipSpace(s, 0);
    var b := SpaceTail(s, |s|);
    if a < b then s[a..b] else []
  }

  /** What `strip` returns is the infix of `s` left after removing whitespace
      from both ends: it sits in `s` with only whitespace around it, and neither
      begins nor ends with whitespace. */
  lemma StripIsTrimmedInfix(s: string) returns (a: nat)
    ensures StrippedAt(s, Strip(s), a)
    ensures var r := Strip(s); r == [] || (!IsSpace(r[0]) && !IsSpace(r[|r| - 1]))
  {
    var b := SpaceTail(s, |s|);
    a := SkipSpace(s, 0);
    if b <= a {
      // Every character is whitespace: it lies before `a` or at or after `b`.
      assert forall k :: 0 <= k < |s| ==> IsSpace(s[k]);
      a := 0;
    }
  }

  /** A text that neither begins nor ends with whitespace is its own strip;
      in particular, so is every text without whitespace. */
  lemma StripUnpadded(s: string)
    requires s == [] || (!IsSpace(s[0]) && !IsSpace(s[|s| - 1]))
    ensures Strip(s) == s
  {
    if s != [] {
      assert SkipSpace(s, 0) == 0;
      assert SpaceTail(s, |s|) == |s|;
      assert s[0..|s|] == s;
    }
  }

  /** `sep.join(pieces)` */
  function Join(pieces: seq<string>, sep: char): string
    decreases |pieces|
  {
    if pieces == [] then []
    else if |pieces| == 1 then pieces[0]
    else pieces[0] + [sep] + Join(pieces[1..], sep)
  }

  lemma JoinConsHead(c: char, x: string, t: seq<string>, sep: char)
    ensures Join([[c] + x] + t, sep) == [c] + Join([x] + t, sep)
  {
    if t != [] {
      assert ([[c] + x] + t)[1..] == t;
      assert ([x] + t)[1..] == t;
    }
  }

  /** `s.split(sep)` for a one-character separator: the pieces between
      separators, never empty as a list, and rejoined they give back `s`. */
  function Split(s: string, sep: char): (r: seq<string>)
    ensures |r| >= 1
    ensures forall k :: 0 <= k < |r| ==> sep !in r[k]
    ensures Join(r, sep) == s
    decreases |s|
  {
    if s == [] then [[]]
    else
      var rest := Split(s[1..], sep);
      if s[0] == sep then
        assert ([[]] + rest)[1..] == rest;
        [[]] + rest
      else
        JoinConsHead(s[0], rest[0], rest[1..], sep);
        assert [rest[0]] + rest[1..] == rest;
        [[s[0]] + rest[0]] + rest[1..]
  }

  /** Splitting a text that starts with a separator-free `x` extends the first piece by `x`. */
  lemma {:induction false} SplitPrefix(x: string, t: string, sep: char)
    requires sep !in x
    ensures Split(x + t, sep) == [x + Split(t, sep)[0]] + Split(t, sep)[1..]
    decreases |x|
  {
    var st := Split(t, sep);
    if x == [] {
      assert x + t == t;
      assert x + st[0] == st[0];
      assert [st[0]] + st[1..] == st;
    } else {
      assert (x + t)[1..] == x[1..] + t;
      assert (x + t)[0] == x[0];
      SplitPrefix(x[1..], t, sep);
      var rest := Split(x[1..] + t, sep);
      assert rest[0] == x[1..] + st[0];
      assert rest[1..] == st[1..];
      assert [x[0]] + (x[1..] + st[0]) == x + st[0];
    }
  }

  /** `split` undoes `join`: separator-free pieces come back unchanged. */
  lemma {:induction false} SplitJoin(pieces: seq<string>, sep: char)
    requires |pieces| >= 1
    requires forall k :: 0 <= k < |pieces| ==> sep !in pieces[k]
    ensures Split(Join(pieces, sep), sep) == pieces
    decreases |pieces|
  {
    if |pieces| == 1 {
      SplitPrefix(pieces[0], [], sep);
      assert pieces[0] + [] == pieces[0];
    } else {
      var tail := Join(pieces[1..], sep);
      assert Join(pieces, sep) == pieces[0] + ([sep] + tail);
      SplitPrefix(pieces[0], [sep] + tail, sep);
      assert ([sep] + tail)[1..] == tail;
      assert Split([sep] + tail, sep) == [[]] + Split(tail, sep);
      SplitJoin(pieces[1..], sep);
      assert pieces[0] + [] == pieces[0];
      assert [pieces[0]] + pieces[1..] == pieces;
    }
  }

  /** `s` with every whitespace character removed. */
  function Unspaced(s: string): string
    decreases |s|
  {
    if s == [] then [] else (if IsSpace(s[0]) then [] else [s[0]]) + Unspaced(s[1..])
  }

  lemma {:induction false} UnspacedAppend(a: string, b: string)
    ensures Unspaced(a + b) == Unspaced(a) + Unspaced(b)
    decreases |a|
  {
    if a == [] {
      assert a + b == b;
    } else {
      assert (a + b)[0] == a[0];
      assert (a + b)[1..] == a[1..] + b;
      UnspacedAppend(a[1..], b);
    }
  }

  lemma {:induction false} UnspacedNoSpace(a: string)
    requires NoSpace(a)
    ensures Unspaced(a) == a
    decreases |a|
  {
    if a != [] {
      UnspacedNoSpace(a[1..]);
    }
  }

  /** The concatenation of a list of strings. */
  function Concat(pieces: seq<string>): string
    decreases |pieces|
  {
    if pieces == [] then [] else pieces[0] + Concat(pieces[1..])
  }

  /** `s.split()` with no argument: the maximal runs of non-whitespace, in order.
      No token is empty or holds whitespace, and together they are exactly the
      non-whitespace characters of `s`. */
  function Tokens(s: string): (r: seq<string>)
    ensures forall k :: 0 <= k < |r| ==> r[k] != [] && NoSpace(r[k])
    ensures Concat(r) == Unspaced(s)
    decreases |s|
  {
    if s == [] then []
    else if IsSpace(s[0]) then Tokens(s[1..])
    else
      var e := RunEnd(s, 0);
      var rest := Tokens(s[e..]);
      assert s == s[..e] + s[e..];
      UnspacedAppend(s[..e], s[e..]);
      UnspacedNoSpace(s[..e]);
      assert ([s[..e]] + rest)[1..] == rest;
      [s[..e]] + rest
  }

  /** `split()` undoes a join on single spaces of non-empty, whitespace-free tokens. */
  lemma {:induction false} TokensOfJoin(tokens: seq<string>)
    requires forall k :: 0 <= k < |tokens| ==> tokens[k] != [] && NoSpace(tokens[k])
    ensures Tokens(Join(tokens, ' ')) == tokens
    decreases |tokens|
  {
    if tokens != [] {
      var t := tokens[0];
      var rest := if |tokens| == 1 then [] else [' '] + Join(tokens[1..], ' ');
      var s := t + rest;
      assert s == Join(tokens, ' ');
      assert s[..|t|] == t;
      assert s[|t|..] == rest;
      RunEndAt(s, 0, |t|);
      assert !IsSpace(s[0]);
      if |tokens| > 1 {
        assert rest[1..] == Join(tokens[1..], ' ');
        TokensOfJoin(tokens[1..]);
      }
      assert tokens == [t] + tokens[1..];
    }
  }

  /** `split()` cuts at every whitespace character: the tokens of a text with a
      whitespace character in it are the tokens before it followed by those
      after it. With `TokensOfJoin` on a single token this fixes the tokens of
      every text: the maximal runs of non-whitespace, in order. */
  lemma {:induction false} TokensSplitsAtSpace(a: string, c: char, b: string)
    requires IsSpace(c)
    ensures Tokens(a + [c] + b) == Tokens(a) + Tokens(b)
    decreases |a|
  {
    var s := a + [c] + b;
    if a == [] {
      assert s[1..] == b;
    } else if IsSpace(a[0]) {
      assert s[0] == a[0];
      assert s[1..] == a[1..] + [c] + b;
      TokensSplitsAtSpace(a[1..], c, b);
    } else {
      var e := RunEnd(a, 0);
      assert s[..e] == a[..e];
      assert e < |a| ==> s[e] == a[e];
      assert e == |a| ==> s[e] == c;
      RunEndAt(s, 0, e);
      assert s[0] == a[0];
      assert s[e..] == a[e..] + [c] + b;
      TokensSplitsAtSpace(a[e..], c, b);
      assert Tokens(a) == [a[..e]] + Tokens(a[e..]);
    }
  }

  /** `sub in s` for Python strings: `sub` occurs in `s` as an infix. */
  predicate Contains(s: string, sub: string)
    decreases |s|
  {
    |sub| <= |s| && (s[..|sub|] == sub || Contains(s[1..], sub))
  }

  /** An infix is always found. */
  lemma {:induction false} ContainsInfix(a: string, sub: string, b: string)
    ensures Contains(a + sub + b, sub)
    decreases |a|
  {
    var s := a + sub + b;
    if a == [] {
      assert s[..|sub|] == sub;
    } else {
      assert s[1..] == a[1..] + sub + b;
      ContainsInfix(a[1..], sub, b);
    }
  }

  /** Whatever is found is an infix: the offset where it occurs. */
  lemma {:induction false} ContainsWitness(s: string, sub: string) returns (i: nat)
    requires Contains(s, sub)
    ensures i + |sub| <= |s| && s[i..i + |sub|] == sub
    decreases |s|
  {
    if s[..|sub|] == sub {
      i := 0;
    } else {
      var j := ContainsWitness(s[1..], sub);
      assert s[1..][j..j + |sub|] == s[j + 1..j + 1 + |sub|];
      i := j + 1;
    }
  }

  /** Python's `s[:-1]`: everything but the last element; empty stays empty. */
  function DropLast<T>(s: seq<T>): (r: seq<T>)
    ensures s == [] ==> r == []
    ensures s != [] ==> r + [s[|s| - 1]] == s
  {
    if s == [] then [] else s[..|s| - 1]
  }
}
