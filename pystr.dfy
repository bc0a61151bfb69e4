/** The Python string built-ins the analyzer and the guidance formatter are written with:
    `str.isspace`, `str.lower`, `in`, `str.strip`, `str.rstrip`, `str.splitlines`,
    `str.split` on one character and `str.join`. Strings are sequences of Unicode
    scalar values, as Python's `str` is. */
module PyStr {

  /** `c.isspace()`: the characters `strip()` removes and the regular-expression class
      `\s` matches in a `str` pattern. */
  predicate IsSpace(c: char) {
    || c == ' '
    || ('\t' <= c <= '\r')            // \t \n \v \f \r
    || ('\U{1c}' <= c <= '\U{1f}')    // information separators
    || c == '\U{85}' || c == '\U{a0}' || c == '\U{1680}'
    || ('\U{2000}' <= c <= '\U{200a}')
    || c == '\U{2028}' || c == '\U{2029}' || c == '\U{202f}' || c == '\U{205f}' || c == '\U{3000}'
  }

  /** A line boundary that `str.splitlines()` splits at. */
  predicate IsLineBreak(c: char) {
    || c == '\n' || c == '\r' || c == '\U{b}' || c == '\U{c}'
    || ('\U{1c}' <= c <= '\U{1e}')
    || c == '\U{85}' || c == '\U{2028}' || c == '\U{2029}'
  }

  predicate IsUpper(c: char) { 'A' <= c <= 'Z' }

  /** An ASCII capital becomes the small letter at the same place in the alphabet;
      every other character is kept. */
  function LowerChar(c: char): (l: char)
    ensures IsUpper(c) ==> 'a' <= l <= 'z' && l as int - 'a' as int == c as int - 'A' as int
    ensures !IsUpper(c) ==> l == c
  {
    if IsUpper(c) then (c as int + 32) as char else c
  }

  /** `s.lower()` for the ASCII letters. */
  function Lower(s: string): (r: string)
    ensures |r| == |s|
    ensures forall i :: 0 <= i < |r| ==> !IsUpper(r[i])
    ensures forall i :: 0 <= i < |s| ==> r[i] == LowerChar(s[i])
  {
    seq(|s|, i requires 0 <= i < |s| => LowerChar(s[i]))
  }

  predicate OccursAt(s: string, sub: string, i: nat) {
    i + |sub| <= |s| && s[i..i + |sub|] == sub
  }

  /** Python's `sub in s`. */
  predicate Contains(s: string, sub: string) {
    exists i: nat :: i <= |s| && OccursAt(s, sub, i)
  }

  /** A list without repeated elements. */
  predicate Distinct<T(==)>(xs: seq<T>) {
    forall i, j :: 0 <= i < j < |xs| ==> xs[i] != xs[j]
  }

  predicate IsBlank(s: string) {
    forall i :: 0 <= i < |s| ==> IsSpace(s[i])
  }

  predicate IsStripped(s: string) {
    s == [] || (!IsSpace(s[0]) && !IsSpace(s[|s| - 1]))
  }

  function LeadingSpaces(s: string): (n: nat)
    ensures n <= |s|
    ensures IsBlank(s[..n])
    ensures n < |s| ==> !IsSpace(s[n])
  {
    if s != [] && IsSpace(s[0]) then 1 + LeadingSpaces(s[1..]) else 0
  }

  function TrailingSpaces(s: string): (n: nat)
    ensures n <= |s|
    ensures IsBlank(s[|s| - n..])
    ensures n < |s| ==> !IsSpace(s[|s| - 1 - n])
  {
    if s != [] && IsSpace(s[|s| - 1]) then 1 + TrailingSpaces(s[..|s| - 1]) else 0
  }

  /** `s.strip()`: the slice of `s` left after removing the whitespace at both ends. */
  function Strip(s: string): (r: string)
    ensures IsStripped(r)
    ensures r == [] <==> IsBlank(s)
  {
    var t := s[LeadingSpaces(s)..];
    t[..|t| - TrailingSpaces(t)]
  }

  /** What `strip()` removes is whitespace at the two ends and nothing else. */
  lemma StripIsSlice(s: string)
    ensures exists lo, hi :: 0 <= lo <= hi <= |s| && Strip(s) == s[lo..hi] && IsBlank(s[..lo]) && IsBlank(s[hi..])
  {
    var lo := LeadingSpaces(s);
    var t := s[lo..];
    var hi := lo + |t| - TrailingSpaces(t);
    assert t[..|t| - TrailingSpaces(t)] == s[lo..hi];
    assert s[hi..] == t[|t| - TrailingSpaces(t)..];
  }

  lemma StripStripped(s: string)
    requires IsStripped(s)
    ensures Strip(s) == s
  {
  }

  /** `s.rstrip(c)` for a one-character argument. */
  function RStrip(s: string, c: char): (r: string)
    ensures r <= s
    ensures r == [] || r[|r| - 1] != c
    ensures forall i :: |r| <= i < |s| ==> s[i] == c
  {
    if s != [] && s[|s| - 1] == c then RStrip(s[..|s| - 1], c) else s
  }

  function FirstBreak(s: string): (k: nat)
    ensures k <= |s|
    ensures forall i :: 0 <= i < k ==> !IsLineBreak(s[i])
    ensures k < |s| ==> IsLineBreak(s[k])
  {
    if s == [] || IsLineBreak(s[0]) then 0 else 1 + FirstBreak(s[1..])
  }

  /** The width of the boundary at `k`: two for `\r\n`, otherwise one. */
  function BreakWidth(s: string, k: nat): (w: nat)
    requires k < |s|
    ensures 1 <= w <= |s| - k
  {
    if s[k] == '\r' && k + 1 < |s| && s[k + 1] == '\n' then 2 else 1
  }

  /** The text after the boundary at `k`. */
  function AfterBreak(s: string, k: nat): (rest: string)
    requires k < |s|
    ensures |rest| < |s|
  {
    s[k + BreakWidth(s, k)..]
  }

  /** `s.splitlines()`: the lines between boundaries, a `\r\n` pair counting as one
      boundary, with no empty line after a final boundary. */
  function SplitLines(s: string): (lines: seq<string>)
    ensures forall i, j :: 0 <= i < |lines| && 0 <= j < |lines[i]| ==> !IsLineBreak(lines[i][j])
    ensures s == [] <==> lines == []
    decreases |s|
  {
    if s == [] then []
    else
      var k := FirstBreak(s);
      if k == |s| then [s]
      else
        [s[..k]] + SplitLines(AfterBreak(s, k))
  }

  /** A boundary `splitlines()` cuts at: `\r\n`, or one line-break character. */
  predicate IsLineBoundary(b: string) {
    b == "\r\n" || (|b| == 1 && IsLineBreak(b[0]))
  }

  /** The lines with their boundaries put back after them. */
  function Rejoin(lines: seq<string>, ends: seq<string>): string
    requires |ends| == |lines|
    decreases |lines|
  {
    if lines == [] then [] else lines[0] + ends[0] + Rejoin(lines[1..], ends[1..])
  }

  /** `s` is cut into `lines` at the boundaries `ends`: every line is followed by a
      boundary, except that a non-empty last line may run to the end of the text, and a
      `\r` boundary is never followed by an empty line and a `\n` boundary, since
      `\r\n` is one boundary. */
  predicate CutInto(s: string, lines: seq<string>, ends: seq<string>) {
    && |ends| == |lines|
    && s == Rejoin(lines, ends)
    && (forall i :: 0 <= i < |lines| ==>
          IsLineBoundary(ends[i]) || (i == |lines| - 1 && ends[i] == [] && lines[i] != []))
    && (forall i :: 0 <= i < |lines| - 1 && ends[i] == "\r" ==> !(lines[i + 1] == [] && ends[i + 1] == "\n"))
  }

  /** The lines `splitlines()` returns, with the boundaries between them, give the text
      back. */
  lemma SplitLinesRebuild(s: string)
    ensures exists ends :: CutInto(s, SplitLines(s), ends)
  {
    var ends := SplitLinesEnds(s);
  }

  lemma {:induction false} SplitLinesEnds(s: string) returns (ends: seq<string>)
    ensures CutInto(s, SplitLines(s), ends)
    decreases |s|
  {
    if s == [] {
      ends := [];
    } else {
      var k := FirstBreak(s);
      if k == |s| {
        ends := [[]];
        CutWhole(s);
      } else {
        var more := SplitLinesEnds(AfterBreak(s, k));
        ends := [s[k..k + BreakWidth(s, k)]] + more;
        CutStep(s, k, more);
      }
    }
  }

  lemma CutStep(s: string, k: nat, more: seq<string>)
    requires s != [] && k == FirstBreak(s) < |s|
    requires CutInto(AfterBreak(s, k), SplitLines(AfterBreak(s, k)), more)
    ensures CutInto(s, SplitLines(s), [s[k..k + BreakWidth(s, k)]] + more)
  {
    var w := BreakWidth(s, k);
    var line, b, rest := s[..k], s[k..k + w], AfterBreak(s, k);
    assert rest == s[k + w..];
    assert SplitLines(s) == [line] + SplitLines(rest);
    SliceThree(s, k, k + w);
    BoundaryAt(s, k);
    CutCons(s, line, b, rest, SplitLines(rest), more);
  }

  lemma BoundaryAt(s: string, k: nat)
    requires k < |s| && IsLineBreak(s[k])
    ensures IsLineBoundary(s[k..k + BreakWidth(s, k)])
    ensures s[k..k + BreakWidth(s, k)] == "\r" ==> k + 1 == |s| || s[k + 1] != '\n'
  {
    if BreakWidth(s, k) == 2 {
      assert s[k..k + 2] == [s[k], s[k + 1]];
    } else {
      assert s[k..k + 1] == [s[k]];
    }
  }

  lemma SliceThree(s: string, i: nat, j: nat)
    requires i <= j <= |s|
    ensures s == s[..i] + s[i..j] + s[j..]
  {
  }

  lemma CutWhole(s: string)
    requires s != []
    ensures CutInto(s, [s], [[]])
  {
    assert Rejoin([s], [[]]) == s + [] + Rejoin([], []);
  }

  /** One more line and its boundary in front of a cut text. */
  lemma CutCons(s: string, line: string, b: string, rest: string, tail: seq<string>, more: seq<string>)
    requires s == line + b + rest && IsLineBoundary(b)
    requires b == "\r" ==> rest == [] || rest[0] != '\n'
    requires CutInto(rest, tail, more)
    ensures CutInto(s, [line] + tail, [b] + more)
  {
    var lines, ends := [line] + tail, [b] + more;
    assert lines[1..] == tail && ends[1..] == more;
    assert Rejoin(lines, ends) == s;
    forall i | 1 <= i < |lines|
      ensures IsLineBoundary(ends[i]) || (i == |lines| - 1 && ends[i] == [] && lines[i] != [])
    {
      assert ends[i] == more[i - 1] && lines[i] == tail[i - 1];
    }
    forall i | 0 <= i < |lines| - 1 && ends[i] == "\r"
      ensures !(lines[i + 1] == [] && ends[i + 1] == "\n")
    {
      if i > 0 {
        assert ends[i] == more[i - 1] && lines[i + 1] == tail[i] && ends[i + 1] == more[i];
      }
    }
  }

  function IndexOf(s: string, c: char): (k: nat)
    ensures k <= |s|
    ensures c !in s[..k]
    ensures k < |s| ==> s[k] == c
  {
    if s == [] || s[0] == c then 0 else 1 + IndexOf(s[1..], c)
  }

  /** `sep.join(xs)`. */
  function Join(sep: string, xs: seq<string>): string {
    if xs == [] then [] else if |xs| == 1 then xs[0] else xs[0] + sep + Join(sep, xs[1..])
  }

  /** `s.split(sep)` for a one-character separator: the pieces between separators,
      which joined back with the separator give `s`. */
  function Split(s: string, sep: char): (pieces: seq<string>)
    ensures |pieces| >= 1
    ensures forall i :: 0 <= i < |pieces| ==> sep !in pieces[i]
    ensures Join([sep], pieces) == s
    decreases |s|
  {
    var k := IndexOf(s, sep);
    if k == |s| then
      assert s[..k] == s;
      [s]
    else
      var rest := Split(s[k + 1..], sep);
      assert s == s[..k] + [sep] + s[k + 1..];
      [s[..k]] + rest
  }

  /** `strip()` only removes characters: one absent from `s` is absent from `s.strip()`. */
  lemma StripKeepsAbsent(s: string, c: char)
    ensures c !in s ==> c !in Strip(s)
  {
    if c !in s {
      StripIsSlice(s);
      var lo, hi :| 0 <= lo <= hi <= |s| && Strip(s) == s[lo..hi];
      forall i | 0 <= i < hi - lo
        ensures Strip(s)[i] != c
      {
        assert s[lo..hi][i] == s[lo + i];
      }
    }
  }

  /** Joining pieces that lack `c` with a separator that lacks `c` gives a string that
      lacks `c`. */
  lemma {:induction false} JoinKeepsAbsent(sep: string, xs: seq<string>, c: char)
    requires c !in sep
    requires forall i :: 0 <= i < |xs| ==> c !in xs[i]
    ensures c !in Join(sep, xs)
  {
    if |xs| > 1 {
      JoinKeepsAbsent(sep, xs[1..], c);
    }
  }

  lemma IndexOfFirst(a: string, c: char, b: string)
    requires c !in a
    ensures IndexOf(a + [c] + b, c) == |a|
  {
    var s := a + [c] + b;
    var k := IndexOf(s, c);
    assert s[..|a|] == a && s[|a|] == c;
    assert forall i :: 0 <= i < |a| ==> s[i] == a[i];
  }

  /** `s.split(sep)` undoes `sep.join(xs)` when no piece holds the separator. */
  lemma {:induction false} SplitJoin(xs: seq<string>, sep: char)
    requires |xs| >= 1
    requires forall i :: 0 <= i < |xs| ==> sep !in xs[i]
    ensures Split(Join([sep], xs), sep) == xs
  {
    if |xs| == 1 {
      assert IndexOf(xs[0], sep) == |xs[0]|;
    } else {
      var rest := Join([sep], xs[1..]);
      var s := xs[0] + [sep] + rest;
      IndexOfFirst(xs[0], sep, rest);
      assert s[..|xs[0]|] == xs[0];
      assert s[|xs[0]| + 1..] == rest;
      SplitJoin(xs[1..], sep);
    }
  }
}
