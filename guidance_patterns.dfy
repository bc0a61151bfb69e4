/** The two regular expressions of the guidance formatter: `re.sub(r'\n{2,}', '\n', t)`
    and `re.split(r'([A-Za-z\s]+:)', t)`.

    A heading match starts at a character of `[A-Za-z\s]`, takes the whole run of such
    characters and needs a colon right after it; a colon is outside the class, so a
    shorter run would leave a class character where the colon must be, and greedy
    backtracking never succeeds with one. The split therefore alternates the text
    between matches with the matches themselves: `[pre, h1, c1, h2, c2, ...]`. */
module GuidancePatterns {
  import opened Wrappers
  import opened PyStr

  // ---------------------------------------------------------------------------
  // \n{2,} -> \n

  predicate NoDoubleNewline(s: string) {
    forall i :: 0 <= i < |s| - 1 ==> !(s[i] == '\n' && s[i + 1] == '\n')
  }

  /** The length of the run of newlines starting at `i`. */
  function NewlineRun(s: string, i: nat): (n: nat)
    requires i <= |s|
    ensures i + n <= |s|
    ensures forall k :: i <= k < i + n ==> s[k] == '\n'
    ensures i + n < |s| ==> s[i + n] != '\n'
    decreases |s| - i
  {
    if i < |s| && s[i] == '\n' then 1 + NewlineRun(s, i + 1) else 0
  }

  /** `re.sub(r'\n{2,}', '\n', s)`: every maximal run of newlines becomes a single one. */
  function CollapseNewlines(s: string): (r: string)
    ensures |r| <= |s|
    ensures NoDoubleNewline(r)
    ensures r == [] <==> s == []
    ensures s != [] ==> r[0] == s[0] && r[|r| - 1] == s[|s| - 1]
    decreases |s|
  {
    if s == [] then []
    else if s[0] == '\n' then
      var n := NewlineRun(s, 0);
      var rest := CollapseNewlines(s[n..]);
      assert n == |s| || s[n..][0] != '\n';
      "\n" + rest
    else
      var rest := CollapseNewlines(s[1..]);
      [s[0]] + rest
  }

  /** Text without a double newline is left as it is; in particular collapsing twice
      is collapsing once. */
  lemma {:induction false} CollapseFixpoint(s: string)
    requires NoDoubleNewline(s)
    ensures CollapseNewlines(s) == s
    decreases |s|
  {
    if s != [] {
      NoDoubleNewlineTail(s);
      CollapseFixpoint(s[1..]);
      CollapseHeadKept(s);
    }
  }

  lemma NoDoubleNewlineTail(s: string)
    requires s != [] && NoDoubleNewline(s)
    ensures NoDoubleNewline(s[1..])
    ensures s[0] == '\n' ==> |s| == 1 || s[1] != '\n'
  {
    forall i | 0 <= i < |s[1..]| - 1
      ensures !(s[1..][i] == '\n' && s[1..][i + 1] == '\n')
    {
      assert s[1..][i] == s[i + 1] && s[1..][i + 1] == s[i + 2];
    }
  }

  lemma CollapseHeadKept(s: string)
    requires s != [] && (s[0] == '\n' ==> |s| == 1 || s[1] != '\n')
    requires CollapseNewlines(s[1..]) == s[1..]
    ensures CollapseNewlines(s) == s
  {
    if s[0] == '\n' {
      SingleNewlineRun(s);
      assert "\n" + s[1..] == s;
    } else {
      assert [s[0]] + s[1..] == s;
    }
  }

  lemma SingleNewlineRun(s: string)
    requires s != [] && s[0] == '\n' && (|s| == 1 || s[1] != '\n')
    ensures NewlineRun(s, 0) == 1
  {
    assert NewlineRun(s, 1) == 0;
  }

  lemma {:induction false} NewlineRunWithin(x: string, y: string, i: nat)
    requires i < |x| && x[|x| - 1] != '\n'
    ensures NewlineRun(x + y, i) == NewlineRun(x, i)
    decreases |x| - i
  {
    assert (x + y)[i] == x[i];
    if x[i] == '\n' {
      NewlineRunWithin(x, y, i + 1);
    }
  }

  /** Collapsing works piece by piece when the first piece does not end in a newline. */
  lemma {:induction false} CollapseConcat(x: string, y: string)
    requires x == [] || x[|x| - 1] != '\n'
    ensures CollapseNewlines(x + y) == CollapseNewlines(x) + CollapseNewlines(y)
    decreases |x|
  {
    if x == [] {
      assert x + y == y;
    } else {
      var n := if x[0] == '\n' then NewlineRun(x, 0) else 1;
      assert x[n..] == [] || x[n..][|x[n..]| - 1] == x[|x| - 1];
      CollapseConcat(x[n..], y);
      CollapseConcatHead(x, y, n);
      CollapseStep(x, n);
      ConcatRegroup(CollapseNewlines(x + y), if x[0] == '\n' then "\n" else [x[0]], CollapseNewlines(x[n..] + y),
        CollapseNewlines(x[n..]), CollapseNewlines(y), CollapseNewlines(x));
    }
  }

  /** The first run or character of `x` is the first run or character of `x + y`. */
  lemma CollapseConcatHead(x: string, y: string, n: nat)
    requires x != [] && x[|x| - 1] != '\n'
    requires n == if x[0] == '\n' then NewlineRun(x, 0) else 1
    ensures n <= |x|
    ensures CollapseNewlines(x + y) == (if x[0] == '\n' then "\n" else [x[0]]) + CollapseNewlines(x[n..] + y)
  {
    var s := x + y;
    assert s[0] == x[0];
    if x[0] == '\n' {
      NewlineRunWithin(x, y, 0);
    }
    CollapseStep(s, n);
    assert s[n..] == x[n..] + y;
  }

  lemma ConcatRegroup(whole: string, head: string, tail: string, a: string, b: string, first: string)
    requires whole == head + tail && tail == a + b && first == head + a
    ensures whole == first + b
  {
  }

  /** One step of the collapse: the first newline run, or the first character. */
  lemma CollapseStep(s: string, n: nat)
    requires s != []
    requires n == if s[0] == '\n' then NewlineRun(s, 0) else 1
    ensures n <= |s|
    ensures CollapseNewlines(s) == (if s[0] == '\n' then "\n" else [s[0]]) + CollapseNewlines(s[n..])
  {
  }

  /** Two lines joined by one newline hold no double newline. */
  lemma OneBreak(a: string, b: string)
    requires '\n' !in a && '\n' !in b
    ensures NoDoubleNewline(a + "\n" + b)
  {
    var s := a + "\n" + b;
    forall i | 0 <= i < |s| - 1
      ensures !(s[i] == '\n' && s[i + 1] == '\n')
    {
      if i < |a| {
        assert s[i] == a[i];
      } else if i > |a| {
        assert s[i] == b[i - |a| - 1];
      } else {
        assert s[i + 1] == b[0];
      }
    }
  }

  // ---------------------------------------------------------------------------
  // ([A-Za-z\s]+:)

  /** `[A-Za-z\s]`. */
  predicate IsHeadingChar(c: char) {
    ('A' <= c <= 'Z') || ('a' <= c <= 'z') || IsSpace(c)
  }

  /** A whole heading match: class characters and a final colon. */
  predicate IsHeadingToken(x: string) {
    |x| >= 2 && x[|x| - 1] == ':' && forall k :: 0 <= k < |x| - 1 ==> IsHeadingChar(x[k])
  }

  /** Text in which the pattern matches nowhere: no colon follows a class character. */
  predicate NoHeadingIn(x: string) {
    forall k :: 1 <= k < |x| && x[k] == ':' ==> !IsHeadingChar(x[k - 1])
  }

  function HeadingRun(s: string, i: nat): (n: nat)
    requires i <= |s|
    ensures i + n <= |s|
    ensures forall k :: i <= k < i + n ==> IsHeadingChar(s[k])
    ensures i + n < |s| ==> !IsHeadingChar(s[i + n])
    decreases |s| - i
  {
    if i < |s| && IsHeadingChar(s[i]) then 1 + HeadingRun(s, i + 1) else 0
  }

  /** The end of the heading match that starts at `p`, if the pattern matches there. */
  function HeadingMatchAt(s: string, p: nat): (e: Option<nat>)
    requires p <= |s|
    ensures e.Some? ==> p + 2 <= e.value <= |s| && IsHeadingToken(s[p..e.value])
  {
    var n := HeadingRun(s, p);
    if n > 0 && p + n < |s| && s[p + n] == ':' then
      var x := s[p..p + n + 1];
      assert forall k :: 0 <= k < n ==> x[k] == s[p + k];
      Some(p + n + 1)
    else None
  }

  /** The leftmost position at or after `from` where a heading matches. */
  function NextHeading(s: string, from: nat): (r: Option<nat>)
    requires from <= |s|
    ensures r.Some? ==> from <= r.value <= |s| && HeadingMatchAt(s, r.value).Some?
    ensures r.Some? ==> forall q :: from <= q < r.value ==> HeadingMatchAt(s, q).None?
    ensures r.None? ==> forall q :: from <= q <= |s| ==> HeadingMatchAt(s, q).None?
    decreases |s| - from
  {
    if HeadingMatchAt(s, from).Some? then Some(from)
    else if from == |s| then None
    else NextHeading(s, from + 1)
  }

  /** A stretch where no heading match starts holds no heading. */
  lemma NoMatchNoHeading(s: string, from: nat, to: nat)
    requires from <= to <= |s|
    requires forall q :: from <= q < to ==> HeadingMatchAt(s, q).None?
    ensures NoHeadingIn(s[from..to])
  {
    var x := s[from..to];
    forall k | 1 <= k < |x| && x[k] == ':'
      ensures !IsHeadingChar(x[k - 1])
    {
      var q := from + k - 1;
      assert x[k - 1] == s[q] && s[q + 1] == ':';
      NoClassCharBeforeColon(s, q);
    }
  }

  lemma NoClassCharBeforeColon(s: string, q: nat)
    requires q + 1 < |s| && s[q + 1] == ':'
    requires HeadingMatchAt(s, q).None?
    ensures !IsHeadingChar(s[q])
  {
    assert HeadingRun(s, q + 1) == 0;
  }

  /** Conversely, a text without a heading has no match anywhere. */
  lemma NoHeadingNoMatch(s: string)
    requires NoHeadingIn(s)
    ensures forall q :: 0 <= q <= |s| ==> HeadingMatchAt(s, q).None?
  {
    forall q | 0 <= q <= |s|
      ensures HeadingMatchAt(s, q).None?
    {
      var n := HeadingRun(s, q);
      assert n > 0 && q + n < |s| ==> IsHeadingChar(s[q + n - 1]);
    }
  }

  /** The concatenation of a list of strings (`"".join(xs)`). */
  function Concat(xs: seq<string>): string {
    if xs == [] then [] else xs[0] + Concat(xs[1..])
  }

  /** The shape of a `re.split` result for this pattern: an odd number of pieces,
      alternating text and heading matches and starting and ending with text (possibly
      empty). The text pieces hold no heading, and one that comes before a heading does
      not end with a class character, so each match is the leftmost one. */
  predicate Alternates(r: seq<string>) {
    && |r| % 2 == 1
    && (forall k :: 0 <= k < |r| && k % 2 == 1 ==> IsHeadingToken(r[k]))
    && (forall k :: 0 <= k < |r| && k % 2 == 0 ==> NoHeadingIn(r[k]))
    && (forall k :: 0 <= k < |r| - 1 && k % 2 == 0 ==> r[k] == [] || !IsHeadingChar(r[k][|r[k]| - 1]))
  }

  lemma AlternatesCons(a: string, b: string, rest: seq<string>)
    requires Alternates(rest)
    requires NoHeadingIn(a) && IsHeadingToken(b) && (a == [] || !IsHeadingChar(a[|a| - 1]))
    ensures Alternates([a, b] + rest)
    ensures Concat([a, b] + rest) == a + (b + Concat(rest))
  {
    var r := [a, b] + rest;
    forall k | 2 <= k < |r| && k % 2 == 1
      ensures IsHeadingToken(r[k])
    {
      assert r[k] == rest[k - 2] && (k - 2) % 2 == 1;
    }
    forall k | 2 <= k < |r| && k % 2 == 0
      ensures NoHeadingIn(r[k])
    {
      assert r[k] == rest[k - 2] && (k - 2) % 2 == 0;
    }
    forall k | 2 <= k < |r| - 1 && k % 2 == 0
      ensures r[k] == [] || !IsHeadingChar(r[k][|r[k]| - 1])
    {
      assert r[k] == rest[k - 2] && (k - 2) % 2 == 0;
    }
    ConcatCons(a, b, rest);
  }

  lemma ConcatCons(a: string, b: string, rest: seq<string>)
    ensures Concat([a, b] + rest) == a + (b + Concat(rest))
  {
    var r := [a, b] + rest;
    assert r[1..] == [b] + rest;
    assert r[1..][1..] == rest;
  }

  /** `re.split(r'([A-Za-z\s]+:)', s[last..])`: the text up to the leftmost match, the
      match, and the split of what follows it. */
  function SplitFrom(s: string, last: nat): seq<string>
    requires last <= |s|
    decreases |s| - last
  {
    match NextHeading(s, last)
    case None => [s[last..]]
    case Some(p) =>
      var e := HeadingMatchAt(s, p).value;
      [s[last..p], s[p..e]] + SplitFrom(s, e)
  }

  /** The pieces of the split put back together give the text, in the alternating shape
      above. */
  lemma {:induction false} SplitFromShape(s: string, last: nat)
    requires last <= |s|
    ensures Alternates(SplitFrom(s, last))
    ensures Concat(SplitFrom(s, last)) == s[last..]
    decreases |s| - last
  {
    match NextHeading(s, last)
    case None =>
      NoMatchNoHeading(s, last, |s|);
      assert s[last..|s|] == s[last..];
      assert Concat([s[last..]]) == s[last..];
    case Some(p) =>
      var e := HeadingMatchAt(s, p).value;
      SplitFromShape(s, e);
      SplitStep(s, last, p, SplitFrom(s, e));
  }

  /** One step of the split: the text up to the leftmost match, the match, and the
      split of what follows. */
  lemma SplitStep(s: string, last: nat, p: nat, rest: seq<string>)
    requires last <= |s| && NextHeading(s, last) == Some(p)
    requires Alternates(rest) && Concat(rest) == s[HeadingMatchAt(s, p).value..]
    ensures Alternates([s[last..p], s[p..HeadingMatchAt(s, p).value]] + rest)
    ensures Concat([s[last..p], s[p..HeadingMatchAt(s, p).value]] + rest) == s[last..]
  {
    var e := HeadingMatchAt(s, p).value;
    TextBeforeMatch(s, last, p);
    AlternatesCons(s[last..p], s[p..e], rest);
    ThreeSlices(s, last, p, e);
  }

  lemma ThreeSlices(s: string, i: nat, j: nat, k: nat)
    requires i <= j <= k <= |s|
    ensures s[i..] == s[i..j] + (s[j..k] + s[k..])
  {
  }

  /** The text before the leftmost match holds no heading and does not end with a class
      character. */
  lemma TextBeforeMatch(s: string, last: nat, p: nat)
    requires last <= |s| && NextHeading(s, last) == Some(p)
    ensures var a := s[last..p]; NoHeadingIn(a) && (a == [] || !IsHeadingChar(a[|a| - 1]))
  {
    NoMatchNoHeading(s, last, p);
    if p > last {
      assert HeadingMatchAt(s, p - 1).None?;
      NoClassCharBeforeMatch(s, p - 1);
      assert s[last..p][p - last - 1] == s[p - 1];
    }
  }

  /** A class character directly before a match would start a match of its own. */
  lemma NoClassCharBeforeMatch(s: string, q: nat)
    requires q + 1 <= |s|
    requires HeadingMatchAt(s, q).None? && HeadingMatchAt(s, q + 1).Some?
    ensures !IsHeadingChar(s[q])
  {
    assert HeadingRun(s, q + 1) > 0;
  }

  /** `re.split(r'([A-Za-z\s]+:)', s)`. */
  function SplitHeadings(s: string): (r: seq<string>)
    ensures |r| % 2 == 1 && 1 <= |r|
    ensures Concat(r) == s
  {
    SplitFromShape(s, 0);
    SplitFrom(s, 0)
  }

  /** The split of a text alternates text and heading matches. */
  lemma SplitHeadingsAlternates(s: string)
    ensures Alternates(SplitHeadings(s))
  {
    SplitFromShape(s, 0);
  }

  /** With no heading in the text the split is the text alone. */
  lemma SplitWithoutHeading(s: string)
    requires NoHeadingIn(s)
    ensures SplitHeadings(s) == [s]
  {
    NoHeadingNoMatch(s);
  }

  /** The first piece is empty exactly when the text starts with a heading match. */
  lemma SplitStartsWithHeading(s: string)
    ensures SplitHeadings(s)[0] == [] <==> s == [] || HeadingMatchAt(s, 0).Some?
  {
    match NextHeading(s, 0)
    case None =>
      assert SplitHeadings(s)[0] == s;
    case Some(p) =>
      assert SplitHeadings(s)[0] == s[0..p];
  }

  // ---------------------------------------------------------------------------
  // The split undoes concatenation

  /** The heading run at `q` only looks forward, so it is the same in any suffix that
      still holds `q`. */
  lemma {:induction false} HeadingRunSuffix(s: string, last: nat, q: nat)
    requires last <= q <= |s|
    ensures HeadingRun(s, q) == HeadingRun(s[last..], q - last)
    decreases |s| - q
  {
    if q < |s| {
      assert s[last..][q - last] == s[q];
      HeadingRunSuffix(s, last, q + 1);
    }
  }

  lemma HeadingMatchSuffix(s: string, last: nat, q: nat)
    requires last <= q <= |s|
    ensures HeadingMatchAt(s, q).None? <==> HeadingMatchAt(s[last..], q - last).None?
  {
    HeadingRunSuffix(s, last, q);
    var n := HeadingRun(s, q);
    if q + n < |s| {
      assert s[last..][q - last + n] == s[q + n];
    }
    HeadingMatchNone(s, q);
    HeadingMatchNone(s[last..], q - last);
  }

  lemma HeadingMatchNone(s: string, q: nat)
    requires q <= |s|
    ensures var n := HeadingRun(s, q);
      HeadingMatchAt(s, q).None? <==> !(n > 0 && q + n < |s| && s[q + n] == ':')
  {
  }

  /** A heading token at `p` is the match there. */
  lemma TokenMatches(s: string, p: nat, b: string)
    requires p + |b| <= |s| && s[p..p + |b|] == b && IsHeadingToken(b)
    ensures HeadingMatchAt(s, p) == Some(p + |b|)
  {
    forall k | p <= k < p + |b| - 1
      ensures IsHeadingChar(s[k])
    {
      assert s[k] == b[k - p];
    }
    assert s[p + |b| - 1] == b[|b| - 1];
    HeadingRunExact(s, p, |b| - 1);
  }

  lemma {:induction false} HeadingRunExact(s: string, p: nat, n: nat)
    requires p + n < |s|
    requires forall k :: p <= k < p + n ==> IsHeadingChar(s[k])
    requires !IsHeadingChar(s[p + n])
    ensures HeadingRun(s, p) == n
    decreases n
  {
    if n > 0 {
      HeadingRunExact(s, p + 1, n - 1);
    }
  }

  /** No match starts inside a text piece that holds no heading and does not end with a
      class character, whatever follows it. */
  lemma NoMatchInPiece(s: string, p: nat, a: string)
    requires p + |a| <= |s| && s[p..p + |a|] == a
    requires NoHeadingIn(a) && (a == [] || !IsHeadingChar(a[|a| - 1]))
    ensures forall q :: p <= q < p + |a| ==> HeadingMatchAt(s, q).None?
  {
    forall q | p <= q < p + |a|
      ensures HeadingMatchAt(s, q).None?
    {
      var n := HeadingRun(s, q);
      var t := q + n;
      if n > 0 {
        assert s[p + |a| - 1] == a[|a| - 1];
        assert t < p + |a|;
        assert s[t] == a[t - p] && s[t - 1] == a[t - 1 - p];
      }
    }
  }

  lemma {:induction false} AlternatesTail(r: seq<string>)
    requires Alternates(r) && |r| >= 3
    ensures Alternates(r[2..])
    ensures r == [r[0], r[1]] + r[2..]
    ensures Concat(r) == r[0] + (r[1] + Concat(r[2..]))
  {
    var rest := r[2..];
    assert forall k :: 0 <= k < |rest| ==> rest[k] == r[k + 2] && (k % 2 == (k + 2) % 2);
    assert r[1..][1..] == rest;
  }

  /** `SplitFrom` recovers any alternating list from its concatenation. */
  lemma {:induction false} SplitFromConcat(s: string, last: nat, r: seq<string>)
    requires last <= |s| && Alternates(r) && s[last..] == Concat(r)
    ensures SplitFrom(s, last) == r
    decreases |r|, 2
  {
    if |r| == 1 {
      SplitFromConcatLast(s, last, r);
    } else {
      SplitFromConcatStep(s, last, r);
    }
  }

  lemma SplitFromConcatLast(s: string, last: nat, r: seq<string>)
    requires last <= |s| && Alternates(r) && s[last..] == Concat(r) && |r| == 1
    ensures SplitFrom(s, last) == r
  {
    assert Concat(r) == r[0];
    NoHeadingNoMatch(s[last..]);
    forall q | last <= q <= |s|
      ensures HeadingMatchAt(s, q).None?
    {
      HeadingMatchSuffix(s, last, q);
    }
    assert NextHeading(s, last).None?;
    assert SplitFrom(s, last) == [s[last..]];
  }

  lemma {:induction false} SplitFromConcatStep(s: string, last: nat, r: seq<string>)
    requires last <= |s| && Alternates(r) && s[last..] == Concat(r) && |r| != 1
    ensures SplitFrom(s, last) == r
    decreases |r|, 1
  {
    OddLengthAtLeast(r);
    AlternatesTail(r);
    AlternatesHead(r);
    var a, b, rest := r[0], r[1], r[2..];
    var e := last + |a| + |b|;
    FirstTwo(r, a, b);
    PieceSlices(s, last, a, b, Concat(rest));
    SplitFromPieces(s, last, a, b, e);
    SplitFromConcat(s, e, rest);
  }

  lemma FirstTwo(r: seq<string>, a: string, b: string)
    requires |r| >= 2 && a == r[0] && b == r[1]
    ensures r == [a, b] + r[2..]
  {
  }

  /** A text piece and a heading token, laid out from `last`, are the first two pieces
      of the split there. */
  lemma SplitFromPieces(s: string, last: nat, a: string, b: string, e: nat)
    requires e == last + |a| + |b| <= |s|
    requires s[last..last + |a|] == a && s[last + |a|..e] == b
    requires NoHeadingIn(a) && (a == [] || !IsHeadingChar(a[|a| - 1])) && IsHeadingToken(b)
    ensures SplitFrom(s, last) == [a, b] + SplitFrom(s, e)
  {
    var p := last + |a|;
    FirstHeadingAt(s, last, a, b);
    SplitFromUnfold(s, last, p);
    assert HeadingMatchAt(s, p).value == e;
  }

  lemma OddLengthAtLeast(r: seq<string>)
    requires Alternates(r) && |r| != 1
    ensures |r| >= 3
  {
  }

  /** When the text at `last` starts with a piece holding no heading followed by a
      heading token, the first heading match is that token. */
  lemma FirstHeadingAt(s: string, last: nat, a: string, b: string)
    requires last + |a| + |b| <= |s|
    requires s[last..last + |a|] == a && s[last + |a|..last + |a| + |b|] == b
    requires NoHeadingIn(a) && (a == [] || !IsHeadingChar(a[|a| - 1])) && IsHeadingToken(b)
    ensures NextHeading(s, last) == Some(last + |a|)
    ensures HeadingMatchAt(s, last + |a|) == Some(last + |a| + |b|)
  {
    NoMatchInPiece(s, last, a);
    TokenMatches(s, last + |a|, b);
    NextHeadingAt(s, last, last + |a|);
  }

  lemma AlternatesHead(r: seq<string>)
    requires Alternates(r) && |r| >= 3
    ensures NoHeadingIn(r[0]) && (r[0] == [] || !IsHeadingChar(r[0][|r[0]| - 1]))
    ensures IsHeadingToken(r[1])
  {
    assert 0 % 2 == 0 && 1 % 2 == 1;
  }

  lemma PieceSlices(s: string, last: nat, a: string, b: string, t: string)
    requires last <= |s| && s[last..] == a + (b + t)
    ensures last + |a| + |b| <= |s|
    ensures s[last..last + |a|] == a && s[last + |a|..last + |a| + |b|] == b
    ensures s[last + |a| + |b|..] == t
  {
    var p := last + |a|;
    assert s[last..p] == s[last..][..|a|];
    assert s[p..p + |b|] == s[last..][|a|..|a| + |b|];
    assert s[p + |b|..] == s[last..][|a| + |b|..];
  }

  lemma SplitFromUnfold(s: string, last: nat, p: nat)
    requires last <= |s| && NextHeading(s, last) == Some(p)
    ensures var e := HeadingMatchAt(s, p).value;
      SplitFrom(s, last) == [s[last..p], s[p..e]] + SplitFrom(s, e)
  {
  }

  lemma {:induction false} NextHeadingAt(s: string, from: nat, p: nat)
    requires from <= p <= |s| && HeadingMatchAt(s, p).Some?
    requires forall q :: from <= q < p ==> HeadingMatchAt(s, q).None?
    ensures NextHeading(s, from) == Some(p)
    decreases p - from
  {
    if from < p {
      NextHeadingAt(s, from + 1, p);
    }
  }

  /** The split is the inverse of concatenation on alternating lists: every text is
      the concatenation of its split, and a list of text pieces and heading matches
      in the alternating shape is exactly what splitting its concatenation gives. */
  lemma SplitConcat(r: seq<string>)
    requires Alternates(r)
    ensures SplitHeadings(Concat(r)) == r
  {
    var s := Concat(r);
    assert s[0..] == s;
    SplitFromConcat(s, 0, r);
  }

  /** A text without a colon holds no heading. */
  lemma NoColonNoHeading(x: string)
    requires ':' !in x
    ensures NoHeadingIn(x)
  {
  }
}
