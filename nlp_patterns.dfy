/** The two regular expressions of the résumé analyzer, decoded into their match
    functions: the year range `(19|20)\d{2}\s*[-–]\s*(19|20)\d{2}` searched in a
    résumé line, and the experience mention `(\d+)\+?\s+years?` collected with
    `re.findall` from a job description.

    In both patterns every greedy run is followed by a character its own class
    cannot contain (a dash after spaces, a digit or "y" after spaces, a "+" or a
    space after digits), so backtracking never finds a shorter match: a match at a
    position, when there is one, takes each run whole. */
module NlpPatterns {
  import opened Wrappers
  import opened PyStr

  predicate IsDigit(c: char) { '0' <= c <= '9' }

  /** `[-–]`: a hyphen-minus or an en dash. */
  predicate IsDash(c: char) { c == '-' || c == '\U{2013}' }

  /** The length of the run of `\s` characters starting at `i`. */
  function SpaceRun(s: string, i: nat): (n: nat)
    requires i <= |s|
    ensures i + n <= |s|
    ensures forall k :: i <= k < i + n ==> IsSpace(s[k])
    ensures i + n < |s| ==> !IsSpace(s[i + n])
    decreases |s| - i
  {
    if i < |s| && IsSpace(s[i]) then 1 + SpaceRun(s, i + 1) else 0
  }

  /** The length of the run of `\d` characters starting at `i`. */
  function DigitRun(s: string, i: nat): (n: nat)
    requires i <= |s|
    ensures i + n <= |s|
    ensures forall k :: i <= k < i + n ==> IsDigit(s[k])
    ensures i + n < |s| ==> !IsDigit(s[i + n])
    decreases |s| - i
  {
    if i < |s| && IsDigit(s[i]) then 1 + DigitRun(s, i + 1) else 0
  }

  // ---------------------------------------------------------------------------
  // (19|20)\d{2}\s*[-–]\s*(19|20)\d{2}

  /** `(19|20)\d{2}` at position `i`. */
  predicate CenturyYearAt(s: string, i: nat) {
    && i + 4 <= |s|
    && ((s[i] == '1' && s[i + 1] == '9') || (s[i] == '2' && s[i + 1] == '0'))
    && IsDigit(s[i + 2]) && IsDigit(s[i + 3])
  }

  /** The end of the year-range match that starts at `p`, if the pattern matches there. */
  function YearRangeEndAt(s: string, p: nat): (e: Option<nat>)
    ensures e.Some? ==> p + 9 <= e.value <= |s|
  {
    if !CenturyYearAt(s, p) then None
    else
      var a := p + 4 + SpaceRun(s, p + 4);
      if a < |s| && IsDash(s[a]) then
        var b := a + 1 + SpaceRun(s, a + 1);
        if CenturyYearAt(s, b) then Some(b + 4) else None
      else None
  }

  /** A whole string of the year-range shape: a year, optional spaces, a dash,
      optional spaces, a year. */
  predicate IsYearRange(d: string) {
    && |d| >= 9
    && CenturyYearAt(d, 0) && CenturyYearAt(d, |d| - 4)
    && exists k :: 4 <= k < |d| - 4 && IsDash(d[k])
         && (forall j :: 4 <= j < k ==> IsSpace(d[j]))
         && (forall j :: k < j < |d| - 4 ==> IsSpace(d[j]))
  }

  lemma YearRangeMatchShape(s: string, p: nat)
    requires YearRangeEndAt(s, p).Some?
    ensures IsYearRange(s[p..YearRangeEndAt(s, p).value])
  {
    var e := YearRangeEndAt(s, p).value;
    var d := s[p..e];
    var a := p + 4 + SpaceRun(s, p + 4);
    var b := a + 1 + SpaceRun(s, a + 1);
    assert e == b + 4;
    assert d[a - p] == s[a];
    assert forall j :: 4 <= j < a - p ==> d[j] == s[p + j];
    assert forall j :: a - p < j < |d| - 4 ==> d[j] == s[p + j];
    assert CenturyYearAt(d, |d| - 4) by {
      assert d[|d| - 4..] == s[b..b + 4];
    }
  }

  /** The leftmost position at or after `from` where the year range matches
      (`re.search` continued from `from`). */
  function FindYearRange(s: string, from: nat): (r: Option<nat>)
    requires from <= |s|
    ensures r.Some? ==> from <= r.value <= |s| && YearRangeEndAt(s, r.value).Some?
    decreases |s| - from
  {
    if YearRangeEndAt(s, from).Some? then Some(from)
    else if from == |s| then None
    else FindYearRange(s, from + 1)
  }

  /** The search finds the leftmost match, and finds none only when there is none. */
  lemma FindYearRangeLeftmost(s: string, from: nat)
    requires from <= |s|
    ensures var r := FindYearRange(s, from);
      r.Some? ==> forall q :: from <= q < r.value ==> YearRangeEndAt(s, q).None?
    ensures FindYearRange(s, from).None? ==> forall q :: from <= q <= |s| ==> YearRangeEndAt(s, q).None?
  {
    forall q | from <= q <= |s| && (FindYearRange(s, from).None? || q < FindYearRange(s, from).value)
      ensures YearRangeEndAt(s, q).None?
    {
      BeforeFoundNoMatch(s, from, q);
    }
  }

  lemma {:induction false} BeforeFoundNoMatch(s: string, from: nat, q: nat)
    requires from <= q <= |s|
    requires FindYearRange(s, from).None? || q < FindYearRange(s, from).value
    ensures YearRangeEndAt(s, q).None?
    decreases q - from, 1
  {
    if from < q {
      BeforeFoundStep(s, from, q);
    } else {
      NoMatchBeforeResult(s, from);
    }
  }

  lemma {:induction false} BeforeFoundStep(s: string, from: nat, q: nat)
    requires from < q <= |s|
    requires FindYearRange(s, from).None? || q < FindYearRange(s, from).value
    ensures YearRangeEndAt(s, q).None?
    decreases q - from, 0
  {
    SearchSkips(s, from);
    BeforeFoundNoMatch(s, from + 1, q);
  }

  lemma NoMatchBeforeResult(s: string, from: nat)
    requires from <= |s|
    requires FindYearRange(s, from).None? || from < FindYearRange(s, from).value
    ensures YearRangeEndAt(s, from).None?
  {
  }

  lemma SearchSkips(s: string, from: nat)
    requires from < |s|
    requires FindYearRange(s, from).None? || from < FindYearRange(s, from).value
    ensures YearRangeEndAt(s, from).None?
    ensures FindYearRange(s, from) == FindYearRange(s, from + 1)
  {
  }

  /** `year_pattern.search(line).group()`, or `None` when there is no match. */
  function Duration(line: string): (d: Option<string>)
    ensures d.Some? ==> IsYearRange(d.value) && Contains(line, d.value)
  {
    match FindYearRange(line, 0)
    case None => None
    case Some(p) =>
      var e := YearRangeEndAt(line, p).value;
      YearRangeMatchShape(line, p);
      assert OccursAt(line, line[p..e], p);
      Some(line[p..e])
  }

  /** The duration is the first year range in the line: it is the match at the
      leftmost matching position, and there is none exactly when no position matches. */
  lemma DurationIsFirstYearRange(line: string)
    ensures Duration(line).None? <==> forall q :: 0 <= q <= |line| ==> YearRangeEndAt(line, q).None?
    ensures Duration(line).Some? ==>
      exists p :: 0 <= p <= |line| && YearRangeEndAt(line, p).Some?
        && Duration(line).value == line[p..YearRangeEndAt(line, p).value]
        && forall q :: 0 <= q < p ==> YearRangeEndAt(line, q).None?
  {
    FindYearRangeLeftmost(line, 0);
    match FindYearRange(line, 0)
    case None =>
    case Some(p) =>
  }

  // ---------------------------------------------------------------------------
  // (\d+)\+?\s+years?

  /** A match of the experience pattern: where its digits end and where it ends. */
  datatype YearsMatch = YearsMatch(digitsEnd: nat, matchEnd: nat)

  /** The match of the experience pattern that starts at `p`, if there is one. */
  function YearsMatchAt(s: string, p: nat): (m: Option<YearsMatch>)
    requires p <= |s|
    ensures m.Some? ==> p < m.value.digitsEnd && m.value.digitsEnd + 5 <= m.value.matchEnd <= |s|
    ensures m.Some? ==> m.value.digitsEnd == p + DigitRun(s, p)
  {
    var q := p + DigitRun(s, p);
    var a := if q < |s| && s[q] == '+' then q + 1 else q;
    var b := a + SpaceRun(s, a);
    if q == p || b == a || b + 4 > |s| || s[b..b + 4] != "year" then None
    else Some(YearsMatch(q, if b + 4 < |s| && s[b + 4] == 's' then b + 5 else b + 4))
  }

  predicate IsDigits(ds: string) {
    ds != [] && forall k :: 0 <= k < |ds| ==> IsDigit(ds[k])
  }

  /** `re.findall(r"(\d+)\+?\s+years?", s[from..])`: the captured digit strings of the
      successive non-overlapping matches, left to right. */
  function FindAllYears(s: string, from: nat): (found: seq<string>)
    requires from <= |s|
    ensures forall i :: 0 <= i < |found| ==> IsDigits(found[i])
    decreases |s| - from
  {
    if from == |s| then []
    else match YearsMatchAt(s, from)
      case Some(m) =>
        assert IsDigits(s[from..m.digitsEnd]) by {
          assert forall k :: 0 <= k < m.digitsEnd - from ==> s[from..m.digitsEnd][k] == s[from + k];
        }
        [s[from..m.digitsEnd]] + FindAllYears(s, m.matchEnd)
      case None => FindAllYears(s, from + 1)
  }

  /** `re.findall` finds nothing exactly when the pattern matches at no position. */
  lemma {:induction false} FindAllEmptyIff(s: string, from: nat)
    requires from <= |s|
    ensures FindAllYears(s, from) == [] <==> forall p :: from <= p <= |s| ==> YearsMatchAt(s, p).None?
    decreases |s| - from
  {
    forall p | from <= p <= |s| && FindAllYears(s, from) == []
      ensures YearsMatchAt(s, p).None?
    {
      EmptyMeansNoMatch(s, from, p);
    }
    if forall p :: from <= p <= |s| ==> YearsMatchAt(s, p).None? {
      NoMatchMeansEmpty(s, from);
    }
  }

  lemma {:induction false} EmptyMeansNoMatch(s: string, from: nat, p: nat)
    requires from <= p <= |s| && FindAllYears(s, from) == []
    ensures YearsMatchAt(s, p).None?
    decreases p - from
  {
    if p == |s| {
      NoMatchAtEnd(s);
    } else if from < p {
      assert from < |s|;
      if YearsMatchAt(s, from).Some? {
        FindAllFoundHere(s, from);
      }
      FindAllSkip(s, from);
      EmptyMeansNoMatch(s, from + 1, p);
    } else if YearsMatchAt(s, from).Some? {
      FindAllFoundHere(s, from);
    }
  }

  lemma {:induction false} NoMatchMeansEmpty(s: string, from: nat)
    requires from <= |s|
    requires forall p :: from <= p <= |s| ==> YearsMatchAt(s, p).None?
    ensures FindAllYears(s, from) == []
    decreases |s| - from, 1
  {
    if from == |s| {
      NoMatchAtEnd(s);
    } else {
      NoMatchStep(s, from);
    }
  }

  lemma {:induction false} NoMatchStep(s: string, from: nat)
    requires from < |s|
    requires forall p :: from <= p <= |s| ==> YearsMatchAt(s, p).None?
    ensures FindAllYears(s, from) == []
    decreases |s| - from, 0
  {
    NoMatchMeansEmpty(s, from + 1);
    FindAllSkip(s, from);
  }

  lemma NoMatchAtEnd(s: string)
    ensures YearsMatchAt(s, |s|).None? && FindAllYears(s, |s|) == []
  {
    assert DigitRun(s, |s|) == 0;
  }

  lemma FindAllFoundHere(s: string, from: nat)
    requires from < |s| && YearsMatchAt(s, from).Some?
    ensures FindAllYears(s, from) != []
  {
  }

  lemma FindAllSkip(s: string, from: nat)
    requires from < |s| && YearsMatchAt(s, from).None?
    ensures FindAllYears(s, from) == FindAllYears(s, from + 1)
  {
  }

  /** `re.findall` takes the leftmost match, keeps its digits, and goes on after the end
      of that match: when something is found, there is a first matching position `p`,
      the first result is the digit run captured there, and the rest are what the search
      from the end of that match finds. */
  lemma {:induction false} FindAllYearsLeftmost(s: string, from: nat)
    requires from <= |s|
    ensures FindAllYears(s, from) != [] ==>
      exists p :: from <= p < |s| && YearsMatchAt(s, p).Some?
        && (forall q :: from <= q < p ==> YearsMatchAt(s, q).None?)
        && FindAllYears(s, from) == [s[p..YearsMatchAt(s, p).value.digitsEnd]] + FindAllYears(s, YearsMatchAt(s, p).value.matchEnd)
    decreases |s| - from
  {
    if FindAllYears(s, from) != [] {
      assert from < |s|;
      if YearsMatchAt(s, from).None? {
        FindAllSkip(s, from);
        FindAllYearsLeftmost(s, from + 1);
        var p :| from + 1 <= p < |s| && YearsMatchAt(s, p).Some?
          && (forall q :: from + 1 <= q < p ==> YearsMatchAt(s, q).None?)
          && FindAllYears(s, from + 1) == [s[p..YearsMatchAt(s, p).value.digitsEnd]] + FindAllYears(s, YearsMatchAt(s, p).value.matchEnd);
        assert forall q :: from <= q < p ==> YearsMatchAt(s, q).None?;
      } else {
        FindAllTakes(s, from);
      }
    }
  }

  lemma FindAllTakes(s: string, from: nat)
    requires from < |s| && YearsMatchAt(s, from).Some?
    ensures FindAllYears(s, from) == [s[from..YearsMatchAt(s, from).value.digitsEnd]] + FindAllYears(s, YearsMatchAt(s, from).value.matchEnd)
  {
  }

  /** `d` is the digit run the pattern captures at some position at or after `from`. */
  predicate CapturedFrom(s: string, from: nat, d: string) {
    exists p :: from <= p < |s| && YearsMatchAt(s, p).Some? && d == s[p..YearsMatchAt(s, p).value.digitsEnd]
  }

  /** Every result is the digit run a match of the pattern captures at some position at
      or after `from`. */
  lemma FindAllYearsAreMatches(s: string, from: nat)
    requires from <= |s|
    ensures forall i :: 0 <= i < |FindAllYears(s, from)| ==> CapturedFrom(s, from, FindAllYears(s, from)[i])
  {
    forall i | 0 <= i < |FindAllYears(s, from)|
      ensures CapturedFrom(s, from, FindAllYears(s, from)[i])
    {
      FoundIsCaptured(s, from, i);
    }
  }

  lemma {:induction false} FoundIsCaptured(s: string, from: nat, i: nat)
    requires from <= |s| && i < |FindAllYears(s, from)|
    ensures CapturedFrom(s, from, FindAllYears(s, from)[i])
    decreases i
  {
    var found := FindAllYears(s, from);
    FindAllYearsLeftmost(s, from);
    var p :| from <= p < |s| && YearsMatchAt(s, p).Some?
      && (forall q :: from <= q < p ==> YearsMatchAt(s, q).None?)
      && found == [s[p..YearsMatchAt(s, p).value.digitsEnd]] + FindAllYears(s, YearsMatchAt(s, p).value.matchEnd);
    if i > 0 {
      var e := YearsMatchAt(s, p).value.matchEnd;
      assert found[i] == FindAllYears(s, e)[i - 1];
      FoundIsCaptured(s, e, i - 1);
      CapturedLater(s, from, e, found[i]);
    }
  }

  lemma CapturedLater(s: string, from: nat, e: nat, d: string)
    requires from <= e && CapturedFrom(s, e, d)
    ensures CapturedFrom(s, from, d)
  {
  }

  function DigitValue(c: char): nat requires IsDigit(c) { c as int - '0' as int }

  /** `int(ds)` for a string of decimal digits. */
  function DecimalValue(ds: string): nat
    requires forall k :: 0 <= k < |ds| ==> IsDigit(ds[k])
  {
    if ds == [] then 0 else 10 * DecimalValue(ds[..|ds| - 1]) + DigitValue(ds[|ds| - 1])
  }

  /** Python's `max` of a non-empty list of integers. */
  function MaxNat(xs: seq<nat>): (m: nat)
    requires xs != []
    ensures m in xs
    ensures forall i :: 0 <= i < |xs| ==> xs[i] <= m
  {
    if |xs| == 1 then xs[0]
    else
      var rest := MaxNat(xs[1..]);
      assert forall i :: 1 <= i < |xs| ==> xs[i] == xs[1..][i - 1];
      if xs[0] >= rest then xs[0] else rest
  }
}
