/** The résumé / job-description analyzer: lexical extractors over the two texts, the
    skill alignment engine, the overall alignment aggregator and the report assembler.

    The sentence segmenter's linguistic model is outside the model: each text comes
    with the list of sentence candidates it would produce, and only the trim-and-length
    filter applied to them is modelled. The embedding model is the parameter
    `sim`, an arbitrary function from two sentences to a real score. */
module NlpAnalysis {
  import opened Wrappers
  import opened PyStr
  import opened NlpPatterns

  const DEGREE_KEYWORDS: seq<string> :=
    ["b.tech", "b.e", "bachelor", "m.tech", "m.e", "master", "b.sc", "m.sc", "phd"]

  const SKILLS: seq<string> :=
    [ "python", "java", "c++", "sql", "machine learning",
      "deep learning", "nlp", "data science",
      "tensorflow", "pytorch", "flask", "fastapi",
      "docker", "aws", "git" ]

  const DOMAIN_KEYWORDS: seq<string> := ["ml", "machine learning", "nlp", "backend", "frontend", "data"]
  const ROLE_KEYWORDS: seq<string> := ["intern", "engineer", "developer", "analyst"]
  const PROJECT_KEYWORDS: seq<string> := ["project", "built", "developed", "implemented"]
  const EXTRA_KEYWORDS: seq<string> := ["hackathon", "volunteer", "open source", "club"]

  /** The default similarity a skill needs to count as matched. */
  const DEFAULT_THRESHOLD: real := 0.6

  // ---------------------------------------------------------------------------
  // Sentences

  /** The sentence filter: each candidate trimmed, kept when more than five characters
      remain, in candidate order. */
  function SplitSentences(candidates: seq<string>): (sentences: seq<string>)
    ensures |sentences| <= |candidates|
    ensures forall i :: 0 <= i < |sentences| ==> |sentences[i]| > 5 && IsStripped(sentences[i])
    decreases |candidates|
  {
    if candidates == [] then []
    else
      var s := Strip(candidates[|candidates| - 1]);
      SplitSentences(candidates[..|candidates| - 1]) + (if |s| > 5 then [s] else [])
  }

  /** The filter keeps exactly the trimmed candidates longer than five characters. */
  lemma {:induction false} SentencesAreLongTrimmedCandidates(candidates: seq<string>)
    ensures forall x :: x in SplitSentences(candidates) <==> exists c :: c in candidates && Strip(c) == x && |x| > 5
    decreases |candidates|
  {
    if candidates != [] {
      var init := candidates[..|candidates| - 1];
      var last := candidates[|candidates| - 1];
      assert forall c :: c in candidates <==> c in init || c == last;
      SentencesAreLongTrimmedCandidates(init);
    }
  }

  // ---------------------------------------------------------------------------
  // Education

  /** One education line of the résumé: the degree keyword found in it, the stripped
      lower-cased line and the first year range in it. */
  datatype EducationEntry = EducationEntry(degree: string, line: string, duration: Option<string>)

  /** The entries one line contributes, one per keyword of `degrees` it contains, in
      keyword order. */
  function LineEntries(line: string, degrees: seq<string>): seq<EducationEntry>
    decreases |degrees|
  {
    if degrees == [] then []
    else
      var deg := degrees[|degrees| - 1];
      LineEntries(line, degrees[..|degrees| - 1])
        + (if Contains(line, deg) then [EducationEntry(deg, Strip(line), Duration(line))] else [])
  }

  /** The entries of a list of lines, line by line. */
  function EducationEntries(lines: seq<string>, degrees: seq<string>): seq<EducationEntry>
    decreases |lines|
  {
    if lines == [] then []
    else EducationEntries(lines[..|lines| - 1], degrees) + LineEntries(lines[|lines| - 1], degrees)
  }

  /** `detect_education_status`: the nested scan over the lower-cased résumé's lines and
      the degree keywords. */
  method DetectEducationStatus(resumeText: string) returns (entries: seq<EducationEntry>)
    ensures entries == EducationEntries(SplitLines(Lower(resumeText)), DEGREE_KEYWORDS)
  {
    var lines := SplitLines(Lower(resumeText));
    entries := [];
    for i := 0 to |lines|
      invariant entries == EducationEntries(lines[..i], DEGREE_KEYWORDS)
    {
      var line := lines[i];
      for k := 0 to |DEGREE_KEYWORDS|
        invariant entries == EducationEntries(lines[..i], DEGREE_KEYWORDS) + LineEntries(line, DEGREE_KEYWORDS[..k])
      {
        var deg := DEGREE_KEYWORDS[k];
        LineEntriesStep(line, DEGREE_KEYWORDS, k);
        if Contains(line, deg) {
          var years := Duration(line);
          entries := entries + [EducationEntry(deg, Strip(line), years)];
        }
      }
      assert DEGREE_KEYWORDS[..|DEGREE_KEYWORDS|] == DEGREE_KEYWORDS;
      EducationEntriesStep(lines, i, DEGREE_KEYWORDS);
    }
    assert lines[..|lines|] == lines;
  }

  lemma LineEntriesStep(line: string, degrees: seq<string>, k: nat)
    requires k < |degrees|
    ensures LineEntries(line, degrees[..k + 1]) == LineEntries(line, degrees[..k])
      + (if Contains(line, degrees[k]) then [EducationEntry(degrees[k], Strip(line), Duration(line))] else [])
  {
    assert degrees[..k + 1][..k] == degrees[..k];
  }

  lemma EducationEntriesStep(lines: seq<string>, i: nat, degrees: seq<string>)
    requires i < |lines|
    ensures EducationEntries(lines[..i + 1], degrees) == EducationEntries(lines[..i], degrees) + LineEntries(lines[i], degrees)
  {
    assert lines[..i + 1][..i] == lines[..i];
  }

  /** A line's entries name exactly the keywords it contains, each with the stripped
      line and the line's first year range. */
  lemma {:induction false} LineEntriesExact(line: string, degrees: seq<string>)
    ensures forall e :: e in LineEntries(line, degrees) ==>
      e.degree in degrees && Contains(line, e.degree) && e.line == Strip(line) && e.duration == Duration(line)
    ensures forall d :: d in degrees && Contains(line, d) ==>
      EducationEntry(d, Strip(line), Duration(line)) in LineEntries(line, degrees)
    decreases |degrees|
  {
    if degrees != [] {
      var init := degrees[..|degrees| - 1];
      LineEntriesExact(line, init);
      assert forall d :: d in degrees <==> d in init || d == degrees[|degrees| - 1];
    }
  }

  /** Every entry comes from a line that contains its degree keyword ... */
  lemma {:induction false} EducationEntriesSound(lines: seq<string>, degrees: seq<string>)
    ensures forall e :: e in EducationEntries(lines, degrees) ==>
      e.degree in degrees && IsStripped(e.line) &&
      (e.duration.Some? ==> IsYearRange(e.duration.value)) &&
      (exists i :: 0 <= i < |lines| && Contains(lines[i], e.degree) &&
        e.line == Strip(lines[i]) && e.duration == Duration(lines[i]))
    decreases |lines|
  {
    if lines != [] {
      var init := lines[..|lines| - 1];
      var last := lines[|lines| - 1];
      EducationEntriesSound(init, degrees);
      LineEntriesExact(last, degrees);
      forall e | e in EducationEntries(lines, degrees)
        ensures exists i :: 0 <= i < |lines| && Contains(lines[i], e.degree) && e.line == Strip(lines[i]) && e.duration == Duration(lines[i])
      {
        if e in EducationEntries(init, degrees) {
          var i :| 0 <= i < |init| && Contains(init[i], e.degree) &&
            e.line == Strip(init[i]) && e.duration == Duration(init[i]);
          assert lines[i] == init[i];
        } else {
          assert lines[|lines| - 1] == last;
        }
      }
    }
  }

  /** ... and every (line, degree keyword) pair where the line contains the keyword
      gives an entry. */
  lemma EducationEntriesComplete(lines: seq<string>, degrees: seq<string>)
    ensures forall i, k :: 0 <= i < |lines| && 0 <= k < |degrees| && Contains(lines[i], degrees[k]) ==>
      EducationEntry(degrees[k], Strip(lines[i]), Duration(lines[i])) in EducationEntries(lines, degrees)
  {
    forall i, k | 0 <= i < |lines| && 0 <= k < |degrees| && Contains(lines[i], degrees[k])
      ensures EducationEntry(degrees[k], Strip(lines[i]), Duration(lines[i])) in EducationEntries(lines, degrees)
    {
      EducationEntryPresent(lines, degrees, i, k);
    }
  }

  lemma {:induction false} EducationEntryPresent(lines: seq<string>, degrees: seq<string>, i: nat, k: nat)
    requires i < |lines| && k < |degrees| && Contains(lines[i], degrees[k])
    ensures EducationEntry(degrees[k], Strip(lines[i]), Duration(lines[i])) in EducationEntries(lines, degrees)
    decreases |lines|
  {
    var init := lines[..|lines| - 1];
    if i < |init| {
      assert lines[i] == init[i];
      EducationEntryPresent(init, degrees, i, k);
    } else {
      LineEntriesExact(lines[i], degrees);
      assert degrees[k] in degrees;
    }
  }

  /** The first keyword, in list order, that occurs in `text`. */
  function FirstKeywordIn(keywords: seq<string>, text: string): (r: Option<string>)
    ensures r.None? <==> forall k :: 0 <= k < |keywords| ==> !Contains(text, keywords[k])
    ensures r.Some? ==>
      exists k :: 0 <= k < |keywords| && keywords[k] == r.value && Contains(text, r.value) &&
                  forall j :: 0 <= j < k ==> !Contains(text, keywords[j])
  {
    if keywords == [] then None
    else if Contains(text, keywords[0]) then Some(keywords[0])
    else
      var r := FirstKeywordIn(keywords[1..], text);
      assert forall k :: 1 <= k < |keywords| ==> keywords[k] == keywords[1..][k - 1];
      if r.Some? then
        var k :| 0 <= k < |keywords[1..]| && keywords[1..][k] == r.value && Contains(text, r.value)
          && forall j :: 0 <= j < k ==> !Contains(text, keywords[1..][j]);
        assert keywords[k + 1] == r.value;
        r
      else r
  }

  /** `detect_jd_education_requirement`: the first degree keyword, in list order, that
      occurs in the lower-cased job description. */
  function DetectJdEducationRequirement(jdText: string): (r: Option<string>)
    ensures r.None? <==> forall k :: 0 <= k < |DEGREE_KEYWORDS| ==> !Contains(Lower(jdText), DEGREE_KEYWORDS[k])
    ensures r.Some? ==>
      exists k :: 0 <= k < |DEGREE_KEYWORDS| && DEGREE_KEYWORDS[k] == r.value && Contains(Lower(jdText), r.value) &&
                  forall j :: 0 <= j < k ==> !Contains(Lower(jdText), DEGREE_KEYWORDS[j])
  {
    FirstKeywordIn(DEGREE_KEYWORDS, Lower(jdText))
  }

  datatype EducationVerdict = Matched | Missing | NotRequired

  function SomeDegreeContains(entries: seq<EducationEntry>, req: string): (b: bool)
    ensures b <==> exists i :: 0 <= i < |entries| && Contains(entries[i].degree, req)
  {
    if entries == [] then false
    else
      assert forall i :: 1 <= i < |entries| ==> entries[i] == entries[1..][i - 1];
      Contains(entries[0].degree, req) || SomeDegreeContains(entries[1..], req)
  }

  /** `education_match`: "not_required" when there is no (or an empty) requirement,
      "matched" when some entry's degree contains it, "missing" otherwise. */
  function EducationMatch(entries: seq<EducationEntry>, req: Option<string>): (v: EducationVerdict)
    ensures v == NotRequired <==> req.None? || req.value == []
    ensures v == Matched <==> req.Some? && req.value != [] && exists i :: 0 <= i < |entries| && Contains(entries[i].degree, req.value)
  {
    if req.None? || req.value == [] then NotRequired
    else if SomeDegreeContains(entries, req.value) then Matched
    else Missing
  }

  // ---------------------------------------------------------------------------
  // Experience

  /** `map(int, found)`: the value of each digit string, in order. */
  function YearValues(found: seq<string>): (vs: seq<nat>)
    requires forall i :: 0 <= i < |found| ==> IsDigits(found[i])
    ensures |vs| == |found|
    ensures forall i :: 0 <= i < |found| ==> IsDigits(found[i]) && vs[i] == DecimalValue(found[i])
    decreases |found|
  {
    if found == [] then []
    else
      var init := found[..|found| - 1];
      assert forall i :: 0 <= i < |init| ==> init[i] == found[i];
      assert IsDigits(found[|found| - 1]);
      YearValues(init) + [DecimalValue(found[|found| - 1])]
  }

  /** The numbers of all "N years" / "N+ years" mentions of the lower-cased text. */
  function ExperienceMentions(jdText: string): seq<nat> {
    YearValues(FindAllYears(Lower(jdText), 0))
  }

  /** `parse_jd_experience_requirements`: absent when the pattern matches nowhere,
      otherwise the largest number any mention gives. */
  function ParseJdExperienceRequirements(jdText: string): (r: Option<nat>)
    ensures r.None? <==> forall p :: 0 <= p <= |jdText| ==> YearsMatchAt(Lower(jdText), p).None?
    ensures r.Some? ==> r.value in ExperienceMentions(jdText)
    ensures r.Some? ==> forall v :: v in ExperienceMentions(jdText) ==> v <= r.value
  {
    var found := FindAllYears(Lower(jdText), 0);
    FindAllEmptyIff(Lower(jdText), 0);
    if found == [] then None else Some(MaxNat(YearValues(found)))
  }

  // ---------------------------------------------------------------------------
  // Keyword scans

  /** The keywords of the list that occur in `text`, in list order. */
  function KeywordsIn(keywords: seq<string>, text: string): seq<string>
    decreases |keywords|
  {
    if keywords == [] then []
    else
      var kw := keywords[|keywords| - 1];
      KeywordsIn(keywords[..|keywords| - 1], text) + (if Contains(text, kw) then [kw] else [])
  }

  /** What the scan keeps: exactly the keywords that occur, each once when the list has
      no repeats, in the order of the list. */
  lemma {:induction false} KeywordsInExact(keywords: seq<string>, text: string)
    ensures forall k :: k in KeywordsIn(keywords, text) <==> k in keywords && Contains(text, k)
    ensures Distinct(keywords) ==> Distinct(KeywordsIn(keywords, text))
    ensures InOrderOf(KeywordsIn(keywords, text), keywords)
    decreases |keywords|
  {
    if keywords != [] {
      var init := keywords[..|keywords| - 1];
      var kw := keywords[|keywords| - 1];
      var r0 := KeywordsIn(init, text);
      var r := KeywordsIn(keywords, text);
      KeywordsInExact(init, text);
      assert forall k :: k in keywords <==> k in init || k == kw;
      if Contains(text, kw) {
        assert r == r0 + [kw];
        InOrderAppend(r0, init, kw);
        assert init + [kw] == keywords;
        if Distinct(keywords) {
          assert kw !in init;
        }
      } else {
        assert r == r0;
        InOrderExtend(r0, init, kw);
        assert init + [kw] == keywords;
      }
    }
  }

  /** Every two entries of `r`, in order, come from two positions of `keywords` in the
      same order. */
  predicate InOrderOf(r: seq<string>, keywords: seq<string>) {
    forall i, j :: 0 <= i < j < |r| ==> OrderedPair(r[i], r[j], keywords)
  }

  /** `x` occurs in `keywords` before some occurrence of `y`. */
  predicate OrderedPair(x: string, y: string, keywords: seq<string>) {
    exists a, b :: 0 <= a < b < |keywords| && keywords[a] == x && keywords[b] == y
  }

  lemma InOrderAppend(r: seq<string>, keywords: seq<string>, kw: string)
    requires InOrderOf(r, keywords) && forall k :: k in r ==> k in keywords
    ensures InOrderOf(r + [kw], keywords + [kw])
  {
    var r', ks := r + [kw], keywords + [kw];
    forall i, j | 0 <= i < j < |r'|
      ensures OrderedPair(r'[i], r'[j], ks)
    {
      if j < |r| {
        assert OrderedPair(r[i], r[j], keywords);
        var a, b :| 0 <= a < b < |keywords| && keywords[a] == r[i] && keywords[b] == r[j];
        assert ks[a] == r'[i] && ks[b] == r'[j];
      } else {
        assert r'[i] == r[i] && r[i] in r;
        var a :| 0 <= a < |keywords| && keywords[a] == r[i];
        assert ks[a] == r'[i] && ks[|keywords|] == r'[j];
      }
    }
  }

  lemma InOrderExtend(r: seq<string>, keywords: seq<string>, kw: string)
    requires InOrderOf(r, keywords)
    ensures InOrderOf(r, keywords + [kw])
  {
    var ks := keywords + [kw];
    forall i, j | 0 <= i < j < |r|
      ensures OrderedPair(r[i], r[j], ks)
    {
      assert OrderedPair(r[i], r[j], keywords);
      var a, b :| 0 <= a < b < |keywords| && keywords[a] == r[i] && keywords[b] == r[j];
      assert ks[a] == r[i] && ks[b] == r[j];
    }
  }

  /** The loop shared by the three list-building extractors: append each keyword that
      occurs in the lower-cased text. */
  method ScanKeywords(keywords: seq<string>, text: string) returns (found: seq<string>)
    ensures found == KeywordsIn(keywords, Lower(text))
  {
    var lowered := Lower(text);
    found := [];
    for k := 0 to |keywords|
      invariant found == KeywordsIn(keywords[..k], lowered)
    {
      assert keywords[..k + 1][..k] == keywords[..k];
      if Contains(lowered, keywords[k]) {
        found := found + [keywords[k]];
      }
    }
    assert keywords[..|keywords|] == keywords;
  }

  /** `list(set(xs))`: the elements of a set, each once, in an order the model leaves
      open (Python's follows string hashes). */
  method ListOfSet(s: set<string>) returns (xs: seq<string>)
    ensures |xs| == |s|
    ensures Distinct(xs)
    ensures forall x :: x in xs <==> x in s
  {
    xs := [];
    var rest := s;
    while rest != {}
      invariant rest <= s
      invariant Distinct(xs)
      invariant forall x :: x in xs <==> x in s && x !in rest
      invariant |xs| + |rest| == |s|
      decreases |rest|
    {
      var x :| x in rest;
      xs := xs + [x];
      rest := rest - {x};
    }
  }

  /** `extract_resume_domain_experience`: the domain keywords the résumé mentions, each once. */
  method ExtractResumeDomainExperience(resumeText: string) returns (domains: seq<string>)
    ensures Distinct(domains)
    ensures forall k :: k in domains <==> k in DOMAIN_KEYWORDS && Contains(Lower(resumeText), k)
  {
    var found := ScanKeywords(DOMAIN_KEYWORDS, resumeText);
    KeywordsInExact(DOMAIN_KEYWORDS, Lower(resumeText));
    domains := ListOfSet(set k | k in found);
  }

  /** `extract_role_based_experience`: the role keywords the résumé mentions, each once. */
  method ExtractRoleBasedExperience(resumeText: string) returns (roles: seq<string>)
    ensures Distinct(roles)
    ensures forall k :: k in roles <==> k in ROLE_KEYWORDS && Contains(Lower(resumeText), k)
  {
    var found := ScanKeywords(ROLE_KEYWORDS, resumeText);
    KeywordsInExact(ROLE_KEYWORDS, Lower(resumeText));
    roles := ListOfSet(set k | k in found);
  }

  /** `extract_extra_curriculars`: the extracurricular keywords the résumé mentions, in
      list order and without the set conversion. */
  method ExtractExtraCurriculars(resumeText: string) returns (extras: seq<string>)
    ensures extras == KeywordsIn(EXTRA_KEYWORDS, Lower(resumeText))
    ensures Distinct(extras)
    ensures forall k :: k in extras <==> k in EXTRA_KEYWORDS && Contains(Lower(resumeText), k)
  {
    extras := ScanKeywords(EXTRA_KEYWORDS, resumeText);
    ExtraKeywordsDistinct();
    KeywordsInExact(EXTRA_KEYWORDS, Lower(resumeText));
  }

  lemma ExtraKeywordsDistinct()
    ensures Distinct(EXTRA_KEYWORDS)
  {
    var ks := EXTRA_KEYWORDS;
    assert ks[0][0] == 'h' && ks[1][0] == 'v' && ks[2][0] == 'o' && ks[3][0] == 'c';
  }

  /** `has_projects`: whether any project keyword occurs in the lower-cased résumé. */
  function HasProjects(resumeText: string): (b: bool)
    ensures b <==> exists k :: 0 <= k < |PROJECT_KEYWORDS| && Contains(Lower(resumeText), PROJECT_KEYWORDS[k])
  {
    FirstKeywordIn(PROJECT_KEYWORDS, Lower(resumeText)).Some?
  }

  // ---------------------------------------------------------------------------
  // Skill alignment

  datatype SkillStatus = SkillMatched | SkillMissing
  datatype MatchType = Semantic | NoMatch

  /** One entry of the skill analysis; the similarity is not rounded. */
  datatype SkillRecord = SkillRecord(status: SkillStatus, matchType: MatchType, similarity: real)

  /** Python's `max(a, b)`: `a` unless `b` is larger. */
  function PyMax(a: real, b: real): (m: real)
    ensures m >= a && m >= b && (m == a || m == b)
  {
    if b > a then b else a
  }

  /** The running maximum `best` after comparing job sentence `jd` with each résumé sentence. */
  function BestAgainst(best: real, jd: string, res: seq<string>, sim: (string, string) -> real): (r: real)
    ensures r >= best
    ensures forall j :: 0 <= j < |res| ==> sim(jd, res[j]) <= r
    ensures r == best || exists j :: 0 <= j < |res| && r == sim(jd, res[j])
    decreases |res|
  {
    if res == [] then best
    else
      var init := res[..|res| - 1];
      var r0 := BestAgainst(best, jd, init, sim);
      assert forall j :: 0 <= j < |init| ==> res[j] == init[j];
      PyMax(r0, sim(jd, res[|res| - 1]))
  }

  /** Whether the `i`-th job sentence mentions the skill. */
  predicate Mentions(jdSents: seq<string>, i: int, skill: string)
    requires 0 <= i < |jdSents|
  {
    Contains(Lower(jdSents[i]), skill)
  }

  /** The best score for a skill: the largest similarity between a job sentence that
      mentions the skill and a résumé sentence, and never below 0.0. */
  function BestScore(skill: string, jdSents: seq<string>, resSents: seq<string>, sim: (string, string) -> real): (r: real)
    ensures r >= 0.0
    ensures forall i, j :: 0 <= i < |jdSents| && 0 <= j < |resSents| && Mentions(jdSents, i, skill) ==>
      sim(jdSents[i], resSents[j]) <= r
    ensures r == 0.0 ||
      exists i, j :: 0 <= i < |jdSents| && 0 <= j < |resSents| && Mentions(jdSents, i, skill) &&
                     r == sim(jdSents[i], resSents[j])
    decreases |jdSents|
  {
    if jdSents == [] then 0.0
    else
      var init := jdSents[..|jdSents| - 1];
      var jd := jdSents[|jdSents| - 1];
      var b := BestScore(skill, init, resSents, sim);
      assert forall i :: 0 <= i < |init| ==> jdSents[i] == init[i] && (Mentions(jdSents, i, skill) <==> Mentions(init, i, skill));
      if Contains(Lower(jd), skill) then BestAgainst(b, jd, resSents, sim) else b
  }

  /** A skill no job sentence mentions scores 0.0 and is missing. */
  lemma UnmentionedSkillScoresZero(skill: string, jdSents: seq<string>, resSents: seq<string>, sim: (string, string) -> real)
    requires forall i :: 0 <= i < |jdSents| ==> !Mentions(jdSents, i, skill)
    ensures BestScore(skill, jdSents, resSents, sim) == 0.0
  {
  }

  /** The record the engine stores for a best score and a threshold. */
  predicate IsRecordFor(rec: SkillRecord, best: real, threshold: real) {
    && rec.similarity == best
    && (rec.status == SkillMatched <==> best >= threshold)
    && (rec.matchType == Semantic <==> rec.status == SkillMatched)
  }

  /** The inner two loops of `semantic_skill_match` for one skill: the running maximum,
      started at 0.0, over the job sentences that mention the skill and all résumé
      sentences. */
  method RunningBestScore(skill: string, jdSents: seq<string>, resSents: seq<string>, sim: (string, string) -> real)
    returns (best: real)
    ensures best == BestScore(skill, jdSents, resSents, sim)
  {
    best := 0.0;
    for i := 0 to |jdSents|
      invariant best == BestScore(skill, jdSents[..i], resSents, sim)
    {
      var jd := jdSents[i];
      BestScoreStep(skill, jdSents, i, resSents, sim);
      if !Contains(Lower(jd), skill) {
        continue;
      }
      ghost var before := best;
      for j := 0 to |resSents|
        invariant best == BestAgainst(before, jd, resSents[..j], sim)
      {
        BestAgainstStep(before, jd, resSents, j, sim);
        var score := sim(jd, resSents[j]);
        best := PyMax(best, score);
      }
      assert resSents[..|resSents|] == resSents;
    }
    assert jdSents[..|jdSents|] == jdSents;
  }

  /** One more job sentence: the running maximum continues over it when it mentions the
      skill. */
  lemma BestScoreStep(skill: string, jdSents: seq<string>, i: nat, resSents: seq<string>, sim: (string, string) -> real)
    requires i < |jdSents|
    ensures BestScore(skill, jdSents[..i + 1], resSents, sim)
      == if Contains(Lower(jdSents[i]), skill)
         then BestAgainst(BestScore(skill, jdSents[..i], resSents, sim), jdSents[i], resSents, sim)
         else BestScore(skill, jdSents[..i], resSents, sim)
  {
    assert jdSents[..i + 1][..i] == jdSents[..i];
  }

  /** One more résumé sentence: the running maximum takes its score into account. */
  lemma BestAgainstStep(best: real, jd: string, res: seq<string>, j: nat, sim: (string, string) -> real)
    requires j < |res|
    ensures BestAgainst(best, jd, res[..j + 1], sim) == PyMax(BestAgainst(best, jd, res[..j], sim), sim(jd, res[j]))
  {
    assert res[..j + 1][..j] == res[..j];
  }

  /** `semantic_skill_match`: one record per tracked skill, holding the best score of the
      skill and classified against the threshold. */
  method SemanticSkillMatch(jdCandidates: seq<string>, resumeCandidates: seq<string>,
                            sim: (string, string) -> real, threshold: real)
    returns (analysis: map<string, SkillRecord>)
    ensures forall s :: s in analysis <==> s in SKILLS
    ensures forall s :: s in analysis ==>
      IsRecordFor(analysis[s], BestScore(s, SplitSentences(jdCandidates), SplitSentences(resumeCandidates), sim), threshold)
  {
    var jdSents := SplitSentences(jdCandidates);
    var resSents := SplitSentences(resumeCandidates);
    analysis := map[];
    for si := 0 to |SKILLS|
      invariant forall s :: s in analysis <==> s in SKILLS[..si]
      invariant forall s :: s in analysis ==> IsRecordFor(analysis[s], BestScore(s, jdSents, resSents, sim), threshold)
    {
      var skill := SKILLS[si];
      var best := RunningBestScore(skill, jdSents, resSents, sim);
      if best >= threshold {
        analysis := analysis[skill := SkillRecord(SkillMatched, Semantic, best)];
      } else {
        analysis := analysis[skill := SkillRecord(SkillMissing, NoMatch, best)];
      }
      assert forall s :: s in SKILLS[..si + 1] <==> s in SKILLS[..si] || s == skill;
    }
    assert SKILLS[..|SKILLS|] == SKILLS;
  }

  // ---------------------------------------------------------------------------
  // Overall alignment

  /** The summary statistics of the per-job-sentence scores, unrounded. */
  datatype Alignment = Alignment(average: real, minimum: real, maximum: real)

  /** Why the aggregator has no result: the division by zero of an empty score list, or
      the `max` of an empty generator when the résumé gives no sentence. */
  datatype AlignmentError = NoJobSentences | NoResumeSentences

  /** Python's `max` of a non-empty list. */
  function MaxReal(xs: seq<real>): (m: real)
    requires xs != []
    ensures m in xs
    ensures forall i :: 0 <= i < |xs| ==> xs[i] <= m
  {
    if |xs| == 1 then xs[0]
    else
      var rest := MaxReal(xs[..|xs| - 1]);
      assert forall i :: 0 <= i < |xs| - 1 ==> xs[i] == xs[..|xs| - 1][i];
      PyMax(rest, xs[|xs| - 1])
  }

  /** Python's `min` of a non-empty list. */
  function MinReal(xs: seq<real>): (m: real)
    requires xs != []
    ensures m in xs
    ensures forall i :: 0 <= i < |xs| ==> m <= xs[i]
  {
    if |xs| == 1 then xs[0]
    else
      var rest := MinReal(xs[..|xs| - 1]);
      assert forall i :: 0 <= i < |xs| - 1 ==> xs[i] == xs[..|xs| - 1][i];
      if xs[|xs| - 1] < rest then xs[|xs| - 1] else rest
  }

  /** Python's `sum` of a list of reals. */
  function Sum(xs: seq<real>): real {
    if xs == [] then 0.0 else Sum(xs[..|xs| - 1]) + xs[|xs| - 1]
  }

  /** A sum of values between `lo` and `hi` lies between `|xs| * lo` and `|xs| * hi`. */
  lemma {:induction false} SumBounds(xs: seq<real>, lo: real, hi: real)
    requires forall i :: 0 <= i < |xs| ==> lo <= xs[i] <= hi
    ensures (|xs| as real) * lo <= Sum(xs) <= (|xs| as real) * hi
    decreases |xs|
  {
    if xs != [] {
      var init := xs[..|xs| - 1];
      assert forall i :: 0 <= i < |init| ==> init[i] == xs[i];
      SumBounds(init, lo, hi);
      assert (|xs| as real) * lo == (|init| as real) * lo + lo;
      assert (|xs| as real) * hi == (|init| as real) * hi + hi;
    }
  }

  lemma QuotientBounds(total: real, n: real, lo: real, hi: real)
    requires n > 0.0 && n * lo <= total <= n * hi
    ensures lo <= total / n <= hi
  {
    var q := total / n;
    assert total == n * q;
    assert n * (q - lo) >= 0.0;
    assert n * (hi - q) >= 0.0;
  }

  /** The average, minimum and maximum of a non-empty score list; the average is the
      sum over the count and lies between the other two. */
  function Summarize(scores: seq<real>): (a: Alignment)
    requires scores != []
    ensures a.average == Sum(scores) / (|scores| as real)
    ensures a.minimum in scores && a.maximum in scores
    ensures forall i :: 0 <= i < |scores| ==> a.minimum <= scores[i] <= a.maximum
    ensures a.minimum <= a.average <= a.maximum
  {
    var lo := MinReal(scores);
    var hi := MaxReal(scores);
    AverageBounds(scores, lo, hi);
    Alignment(Sum(scores) / (|scores| as real), lo, hi)
  }

  lemma AverageBounds(scores: seq<real>, lo: real, hi: real)
    requires scores != []
    requires forall i :: 0 <= i < |scores| ==> lo <= scores[i] <= hi
    ensures lo <= Sum(scores) / (|scores| as real) <= hi
  {
    SumBounds(scores, lo, hi);
    QuotientBounds(Sum(scores), |scores| as real, lo, hi);
  }

  /** The similarities of one job sentence against every résumé sentence. */
  function ScoresAgainst(jd: string, resSents: seq<string>, sim: (string, string) -> real): (xs: seq<real>)
    ensures |xs| == |resSents|
    ensures forall j :: 0 <= j < |xs| ==> xs[j] == sim(jd, resSents[j])
  {
    seq(|resSents|, j requires 0 <= j < |resSents| => sim(jd, resSents[j]))
  }

  /** One score per job sentence: its similarity to the best-matching résumé sentence. */
  function BestMatches(jdSents: seq<string>, resSents: seq<string>, sim: (string, string) -> real): (scores: seq<real>)
    requires resSents != []
    ensures |scores| == |jdSents|
    decreases |jdSents|
  {
    if jdSents == [] then []
    else BestMatches(jdSents[..|jdSents| - 1], resSents, sim) + [MaxReal(ScoresAgainst(jdSents[|jdSents| - 1], resSents, sim))]
  }

  /** Each job sentence's score is the similarity of some résumé sentence to it, and no
      résumé sentence is more similar. */
  lemma {:induction false} BestMatchesAreBest(jdSents: seq<string>, resSents: seq<string>, sim: (string, string) -> real)
    requires resSents != []
    ensures var scores := BestMatches(jdSents, resSents, sim);
      forall i :: 0 <= i < |scores| ==>
        (exists j :: 0 <= j < |resSents| && scores[i] == sim(jdSents[i], resSents[j])) &&
        (forall j :: 0 <= j < |resSents| ==> sim(jdSents[i], resSents[j]) <= scores[i])
    decreases |jdSents|
  {
    if jdSents != [] {
      var init := jdSents[..|jdSents| - 1];
      BestMatchesAreBest(init, resSents, sim);
      var xs := ScoresAgainst(jdSents[|jdSents| - 1], resSents, sim);
      assert MaxReal(xs) in xs;
      assert forall i :: 0 <= i < |init| ==> init[i] == jdSents[i];
    }
  }

  /** `overall_semantic_alignment`: the per-job-sentence best scores summarised, or the
      error the Python code raises when there is nothing to summarise. */
  method OverallSemanticAlignment(jdCandidates: seq<string>, resumeCandidates: seq<string>, sim: (string, string) -> real)
    returns (r: Result<Alignment, AlignmentError>)
    ensures SplitSentences(jdCandidates) == [] ==> r == Err(NoJobSentences)
    ensures SplitSentences(jdCandidates) != [] && SplitSentences(resumeCandidates) == [] ==> r == Err(NoResumeSentences)
    ensures SplitSentences(jdCandidates) != [] && SplitSentences(resumeCandidates) != [] ==>
      r == Ok(Summarize(BestMatches(SplitSentences(jdCandidates), SplitSentences(resumeCandidates), sim)))
  {
    var jdSents := SplitSentences(jdCandidates);
    var resSents := SplitSentences(resumeCandidates);
    var scores: seq<real> := [];
    for i := 0 to |jdSents|
      invariant resSents != [] ==> scores == BestMatches(jdSents[..i], resSents, sim)
      invariant resSents == [] ==> i == 0 && scores == []
    {
      if resSents == [] {
        return Err(NoResumeSentences);
      }
      assert jdSents[..i + 1][..i] == jdSents[..i];
      var best := MaxReal(ScoresAgainst(jdSents[i], resSents, sim));
      scores := scores + [best];
    }
    if scores == [] {
      return Err(NoJobSentences);
    }
    assert jdSents[..|jdSents|] == jdSents;
    r := Ok(Summarize(scores));
  }

  // ---------------------------------------------------------------------------
  // Report

  datatype EducationSection = EducationSection(resume: seq<EducationEntry>, jdRequirement: Option<string>, verdict: EducationVerdict)

  datatype ExperienceSection = ExperienceSection(jdRequiredYears: Option<nat>, resumeRoles: seq<string>, resumeDomains: seq<string>)

  /** The analysis report: what `build_analysis_json` returns. */
  datatype AnalysisReport = AnalysisReport(
    education: EducationSection,
    experience: ExperienceSection,
    hasProjects: bool,
    skillAnalysis: map<string, SkillRecord>,
    extras: seq<string>,
    semanticAlignment: Alignment)

  lemma DegreeKeywordsNonEmpty()
    ensures forall k :: 0 <= k < |DEGREE_KEYWORDS| ==> DEGREE_KEYWORDS[k] != []
  {
  }

  /** `build_analysis_json`: every extractor, the skill engine with the default threshold
      and the aggregator, composed into one report; the whole build fails when the
      aggregator does. */
  method BuildAnalysisJson(jdText: string, resumeText: string,
                           jdCandidates: seq<string>, resumeCandidates: seq<string>,
                           sim: (string, string) -> real)
    returns (r: Result<AnalysisReport, AlignmentError>)
    ensures r.Ok? <==> SplitSentences(jdCandidates) != [] && SplitSentences(resumeCandidates) != []
    ensures r.Ok? ==> r.value.education.resume == EducationEntries(SplitLines(Lower(resumeText)), DEGREE_KEYWORDS)
    ensures r.Ok? ==> r.value.education.jdRequirement == DetectJdEducationRequirement(jdText)
    ensures r.Ok? ==> r.value.education.verdict == EducationMatch(r.value.education.resume, r.value.education.jdRequirement)
    ensures r.Ok? ==> (r.value.education.verdict == NotRequired <==> r.value.education.jdRequirement.None?)
    ensures r.Ok? ==> r.value.experience.jdRequiredYears == ParseJdExperienceRequirements(jdText)
    ensures r.Ok? ==> Distinct(r.value.experience.resumeRoles) && Distinct(r.value.experience.resumeDomains)
    ensures r.Ok? ==> forall k :: k in r.value.experience.resumeRoles <==> k in ROLE_KEYWORDS && Contains(Lower(resumeText), k)
    ensures r.Ok? ==> forall k :: k in r.value.experience.resumeDomains <==> k in DOMAIN_KEYWORDS && Contains(Lower(resumeText), k)
    ensures r.Ok? ==> r.value.hasProjects == HasProjects(resumeText)
    ensures r.Ok? ==> forall s :: s in r.value.skillAnalysis <==> s in SKILLS
    ensures r.Ok? ==> forall s :: s in r.value.skillAnalysis ==>
      IsRecordFor(r.value.skillAnalysis[s],
                  BestScore(s, SplitSentences(jdCandidates), SplitSentences(resumeCandidates), sim), DEFAULT_THRESHOLD)
    ensures r.Ok? ==> r.value.extras == KeywordsIn(EXTRA_KEYWORDS, Lower(resumeText))
    ensures r.Ok? ==> (r.value.semanticAlignment ==
      Summarize(BestMatches(SplitSentences(jdCandidates), SplitSentences(resumeCandidates), sim)))
    ensures r.Err? ==> r.error == (if SplitSentences(jdCandidates) == [] then NoJobSentences else NoResumeSentences)
  {
    var resumeEdu := DetectEducationStatus(resumeText);
    var jdEduReq := DetectJdEducationRequirement(jdText);
    DegreeKeywordsNonEmpty();
    var verdict := EducationMatch(resumeEdu, jdEduReq);
    var years := ParseJdExperienceRequirements(jdText);
    var roles := ExtractRoleBasedExperience(resumeText);
    var domains := ExtractResumeDomainExperience(resumeText);
    var projects := HasProjects(resumeText);
    var skills := SemanticSkillMatch(jdCandidates, resumeCandidates, sim, DEFAULT_THRESHOLD);
    var extras := ExtractExtraCurriculars(resumeText);
    var alignment := OverallSemanticAlignment(jdCandidates, resumeCandidates, sim);
    if alignment.Err? {
      return Err(alignment.error);
    }
    r := Ok(AnalysisReport(
      EducationSection(resumeEdu, jdEduReq, verdict),
      ExperienceSection(years, roles, domains),
      projects, skills, extras, alignment.value));
  }
}
