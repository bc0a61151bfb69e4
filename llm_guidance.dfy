/** The mentor guidance: the rule-based review written from an analysis report when no
    language model answers, and the parser that organises guidance text into sections
    by its "Heading:" lines. */
module LlmGuidance {
  import opened PyStr
  import opened NlpAnalysis
  import opened GuidancePatterns
  import opened GuidanceText

  // ---------------------------------------------------------------------------
  // The rule-based review

  function DomainsStrength(domains: seq<string>): string {
    DOMAINS_PREFIX + Join(", ", domains) + "."
  }

  /** The skills of the report whose status is "missing". */
  function MissingSkills(skills: map<string, SkillRecord>): (missing: set<string>)
    ensures forall s :: s in missing <==> s in skills && skills[s].status == SkillMissing
  {
    set s | s in skills && skills[s].status == SkillMissing
  }

  /** The strengths the review lists, in the order they are found. */
  function Strengths(a: AnalysisReport): seq<string> {
    (if a.education.verdict == Matched then [EDUCATION_STRENGTH] else [])
    + (if a.hasProjects then [PROJECTS_STRENGTH] else [])
    + (if a.experience.resumeDomains != [] then [DomainsStrength(a.experience.resumeDomains)] else [])
  }

  /** The areas to improve, in the order they are found. */
  function Weaknesses(a: AnalysisReport): seq<string> {
    (if a.education.verdict != Matched then [EDUCATION_WEAKNESS] else [])
    + (if !a.hasProjects then [PROJECTS_WEAKNESS] else [])
    + (if MissingSkills(a.skillAnalysis) != {} then [SKILLS_WEAKNESS] else [])
  }

  function Suggestions(a: AnalysisReport): seq<string> {
    if MissingSkills(a.skillAnalysis) != {} then [SKILLS_SUGGESTION] else []
  }

  /** One "- item" line for each item. */
  function Bullets(items: seq<string>): string {
    if items == [] then []
    else Bullets(items[..|items| - 1]) + "- " + items[|items| - 1] + "\n"
  }

  /** A header and its bullets, or nothing for an empty list. */
  function Block(header: string, items: seq<string>): string {
    if items != [] then header + Bullets(items) else []
  }

  /** The review text for the three lists. */
  function Render(strengths: seq<string>, weaknesses: seq<string>, suggestions: seq<string>): string {
    INTRO
    + Block(STRENGTHS_HEADER, strengths)
    + Block(WEAKNESSES_HEADER, weaknesses)
    + Block(SUGGESTIONS_HEADER, suggestions)
    + CLOSING
  }

  /** `response += header` and then `response += f"- {s}\n"` for every item in turn,
      when there are items. */
  method AppendBlock(response: string, header: string, items: seq<string>) returns (r: string)
    ensures r == response + Block(header, items)
  {
    r := response;
    if items != [] {
      r := r + header;
      for k := 0 to |items|
        invariant r == response + header + Bullets(items[..k])
      {
        assert items[..k + 1][..k] == items[..k];
        r := r + "- " + items[k] + "\n";
      }
      assert items[..|items|] == items;
    }
  }

  /** `fallback_mentor_guidance`: the rule-based review of an analysis report. */
  method FallbackMentorGuidance(analysis: AnalysisReport) returns (response: string)
    ensures response == Render(Strengths(analysis), Weaknesses(analysis), Suggestions(analysis))
  {
    var strengths: seq<string> := [];
    var weaknesses: seq<string> := [];
    var suggestions: seq<string> := [];

    if analysis.education.verdict == Matched {
      strengths := strengths + [EDUCATION_STRENGTH];
    } else {
      weaknesses := weaknesses + [EDUCATION_WEAKNESS];
    }
    if analysis.hasProjects {
      strengths := strengths + [PROJECTS_STRENGTH];
    } else {
      weaknesses := weaknesses + [PROJECTS_WEAKNESS];
    }
    if analysis.experience.resumeDomains != [] {
      strengths := strengths + [DomainsStrength(analysis.experience.resumeDomains)];
    }
    var missingSkills := MissingSkills(analysis.skillAnalysis);
    if missingSkills != {} {
      weaknesses := weaknesses + [SKILLS_WEAKNESS];
      suggestions := suggestions + [SKILLS_SUGGESTION];
    }

    assert strengths == Strengths(analysis);
    assert weaknesses == Weaknesses(analysis);
    assert suggestions == Suggestions(analysis);

    response := INTRO;
    response := AppendBlock(response, STRENGTHS_HEADER, strengths);
    response := AppendBlock(response, WEAKNESSES_HEADER, weaknesses);
    response := AppendBlock(response, SUGGESTIONS_HEADER, suggestions);
    response := response + CLOSING;
  }

  /** The review always opens with the same sentence and closes with the same
      paragraph. */
  lemma RenderFraming(strengths: seq<string>, weaknesses: seq<string>, suggestions: seq<string>)
    ensures INTRO <= Render(strengths, weaknesses, suggestions)
    ensures var r := Render(strengths, weaknesses, suggestions);
      |CLOSING| <= |r| && r[|r| - |CLOSING|..] == CLOSING
  {
    FramedText(INTRO, Block(STRENGTHS_HEADER, strengths), Block(WEAKNESSES_HEADER, weaknesses),
      Block(SUGGESTIONS_HEADER, suggestions), CLOSING);
  }

  lemma FramedText(a: string, b1: string, b2: string, b3: string, c: string)
    ensures a <= a + b1 + b2 + b3 + c
    ensures var t := a + b1 + b2 + b3 + c; |c| <= |t| && t[|t| - |c|..] == c
  {
    var t := a + b1 + b2 + b3 + c;
    assert t == a + (b1 + b2 + b3 + c);
    assert t[..|a|] == a;
  }

  /** What the three lists hold. Education adds a strength when it matched and a
      weakness on any other verdict, including "not required"; projects add exactly
      one line either way; the domains line appears exactly when domains were found;
      and the skills weakness and the only suggestion appear exactly when some skill is
      missing. */
  lemma ReviewContents(a: AnalysisReport)
    ensures EDUCATION_STRENGTH in Strengths(a) <==> a.education.verdict == Matched
    ensures EDUCATION_WEAKNESS in Weaknesses(a) <==> a.education.verdict != Matched
    ensures PROJECTS_STRENGTH in Strengths(a) <==> a.hasProjects
    ensures PROJECTS_WEAKNESS in Weaknesses(a) <==> !a.hasProjects
    ensures DomainsStrength(a.experience.resumeDomains) in Strengths(a) <==> a.experience.resumeDomains != []
    ensures SKILLS_WEAKNESS in Weaknesses(a) <==> exists s :: s in a.skillAnalysis && a.skillAnalysis[s].status == SkillMissing
    ensures Suggestions(a) == [SKILLS_SUGGESTION] <==> exists s :: s in a.skillAnalysis && a.skillAnalysis[s].status == SkillMissing
    ensures Suggestions(a) == [] <==> forall s :: s in a.skillAnalysis ==> a.skillAnalysis[s].status == SkillMatched
    ensures 2 <= |Strengths(a)| + |Weaknesses(a)| <= 5
  {
    var d := DomainsStrength(a.experience.resumeDomains);
    assert d[6] == 'n' && EDUCATION_STRENGTH[6] == 'e' && PROJECTS_STRENGTH[6] == 'e';
    assert |EDUCATION_STRENGTH| != |PROJECTS_STRENGTH|;
    assert |EDUCATION_WEAKNESS| == 58 && |PROJECTS_WEAKNESS| == 50 && |SKILLS_WEAKNESS| == 99;
  }

  // The review line by line

  /** `"".join(line + "\n" for line in lines)`. */
  function Terminated(lines: seq<string>): string {
    if lines == [] then [] else Terminated(lines[..|lines| - 1]) + lines[|lines| - 1] + "\n"
  }

  function ItemLines(items: seq<string>): (lines: seq<string>)
    ensures |lines| == |items|
    ensures forall i :: 0 <= i < |items| ==> lines[i] == "- " + items[i]
  {
    seq(|items|, i requires 0 <= i < |items| => "- " + items[i])
  }

  /** The lines of the review: the opening line and an empty line; each non-empty list
      under its title, one "- item" line per entry, with an empty line before the second
      and third titles; an empty line; and the closing paragraph. */
  function ReviewLines(strengths: seq<string>, weaknesses: seq<string>, suggestions: seq<string>): seq<string> {
    [INTRO_LINE, ""]
    + (if strengths != [] then [STRENGTHS_TITLE] + ItemLines(strengths) else [])
    + (if weaknesses != [] then ["", WEAKNESSES_TITLE] + ItemLines(weaknesses) else [])
    + (if suggestions != [] then ["", SUGGESTIONS_TITLE] + ItemLines(suggestions) else [])
    + ["", CLOSING_LINE]
  }

  lemma {:induction false} TerminatedAppend(xs: seq<string>, ys: seq<string>)
    ensures Terminated(xs + ys) == Terminated(xs) + Terminated(ys)
    decreases |ys|
  {
    if ys == [] {
      assert xs + ys == xs;
    } else {
      var init := ys[..|ys| - 1];
      assert (xs + ys)[..|xs + ys| - 1] == xs + init;
      assert (xs + ys)[|xs + ys| - 1] == ys[|ys| - 1];
      TerminatedAppend(xs, init);
    }
  }

  lemma {:induction false} BulletsTerminated(items: seq<string>)
    ensures Bullets(items) == Terminated(ItemLines(items))
  {
    if items != [] {
      var init := items[..|items| - 1];
      assert ItemLines(items)[..|items| - 1] == ItemLines(init);
      BulletsTerminated(init);
    }
  }

  lemma BlockTerminated(header: string, titleLines: seq<string>, items: seq<string>)
    requires header == Terminated(titleLines)
    ensures Block(header, items) == Terminated(if items != [] then titleLines + ItemLines(items) else [])
  {
    if items != [] {
      BulletsTerminated(items);
      TerminatedAppend(titleLines, ItemLines(items));
    }
  }

  lemma TerminatedTitle(title: string)
    ensures Terminated([title]) == title + "\n"
    ensures Terminated(["", title]) == "\n" + title + "\n"
    ensures Terminated([title, ""]) == title + "\n\n"
  {
    assert [title][..0] == [];
    assert ["", title][..1] == [""];
    assert [title, ""][..1] == [title];
    assert Terminated([""]) == "\n";
  }

  /** `"\n".join(lines + [last])` is every line of `lines` terminated, then `last`. */
  lemma {:induction false} JoinTerminated(lines: seq<string>, last: string)
    ensures Join("\n", lines + [last]) == Terminated(lines) + last
    decreases |lines|
  {
    if lines != [] {
      assert (lines + [last])[1..] == lines[1..] + [last];
      JoinTerminated(lines[1..], last);
      assert lines == [lines[0]] + lines[1..];
      TerminatedAppend([lines[0]], lines[1..]);
      TerminatedTitle(lines[0]);
    }
  }

  /** The joining step of `RenderLines`, for any opening, titles and closing. */
  lemma JoinLayout(intro: string, t1: string, t2: string, t3: string, closing: string,
                   s: seq<string>, w: seq<string>, g: seq<string>)
    ensures Join("\n", [intro, ""]
      + (if s != [] then [t1] + ItemLines(s) else [])
      + (if w != [] then ["", t2] + ItemLines(w) else [])
      + (if g != [] then ["", t3] + ItemLines(g) else [])
      + ["", closing])
      == (intro + "\n\n") + Block(t1 + "\n", s) + Block("\n" + t2 + "\n", w)
        + Block("\n" + t3 + "\n", g) + ("\n" + closing)
  {
    var b1 := if s != [] then [t1] + ItemLines(s) else [];
    var b2 := if w != [] then ["", t2] + ItemLines(w) else [];
    var b3 := if g != [] then ["", t3] + ItemLines(g) else [];
    JoinPieces([intro, ""], b1, b2, b3, closing);
    TerminatedTitle(intro);
    TerminatedTitle(t1);
    TerminatedTitle(t2);
    TerminatedTitle(t3);
    BlockTerminated(t1 + "\n", [t1], s);
    BlockTerminated("\n" + t2 + "\n", ["", t2], w);
    BlockTerminated("\n" + t3 + "\n", ["", t3], g);
  }

  lemma JoinPieces(a: seq<string>, b1: seq<string>, b2: seq<string>, b3: seq<string>, closing: string)
    ensures Join("\n", a + b1 + b2 + b3 + ["", closing])
      == Terminated(a) + Terminated(b1) + Terminated(b2) + Terminated(b3) + ("\n" + closing)
  {
    var front := a + b1 + b2 + b3;
    var body := front + [""];
    var tf := Terminated(a) + Terminated(b1) + Terminated(b2) + Terminated(b3);
    calc {
      Join("\n", a + b1 + b2 + b3 + ["", closing]);
      { assert a + b1 + b2 + b3 + ["", closing] == body + [closing]; }
      Join("\n", body + [closing]);
      { JoinTerminated(body, closing); }
      Terminated(body) + closing;
      { TerminatedBlankLine(front); }
      (Terminated(front) + "\n") + closing;
      { TerminatedAppend(a, b1); TerminatedAppend(a + b1, b2); TerminatedAppend(a + b1 + b2, b3); }
      (tf + "\n") + closing;
      tf + ("\n" + closing);
    }
  }

  lemma TerminatedBlankLine(xs: seq<string>)
    ensures Terminated(xs + [""]) == Terminated(xs) + "\n"
  {
    assert (xs + [""])[..|xs|] == xs;
    assert Terminated(xs) + "" == Terminated(xs);
  }

  lemma LayoutHasNoBreak(intro: string, t1: string, t2: string, t3: string, closing: string,
                         s: seq<string>, w: seq<string>, g: seq<string>)
    requires '\n' !in intro && '\n' !in t1 && '\n' !in t2 && '\n' !in t3 && '\n' !in closing
    requires forall i :: 0 <= i < |s| ==> '\n' !in s[i]
    requires forall i :: 0 <= i < |w| ==> '\n' !in w[i]
    requires forall i :: 0 <= i < |g| ==> '\n' !in g[i]
    ensures var lines := [intro, ""]
      + (if s != [] then [t1] + ItemLines(s) else [])
      + (if w != [] then ["", t2] + ItemLines(w) else [])
      + (if g != [] then ["", t3] + ItemLines(g) else [])
      + ["", closing];
      forall i :: 0 <= i < |lines| ==> '\n' !in lines[i]
  {
    assert forall x: string :: '\n' !in x ==> '\n' !in "- " + x;
  }

  /** Read line by line, the review is its opening, the non-empty lists under their
      titles in the order strengths, areas to improve, suggestions, one "- item" line
      per entry, and the closing; a title appears exactly when its list is non-empty. */
  lemma RenderLines(strengths: seq<string>, weaknesses: seq<string>, suggestions: seq<string>)
    requires forall i :: 0 <= i < |strengths| ==> '\n' !in strengths[i]
    requires forall i :: 0 <= i < |weaknesses| ==> '\n' !in weaknesses[i]
    requires forall i :: 0 <= i < |suggestions| ==> '\n' !in suggestions[i]
    ensures Split(Render(strengths, weaknesses, suggestions), '\n') == ReviewLines(strengths, weaknesses, suggestions)
  {
    ReviewLinesJoined(strengths, weaknesses, suggestions);
    ReviewLinesHaveNoBreak(strengths, weaknesses, suggestions);
    SplitJoin(ReviewLines(strengths, weaknesses, suggestions), '\n');
  }

  lemma ReviewLinesJoined(strengths: seq<string>, weaknesses: seq<string>, suggestions: seq<string>)
    ensures Join("\n", ReviewLines(strengths, weaknesses, suggestions)) == Render(strengths, weaknesses, suggestions)
  {
    JoinLayout(INTRO_LINE, STRENGTHS_TITLE, WEAKNESSES_TITLE, SUGGESTIONS_TITLE, CLOSING_LINE,
      strengths, weaknesses, suggestions);
  }

  lemma ReviewLinesHaveNoBreak(strengths: seq<string>, weaknesses: seq<string>, suggestions: seq<string>)
    requires forall i :: 0 <= i < |strengths| ==> '\n' !in strengths[i]
    requires forall i :: 0 <= i < |weaknesses| ==> '\n' !in weaknesses[i]
    requires forall i :: 0 <= i < |suggestions| ==> '\n' !in suggestions[i]
    ensures var lines := ReviewLines(strengths, weaknesses, suggestions);
      forall i :: 0 <= i < |lines| ==> '\n' !in lines[i]
  {
    FixedLinesHaveNoBreak();
    LayoutHasNoBreak(INTRO_LINE, STRENGTHS_TITLE, WEAKNESSES_TITLE, SUGGESTIONS_TITLE, CLOSING_LINE,
      strengths, weaknesses, suggestions);
  }

  /** The review of a report, line by line (the domain names, being keywords, hold no
      line break). */
  lemma ReviewLinesOf(a: AnalysisReport)
    requires forall i :: 0 <= i < |a.experience.resumeDomains| ==> '\n' !in a.experience.resumeDomains[i]
    ensures Split(Render(Strengths(a), Weaknesses(a), Suggestions(a)), '\n')
      == ReviewLines(Strengths(a), Weaknesses(a), Suggestions(a))
  {
    StrengthsHaveNoBreak(a);
    WeaknessesHaveNoBreak(a);
    SuggestionsHaveNoBreak(a);
    RenderLines(Strengths(a), Weaknesses(a), Suggestions(a));
  }

  lemma StrengthsHaveNoBreak(a: AnalysisReport)
    requires forall i :: 0 <= i < |a.experience.resumeDomains| ==> '\n' !in a.experience.resumeDomains[i]
    ensures var s := Strengths(a); forall i :: 0 <= i < |s| ==> '\n' !in s[i]
  {
    FixedLinesHaveNoBreak();
    JoinKeepsAbsent(", ", a.experience.resumeDomains, '\n');
  }

  lemma WeaknessesHaveNoBreak(a: AnalysisReport)
    ensures var w := Weaknesses(a); forall i :: 0 <= i < |w| ==> '\n' !in w[i]
  {
    FixedLinesHaveNoBreak();
  }

  lemma SuggestionsHaveNoBreak(a: AnalysisReport)
    ensures var g := Suggestions(a); forall i :: 0 <= i < |g| ==> '\n' !in g[i]
  {
    FixedLinesHaveNoBreak();
  }

  // ---------------------------------------------------------------------------
  // Sections of guidance text

  /** A Python dict from section names to paragraph lists: its keys in insertion order
      and its entries. */
  datatype Sections = Sections(order: seq<string>, entries: map<string, seq<string>>)

  /** The keys are listed once each, in the order they were first assigned. */
  predicate WellFormed(d: Sections) {
    && Distinct(d.order)
    && (forall k :: k in d.entries ==> k in d.order)
    && (forall k :: k in d.order ==> k in d.entries)
  }

  /** `d[key] = value`: a new key goes last, an existing key keeps its place. */
  function Put(d: Sections, key: string, value: seq<string>): (r: Sections)
    ensures r.entries == d.entries[key := value]
    ensures WellFormed(d) ==> WellFormed(r)
    ensures d.order <= r.order
  {
    Sections(if key in d.entries then d.order else d.order + [key], d.entries[key := value])
  }

  /** The non-blank lines, stripped (`[p.strip() for p in pieces if p.strip()]`). */
  function NonBlankLines(pieces: seq<string>): (lines: seq<string>)
    ensures forall i :: 0 <= i < |lines| ==> lines[i] != [] && IsStripped(lines[i])
    ensures (forall i :: 0 <= i < |pieces| ==> '\n' !in pieces[i]) ==> forall i :: 0 <= i < |lines| ==> '\n' !in lines[i]
  {
    if pieces == [] then []
    else
      var init := NonBlankLines(pieces[..|pieces| - 1]);
      var last := Strip(pieces[|pieces| - 1]);
      StripKeepsAbsent(pieces[|pieces| - 1], '\n');
      if last != [] then init + [last] else init
  }

  /** The paragraphs of a section's content. */
  function Paragraphs(content: string): (ps: seq<string>)
    ensures forall i :: 0 <= i < |ps| ==> ps[i] != [] && IsStripped(ps[i]) && '\n' !in ps[i]
  {
    NonBlankLines(Split(Strip(content), '\n'))
  }

  /** A section name from a heading piece (`piece.strip().rstrip(":")`). */
  function HeadingKey(piece: string): string {
    RStrip(Strip(piece), ':')
  }

  /** The assignments the loop makes from index `i` on: the piece at `i` names the
      section and the piece after it holds its content, two pieces at a time while a
      pair remains. */
  function Pairs(splits: seq<string>, i: nat): seq<(string, seq<string>)>
    decreases |splits| - i
  {
    if i + 1 < |splits| then [(HeadingKey(splits[i]), Paragraphs(splits[i + 1]))] + Pairs(splits, i + 2)
    else []
  }

  function PutAll(d: Sections, assignments: seq<(string, seq<string>)>): (r: Sections)
    ensures WellFormed(d) ==> WellFormed(r)
    decreases |assignments|
  {
    if assignments == [] then d
    else PutAll(Put(d, assignments[0].0, assignments[0].1), assignments[1..])
  }

  lemma PutAllFirst(d: Sections, first: (string, seq<string>), rest: seq<(string, seq<string>)>)
    ensures PutAll(d, [first] + rest) == PutAll(Put(d, first.0, first.1), rest)
  {
    assert ([first] + rest)[1..] == rest;
  }

  /** The text the split works on: stripped, with runs of newlines collapsed. */
  function Cleaned(text: string): string {
    CollapseNewlines(Strip(text))
  }

  /** Where the pairing starts: at the first heading when the text starts with one,
      otherwise at the text before it. */
  function Start(splits: seq<string>): nat {
    if |splits| > 0 && Strip(splits[0]) == [] then 1 else 0
  }

  /** The sections before the loop: "Intro" holds the text before the first heading,
      unless that text is blank. */
  function InitialSections(splits: seq<string>): (d: Sections)
    requires |splits| > 0
    ensures WellFormed(d)
  {
    if Strip(splits[0]) == [] then Sections([], map[])
    else Put(Sections([], map[]), "Intro", [Strip(splits[0])])
  }

  /** What `format_guidance_for_html` returns for `text`. */
  function ParseSections(text: string): (r: Sections)
    ensures WellFormed(r)
  {
    SectionsOf(SplitHeadings(Cleaned(text)))
  }

  /** The sections the loop builds from the pieces of the split. */
  function SectionsOf(splits: seq<string>): (r: Sections)
    requires |splits| > 0
    ensures WellFormed(r)
  {
    PutAll(InitialSections(splits), Pairs(splits, Start(splits)))
  }

  /** `format_guidance_for_html`: the guidance text organised into sections. */
  method FormatGuidanceForHtml(guidanceText: string) returns (sections: Sections)
    ensures sections == ParseSections(guidanceText)
  {
    var text := Cleaned(guidanceText);
    var splits := SplitHeadings(text);
    ghost var goal := SectionsOf(splits);
    assert goal == ParseSections(guidanceText);

    sections := Sections([], map[]);
    var i := 0;
    if Strip(splits[0]) == [] {
      i := 1;
    } else {
      sections := Put(sections, "Intro", [Strip(splits[0])]);
    }
    assert PutAll(sections, Pairs(splits, i)) == goal;

    while i < |splits| - 1
      invariant i <= |splits|
      invariant PutAll(sections, Pairs(splits, i)) == goal
      decreases |splits| - i
    {
      var heading := HeadingKey(splits[i]);
      var paragraphs := Paragraphs(splits[i + 1]);
      PutAllFirst(sections, (heading, paragraphs), Pairs(splits, i + 2));
      sections := Put(sections, heading, paragraphs);
      i := i + 2;
    }
    assert Pairs(splits, i) == [];
  }

  // ---------------------------------------------------------------------------
  // What the sections hold

  /** A run of assignments leaves the old keys and adds the assigned ones. */
  lemma {:induction false} PutAllKeys(d: Sections, assignments: seq<(string, seq<string>)>)
    ensures forall k :: k in PutAll(d, assignments).entries <==>
      k in d.entries || exists m :: 0 <= m < |assignments| && assignments[m].0 == k
    decreases |assignments|
  {
    if assignments != [] {
      var rest := assignments[1..];
      PutAllKeys(Put(d, assignments[0].0, assignments[0].1), rest);
      assert forall m :: 0 <= m < |rest| ==> rest[m] == assignments[m + 1];
      assert forall m :: 1 <= m < |assignments| ==> assignments[m] == rest[m - 1];
    }
  }

  /** A key that no assignment names keeps its value. */
  lemma {:induction false} PutAllUntouched(d: Sections, assignments: seq<(string, seq<string>)>, k: string)
    requires forall m :: 0 <= m < |assignments| ==> assignments[m].0 != k
    ensures k in PutAll(d, assignments).entries <==> k in d.entries
    ensures k in d.entries ==> PutAll(d, assignments).entries[k] == d.entries[k]
    decreases |assignments|
  {
    if assignments != [] {
      var rest := assignments[1..];
      assert forall m :: 0 <= m < |rest| ==> rest[m] == assignments[m + 1];
      PutAllUntouched(Put(d, assignments[0].0, assignments[0].1), rest, k);
    }
  }

  /** A key holds the value of the last assignment that names it. */
  lemma {:induction false} PutAllLast(d: Sections, assignments: seq<(string, seq<string>)>, m: nat)
    requires m < |assignments|
    requires forall n :: m < n < |assignments| ==> assignments[n].0 != assignments[m].0
    ensures assignments[m].0 in PutAll(d, assignments).entries
    ensures PutAll(d, assignments).entries[assignments[m].0] == assignments[m].1
    decreases |assignments|
  {
    var rest := assignments[1..];
    assert forall n :: 0 <= n < |rest| ==> rest[n] == assignments[n + 1];
    var next := Put(d, assignments[0].0, assignments[0].1);
    if m == 0 {
      PutAllUntouched(next, rest, assignments[0].0);
    } else {
      PutAllLast(next, rest, m - 1);
    }
  }

  /** The loop makes one assignment per two pieces from index `i`, a lone last piece
      being dropped. */
  lemma {:induction false} PairsLength(splits: seq<string>, i: nat)
    ensures |Pairs(splits, i)| == if i < |splits| then (|splits| - i) / 2 else 0
    decreases |splits| - i
  {
    if i + 1 < |splits| {
      PairsLength(splits, i + 2);
      assert |Pairs(splits, i)| == 1 + |Pairs(splits, i + 2)|;
      HalfStep(|splits| - i);
    } else {
      assert Pairs(splits, i) == [];
    }
  }

  lemma HalfStep(n: int)
    requires n >= 2
    ensures n / 2 == (if n > 2 then (n - 2) / 2 else 0) + 1
  {
  }

  /** The m-th assignment from index `i`: the piece at `i + 2 * m` names the section and
      the piece after it holds its content. */
  lemma {:induction false} PairsAt(splits: seq<string>, i: nat, m: nat)
    requires i + 2 * m + 1 < |splits|
    ensures m < |Pairs(splits, i)|
    ensures Pairs(splits, i)[m] == (HeadingKey(splits[i + 2 * m]), Paragraphs(splits[i + 2 * m + 1]))
    decreases m
  {
    var head := (HeadingKey(splits[i]), Paragraphs(splits[i + 1]));
    assert Pairs(splits, i) == [head] + Pairs(splits, i + 2);
    if m > 0 {
      PairsAt(splits, i + 2, m - 1);
      var j := i + 2 + 2 * (m - 1);
      assert j == i + 2 * m;
      assert Pairs(splits, i)[m] == Pairs(splits, i + 2)[m - 1];
      assert Pairs(splits, i + 2)[m - 1] == (HeadingKey(splits[j]), Paragraphs(splits[j + 1]));
    }
  }

  /** Every value after a run of assignments is either an untouched old value or the
      value of some assignment to that key. */
  lemma {:induction false} PutAllValues(d: Sections, assignments: seq<(string, seq<string>)>)
    ensures forall k :: k in PutAll(d, assignments).entries ==>
      || (k in d.entries && PutAll(d, assignments).entries[k] == d.entries[k]
          && forall m :: 0 <= m < |assignments| ==> assignments[m].0 != k)
      || exists m :: 0 <= m < |assignments| && assignments[m] == (k, PutAll(d, assignments).entries[k])
    decreases |assignments|
  {
    if assignments != [] {
      var rest := assignments[1..];
      var next := Put(d, assignments[0].0, assignments[0].1);
      PutAllValues(next, rest);
      assert forall m :: 0 <= m < |rest| ==> rest[m] == assignments[m + 1];
      assert forall m :: 1 <= m < |assignments| ==> assignments[m] == rest[m - 1];
    }
  }

  // ---------------------------------------------------------------------------
  // The sections of a text

  /** The key of the `m`-th assignment of the loop that starts at index `start`. */
  function AssignedKey(splits: seq<string>, start: nat, m: nat): string
    requires start + 2 * m + 1 < |splits|
  {
    HeadingKey(splits[start + 2 * m])
  }

  /** The value of the `m`-th assignment of the loop that starts at index `start`. */
  function AssignedValue(splits: seq<string>, start: nat, m: nat): seq<string>
    requires start + 2 * m + 1 < |splits|
  {
    Paragraphs(splits[start + 2 * m + 1])
  }

  lemma PairsAssigned(splits: seq<string>, start: nat, m: nat)
    requires start + 2 * m + 1 < |splits|
    ensures m < |Pairs(splits, start)|
    ensures Pairs(splits, start)[m] == (AssignedKey(splits, start, m), AssignedValue(splits, start, m))
  {
    PairsAt(splits, start, m);
  }

  lemma PairsIndexInRange(splits: seq<string>, start: nat, m: nat)
    requires m < |Pairs(splits, start)|
    ensures start + 2 * m + 1 < |splits|
  {
    PairsLength(splits, start);
  }

  /** Which keys the sections have: "Intro" when the text before the first heading is
      not blank, and the key of every assignment the loop makes. */
  lemma SectionKeys(splits: seq<string>)
    requires |splits| > 0
    ensures forall k :: k in SectionsOf(splits).entries <==>
      || (Start(splits) == 0 && k == "Intro")
      || exists m: nat :: Start(splits) + 2 * m + 1 < |splits| && AssignedKey(splits, Start(splits), m) == k
  {
    var start := Start(splits);
    var pairs := Pairs(splits, start);
    PutAllKeys(InitialSections(splits), pairs);
    forall k | k in SectionsOf(splits).entries && !(start == 0 && k == "Intro")
      ensures exists m: nat :: start + 2 * m + 1 < |splits| && AssignedKey(splits, start, m) == k
    {
      var m :| 0 <= m < |pairs| && pairs[m].0 == k;
      PairsIndexInRange(splits, start, m);
      PairsAssigned(splits, start, m);
    }
    forall k, m: nat | start + 2 * m + 1 < |splits| && AssignedKey(splits, start, m) == k
      ensures k in SectionsOf(splits).entries
    {
      PairsAssigned(splits, start, m);
    }
  }

  /** Which value a key has: the value of the last assignment to it (a later duplicate
      heading overwrites an earlier one). */
  lemma SectionValue(splits: seq<string>, m: nat)
    requires Start(splits) + 2 * m + 1 < |splits|
    requires forall n: nat :: m < n && Start(splits) + 2 * n + 1 < |splits| ==>
      AssignedKey(splits, Start(splits), n) != AssignedKey(splits, Start(splits), m)
    ensures AssignedKey(splits, Start(splits), m) in SectionsOf(splits).entries
    ensures SectionsOf(splits).entries[AssignedKey(splits, Start(splits), m)] == AssignedValue(splits, Start(splits), m)
  {
    var start := Start(splits);
    var pairs := Pairs(splits, start);
    PairsAssigned(splits, start, m);
    forall n | m < n < |pairs|
      ensures pairs[n].0 != pairs[m].0
    {
      PairsIndexInRange(splits, start, n);
      PairsAssigned(splits, start, n);
    }
    PutAllLast(InitialSections(splits), pairs, m);
  }

  /** The "Intro" section holds the stripped text before the first heading, unless an
      assignment names "Intro" as well. */
  lemma IntroValue(splits: seq<string>)
    requires |splits| > 0 && Start(splits) == 0
    requires forall n: nat :: 2 * n + 1 < |splits| ==> AssignedKey(splits, 0, n) != "Intro"
    ensures "Intro" in SectionsOf(splits).entries
    ensures SectionsOf(splits).entries["Intro"] == [Strip(splits[0])]
  {
    var pairs := Pairs(splits, 0);
    forall n | 0 <= n < |pairs|
      ensures pairs[n].0 != "Intro"
    {
      PairsIndexInRange(splits, 0, n);
      PairsAssigned(splits, 0, n);
    }
    PutAllUntouched(InitialSections(splits), pairs, "Intro");
  }

  /** Every paragraph is non-empty and has no whitespace at either end, and every
      paragraph the loop stores is a single line; only the "Intro" entry, the text
      before the first heading, may span lines. */
  lemma SectionParagraphs(splits: seq<string>)
    requires |splits| > 0
    ensures var d := SectionsOf(splits);
      forall k :: k in d.entries ==>
        && (forall i :: 0 <= i < |d.entries[k]| ==> d.entries[k][i] != [] && IsStripped(d.entries[k][i]))
        && (|| (Start(splits) == 0 && k == "Intro" && d.entries[k] == [Strip(splits[0])])
            || forall i :: 0 <= i < |d.entries[k]| ==> '\n' !in d.entries[k][i])
  {
    var start := Start(splits);
    var pairs := Pairs(splits, start);
    var d := SectionsOf(splits);
    PutAllValues(InitialSections(splits), pairs);
    forall k | k in d.entries
      ensures forall i :: 0 <= i < |d.entries[k]| ==> d.entries[k][i] != [] && IsStripped(d.entries[k][i])
      ensures || (start == 0 && k == "Intro" && d.entries[k] == [Strip(splits[0])])
              || forall i :: 0 <= i < |d.entries[k]| ==> '\n' !in d.entries[k][i]
    {
      if exists m :: 0 <= m < |pairs| && pairs[m] == (k, d.entries[k]) {
        var m :| 0 <= m < |pairs| && pairs[m] == (k, d.entries[k]);
        PairsIndexInRange(splits, start, m);
        PairsAssigned(splits, start, m);
      } else {
        assert k in InitialSections(splits).entries;
      }
    }
  }

  // The sections of a text, by its shape

  /** In an alternating split the even pieces are text and the odd ones heading matches. */
  lemma AlternatesAt(r: seq<string>, m: nat)
    requires Alternates(r)
    ensures 2 * m < |r| ==> NoHeadingIn(r[2 * m])
    ensures 2 * m + 1 < |r| ==> IsHeadingToken(r[2 * m + 1])
  {
    assert (2 * m) % 2 == 0 && (2 * m + 1) % 2 == 1;
  }

  /** The cleaned text has no whitespace at either end and is empty exactly for blank
      text. */
  lemma CleanedShape(text: string)
    ensures IsStripped(Cleaned(text))
    ensures Cleaned(text) == [] <==> IsBlank(text)
  {
  }

  /** The pairing starts at the first heading exactly when the cleaned text is empty or
      starts with a heading match; otherwise the text before the first heading is not
      blank. */
  lemma StartIff(c: string)
    requires IsStripped(c)
    ensures Start(SplitHeadings(c)) == 1 <==> c == [] || HeadingMatchAt(c, 0).Some?
  {
    var splits := SplitHeadings(c);
    SplitStartsWithHeading(c);
    assert Concat(splits) == splits[0] + Concat(splits[1..]);
    if splits[0] != [] {
      assert c[0] == splits[0][0];
      assert !IsSpace(splits[0][0]);
    }
  }

  /** A text that starts with a heading splits into at least three pieces. */
  lemma HeadingFirstSplit(c: string)
    requires c != [] && HeadingMatchAt(c, 0).Some?
    ensures |SplitHeadings(c)| >= 3
  {
    NextHeadingAt(c, 0, 0);
    SplitFromUnfold(c, 0, 0);
  }

  /** `format_guidance_for_html` returns an empty dict exactly for blank text. */
  lemma NoSectionsIffBlank(text: string)
    ensures ParseSections(text).entries == map[] <==> IsBlank(text)
  {
    CleanedShape(text);
    if IsBlank(text) {
      EmptyTextHasNoSections();
    } else {
      TextHasSections(Cleaned(text));
    }
  }

  lemma EmptyTextHasNoSections()
    ensures SectionsOf(SplitHeadings([])).entries == map[]
  {
    SplitWithoutHeading([]);
    var splits := SplitHeadings([]);
    assert splits == [[]];
    assert Pairs(splits, 1) == [];
  }

  lemma TextHasSections(c: string)
    requires c != [] && IsStripped(c)
    ensures SectionsOf(SplitHeadings(c)).entries != map[]
  {
    StartIff(c);
    if Start(SplitHeadings(c)) == 1 {
      HeadingFirstSplit(c);
    }
    SplitHasSections(SplitHeadings(c));
  }

  /** A split with an introduction, or with at least one heading and its content, gives
      at least one section. */
  lemma SplitHasSections(splits: seq<string>)
    requires |splits| > 0 && (Start(splits) == 0 || 3 <= |splits|)
    ensures SectionsOf(splits).entries != map[]
  {
    if Start(splits) == 0 {
      IntroKept(splits);
    } else {
      var pairs := Pairs(splits, 1);
      PairsAssigned(splits, 1, 0);
      PutAllKeys(InitialSections(splits), pairs);
      assert pairs[0].0 in SectionsOf(splits).entries;
    }
  }

  /** Non-blank text without a heading is all introduction. */
  lemma NoHeadingIsIntro(text: string)
    requires !IsBlank(text) && NoHeadingIn(Cleaned(text))
    ensures ParseSections(text).entries == map["Intro" := [Cleaned(text)]]
    ensures ParseSections(text).order == ["Intro"]
  {
    var c := Cleaned(text);
    CleanedShape(text);
    SplitWithoutHeading(c);
    StripStripped(c);
    assert Pairs([c], 0) == [];
  }

  /** When the text starts with a heading, the loop pairs each heading match with the
      text up to the next one: the first piece is empty, every odd piece is a heading
      match and every even piece the text after it, and every heading match gives a
      key. */
  lemma HeadingFirstPairing(text: string)
    requires var c := Cleaned(text); c != [] && HeadingMatchAt(c, 0).Some?
    ensures var splits := SplitHeadings(Cleaned(text));
      && Start(splits) == 1
      && splits[0] == []
      && (forall m: nat :: 1 + 2 * m + 1 < |splits| ==>
            IsHeadingToken(splits[1 + 2 * m]) && NoHeadingIn(splits[1 + 2 * m + 1]))
      && |Pairs(splits, 1)| == |splits| / 2
      && 1 + 2 * (|splits| / 2 - 1) + 1 == |splits| - 1
  {
    var c := Cleaned(text);
    CleanedShape(text);
    StartIff(c);
    SplitStartsWithHeading(c);
    SplitHeadingsAlternates(c);
    HeadingFirstPairingOf(SplitHeadings(c));
  }

  lemma HeadingFirstPairingOf(splits: seq<string>)
    requires Alternates(splits)
    ensures forall m: nat :: 1 + 2 * m + 1 < |splits| ==>
      IsHeadingToken(splits[1 + 2 * m]) && NoHeadingIn(splits[1 + 2 * m + 1])
    ensures |Pairs(splits, 1)| == |splits| / 2
    ensures 1 + 2 * (|splits| / 2 - 1) + 1 == |splits| - 1
  {
    OddLength(|splits|);
    PairsLength(splits, 1);
    forall m: nat | 1 + 2 * m + 1 < |splits|
      ensures IsHeadingToken(splits[1 + 2 * m]) && NoHeadingIn(splits[1 + 2 * m + 1])
    {
      AlternatesAfterHeading(splits, m);
    }
  }

  /** From the first heading on, an alternating split is a heading match followed by
      text, pair after pair. */
  lemma AlternatesAfterHeading(r: seq<string>, m: nat)
    requires Alternates(r) && 1 + 2 * m + 1 < |r|
    ensures IsHeadingToken(r[1 + 2 * m]) && NoHeadingIn(r[1 + 2 * m + 1])
  {
    assert (1 + 2 * m) % 2 == 1 && (1 + 2 * m + 1) % 2 == 0;
  }

  lemma OddLength(n: nat)
    requires n % 2 == 1
    ensures 1 <= n && 2 * (n / 2) + 1 == n
  {
  }

  lemma IntroKept(splits: seq<string>)
    requires |splits| > 0 && Start(splits) == 0
    ensures "Intro" in SectionsOf(splits).entries
  {
    SectionKeys(splits);
  }

  /** When non-blank text comes before the first heading, "Intro" holds it and the loop
      starts one piece early: each key is taken from a text piece (the introduction or
      a section's content) and its value from the heading match after it, and the last
      piece, the content of the last heading, is never used. */
  lemma IntroPairing(text: string)
    requires var c := Cleaned(text); c != [] && HeadingMatchAt(c, 0).None?
    ensures var splits := SplitHeadings(Cleaned(text));
      && Start(splits) == 0
      && Strip(splits[0]) != []
      && "Intro" in ParseSections(text).entries
      && (forall m: nat :: 2 * m + 1 < |splits| ==>
            NoHeadingIn(splits[2 * m]) && IsHeadingToken(splits[2 * m + 1]))
      && |Pairs(splits, 0)| == |splits| / 2
      && 2 * (|splits| / 2) == |splits| - 1
  {
    var c := Cleaned(text);
    CleanedShape(text);
    StartIff(c);
    SplitHeadingsAlternates(c);
    IntroPairingOf(SplitHeadings(c));
  }

  lemma IntroPairingOf(splits: seq<string>)
    requires Alternates(splits) && Start(splits) == 0
    ensures "Intro" in SectionsOf(splits).entries
    ensures forall m: nat :: 2 * m + 1 < |splits| ==>
      NoHeadingIn(splits[2 * m]) && IsHeadingToken(splits[2 * m + 1])
    ensures |Pairs(splits, 0)| == |splits| / 2
    ensures 2 * (|splits| / 2) == |splits| - 1
  {
    IntroKept(splits);
    PairsLength(splits, 0);
    forall m: nat | 2 * m + 1 < |splits|
      ensures NoHeadingIn(splits[2 * m]) && IsHeadingToken(splits[2 * m + 1])
    {
      AlternatesAt(splits, m);
    }
  }

  // ---------------------------------------------------------------------------
  // A worked example

  /** A stripped line after a newline strips to itself. */
  lemma StripAfterBreak(t: string)
    requires t != [] && IsStripped(t)
    ensures Strip("\n" + t) == t
  {
    var s := "\n" + t;
    assert s[1..] == t;
    assert LeadingSpaces(s) == 1;
  }

  /** The key of a heading match made of a word and a colon, with or without a newline
      before it, is the word. */
  lemma HeadingKeyOfWord(lead: string, w: string)
    requires lead == [] || lead == "\n"
    requires w != [] && IsStripped(w) && w[|w| - 1] != ':'
    ensures HeadingKey(lead + w + ":") == w
  {
    var t := w + ":";
    assert Strip(lead + w + ":") == t by {
      assert IsStripped(t);
      if lead == [] {
        assert lead + w + ":" == t;
        StripStripped(t);
      } else {
        assert lead + w + ":" == "\n" + t;
        StripAfterBreak(t);
      }
    }
    RStripColon(w);
  }

  /** `rstrip(":")` removes the one colon after a word that does not end in one. */
  lemma RStripColon(w: string)
    requires w == [] || w[|w| - 1] != ':'
    ensures RStrip(w + ":", ':') == w
  {
    var t := w + ":";
    assert t[..|t| - 1] == w;
  }

  /** The content after a heading that is a single line gives that line. */
  lemma ParagraphsOfLine(l: string)
    requires l != [] && IsStripped(l) && '\n' !in l
    ensures Paragraphs("\n" + l) == [l]
  {
    StripAfterBreak(l);
    assert IndexOf(l, '\n') == |l|;
    assert l[..|l|] == l;
    assert Split(l, '\n') == [l];
    StripStripped(l);
    assert NonBlankLines([l]) == [l];
  }

  /** A heading word: letters and spaces, with no space at either end. */
  predicate IsHeadingWord(h: string) {
    h != [] && IsStripped(h) && forall k :: 0 <= k < |h| ==> ('A' <= h[k] <= 'Z') || ('a' <= h[k] <= 'z') || h[k] == ' '
  }

  /** A line of content: stripped, one line, no colon, ending in a character that
      cannot end a heading (a full stop, say). */
  predicate IsContentLine(l: string) {
    l != [] && IsStripped(l) && '\n' !in l && ':' !in l && !IsHeadingChar(l[|l| - 1])
  }

  lemma HeadingWordToken(lead: string, h: string)
    requires lead == [] || lead == "\n"
    requires IsHeadingWord(h)
    ensures IsHeadingToken(lead + h + ":")
  {
    var t := lead + h + ":";
    forall k | 0 <= k < |t| - 1
      ensures IsHeadingChar(t[k])
    {
      if k >= |lead| {
        assert t[k] == h[k - |lead|];
      }
    }
  }

  /** Text made of two headings, each followed by one line, with a blank line between
      the sections. */
  function TwoSectionText(h1: string, l1: string, h2: string, l2: string): string {
    h1 + ":" + "\n" + l1 + "\n\n" + h2 + ":" + "\n" + l2
  }

  lemma TwoSectionCleaned(h1: string, l1: string, h2: string, l2: string)
    requires IsHeadingWord(h1) && IsHeadingWord(h2) && IsContentLine(l1) && IsContentLine(l2)
    ensures Cleaned(TwoSectionText(h1, l1, h2, l2))
      == (h1 + ":") + (("\n" + l1) + (("\n" + h2 + ":") + ("\n" + l2)))
  {
    var text := TwoSectionText(h1, l1, h2, l2);
    var x := (h1 + ":") + "\n" + l1;
    var rest := (h2 + ":") + "\n" + l2;
    var y := "\n\n" + rest;
    calc {
      Cleaned(text);
      { TwoSectionTextShape(h1, l1, h2, l2); StripStripped(text); }
      CollapseNewlines(text);
      { TwoSectionTextShape(h1, l1, h2, l2); }
      CollapseNewlines(x + y);
      { CollapseFirstSection(h1, l1); CollapseConcat(x, y); }
      CollapseNewlines(x) + CollapseNewlines(y);
      { CollapseFirstSection(h1, l1); CollapseSecondSection(h2, l2); }
      x + ("\n" + rest);
      { Regroup(h1 + ":", l1, h2 + ":", l2); }
      (h1 + ":") + (("\n" + l1) + (("\n" + (h2 + ":")) + ("\n" + l2)));
      { assert "\n" + h2 + ":" == "\n" + (h2 + ":"); }
      (h1 + ":") + (("\n" + l1) + (("\n" + h2 + ":") + ("\n" + l2)));
    }
  }

  lemma Regroup(a: string, b: string, c: string, d: string)
    ensures (a + "\n" + b) + ("\n" + (c + "\n" + d)) == a + (("\n" + b) + (("\n" + c) + ("\n" + d)))
  {
  }

  lemma TwoSectionTextShape(h1: string, l1: string, h2: string, l2: string)
    requires IsHeadingWord(h1) && IsContentLine(l2)
    ensures TwoSectionText(h1, l1, h2, l2) == ((h1 + ":") + "\n" + l1) + ("\n\n" + ((h2 + ":") + "\n" + l2))
    ensures IsStripped(TwoSectionText(h1, l1, h2, l2))
  {
    var text := TwoSectionText(h1, l1, h2, l2);
    assert text[0] == h1[0];
    assert text[|text| - 1] == l2[|l2| - 1];
  }

  lemma CollapseFirstSection(h: string, l: string)
    requires IsHeadingWord(h) && IsContentLine(l)
    ensures var x := (h + ":") + "\n" + l; CollapseNewlines(x) == x && x[|x| - 1] != '\n'
  {
    var x := (h + ":") + "\n" + l;
    assert x[|x| - 1] == l[|l| - 1];
    WordHasNoBreak(h);
    OneBreak(h + ":", l);
    CollapseFixpoint(x);
  }

  lemma CollapseSecondSection(h: string, l: string)
    requires IsHeadingWord(h) && IsContentLine(l)
    ensures CollapseNewlines("\n\n" + ((h + ":") + "\n" + l)) == "\n" + ((h + ":") + "\n" + l)
  {
    var rest := (h + ":") + "\n" + l;
    WordHasNoBreak(h);
    OneBreak(h + ":", l);
    CollapseFixpoint(rest);
    assert rest[0] == h[0];
    CollapseBlankLine(rest);
  }

  lemma WordHasNoBreak(h: string)
    requires IsHeadingWord(h)
    ensures '\n' !in h + ":"
  {
  }

  /** A blank line before a line of text collapses to one newline. */
  lemma CollapseBlankLine(rest: string)
    requires rest != [] && rest[0] != '\n' && CollapseNewlines(rest) == rest
    ensures CollapseNewlines("\n\n" + rest) == "\n" + rest
  {
    var y := "\n\n" + rest;
    assert y[2] == rest[0];
    assert NewlineRun(y, 2) == 0;
    assert NewlineRun(y, 0) == 2;
    assert y[2..] == rest;
  }

  lemma TwoSectionSplit(h1: string, l1: string, h2: string, l2: string)
    requires IsHeadingWord(h1) && IsHeadingWord(h2) && IsContentLine(l1) && IsContentLine(l2)
    ensures SplitHeadings(Cleaned(TwoSectionText(h1, l1, h2, l2)))
      == ["", h1 + ":", "\n" + l1, "\n" + h2 + ":", "\n" + l2]
  {
    TwoSectionCleaned(h1, l1, h2, l2);
    TwoSectionAlternates(h1, l1, h2, l2);
    SplitConcat(["", h1 + ":", "\n" + l1, "\n" + h2 + ":", "\n" + l2]);
  }

  /** The five pieces the split should give alternate text and headings and put back
      together give the cleaned text. */
  lemma TwoSectionAlternates(h1: string, l1: string, h2: string, l2: string)
    requires IsHeadingWord(h1) && IsHeadingWord(h2) && IsContentLine(l1) && IsContentLine(l2)
    ensures var r := ["", h1 + ":", "\n" + l1, "\n" + h2 + ":", "\n" + l2];
      Alternates(r) && Concat(r) == (h1 + ":") + (("\n" + l1) + (("\n" + h2 + ":") + ("\n" + l2)))
  {
    var p0, p1, tail := "", h1 + ":", ["\n" + l1, "\n" + h2 + ":", "\n" + l2];
    SecondSectionAlternates(l1, h2, l2);
    HeadingWordToken([], h1);
    assert [] + h1 + ":" == p1;
    AlternatesCons(p0, p1, tail);
    assert [p0, p1] + tail == ["", h1 + ":", "\n" + l1, "\n" + h2 + ":", "\n" + l2];
    assert p0 + p1 == p1;
  }

  /** The last three pieces: the first section's line, the second heading and its line. */
  lemma SecondSectionAlternates(l1: string, h2: string, l2: string)
    requires IsHeadingWord(h2) && IsContentLine(l1) && IsContentLine(l2)
    ensures var r := ["\n" + l1, "\n" + h2 + ":", "\n" + l2];
      Alternates(r) && Concat(r) == ("\n" + l1) + (("\n" + h2 + ":") + ("\n" + l2))
  {
    var p2, p3, p4 := "\n" + l1, "\n" + h2 + ":", "\n" + l2;
    NoColonNoHeading(p2);
    NoColonNoHeading(p4);
    assert Alternates([p4]);
    HeadingWordToken("\n", h2);
    assert p2[|p2| - 1] == l1[|l1| - 1];
    AlternatesCons(p2, p3, [p4]);
    assert [p2, p3] + [p4] == [p2, p3, p4];
    assert Concat([p4]) == p4;
  }

  /** Two headings each followed by one line give one section per heading, holding
      that line. */
  lemma TwoSections(h1: string, l1: string, h2: string, l2: string)
    requires IsHeadingWord(h1) && IsHeadingWord(h2) && IsContentLine(l1) && IsContentLine(l2)
    requires h1[|h1| - 1] != ':' && h2[|h2| - 1] != ':'
    ensures ParseSections(TwoSectionText(h1, l1, h2, l2)).entries == map[h1 := [l1], h2 := [l2]]
  {
    TwoSectionSplit(h1, l1, h2, l2);
    TwoSectionPairs(h1, l1, h2, l2);
    var r := ["", h1 + ":", "\n" + l1, "\n" + h2 + ":", "\n" + l2];
    assert Start(r) == 1 && InitialSections(r) == Sections([], map[]) by {
      assert Strip(r[0]) == [];
    }
    assert ParseSections(TwoSectionText(h1, l1, h2, l2)) == PutAll(Sections([], map[]), [(h1, [l1]), (h2, [l2])]);
    TwoPuts(h1, [l1], h2, [l2]);
  }

  /** Two assignments into no sections leave one entry per key, the later one winning. */
  lemma TwoPuts(k1: string, v1: seq<string>, k2: string, v2: seq<string>)
    ensures PutAll(Sections([], map[]), [(k1, v1), (k2, v2)]).entries == map[k1 := v1, k2 := v2]
  {
    var d := Put(Sections([], map[]), k1, v1);
    PutAllFirst(Sections([], map[]), (k1, v1), [(k2, v2)]);
    assert [(k1, v1), (k2, v2)] == [(k1, v1)] + [(k2, v2)];
    PutAllFirst(d, (k2, v2), []);
    assert [(k2, v2)] == [(k2, v2)] + [];
  }

  lemma TwoSectionPairs(h1: string, l1: string, h2: string, l2: string)
    requires IsHeadingWord(h1) && IsHeadingWord(h2) && IsContentLine(l1) && IsContentLine(l2)
    requires h1[|h1| - 1] != ':' && h2[|h2| - 1] != ':'
    ensures Pairs(["", h1 + ":", "\n" + l1, "\n" + h2 + ":", "\n" + l2], 1) == [(h1, [l1]), (h2, [l2])]
  {
    var r := ["", h1 + ":", "\n" + l1, "\n" + h2 + ":", "\n" + l2];
    FivePairs(r);
    SectionPieces(h1, l1, h2, l2);
    assert r[1] == h1 + ":" && r[2] == "\n" + l1 && r[3] == "\n" + h2 + ":" && r[4] == "\n" + l2;
  }

  /** The keys and contents of the two sections' pieces. */
  lemma SectionPieces(h1: string, l1: string, h2: string, l2: string)
    requires IsHeadingWord(h1) && IsHeadingWord(h2) && IsContentLine(l1) && IsContentLine(l2)
    requires h1[|h1| - 1] != ':' && h2[|h2| - 1] != ':'
    ensures HeadingKey(h1 + ":") == h1 && HeadingKey("\n" + h2 + ":") == h2
    ensures Paragraphs("\n" + l1) == [l1] && Paragraphs("\n" + l2) == [l2]
  {
    HeadingKeyOfWord([], h1);
    assert [] + h1 + ":" == h1 + ":";
    HeadingKeyOfWord("\n", h2);
    ParagraphsOfLine(l1);
    ParagraphsOfLine(l2);
  }

  lemma FivePairs(r: seq<string>)
    requires |r| == 5
    ensures Pairs(r, 1) == [(HeadingKey(r[1]), Paragraphs(r[2])), (HeadingKey(r[3]), Paragraphs(r[4]))]
  {
    var p1, p3 := (HeadingKey(r[1]), Paragraphs(r[2])), (HeadingKey(r[3]), Paragraphs(r[4]));
    calc {
      Pairs(r, 1);
      { PairsUnfold(r, 1); }
      [p1] + Pairs(r, 3);
      { PairsUnfold(r, 3); }
      [p1] + ([p3] + Pairs(r, 5));
      [p1] + ([p3] + []);
      [p1, p3];
    }
  }

  lemma PairsUnfold(splits: seq<string>, i: nat)
    requires i + 1 < |splits|
    ensures Pairs(splits, i) == [(HeadingKey(splits[i]), Paragraphs(splits[i + 1]))] + Pairs(splits, i + 2)
  {
  }

  /** A two-section example: "Strengths:" and "Skills Gaps:" each followed by one
      line, with a blank line between the sections. */
  lemma TwoSectionExample()
    ensures ParseSections("Strengths:\nYou know python.\n\nSkills Gaps:\nNo ML experience.").entries
      == map["Strengths" := ["You know python."], "Skills Gaps" := ["No ML experience."]]
  {
    ExampleText();
    ExampleWords();
    TwoSections("Strengths", "You know python.", "Skills Gaps", "No ML experience.");
  }

  lemma ExampleText()
    ensures TwoSectionText("Strengths", "You know python.", "Skills Gaps", "No ML experience.")
      == "Strengths:\nYou know python.\n\nSkills Gaps:\nNo ML experience."
  {
    var h1, l1, h2, l2 := "Strengths", "You know python.", "Skills Gaps", "No ML experience.";
    var a := h1 + ":" + "\n" + l1;
    assert a == "Strengths:\nYou know python.";
    var b := a + "\n\n" + h2;
    assert b == "Strengths:\nYou know python.\n\nSkills Gaps";
    assert b + ":" + "\n" + l2 == "Strengths:\nYou know python.\n\nSkills Gaps:\nNo ML experience.";
  }

  lemma ExampleWords()
    ensures IsHeadingWord("Strengths") && IsHeadingWord("Skills Gaps")
    ensures IsContentLine("You know python.") && IsContentLine("No ML experience.")
  {
    ExampleHeadingWords();
    ExampleContentLines();
  }

  lemma ExampleHeadingWords()
    ensures IsHeadingWord("Strengths") && IsHeadingWord("Skills Gaps")
  {
    assert IsHeadingWord("Strengths");
  }

  lemma ExampleContentLines()
    ensures IsContentLine("You know python.") && IsContentLine("No ML experience.")
  {
    assert IsContentLine("You know python.");
  }
}
