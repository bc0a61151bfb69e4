/** The fixed wording of the rule-based mentor review. The longer sentences are written
    as concatenations of short pieces, which keeps the proofs about them small; the
    text is the same. */
module GuidanceText {

  const INTRO_LINE := "Here is a " + "mentor-style " + "review of your " + "resume:"
  const STRENGTHS_TITLE := "\U{2705} Strengths:"
  const WEAKNESSES_TITLE := "\U{26a0} Areas to improve:"
  const SUGGESTIONS_TITLE := "\U{1f3af} Suggestions:"
  const CLOSING_FIRST := "Overall, your " + "profile shows " + "good potential. "
    + "Improving how " + "clearly you " + "present your " + "technical "
  const CLOSING_SECOND := "skills and " + "projects will " + "significantly "
    + "increase your " + "chances of " + "matching this " + "role."
  const CLOSING_LINE := CLOSING_FIRST + CLOSING_SECOND

  const INTRO := INTRO_LINE + "\n\n"
  const STRENGTHS_HEADER := STRENGTHS_TITLE + "\n"
  const WEAKNESSES_HEADER := "\n" + WEAKNESSES_TITLE + "\n"
  const SUGGESTIONS_HEADER := "\n" + SUGGESTIONS_TITLE + "\n"
  const CLOSING := "\n" + CLOSING_LINE

  const EDUCATION_STRENGTH := "You meet the " + "education " + "requirement "
    + "mentioned in " + "the job " + "description."
  const EDUCATION_WEAKNESS := "Your education " + "does not " + "clearly match "
    + "the job " + "requirement."
  const PROJECTS_STRENGTH := "Your resume " + "includes " + "projects, which "
    + "is a strong " + "positive signal."
  const PROJECTS_WEAKNESS := "Your resume " + "does not " + "clearly mention "
    + "any projects."
  const SKILLS_WEAKNESS := "Several " + "important " + "technical " + "skills required "
    + "by the job are " + "not clearly " + "demonstrated in " + "your resume."
  const SKILLS_SUGGESTION := "Rewrite your " + "project " + "descriptions to "
    + "explicitly " + "mention tools " + "like Python, " + "machine " + "learning "
    + "libraries, " + "frameworks, " + "Git, and " + "deployment " + "tools."

  const DOMAINS_PREFIX := "You mention " + "relevant " + "domains such as "

  lemma NoBreakConcat(a: string, b: string)
    requires '\n' !in a && '\n' !in b
    ensures '\n' !in a + b
  {
  }

  // None of the fixed lines holds a line break.

  lemma IntroLineHasNoBreak() ensures '\n' !in INTRO_LINE {
    var p1 := "Here is a ";
    var p2 := "mentor-style ";
    var p3 := "review of your ";
    var p4 := "resume:";
    NoBreakConcat(p1, p2);
    NoBreakConcat(p1 + p2, p3);
    NoBreakConcat(p1 + p2 + p3, p4);
  }

  lemma ClosingLineHasNoBreak() ensures '\n' !in CLOSING_LINE {
    var p1 := "Overall, your ";
    var p2 := "profile shows ";
    var p3 := "good potential. ";
    var p4 := "Improving how ";
    var p5 := "clearly you ";
    var p6 := "present your ";
    var p7 := "technical ";
    NoBreakConcat(p1, p2);
    NoBreakConcat(p1 + p2, p3);
    NoBreakConcat(p1 + p2 + p3, p4);
    NoBreakConcat(p1 + p2 + p3 + p4, p5);
    NoBreakConcat(p1 + p2 + p3 + p4 + p5, p6);
    NoBreakConcat(p1 + p2 + p3 + p4 + p5 + p6, p7);
    ClosingSecondHasNoBreak();
    NoBreakConcat(CLOSING_FIRST, CLOSING_SECOND);
  }

  lemma ClosingSecondHasNoBreak() ensures '\n' !in CLOSING_SECOND {
    var p1 := "skills and ";
    var p2 := "projects will ";
    var p3 := "significantly ";
    var p4 := "increase your ";
    var p5 := "chances of ";
    var p6 := "matching this ";
    var p7 := "role.";
    NoBreakConcat(p1, p2);
    NoBreakConcat(p1 + p2, p3);
    NoBreakConcat(p1 + p2 + p3, p4);
    NoBreakConcat(p1 + p2 + p3 + p4, p5);
    NoBreakConcat(p1 + p2 + p3 + p4 + p5, p6);
  }

  lemma EducationStrengthHasNoBreak() ensures '\n' !in EDUCATION_STRENGTH {
    var p1 := "You meet the ";
    var p2 := "education ";
    var p3 := "requirement ";
    var p4 := "mentioned in ";
    var p5 := "the job ";
    var p6 := "description.";
    NoBreakConcat(p1, p2);
    NoBreakConcat(p1 + p2, p3);
    NoBreakConcat(p1 + p2 + p3, p4);
    NoBreakConcat(p1 + p2 + p3 + p4, p5);
    NoBreakConcat(p1 + p2 + p3 + p4 + p5, p6);
  }

  lemma EducationWeaknessHasNoBreak() ensures '\n' !in EDUCATION_WEAKNESS {
    var p1 := "Your education ";
    var p2 := "does not ";
    var p3 := "clearly match ";
    var p4 := "the job ";
    var p5 := "requirement.";
    NoBreakConcat(p1, p2);
    NoBreakConcat(p1 + p2, p3);
    NoBreakConcat(p1 + p2 + p3, p4);
    NoBreakConcat(p1 + p2 + p3 + p4, p5);
  }

  lemma ProjectsStrengthHasNoBreak() ensures '\n' !in PROJECTS_STRENGTH {
    var p1 := "Your resume ";
    var p2 := "includes ";
    var p3 := "projects, which ";
    var p4 := "is a strong ";
    var p5 := "positive signal.";
    NoBreakConcat(p1, p2);
    NoBreakConcat(p1 + p2, p3);
    NoBreakConcat(p1 + p2 + p3, p4);
    NoBreakConcat(p1 + p2 + p3 + p4, p5);
  }

  lemma ProjectsWeaknessHasNoBreak() ensures '\n' !in PROJECTS_WEAKNESS {
    var p1 := "Your resume ";
    var p2 := "does not ";
    var p3 := "clearly mention ";
    var p4 := "any projects.";
    NoBreakConcat(p1, p2);
    NoBreakConcat(p1 + p2, p3);
    NoBreakConcat(p1 + p2 + p3, p4);
  }

  lemma SkillsWeaknessHasNoBreak() ensures '\n' !in SKILLS_WEAKNESS {
    var p1 := "Several ";
    var p2 := "important ";
    var p3 := "technical ";
    var p4 := "skills required ";
    var p5 := "by the job are ";
    var p6 := "not clearly ";
    var p7 := "demonstrated in ";
    var p8 := "your resume.";
    NoBreakConcat(p1, p2);
    NoBreakConcat(p1 + p2, p3);
    NoBreakConcat(p1 + p2 + p3, p4);
    NoBreakConcat(p1 + p2 + p3 + p4, p5);
    NoBreakConcat(p1 + p2 + p3 + p4 + p5, p6);
    NoBreakConcat(p1 + p2 + p3 + p4 + p5 + p6, p7);
    NoBreakConcat(p1 + p2 + p3 + p4 + p5 + p6 + p7, p8);
  }

  lemma SkillsSuggestionHasNoBreak() ensures '\n' !in SKILLS_SUGGESTION {
    var head := "Rewrite your " + "project " + "descriptions to "
      + "explicitly " + "mention tools " + "like Python, " + "machine ";
    SkillsSuggestionHeadHasNoBreak();
    var p8 := "learning ";
    var p9 := "libraries, ";
    var p10 := "frameworks, ";
    var p11 := "Git, and ";
    var p12 := "deployment ";
    var p13 := "tools.";
    NoBreakConcat(head, p8);
    NoBreakConcat(head + p8, p9);
    NoBreakConcat(head + p8 + p9, p10);
    NoBreakConcat(head + p8 + p9 + p10, p11);
    NoBreakConcat(head + p8 + p9 + p10 + p11, p12);
    NoBreakConcat(head + p8 + p9 + p10 + p11 + p12, p13);
  }

  lemma SkillsSuggestionHeadHasNoBreak()
    ensures '\n' !in "Rewrite your " + "project " + "descriptions to "
      + "explicitly " + "mention tools " + "like Python, " + "machine "
  {
    var p1 := "Rewrite your ";
    var p2 := "project ";
    var p3 := "descriptions to ";
    var p4 := "explicitly ";
    var p5 := "mention tools ";
    var p6 := "like Python, ";
    var p7 := "machine ";
    NoBreakConcat(p1, p2);
    NoBreakConcat(p1 + p2, p3);
    NoBreakConcat(p1 + p2 + p3, p4);
    NoBreakConcat(p1 + p2 + p3 + p4, p5);
    NoBreakConcat(p1 + p2 + p3 + p4 + p5, p6);
    NoBreakConcat(p1 + p2 + p3 + p4 + p5 + p6, p7);
  }

  lemma DomainsPrefixHasNoBreak() ensures '\n' !in DOMAINS_PREFIX {
    var p1 := "You mention ";
    var p2 := "relevant ";
    var p3 := "domains such as ";
    NoBreakConcat(p1, p2);
    NoBreakConcat(p1 + p2, p3);
  }

  lemma EducationLinesHaveNoBreak() ensures '\n' !in EDUCATION_STRENGTH && '\n' !in EDUCATION_WEAKNESS {
    EducationStrengthHasNoBreak();
    EducationWeaknessHasNoBreak();
  }

  lemma ProjectsLinesHaveNoBreak() ensures '\n' !in PROJECTS_STRENGTH && '\n' !in PROJECTS_WEAKNESS {
    ProjectsStrengthHasNoBreak();
    ProjectsWeaknessHasNoBreak();
  }

  lemma TitlesHaveNoBreak()
    ensures '\n' !in STRENGTHS_TITLE && '\n' !in WEAKNESSES_TITLE && '\n' !in SUGGESTIONS_TITLE
  {
  }

  /** None of the fixed lines of the review holds a line break, so each is one line of
      the rendered text. */
  lemma FixedLinesHaveNoBreak()
    ensures '\n' !in INTRO_LINE && '\n' !in CLOSING_LINE
    ensures '\n' !in STRENGTHS_TITLE && '\n' !in WEAKNESSES_TITLE && '\n' !in SUGGESTIONS_TITLE
    ensures '\n' !in EDUCATION_STRENGTH && '\n' !in EDUCATION_WEAKNESS
    ensures '\n' !in PROJECTS_STRENGTH && '\n' !in PROJECTS_WEAKNESS
    ensures '\n' !in SKILLS_WEAKNESS && '\n' !in SKILLS_SUGGESTION && '\n' !in DOMAINS_PREFIX
  {
    IntroLineHasNoBreak();
    ClosingLineHasNoBreak();
    TitlesHaveNoBreak();
    EducationLinesHaveNoBreak();
    ProjectsLinesHaveNoBreak();
    SkillsWeaknessHasNoBreak();
    SkillsSuggestionHasNoBreak();
    DomainsPrefixHasNoBreak();
  }
}
