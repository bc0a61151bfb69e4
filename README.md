# Resume-Guide core, modelled in Dafny

Resume-Guide compares a résumé with a job description. The analysis step
(`Service_files/nlp_analysis.py`) produces a report with these parts:

- education entries found in the résumé, the degree the job asks for, and whether they match;
- the years of experience the job asks for;
- the roles and domains the résumé mentions;
- whether the résumé mentions projects;
- a per-skill semantic score;
- extra-curricular keywords;
- an overall alignment score.

The guidance step (`Service_files/llm_guidance.py`) has two parts that this model covers:

- a rule-based mentor review, written from the report when no language model answers;
- a parser that organises guidance text into sections by its `Heading:` lines.

The web front end (`app.py`) accepts an upload only when its last extension is `pdf`.

The model is split into these modules:

- `Wrappers`: `Option` and `Result`.
- `PyStr`: the Python string built-ins the core relies on, written out:
  - `lower` (ASCII);
  - `strip` (the full `str.isspace` set);
  - substring `in`;
  - `splitlines` and `split('\n')`;
  - `join`;
  - `rstrip(':')`.
- `NlpPatterns`: the two regular expressions of the analysis, with `\d` read as the ASCII digits 0–9:
  - the year range `(19|20)\d{2}\s*[-–]\s*(19|20)\d{2}`, searched leftmost-first;
  - `re.findall(r"(\d+)\+?\s+years?")`.
- `NlpAnalysis`: the extractors, the skill scoring, the alignment and the report builder.
- `GuidanceText`: the fixed sentences of the rule-based review.
- `GuidancePatterns`: `re.sub(r'\n{2,}', '\n', …)` and `re.split(r'([A-Za-z\s]+:)', …)`.
  The split is proved to be the exact inverse of concatenation on lists that alternate text and heading matches.
- `LlmGuidance`: the mentor review and the section parser.
- `App`: the upload filter.

Two inputs of the analysis come from outside libraries, so they are parameters of the model:

- The sentence model is a parameter: `jdCandidates` and `resumeCandidates` are the sentences the segmenter yields, before the "longer than five characters after trimming" filter.
- The embedding similarity is a parameter: `sim: (string, string) -> real`.

Several things the model proves follow the code exactly:

- **The section parser when text comes before the first heading.** The text is stored under `"Intro"`, but the loop then starts at piece 0, not at the first heading.
  - Each key is therefore taken from a text piece, and its paragraphs from the heading after it.
  - The content of the last heading is never stored.
  - `LlmGuidance.IntroPairing` states this shape.
- **Empty sentence lists.** `overall_semantic_alignment` raises when a sentence list is empty; the function has no guard.
  - An empty job description divides by zero.
  - An empty résumé makes `max` of an empty list fail.
  - The model returns these as the errors `NoJobSentences` and `NoResumeSentences`.
  - `build_analysis_json` fails as a whole in that case.

## Model

| member | source | states |
|---|---|---|
| PyStr.LowerChar | Service_files/nlp_analysis.py:35 | an ASCII capital becomes the small letter at the same place in the alphabet, and every other character is kept |
| PyStr.Lower | Service_files/nlp_analysis.py:35 | lower-casing keeps the length, lower-cases each character in place, and leaves no upper-case ASCII letter |
| PyStr.Strip | Service_files/nlp_analysis.py:46 | the result has no whitespace at either end, and is empty exactly when the input is blank |
| PyStr.StripIsSlice | Service_files/nlp_analysis.py:46 | the stripped text is a slice of the input with only whitespace cut at either end |
| PyStr.StripStripped | Service_files/llm_guidance.py:105-108 | stripping text that is already stripped changes nothing |
| PyStr.RStrip | Service_files/llm_guidance.py:111 | the result is a prefix, does not end in the character, and only that character was removed |
| PyStr.SplitLines | Service_files/nlp_analysis.py:35 | no line holds a line-break character, and there are no lines exactly for empty text |
| PyStr.SplitLinesRebuild | Service_files/nlp_analysis.py:35 | the lines, each followed by its boundary (`\r\n` or one line-break character), give the text back; only a non-empty last line may lack a boundary, and `\r\n` is never cut in two |
| PyStr.Split | Service_files/llm_guidance.py:114 | at least one piece, no piece holds the separator, and joining the pieces with it gives the text back |
| PyStr.SplitJoin | Service_files/llm_guidance.py:114 | splitting a join of separator-free pieces gives the pieces back |
| NlpAnalysis.SplitSentences | Service_files/nlp_analysis.py:23-25 | every kept sentence is stripped and longer than five characters, and none is added |
| NlpAnalysis.SentencesAreLongTrimmedCandidates | Service_files/nlp_analysis.py:23-25 | a string is kept exactly when it is the stripped form of a candidate and longer than five characters |
| NlpPatterns.YearRangeMatchShape | Service_files/nlp_analysis.py:38 | every year-range match is a 19xx/20xx year, optional spaces, a hyphen or en dash, optional spaces, and a year |
| NlpPatterns.FindYearRange | Service_files/nlp_analysis.py:43 | a found position lies inside the line and the pattern matches there |
| NlpPatterns.FindYearRangeLeftmost | Service_files/nlp_analysis.py:43 | the found position is the leftmost one where the pattern matches, and none means it matches nowhere |
| NlpPatterns.Duration | Service_files/nlp_analysis.py:43-47 | a found duration has the year-range shape and occurs in the line |
| NlpPatterns.DurationIsFirstYearRange | Service_files/nlp_analysis.py:38-47 | there is no duration exactly when no year range occurs, and otherwise it is the first one |
| NlpAnalysis.DetectEducationStatus | Service_files/nlp_analysis.py:34-50 | the loop over lines and degree keywords returns the entries of the lower-cased lines, in order |
| NlpAnalysis.LineEntriesExact | Service_files/nlp_analysis.py:41-48 | a line yields an entry for a degree exactly when the degree occurs in it, with the stripped line and its duration |
| NlpAnalysis.EducationEntriesSound | Service_files/nlp_analysis.py:40-48 | every entry names a degree keyword occurring in its line, and that line is stripped |
| NlpAnalysis.EducationEntriesComplete | Service_files/nlp_analysis.py:40-48 | every line and degree it contains give an entry |
| NlpAnalysis.EducationEntryPresent | Service_files/nlp_analysis.py:40-48 | the entry for a given line and a degree it contains is in the result |
| NlpAnalysis.FirstKeywordIn | Service_files/nlp_analysis.py:55-58 | none exactly when no keyword occurs; otherwise the first keyword, in list order, that occurs |
| NlpAnalysis.DetectJdEducationRequirement | Service_files/nlp_analysis.py:53-58 | the first degree keyword occurring in the lower-cased job text, or none when no keyword occurs |
| NlpAnalysis.DegreeKeywordsNonEmpty | Service_files/nlp_analysis.py:10-13 | no degree keyword is empty, so a detected requirement is never falsy |
| NlpAnalysis.SomeDegreeContains | Service_files/nlp_analysis.py:64-66 | true exactly when the requirement is a substring of some entry's degree |
| NlpAnalysis.EducationMatch | Service_files/nlp_analysis.py:61-67 | not required exactly for a missing or empty requirement; matched exactly when some entry's degree contains it |
| NlpPatterns.FindAllYears | Service_files/nlp_analysis.py:72 | every captured group is a run of ASCII decimal digits |
| NlpPatterns.FindAllYearsLeftmost | Service_files/nlp_analysis.py:72 | a non-empty result starts with the group captured at the leftmost matching position, and the rest is what the search finds after the end of that match |
| NlpPatterns.FindAllYearsAreMatches | Service_files/nlp_analysis.py:72 | every result is the digit group a match of the pattern captures at some position |
| NlpPatterns.FindAllEmptyIff | Service_files/nlp_analysis.py:72-73 | the search finds nothing exactly when the pattern matches at no position |
| NlpPatterns.MaxNat | Service_files/nlp_analysis.py:73 | the maximum is one of the values and no value exceeds it |
| NlpAnalysis.YearValues | Service_files/nlp_analysis.py:73 | one integer per captured digit string, in order, each the decimal value of its string |
| NlpAnalysis.ParseJdExperienceRequirements | Service_files/nlp_analysis.py:71-73 | none exactly when the pattern matches nowhere; otherwise the largest year count mentioned |
| NlpAnalysis.KeywordsInExact | Service_files/nlp_analysis.py:99-104 | a keyword is kept exactly when it occurs in the text; kept keywords stay distinct and in list order |
| NlpAnalysis.ScanKeywords | Service_files/nlp_analysis.py:78-80 | the loop keeps the keywords that occur in the lower-cased text, in list order |
| NlpAnalysis.ListOfSet | Service_files/nlp_analysis.py:81 | the list holds each element of the set exactly once |
| NlpAnalysis.ExtractResumeDomainExperience | Service_files/nlp_analysis.py:76-81 | distinct domains, holding a domain keyword exactly when it occurs in the lower-cased résumé |
| NlpAnalysis.ExtractRoleBasedExperience | Service_files/nlp_analysis.py:84-89 | distinct roles, holding a role keyword exactly when it occurs in the lower-cased résumé |
| NlpAnalysis.HasProjects | Service_files/nlp_analysis.py:93-95 | true exactly when some project keyword occurs in the lower-cased résumé |
| NlpAnalysis.ExtractExtraCurriculars | Service_files/nlp_analysis.py:99-104 | the extra-curricular keywords occurring in the résumé, in list order and distinct |
| NlpAnalysis.PyMax | Service_files/nlp_analysis.py:122 | the result is one of the two arguments and at least both |
| NlpAnalysis.BestAgainst | Service_files/nlp_analysis.py:120-122 | the running best never drops, bounds every score, and is the start value or one of the scores |
| NlpAnalysis.BestScore | Service_files/nlp_analysis.py:114-122 | non-negative, at least every score of a sentence mentioning the skill, and either 0.0 or one of those scores |
| NlpAnalysis.UnmentionedSkillScoresZero | Service_files/nlp_analysis.py:115-119 | a skill that no job sentence mentions scores 0.0 |
| NlpAnalysis.RunningBestScore | Service_files/nlp_analysis.py:115-122 | the nested loop computes the best score of the skill |
| NlpAnalysis.SemanticSkillMatch | Service_files/nlp_analysis.py:108-137 | one record per tracked skill: matched and semantic exactly when the best score reaches the threshold, otherwise missing and none |
| NlpAnalysis.ScoresAgainst | Service_files/nlp_analysis.py:147-150 | one similarity per résumé sentence |
| NlpAnalysis.BestMatches | Service_files/nlp_analysis.py:146-151 | one score per job sentence |
| NlpAnalysis.BestMatchesAreBest | Service_files/nlp_analysis.py:146-151 | each score is the similarity of some résumé sentence and at least that of every résumé sentence |
| NlpAnalysis.MaxReal | Service_files/nlp_analysis.py:156 | the maximum is a score and bounds all scores |
| NlpAnalysis.MinReal | Service_files/nlp_analysis.py:155 | the minimum is a score and is bounded by all scores |
| NlpAnalysis.SumBounds | Service_files/nlp_analysis.py:154 | the sum of n values between lo and hi lies between n*lo and n*hi |
| NlpAnalysis.QuotientBounds | Service_files/nlp_analysis.py:154 | dividing such a sum by n lands between lo and hi |
| NlpAnalysis.Summarize | Service_files/nlp_analysis.py:153-157 | the average is the sum of the scores over their count, the minimum and maximum are scores that bound all scores, and minimum <= average <= maximum |
| NlpAnalysis.OverallSemanticAlignment | Service_files/nlp_analysis.py:141-157 | an error for an empty job text, then for an empty résumé; otherwise the summary of the best match of every job sentence |
| NlpAnalysis.BuildAnalysisJson | Service_files/nlp_analysis.py:161-184 | the report holds exactly what each extractor returns, and fails exactly when the alignment fails |
| GuidanceText.FixedLinesHaveNoBreak | Service_files/llm_guidance.py:22-82 | the opening line, the three titles, the fixed strengths, weaknesses and suggestion, the domains prefix and the closing paragraph each hold no newline |
| LlmGuidance.MissingSkills | Service_files/llm_guidance.py:46-49 | a skill is missing exactly when its record says so |
| LlmGuidance.AppendBlock | Service_files/llm_guidance.py:63-76 | appending a titled list adds the title and one "- item" line per item, or nothing for an empty list |
| LlmGuidance.FallbackMentorGuidance | Service_files/llm_guidance.py:17-84 | the step-by-step string building produces the rendered review of the report's three lists |
| LlmGuidance.ReviewContents | Service_files/llm_guidance.py:22-59 | each fixed strength or weakness appears exactly when its condition holds; suggestions appear exactly when a skill is missing; two to five strengths and weaknesses |
| LlmGuidance.RenderFraming | Service_files/llm_guidance.py:61-82 | every review starts with the opening paragraph and ends with the closing one |
| LlmGuidance.ItemLines | Service_files/llm_guidance.py:65-76 | one "- " line per item, in order |
| LlmGuidance.BulletsTerminated | Service_files/llm_guidance.py:65-76 | the bullets are the item lines, each ended by a newline |
| LlmGuidance.RenderLines | Service_files/llm_guidance.py:61-82 | the review splits into exactly its lines: opening, blank, titled blocks, blank, closing |
| LlmGuidance.ReviewLinesJoined | Service_files/llm_guidance.py:61-82 | joining those lines with newlines gives the review back |
| LlmGuidance.ReviewLinesOf | Service_files/llm_guidance.py:17-84 | for any report, the review's lines are its opening, its blocks and its closing |
| LlmGuidance.StrengthsHaveNoBreak | Service_files/llm_guidance.py:22-44 | strengths hold no newline when the domains do not |
| LlmGuidance.WeaknessesHaveNoBreak | Service_files/llm_guidance.py:26-55 | no weakness holds a newline |
| LlmGuidance.SuggestionsHaveNoBreak | Service_files/llm_guidance.py:56-59 | no suggestion holds a newline |
| GuidancePatterns.NewlineRun | Service_files/llm_guidance.py:97 | the length of the maximal run of newlines at a position |
| GuidancePatterns.CollapseNewlines | Service_files/llm_guidance.py:97 | no double newline remains; first and last character kept; empty exactly for empty input |
| GuidancePatterns.CollapseFixpoint | Service_files/llm_guidance.py:97 | text without a double newline is left as it is, so the substitution is idempotent |
| GuidancePatterns.CollapseConcat | Service_files/llm_guidance.py:97 | the substitution works piece by piece across a boundary that is not inside a newline run |
| GuidancePatterns.HeadingRun | Service_files/llm_guidance.py:100 | the length of the maximal run of letters and whitespace at a position |
| GuidancePatterns.HeadingMatchAt | Service_files/llm_guidance.py:100 | a match is letters or whitespace followed by a colon |
| GuidancePatterns.NextHeading | Service_files/llm_guidance.py:101 | the leftmost match at or after a position, or none when the pattern matches nowhere after it |
| GuidancePatterns.NoMatchNoHeading | Service_files/llm_guidance.py:100-101 | a stretch where no match starts holds no colon after a letter or whitespace |
| GuidancePatterns.NoHeadingNoMatch | Service_files/llm_guidance.py:100-101 | text with no colon after a letter or whitespace has no match anywhere |
| GuidancePatterns.NoColonNoHeading | Service_files/llm_guidance.py:100 | text without a colon has no heading |
| GuidancePatterns.SplitFromShape | Service_files/llm_guidance.py:101 | the pieces alternate text and heading matches and concatenate to the text |
| GuidancePatterns.SplitHeadings | Service_files/llm_guidance.py:100-101 | an odd number of pieces that concatenate to the text |
| GuidancePatterns.SplitHeadingsAlternates | Service_files/llm_guidance.py:100-101 | even pieces hold no heading, odd pieces are whole heading matches |
| GuidancePatterns.SplitConcat | Service_files/llm_guidance.py:100-101 | splitting the concatenation of any alternating list gives the list back |
| GuidancePatterns.SplitFromConcat | Service_files/llm_guidance.py:101 | the split from any position recovers an alternating list from its concatenation |
| GuidancePatterns.FirstHeadingAt | Service_files/llm_guidance.py:101 | after a piece with no heading, a heading token is the leftmost match and ends where the token ends |
| GuidancePatterns.SplitWithoutHeading | Service_files/llm_guidance.py:101 | text without a heading splits into itself alone |
| GuidancePatterns.SplitStartsWithHeading | Service_files/llm_guidance.py:101-106 | the first piece is empty exactly when the text is empty or starts with a heading match |
| LlmGuidance.Put | Service_files/llm_guidance.py:108 | assigning a key sets it, keeps the dictionary well formed and keeps the insertion order of earlier keys |
| LlmGuidance.NonBlankLines | Service_files/llm_guidance.py:114 | every kept line is non-empty and stripped, and holds no newline when no piece does |
| LlmGuidance.Paragraphs | Service_files/llm_guidance.py:112-114 | paragraphs are non-empty, stripped, single lines |
| LlmGuidance.PutAll | Service_files/llm_guidance.py:110-116 | the sequence of assignments keeps the dictionary well formed |
| LlmGuidance.PutAllFirst | Service_files/llm_guidance.py:110-116 | the assignments are applied first to last |
| LlmGuidance.InitialSections | Service_files/llm_guidance.py:104-108 | the dictionary before the loop is well formed |
| LlmGuidance.ParseSections | Service_files/llm_guidance.py:89-118 | the parse is a well-formed dictionary |
| LlmGuidance.SectionsOf | Service_files/llm_guidance.py:104-116 | the dictionary built from a split is well formed |
| LlmGuidance.FormatGuidanceForHtml | Service_files/llm_guidance.py:89-118 | the loop over the split builds the parse of the text |
| LlmGuidance.PutAllKeys | Service_files/llm_guidance.py:110-116 | the keys after the loop are the earlier keys plus every assigned key |
| LlmGuidance.PutAllUntouched | Service_files/llm_guidance.py:110-116 | a key never assigned keeps its value |
| LlmGuidance.PutAllLast | Service_files/llm_guidance.py:115 | a key holds the value of its last assignment |
| LlmGuidance.PutAllValues | Service_files/llm_guidance.py:110-116 | every value after the loop is an earlier value or an assigned one |
| LlmGuidance.PairsLength | Service_files/llm_guidance.py:110-116 | the loop makes (len - i) // 2 assignments |
| LlmGuidance.PairsAt | Service_files/llm_guidance.py:110-116 | assignment m pairs piece i + 2m with piece i + 2m + 1 |
| LlmGuidance.PairsAssigned | Service_files/llm_guidance.py:110-116 | assignment m is the heading key and paragraphs of its two pieces |
| LlmGuidance.PairsIndexInRange | Service_files/llm_guidance.py:110 | every assignment reads pieces inside the split |
| LlmGuidance.SectionKeys | Service_files/llm_guidance.py:104-116 | the keys are "Intro" when there is an introduction, and every assigned key |
| LlmGuidance.SectionValue | Service_files/llm_guidance.py:110-116 | each key holds the paragraphs of its last assignment, so a later duplicate heading overwrites |
| LlmGuidance.IntroValue | Service_files/llm_guidance.py:105-108 | "Intro" holds the stripped introduction unless an assignment names "Intro" |
| LlmGuidance.SectionParagraphs | Service_files/llm_guidance.py:104-116 | every paragraph is non-empty and stripped; all but the introduction are single lines |
| LlmGuidance.CleanedShape | Service_files/llm_guidance.py:97 | the cleaned text is stripped, and empty exactly for blank input |
| LlmGuidance.StartIff | Service_files/llm_guidance.py:104-106 | the loop starts at the first heading exactly when the cleaned text is empty or starts with one |
| LlmGuidance.HeadingFirstSplit | Service_files/llm_guidance.py:101-106 | text starting with a heading splits into at least three pieces |
| LlmGuidance.NoSectionsIffBlank | Service_files/llm_guidance.py:89-118 | the result is empty exactly for blank text |
| LlmGuidance.EmptyTextHasNoSections | Service_files/llm_guidance.py:104-110 | empty text gives no sections |
| LlmGuidance.TextHasSections | Service_files/llm_guidance.py:104-116 | non-empty stripped text gives at least one section |
| LlmGuidance.SplitHasSections | Service_files/llm_guidance.py:104-116 | a split with an introduction, or with a heading and its content, gives at least one section |
| LlmGuidance.NoHeadingIsIntro | Service_files/llm_guidance.py:105-108 | text with no heading is one "Intro" section holding the cleaned text |
| LlmGuidance.HeadingFirstPairing | Service_files/llm_guidance.py:103-116 | when the text starts with a heading, each heading is paired with the text up to the next one |
| LlmGuidance.HeadingFirstPairingOf | Service_files/llm_guidance.py:110-116 | from piece 1 of an alternating split every assignment takes a heading match and the heading-free text after it, one per heading |
| LlmGuidance.IntroKept | Service_files/llm_guidance.py:107-108 | with an introduction, "Intro" is a key |
| LlmGuidance.IntroPairing | Service_files/llm_guidance.py:104-116 | with an introduction, the loop starts one piece early and pairs each text piece with the heading after it |
| LlmGuidance.IntroPairingOf | Service_files/llm_guidance.py:104-116 | the same shape for any alternating split that starts with text |
| LlmGuidance.HeadingKeyOfWord | Service_files/llm_guidance.py:111 | a heading word followed by a colon, with or without a leading newline, gives the word as key |
| LlmGuidance.ParagraphsOfLine | Service_files/llm_guidance.py:112-114 | a single stripped line after a newline is one paragraph |
| LlmGuidance.TwoSectionCleaned | Service_files/llm_guidance.py:97 | cleaning two sections separated by a blank line leaves one newline between them |
| LlmGuidance.TwoSectionSplit | Service_files/llm_guidance.py:101 | two headings each followed by a line split into five pieces |
| LlmGuidance.TwoSections | Service_files/llm_guidance.py:89-118 | two headings each followed by a line give one section per heading, holding that line |
| LlmGuidance.TwoSectionExample | Service_files/llm_guidance.py:99-115 | "Strengths:" and "Skills Gaps:" each with one line parse to those two sections |
| App.AfterLastDot | app.py:24 | the second piece of rsplit(".", 1): it follows a dot, holds no dot, and ends the name |
| App.AfterLastDotOf | app.py:24 | splitting stem + "." + extension at the last dot gives the extension |
| App.LastDotSplit | app.py:24 | every name with a dot is its stem, the last dot and the extension |
| App.NoDotRefused | app.py:23-24 | a name without a dot is refused |
| App.AllowedFileIff | app.py:15-24 | a name is accepted exactly when the text after its last dot is "pdf" in any mix of cases |
| App.AcceptedExamples | app.py:15-24 | whatever precedes it, a name ending in ".pdf" or ".PDF" is accepted: upper case counts, an earlier extension ("archive.tar.pdf") does not matter, and a bare ".pdf" is accepted |
| App.RefusedExamples | app.py:15-24 | "cv.pdf.exe", "report." and "pdf" are refused |

## Left out

- Sentence segmentation by spaCy (`nlp(text).sents`) is not modelled. The segmenter's output is a parameter, and only the trimming and length filter of `split_sentences` is modelled.
- `semantic_similarity` (sentence embeddings and cosine similarity) is not modelled. Each operation that uses it takes `sim` as a parameter.
- `round(x, 3)` on the similarity figures is not modelled. The model keeps unrounded reals, because rounding is presentation only.
- NlpAnalysis.ListOfSet: Python's set iteration order is not specified, so the order of the resulting list is left open.
- NlpAnalysis.SemanticSkillMatch: the result is a map, so the insertion order of the dictionary is not modelled. Only membership and values are consumed downstream.
- LlmGuidance.MissingSkills: a set is used instead of a list, because the review only tests whether it is empty.
- NlpPatterns.YearRangeMatchShape: `\d` is modelled as the ASCII digits 0–9. In a `str` pattern Python's `\d` also matches every other Unicode decimal digit (category Nd), so a line such as "bsc 1990-20٢٠" has a duration in Python and none in the model (`Duration`, `DetectEducationStatus`).
- NlpPatterns.FindAllYears: `\d+` is modelled as a run of ASCII digits 0–9, and `DecimalValue` reads only those. Python's `\d` and `int()` also accept other Unicode decimal digits, so "٥ years" gives 5 in Python and no mention in the model (`ParseJdExperienceRequirements`).
- PyStr.Lower: only ASCII letters are lower-cased. Python's full Unicode case mapping is not modelled. It cannot turn any non-ASCII character into "p", "d" or "f", so `allowed_file` is exact.
- `generate_resume_guidance` is not modelled, because it needs the network. This covers the HTTP request to the language model, the environment variables and the debug output.
  - Its rule-based fallback unpacks the dictionary from `format_guidance_for_html` into two names. That only succeeds when the dictionary has exactly two keys, and the two names are those keys.
  - Only the two functions it calls are modelled.
- These parts of `app.py` are not modelled, because they are I/O: the Flask routes, file upload and saving, and PDF text extraction with PyPDF2.
- `utils/text_cleaning.clean_text` is not part of this model.
- The per-skill and alignment scores are reals, not IEEE doubles. The average is an exact quotient.
