# Hiring framework: a Dafny model of its deterministic core

The hiring framework runs a candidate through a fixed pipeline:
- a job description (JD) is processed;
- a rubric is generated and possibly refined;
- the resume is evaluated (Level 1);
- the GitHub profile is analysed (Level 2);
- a final verdict combines the levels.

A language model does the judging at each step, and a REST layer exposes every step. This project models what is left once every language-model reply is treated as an arbitrary input string:

- **Pipeline state** (`Orchestration`, `hiring_framework.dfy`): the `HiringFramework` class. It holds:
  - the current JD and rubric;
  - the latest Level 1/2/3 record and the latest verdict;
  - the append-only results list.

  Every stage is a method with the source's guard, its error message and its slot update. Each method states what stays unchanged and keeps the invariant `Valid()`.
- **Configuration** (`Configuration`, `config.dfy`): the three mutable level thresholds with `get_threshold`/`set_threshold`, and the fixed constants. Every maximum score is 10, and the default thresholds are 7, 6 and 8.
- **Reply parsers**: each is a hand-written matcher over `seq<char>`. Each pattern takes its leftmost match (`Text.Search`), and the first pattern that matches wins.
  - Level 1 and Level 2 score extraction (`ResumeEvaluator`, `GithubAnalyzer`).
  - GitHub handle and user name extraction.
  - Candidate-name cleanup.
  - Rubric preamble and code-fence removal (`JdProcessor`).
  - HIRE/NO_HIRE and confidence extraction (`FinalVerdict`).
  - The candidate-name fallback of the report generator (`PdfGenerator`).
- **Verdict combination** (`FinalVerdict`):
  - the pass flags;
  - the level count;
  - `all_levels_passed`;
  - the weighted composite, computed with exact reals.
- **Markdown to layout elements** (`PdfGenerator`). The index-driven line loop is a method with a pending-paragraph buffer, proved equal to a recursive specification `Render`. The properties of the loop are lemmas about `Render`. The inline conversion (XML escaping, then the bold, italic, code and link substitutions) is a pure function.
- **REST layer** (`ApiServer`, `api_server.dfy`):
  - the guards each endpoint checks before calling the framework, with their status codes and messages;
  - the sequential, range-checked threshold update;
  - the file name of the exported PDF.

The following are parameters, not computations: language-model replies, the GitHub API's status code (`None` stands for a network error), the thresholds read from the environment, and the name-extraction call that can raise (`None` stands for the exception).

Regular expressions use ASCII classes: `\s` is space, `\t`, `\n`, `\v`, `\f`, `\r` and `\x1c`–`\x1f`; `\w` is ASCII letters, digits and `_`. Case-insensitive matching is ASCII case folding.

## Model

| member | source | states |
|---|---|---|
| `Configuration.Config.constructor` | config.py:19-21 | each threshold is the environment's value when one is set, else 7.0, 6.0 and 8.0 |
| `Configuration.Config.GetThreshold` | config.py:36-43 | levels 1, 2 and 3 read their own field; every other level reads 7.0 |
| `Configuration.Config.SetThreshold` | config.py:46-53 | level 1, 2 or 3 reads back the new value, every other level keeps its old value, and a level outside 1..3 changes nothing |
| `Orchestration.HiringFramework.constructor` | utils/hiring_framework.py:27-35 | every slot starts empty and the results list is empty |
| `Orchestration.HiringFramework.ProcessJd` | utils/hiring_framework.py:53-60 | raises exactly when the text is empty and then changes nothing; otherwise the JD record (text as given) replaces the current JD, and rubric, results and latest slots are untouched |
| `Orchestration.HiringFramework.GenerateRubric` | utils/hiring_framework.py:69-77 | raises exactly when no JD was processed and then changes nothing; otherwise the cleaned reply becomes the rubric and nothing else changes |
| `Orchestration.HiringFramework.RefineRubricWithFeedback` | utils/hiring_framework.py:89-97 | raises exactly when there is no non-empty rubric and then changes nothing; otherwise the refined reply replaces the rubric, the feedback is echoed, and nothing else changes |
| `Orchestration.HiringFramework.EvaluateResumeLevel1` | utils/hiring_framework.py:116-148 | raises without JD and rubric (first message) or with empty text (second message) and changes nothing; otherwise exactly one Level 1 record, judged against the level-1 threshold, is appended and becomes the latest; no other slot changes |
| `Orchestration.HiringFramework.AnalyzeGithub` | utils/hiring_framework.py:268-285 | raises without a JD or when the API answers 404, changing nothing; otherwise exactly one Level 2 record, judged against the level-2 threshold, is appended and becomes the latest; no other slot changes |
| `Orchestration.HiringFramework.GenerateFinalVerdict` | utils/hiring_framework.py:306-335 | records passed in override the stored ones; raises without a JD, a Level 1 or a Level 2 record, in that order, changing nothing; otherwise the verdict of those records, scored with the corrected composite, is appended and becomes the latest (see Findings) |
| `Orchestration.HiringFramework.GetEvaluationReport` | utils/hiring_framework.py:237-254 | the loop over the results list yields exactly the report `ReportOf` specifies |
| `Orchestration.HiringFramework.Reset` | utils/hiring_framework.py:387-395 | every field returns to its initial value |
| `Orchestration.Given` | utils/hiring_framework.py:310-312 | a record passed in wins over the stored one, which is used otherwise |
| `Orchestration.ReportOf` | utils/hiring_framework.py:237-254 | the report of a results list; its promises are carried by `ReportEmpty`, `ReportFromListing` and `ReportFromMissing` |
| `Orchestration.ReportEmpty` | utils/hiring_framework.py:237-238 | "No evaluations performed yet." is the report exactly when the results list is empty |
| `Orchestration.ReportFromListing` | utils/hiring_framework.py:244-251 | the report lists every record, in order, exactly when all records are Level 1 records |
| `Orchestration.ReportFromMissing` | utils/hiring_framework.py:244-251 | otherwise the first other record raises KeyError: "evaluation" for a Level 2 record, "level" for a verdict |
| `ResumeEvaluator.ExtractScore` | agents/resume_evaluator.py:424-450 | the first labelled score, else the first bare fraction of ten, else none, unclamped; its promises are carried by `ExtractScoreNone`, `LabelledScoreWins`, `BareScoreFallback` and `LabelledGivesBare` |
| `ResumeEvaluator.ExtractScoreNone` | agents/resume_evaluator.py:424-450 | no score is found exactly when the reply holds no "digits, spaces, '/', spaces, 10" anywhere |
| `ResumeEvaluator.LabelledScoreWins` | agents/resume_evaluator.py:437-441 | the first case-insensitive "SCORE: d / 10" gives the score, whatever bare fractions precede it |
| `ResumeEvaluator.BareScoreFallback` | agents/resume_evaluator.py:443-448 | with no labelled score, the first bare fraction of ten gives the (unclamped) score |
| `ResumeEvaluator.LabelledGivesBare` | agents/resume_evaluator.py:437-444 | a labelled score has a bare fraction of ten with the same value behind it |
| `ResumeEvaluator.HandleBeforeTagAt` | agents/resume_evaluator.py:281 | the "@name (github)" pattern captures the name right after '@' |
| `ResumeEvaluator.GithubColonAt` | agents/resume_evaluator.py:282 | the "github: name" pattern captures the name after the colon and spaces |
| `ResumeEvaluator.GithubUsernameAt` | agents/resume_evaluator.py:283 | the "github username: name" pattern captures a name |
| `ResumeEvaluator.ExtractGithubUrl` | agents/resume_evaluator.py:279-295 | the patterns are tried in order on the lower-cased text and the first one found gives its leftmost capture; "" exactly when none occurs; the result is a lower-case name of `[a-z0-9-]` |
| `ResumeEvaluator.HandleFromFirstPattern` | agents/resume_evaluator.py:279-295 | when patterns 1..n-1 occur nowhere and pattern n first matches at p, the handle is pattern n's capture at p |
| `ResumeEvaluator.HandlePatternsCaptureNames` | agents/resume_evaluator.py:279-284 | each of the four patterns captures a `[a-zA-Z0-9-]+` name |
| `ResumeEvaluator.HandleChars` | agents/resume_evaluator.py:286-293 | a handle found in the lower-cased text is a non-empty lower-case name |
| `ResumeEvaluator.ProfileUrlHandle` | agents/resume_evaluator.py:280-293 | a resume reading "github.com/Name" yields the lower-cased name |
| `ResumeEvaluator.CleanCandidateName` | agents/resume_evaluator.py:333-357 | the result is "Candidate" or a 3..50-character name with no comma, no location word and not "candidate"; a raising call gives "Candidate" |
| `ResumeEvaluator.CleanCandidateNameRejects` | agents/resume_evaluator.py:336-349 | after stripping whitespace and then quotes, a location-like, too short, too long or "candidate" reply gives "Candidate" |
| `ResumeEvaluator.CleanCandidateNameKeeps` | agents/resume_evaluator.py:351-355 | any other reply is kept, title-cased when it is all capitals |
| `ResumeEvaluator.TitleKeepsLocation` | agents/resume_evaluator.py:352-353 | title-casing changes no letter's identity, so the location test cannot change its answer |
| `ResumeEvaluator.ExtractResumeInfo` | agents/resume_evaluator.py:253-263 | the resume record keeps the text and the reply, and carries the handle found and the cleaned name |
| `ResumeEvaluator.EvaluateLevel1` | agents/resume_evaluator.py:402-422 | level "L1", max score 10, the parsed score; passed is false without a score and otherwise score >= threshold; handle, name and texts are carried over |
| `GithubAnalyzer.ExtractGithubUsername` | agents/github_analyzer.py:204-215 | when the trimmed input names github.com and holds a profile path, the result is the maximal name run after the leftmost case-insensitive "github.com/", case kept; otherwise it is the trimmed input with every '@' removed and whitespace stripped |
| `GithubAnalyzer.ProfileUrlUsername` | agents/github_analyzer.py:205-212 | "https://github.com/Name/" gives "Name", case kept |
| `GithubAnalyzer.HandleUsername` | agents/github_analyzer.py:214-215 | "@name" gives "name" |
| `GithubAnalyzer.PathChars` | agents/github_analyzer.py:210-212 | a captured profile path is a non-empty name without '@', the maximal name run after the leftmost "github.com/" |
| `GithubAnalyzer.NoDomainInName` | agents/github_analyzer.py:208 | a text of name characters and '@' never mentions github.com |
| `GithubAnalyzer.TrimmedSlash` | agents/github_analyzer.py:205 | trailing slashes are removed and an already trimmed text is kept |
| `GithubAnalyzer.ProfileFound` | agents/github_analyzer.py:210 | the profile pattern finds the name in a profile URL |
| `GithubAnalyzer.AtHandleFiltered` | agents/github_analyzer.py:215 | removing '@' and stripping "@name" leaves "name" |
| `GithubAnalyzer.ValidateUsername` | agents/github_analyzer.py:238-255 | only a 404 rejects the user name, with the source's message; every other status and a network error accept it |
| `GithubAnalyzer.FirstLabelled` | agents/github_analyzer.py:374-388 | a labelled score read is the value of a bare "digits/10" in the text |
| `GithubAnalyzer.LabelledBehindBare` | agents/github_analyzer.py:375-379 | behind every labelled match lies a bare "digits/10" match of the same value |
| `GithubAnalyzer.ExtractScore` | agents/github_analyzer.py:374-390 | the first labelled pattern that occurs ("score:", then "total:"), else the first bare "digits/10", else none; its promises are carried by `ExtractScoreNone`, `FirstLabelledAt`, `FirstLabelledNone`, `LabelledScoreWins`, `TotalScoreWins` and `BareScoreFallback` |
| `GithubAnalyzer.ExtractScoreNone` | agents/github_analyzer.py:374-390 | no score is found exactly when the text holds no "digits/10" (no spaces allowed) |
| `GithubAnalyzer.FirstLabelledAt` | agents/github_analyzer.py:374-388 | the first labelled pattern that occurs anywhere gives the score, read at its leftmost match |
| `GithubAnalyzer.FirstLabelledNone` | agents/github_analyzer.py:374-388 | when no labelled pattern occurs, none gives a score |
| `GithubAnalyzer.LabelledScoreWins` | agents/github_analyzer.py:374-388 | the leftmost case-insensitive "score: d/10" gives the score, whatever bare fractions precede it |
| `GithubAnalyzer.TotalScoreWins` | agents/github_analyzer.py:374-388 | with no "score:" match, the leftmost "total: d/10" gives the score, whatever bare fractions precede it |
| `GithubAnalyzer.BareScoreFallback` | agents/github_analyzer.py:374-390 | with no labelled match, the leftmost bare "d/10" gives the score |
| `GithubAnalyzer.AnalyzeGithubProfile` | agents/github_analyzer.py:273-359 | raises exactly on a 404, with the validation message; otherwise level "L2", max score 10, the parsed score, and passed false without a score and otherwise score >= threshold |
| `FinalVerdict.Composite` | agents/final_verdict.py:265-273 | half each of Level 1 and 2, or 3/10, 3/10, 4/10 with a Level 3 record, a missing score counted as 0 |
| `FinalVerdict.CompositeInRange` | agents/final_verdict.py:265-273 | scores on the 0..10 scale give a composite on the 0..10 scale |
| `FinalVerdict.CompositeBetween` | agents/final_verdict.py:265-273 | the composite lies between the lowest and the highest score it weighs |
| `FinalVerdict.CompositeOfEqualScores` | agents/final_verdict.py:265-273 | equal scores give that score: the weights sum to one |
| `FinalVerdict.CompositeAsWritten` | agents/final_verdict.py:217-273 | the composite as written fails exactly when the Level 1 or Level 2 score is None |
| `FinalVerdict.CompositeAsWrittenFailsWithoutScore` | agents/final_verdict.py:217-268 | a Level 1 reply without a score, such as "", makes the as-written composite fail |
| `FinalVerdict.TotalLevels` | agents/final_verdict.py:266-273 | 3 exactly when a Level 3 record is given, else 2 |
| `FinalVerdict.AllLevelsPassed` | agents/final_verdict.py:343 | true exactly when Levels 1 and 2 passed and the Level 3 flag holds: with no Level 3 record, or one whose flag is missing (default true) or true, it is Levels 1 and 2 alone; a Level 3 flag of false makes it false |
| `FinalVerdict.DecisionTokenAt` | agents/final_verdict.py:363-365 | the captured token is text of the reply, and it has four letters exactly when it is "hire" |
| `FinalVerdict.DecisionAfter` | agents/final_verdict.py:363-365 | a labelled match sits at its label, and its token follows the label and spaces |
| `FinalVerdict.FinalDecisionLabelAt` | agents/final_verdict.py:365 | every "FINAL DECISION:" match contains a "DECISION:" match |
| `FinalVerdict.Normalize` | agents/final_verdict.py:371-372 | a captured token always maps to "HIRE" or "NO_HIRE" |
| `FinalVerdict.NormalizeToken` | agents/final_verdict.py:371-372 | a token maps to "HIRE" exactly when it is the word "hire" in any case |
| `FinalVerdict.FinalDecisionSubsumed` | agents/final_verdict.py:362-372 | the third pattern never decides: a labelled decision exists exactly when "DECISION:" or "RECOMMENDATION:" matches |
| `FinalVerdict.ExtractDecision` | agents/final_verdict.py:362-380 | always "HIRE" or "NO_HIRE"; a labelled decision wins; otherwise "HIRE" exactly when "recommend hiring" or "should be hired" occurs |
| `FinalVerdict.ConfidenceAt` | agents/final_verdict.py:395 | a match spells "high", "medium" or "low" in some case |
| `FinalVerdict.ConfidenceFound` | agents/final_verdict.py:395-396 | the leftmost confidence match spells one of the three levels |
| `FinalVerdict.CapitalizeFolded` | agents/final_verdict.py:399 | capitalising a match gives exactly "High", "Medium" or "Low" |
| `FinalVerdict.ExtractConfidence` | agents/final_verdict.py:394-401 | always "High", "Medium" or "Low": the leftmost match capitalised, else "Medium" |
| `FinalVerdict.GenerateFinalVerdict` | agents/final_verdict.py:336-347 | the verdict carries the decision, the confidence, the corrected composite (see Findings), the level scores, the Level 3 record's own score (None when it has none) when Level 3 is given and None otherwise, all-levels-passed, the level count and the reply |
| `JdProcessor.ExtractJdRequirements` | agents/jd_processor.py:269-273 | the JD record keeps the input text unchanged as `raw_jd` beside the reply |
| `JdProcessor.GenerateRubric` | agents/jd_processor.py:307-313 | the rubric record holds the cleaned reply and the JD it was made for |
| `JdProcessor.RefineRubric` | agents/jd_processor.py:370-374 | the refined rubric is the reply as is, and the feedback is echoed as `applied_feedback` |
| `JdProcessor.DropPreamble` | agents/jd_processor.py:321-331 | the result is a suffix of the text |
| `JdProcessor.PreambleLevelHeading` | agents/jd_processor.py:321-331 | the first line opening with a 1–3 '#' "LEVEL 1" heading starts the rubric |
| `JdProcessor.PreambleLevelEvaluation` | agents/jd_processor.py:321-331 | without one, the first "LEVEL 1 EVALUATION" line starts it |
| `JdProcessor.PreambleRubricHeading` | agents/jd_processor.py:321-331 | without either, the first '#' line followed somewhere by "RUBRIC" starts it |
| `JdProcessor.DropPreambleNone` | agents/jd_processor.py:321-331 | with no match of any pattern the text is kept whole |
| `JdProcessor.LastNewline` | agents/jd_processor.py:334 | the last newline in a range, or none when the range has none |
| `JdProcessor.FenceOpenerAt` | agents/jd_processor.py:338 | a fence-opener match starts with three backticks and is deleted |
| `JdProcessor.LineFenceOpenerAt` | agents/jd_processor.py:334 | the line-anchored fence opener starts with three backticks and is deleted |
| `JdProcessor.FenceCloserAt` | agents/jd_processor.py:335 | a closing fence starts at a newline and is deleted |
| `JdProcessor.NewlineFenceAt` | agents/jd_processor.py:339 | a newline and three backticks are deleted |
| `JdProcessor.CleanCodeBlocks` | agents/jd_processor.py:315-341 | the cleaned rubric has no leading or trailing whitespace |
| `JdProcessor.NoTicksNoFence` | agents/jd_processor.py:333-339 | a text without backticks matches none of the four fence patterns |
| `JdProcessor.CleanWithoutFences` | agents/jd_processor.py:319-341 | a reply without backticks loses only its preamble and edge whitespace |
| `JdProcessor.OnlyClosingTicks` | agents/jd_processor.py:334 | ticks that only end the text open no fence |
| `JdProcessor.OpenerAtStart` | agents/jd_processor.py:334 | the "```lang" line of a fenced rubric is an opener ending after its newline |
| `JdProcessor.OpenerOnFenceLine` | agents/jd_processor.py:334 | ticks, a word and a newline before text form an opener |
| `JdProcessor.OpenerRemoved` | agents/jd_processor.py:334 | the opening fence line is removed and nothing else is touched |
| `JdProcessor.CloserRemoved` | agents/jd_processor.py:335 | a closing "\n```" at the end is removed and nothing else is touched |
| `JdProcessor.NoOpenerBeforeCloser` | agents/jd_processor.py:334 | a body followed by its closing fence holds no opener |
| `JdProcessor.AfterOpener` | agents/jd_processor.py:335-341 | the steps after the opener removal reduce a body and its closing fence to the body |
| `JdProcessor.BodyUntouched` | agents/jd_processor.py:338-341 | the last substitutions leave a plain body as it is |
| `JdProcessor.ClosingFenceRemoved` | agents/jd_processor.py:319-341 | a rubric left as a body plus closing fence after the preamble cut comes out as the body |
| `JdProcessor.FencedRubricUnwrapped` | agents/jd_processor.py:319-341 | a rubric wrapped whole in "```lang … ```" comes out as its body |
| `Patterns.NameAt` | agents/resume_evaluator.py:280 | `([a-zA-Z0-9-]+)` captures the maximal run of name characters |
| `Patterns.ProfilePathAt` | agents/github_analyzer.py:210 | `github\.com/(name)` matches at "github.com/", in any case, and captures the name after it |
| `Patterns.FractionAtIsPattern` | agents/resume_evaluator.py:444 | the matcher succeeds exactly where the pattern "digits, spaces, '/', spaces, 10" can be laid over the text |
| `Patterns.FractionAtValue` | agents/resume_evaluator.py:444-448 | whatever covering is taken, the value read is that of the digits |
| `Patterns.GreedyFractionShape` | agents/resume_evaluator.py:444 | the matcher's greedy runs form a covering |
| `Patterns.FractionShapeUnique` | agents/resume_evaluator.py:444 | a covering is unique: the greedy one |
| `Patterns.LabelledFractionAt` | agents/resume_evaluator.py:437 | a labelled score sits at its label and reads the fraction after it |
| `PdfGenerator.Escape` | utils/pdf_generator.py:133 | the escaped text holds no raw '<' or '>' |
| `PdfGenerator.EscapeIsCharwise` | utils/pdf_generator.py:133 | escaping '&' first makes the chain escape each character once, on its own |
| `PdfGenerator.UnescapeEscape` | utils/pdf_generator.py:133 | reading the entities back gives the original text: nothing is lost or escaped twice |
| `PdfGenerator.ConvertEmpty` | utils/pdf_generator.py:129-130 | "" converts to "" |
| `PdfGenerator.ConvertInlineMarkdown` | utils/pdf_generator.py:127-152 | "" stays ""; other text is escaped, then bold-italic, bold, italic, code and links are substituted in that order; its promises are carried by `ConvertEmpty`, `PlainTextOnlyEscaped`, `UnescapeEscape`, `BoldItalicConverted`, `BoldConverted` and `LinkConverted` |
| `PdfGenerator.PlainTextOnlyEscaped` | utils/pdf_generator.py:127-152 | text without markdown punctuation is only escaped |
| `PdfGenerator.BoldItalicConverted` | utils/pdf_generator.py:127-152 | "***w***", for plain non-empty w, becomes "<b><i>w</i></b>" |
| `PdfGenerator.BoldConverted` | utils/pdf_generator.py:127-152 | "**w**", for plain non-empty w, becomes "<b>w</b>": the bold-italic pattern leaves it alone |
| `PdfGenerator.LinkConverted` | utils/pdf_generator.py:127-152 | "[t](u)", for plain non-empty t and u, becomes t: only the link text is kept |
| `PdfGenerator.NoTripleStar` | utils/pdf_generator.py:136 | "**w**" holds no match of the bold-italic pattern |
| `PdfGenerator.LazyCloseFinds` | utils/pdf_generator.py:136-150 | the lazy `(.+?)` scan stops at the first closing delimiter |
| `PdfGenerator.DelimitedWhole` | utils/pdf_generator.py:136-147 | d + w + d, w free of newlines and of d's first character, is one match of `d(.+?)d` covering the text, replaced by open + w + close |
| `PdfGenerator.LinkAtWhole` | utils/pdf_generator.py:150 | "[t](u)" is one link match covering the text, replaced by t |
| `PdfGenerator.LazyClose` | utils/pdf_generator.py:136-150 | a lazy `(.+?)` closes at the first delimiter after its start, within the line |
| `PdfGenerator.DelimitedAt` | utils/pdf_generator.py:136-147 | a delimited match starts at its opening delimiter and ends within the text |
| `PdfGenerator.LinkFrom` | utils/pdf_generator.py:150 | a link match ends within the text |
| `PdfGenerator.LinkAt` | utils/pdf_generator.py:150 | a link match starts at '[' |
| `PdfGenerator.DelimitedAbsent` | utils/pdf_generator.py:136-147 | a text without the opening character matches none of the delimited patterns |
| `PdfGenerator.HeadingOf` | utils/pdf_generator.py:61-64 | a heading is 1–6 '#', whitespace and non-empty text, and the level is the '#' count |
| `PdfGenerator.HeadingForm` | utils/pdf_generator.py:61-64 | every line of that form is recognised with its level and text |
| `PdfGenerator.BulletOf` | utils/pdf_generator.py:84-92 | a bullet is a marker '*', '-' or '+' and whitespace; the item is the rest of the line |
| `PdfGenerator.BulletForm` | utils/pdf_generator.py:84-92 | conversely, every marker, non-empty whitespace and item not starting with whitespace is recognised as a bullet line with that item |
| `PdfGenerator.Classify` | utils/pdf_generator.py:42-117 | a stripped line is blank, a '#' line, a bullet, a fence or regular text, tested in the loop's order |
| `PdfGenerator.FenceLineKind` | utils/pdf_generator.py:108-111 | the inner loop's closing-fence test agrees with the classification of fence lines |
| `PdfGenerator.RowOf` | utils/pdf_generator.py:39 | a line is stripped before it is classified |
| `PdfGenerator.RowsAt` | utils/pdf_generator.py:34-39 | row k is line k stripped and classified |
| `PdfGenerator.FenceEnd` | utils/pdf_generator.py:109-113 | the search for a closing fence stays within the lines |
| `PdfGenerator.FenceEndFirst` | utils/pdf_generator.py:109-113 | the search stops at the first fence line and at no line before it |
| `PdfGenerator.FenceEndAt` | utils/pdf_generator.py:109-113 | the search finds the first fence line after the opener |
| `PdfGenerator.Render` | utils/pdf_generator.py:30-125 | the loop as a recursive specification over the classified rows with the pending buffer; its promises are the step lemmas below (`BlankLineFlushes`, `HeadingLineEmits`, `MalformedHeadingEmitsNothing`, `BulletLineEmits`, `FenceSkipped`, `FencedBlockSkipped`, `TextLineBuffered`, `RegularLinesJoin`, `LastLineFlushed`, `FenceKeepsParagraph`) |
| `PdfGenerator.ElementsOf` | utils/pdf_generator.py:25-125 | the elements of a reply: `Render` from the first row with an empty buffer; `ProseReplyOneParagraph` and `MarkdownToPdfElements` are about it |
| `PdfGenerator.MarkdownToPdfElements` | utils/pdf_generator.py:25-125 | the loop's elements are exactly the specification's, and empty input gives no elements |
| `PdfGenerator.ConvertLine` | utils/pdf_generator.py:38-118 | one turn of the loop strictly advances the index and keeps the specification's result |
| `PdfGenerator.FenceStep` | utils/pdf_generator.py:108-114 | a fence line moves the index past the closing fence, or past the end |
| `PdfGenerator.BlankStep` | utils/pdf_generator.py:42-50 | a blank line emits the flushed paragraph and its spacer |
| `PdfGenerator.HeadingStep` | utils/pdf_generator.py:53-81 | a '#' line emits the flushed paragraph and, when well formed, the heading with its spacers |
| `PdfGenerator.BulletStep` | utils/pdf_generator.py:84-105 | a bullet line emits the flushed paragraph and its bullet |
| `PdfGenerator.FlushingStep` | utils/pdf_generator.py:42-105 | a blank, heading or bullet line flushes the buffer and adds its own elements |
| `PdfGenerator.FlushBuffer` | utils/pdf_generator.py:120-123 | a non-empty buffer becomes one Normal paragraph |
| `PdfGenerator.TextLineBuffered` | utils/pdf_generator.py:116-118 | a regular line is appended to the buffer |
| `PdfGenerator.RegularLinesJoin` | utils/pdf_generator.py:116-123 | a run of regular lines is buffered whole and flushed once |
| `PdfGenerator.RegularLinesParagraph` | utils/pdf_generator.py:116-123 | consecutive regular lines become one Normal paragraph of the lines joined by single spaces |
| `PdfGenerator.ProseReplyOneParagraph` | utils/pdf_generator.py:30-123 | a reply made only of regular lines becomes one paragraph of its stripped lines joined by spaces |
| `PdfGenerator.BlankLineFlushes` | utils/pdf_generator.py:42-50 | a blank line flushes the buffer and adds one spacer; with nothing buffered it emits nothing |
| `PdfGenerator.HeadingLineEmits` | utils/pdf_generator.py:53-81 | a heading flushes the buffer without a spacer, then adds spacer, heading in its level's style, spacer |
| `PdfGenerator.MalformedHeadingEmitsNothing` | utils/pdf_generator.py:53-62 | a '#' line not of the heading form emits nothing but still flushes |
| `PdfGenerator.BulletLineEmits` | utils/pdf_generator.py:84-105 | a bullet line emits exactly one Bullet paragraph, "• " before the converted item |
| `PdfGenerator.FenceSkipped` | utils/pdf_generator.py:108-114 | a fenced block up to its closing line, or to the end, emits nothing and keeps the buffer |
| `PdfGenerator.FencedBlockSkipped` | utils/pdf_generator.py:108-114 | a block from an opener to the next fence line is skipped whole |
| `PdfGenerator.LastLineFlushed` | utils/pdf_generator.py:117-123 | a regular last line is flushed together with the buffer |
| `PdfGenerator.FenceKeepsParagraph` | utils/pdf_generator.py:108-123 | text on both sides of a fenced block merges into one paragraph |
| `PdfGenerator.Texts` | utils/pdf_generator.py:117 | the buffered texts are the rows' stripped texts, in order |
| `PdfGenerator.StripAll` | utils/pdf_generator.py:39 | each line is stripped in place |
| `PdfGenerator.NameWordLetters` | utils/pdf_generator.py:174 | `[A-Z][a-z]+` matches exactly at a capital followed by a lower-case letter, and then covers the capital and every lower-case letter after it; under IGNORECASE it matches exactly where two or more letters start and takes the whole run of letters |
| `PdfGenerator.LetterRunsAreRuns` | utils/pdf_generator.py:174 | the letter runs the name words take are the maximal runs of those letters |
| `PdfGenerator.GapRunIsSpaceRun` | utils/pdf_generator.py:174 | the gap between name words is the maximal run of white space |
| `PdfGenerator.NameRun` | utils/pdf_generator.py:174 | the greedy group matches exactly where a name word starts, ends within the text and counts one to k + 1 words |
| `PdfGenerator.NameRunWords` | utils/pdf_generator.py:174 | what the greedy group matches is that many name words, each after a run of white space |
| `PdfGenerator.FullNameAt` | utils/pdf_generator.py:174 | a full name (the same group is used case-sensitively at line 200) is two to four name words separated by white space, ending within the text |
| `PdfGenerator.FieldLabelEnd` | utils/pdf_generator.py:174-175 | the label "Name", "Candidate" or "Full Name" ends after its start |
| `PdfGenerator.FieldValueStart` | utils/pdf_generator.py:174-175 | the field's value starts after the label and its separator |
| `PdfGenerator.BoldFieldValueStart` | utils/pdf_generator.py:176 | the bold field's value starts after "**Name**" |
| `PdfGenerator.FieldNameAt` | utils/pdf_generator.py:174 | the first pattern captures a name of at least two characters |
| `PdfGenerator.CapsFieldNameAt` | utils/pdf_generator.py:175 | the second pattern captures a letter followed by letters and spaces |
| `PdfGenerator.BoldNameAt` | utils/pdf_generator.py:176 | the third pattern captures a name of at least two characters |
| `PdfGenerator.Accept` | utils/pdf_generator.py:182-185 | a capture is kept, stripped, exactly when it is not one of the rejected common words |
| `PdfGenerator.NameFromSource` | utils/pdf_generator.py:173-185 | never a rejected word; the field pattern's accepted capture wins; else the capitals pattern's; else the bold pattern's; none exactly when none of the three gives an accepted capture |
| `PdfGenerator.FirstFound` | utils/pdf_generator.py:168-185 | what the extractor yields for the first element it yields anything for; every earlier element yields nothing |
| `PdfGenerator.NameFromSources` | utils/pdf_generator.py:162-185 | the first non-empty source that yields a name gives it, every earlier source being empty or yielding none; none yields one otherwise |
| `PdfGenerator.NonEmptyImages` | utils/pdf_generator.py:190 | each kept element is a non-empty image of some input, and every non-empty image is kept |
| `PdfGenerator.NonEmptyImagesAppend` | utils/pdf_generator.py:190 | the images of a concatenation are those of its parts, concatenated, so the order is kept |
| `PdfGenerator.NonBlankLines` | utils/pdf_generator.py:190 | each element is the stripped form of some line and non-empty, and every line that strips to something non-empty is present |
| `PdfGenerator.NonBlankLinesOrder` | utils/pdf_generator.py:190 | the lines of a concatenation are those of its parts, and one line gives itself stripped or nothing: the stripped non-blank lines in order |
| `PdfGenerator.NameFromLine` | utils/pdf_generator.py:194-215 | a header line yields nothing; a name is the line, its title-cased form or its words rejoined |
| `PdfGenerator.NameWordRead` | utils/pdf_generator.py:200 | a capitalised word followed by white space or the end is read whole as a name word |
| `PdfGenerator.NameRunJoined` | utils/pdf_generator.py:200 | name words joined by single spaces are matched to the end, all of them counted |
| `PdfGenerator.NameLineAccepted` | utils/pdf_generator.py:194-202 | two to four name words joined by single spaces, on a non-header line, are returned as the line itself |
| `PdfGenerator.UpperLineTitled` | utils/pdf_generator.py:200-207 | a non-header line in capitals, of two to four words and at most 50 characters, is returned title-cased |
| `PdfGenerator.UpperNoFullName` | utils/pdf_generator.py:200-202 | a line in capitals never matches the first rule, so the second rule decides |
| `PdfGenerator.CapitalisedLineJoined` | utils/pdf_generator.py:200-215 | a non-header line of two to four capitalised words of 2 to 20 characters is returned as the line when the first rule takes it, else as its words joined by single spaces |
| `PdfGenerator.NameFromLines` | utils/pdf_generator.py:193-215 | the first line the heuristic accepts gives the name, every earlier line being rejected; none is found only when every line is rejected |
| `PdfGenerator.Take` | utils/pdf_generator.py:193 | at most the first ten lines are looked at |
| `PdfGenerator.ExtractCandidateName` | utils/pdf_generator.py:154-217 | in the source's order: the stored name when non-empty and not "candidate"; else the sources' field-pattern name, which is never a rejected word; else, for a non-empty resume, the first name-like line among the first ten non-blank lines; "Candidate" exactly when all of these fail |
| `ApiServer.FirstRejected` | api_server.py:389-402 | the first supplied level out of [0, 10], levels checked 1, 2, 3 in order; none when all pass |
| `ApiServer.ThresholdAfter` | api_server.py:389-402 | an omitted level keeps its value; a level checked before the rejected one takes the new value; the rejected level and later ones keep theirs |
| `ApiServer.ThresholdsAllAccepted` | api_server.py:389-402 | an accepted request writes every supplied level and leaves the omitted ones |
| `ApiServer.ThresholdsRejectedKeepLater` | api_server.py:389-402 | a rejected request writes neither the rejected level nor any after it |
| `ApiServer.UpdateThresholds` | api_server.py:389-412 | 400 exactly when a supplied level is out of range, with that level's message; each threshold ends as `ThresholdAfter` says, so earlier valid levels stay written |
| `ApiServer.GetThresholds` | api_server.py:366-373 | the answer is the three current thresholds |
| `ApiServer.SafeName` | api_server.py:516 | only word characters, whitespace and '-' remain |
| `ApiServer.NamePartChars` | api_server.py:516-519 | every name part is a non-empty run of word characters and '-' |
| `ApiServer.PdfFileNameSafe` | api_server.py:516-530 | any name gives a file name of word characters, '-' and '.' only |
| `ApiServer.FileNameFromSafeParts` | api_server.py:522-530 | safe parts make a safe file name |
| `ApiServer.PdfFileNameOfFullName` | api_server.py:522-524 | "First Last" gives `candidate_evaluation_First_Last.pdf` |
| `ApiServer.PdfFileNameOfSingleName` | api_server.py:525-527 | a single name gives `candidate_evaluation_Name.pdf` |
| `ApiServer.PdfFileNameFallback` | api_server.py:528-530 | a name with nothing usable gives `candidate_evaluation_Candidate.pdf` |
| `ApiServer.BlankSafeName` | api_server.py:516 | a name of unsafe characters and whitespace has an empty safe form |
| `ApiServer.UploadJdText` | api_server.py:147-155 | 500 exactly when the text is empty, changing nothing; otherwise the JD is stored |
| `ApiServer.GenerateRubric` | api_server.py:192-207 | 400 "Job Description must be uploaded first" exactly without a JD, changing nothing; otherwise the cleaned reply becomes the rubric |
| `ApiServer.GetCurrentRubric` | api_server.py:215-221 | 404 exactly when there is no non-empty rubric; otherwise the rubric |
| `ApiServer.RefineRubric` | api_server.py:230-245 | 400 exactly without a rubric, changing nothing; otherwise the reply becomes the rubric and the feedback is echoed |
| `ApiServer.EvaluateResumeText` | api_server.py:256-271 | 400 without JD and rubric, 500 for an empty resume, changing nothing; otherwise one Level 1 record is appended and becomes the latest |
| `ApiServer.AnalyzeGithub` | api_server.py:287-307 | 400 without a JD or for an unknown user name, changing nothing; otherwise one Level 2 record is appended and becomes the latest |
| `ApiServer.GenerateVerdict` | api_server.py:438-467 | 400 without a JD, a Level 1 or a Level 2 record, in that order, changing nothing; otherwise the verdict of the stored records, scored with the corrected composite (see Findings) |
| `ApiServer.GetCurrentVerdict` | api_server.py:475-481 | 404 exactly when no verdict is stored; otherwise the verdict |
| `ApiServer.ExportPdfFileName` | api_server.py:497-530 | 400 exactly without a Level 1 record; otherwise the file name derived from that record's name, of safe characters only |
| `ApiServer.GetEvaluationReport` | api_server.py:346-358 | a 500 exactly when the report raises KeyError, that is when some record is not a Level 1 record; otherwise the report and the number of records, "no evaluations" exactly when there are none |
| `ApiServer.ResetFramework` | api_server.py:420 | every slot of the framework is emptied |

## Left out

- Language-model calls (the agents, their sessions and prompts) are not modelled: each reply is an input string.
- The event-loop helper that runs those calls in a thread, and the exception handlers installed around it, are not modelled (concurrency plumbing).
- The HTTP request to the GitHub users API is not modelled; only the decision taken on its status code is.
- Text extraction from PDF and text files (utils/text_extractor.py), and therefore the file-upload variants of the JD and resume endpoints, are not part of this model.
- The PDF itself is not modelled: its layout, styles and bytes (`generate_full_report`). Elements are an abstract datatype, and the export endpoint answers with the file name.
- ApiServer.ExportPdfFileName: does not model the 500 "Failed to generate PDF" answer, because report generation is not modelled.
- FastAPI routing, CORS, the stderr filter, the start-up hook and the health endpoints are not modelled.
- The interactive CLI and the demo scripts are not modelled.
- Floating point is not modelled: thresholds and the composite are exact reals. `round(composite, 1)`, the parsing of thresholds from the environment and all `{:.1f}` formatting are not modelled.
- Unicode is not modelled: `\w`, `\s`, `str.title()`, `isupper()` and case-insensitive matching are ASCII approximations.
- Orchestration.HiringFramework.GenerateFinalVerdict: uses the corrected composite, so where a stored Level 1 or Level 2 score is None it appends a verdict instead of raising TypeError (see Findings).
- FinalVerdict.GenerateFinalVerdict: uses the corrected composite, so a None Level 1 or Level 2 score counts as 0 instead of raising TypeError (see Findings).
- ApiServer.GenerateVerdict: uses the corrected composite, so where a stored Level 1 or Level 2 score is None it answers with a verdict instead of the 500 the TypeError causes (see Findings).
- Orchestration.HiringFramework.GetEvaluationReport: returns the list of Level 1 records it would print, or the KeyError the source raises, rather than the formatted report text.
- The console summaries (`get_evaluation_summary`, the verdict display) are not modelled (formatting only).
- The workflow helpers that chain steps for the CLI (`complete_step_1_workflow` and the others) are not modelled: they only call the modelled methods in sequence.
- `int()` of a very long digit run is unbounded here; no digit-count limit is modelled.
- PdfGenerator.ConvertInlineMarkdown: its lemmas characterise empty text, text with no markdown punctuation, and a single bold, bold-italic or link span around plain text; mixed, nested and overlapping spans are defined by the substitution chain but have no lemma of their own.
- FinalVerdict.Level3Result: a Level 3 key holding an explicit None is not distinguished from a missing key. The framework never stores a Level 3 record.

## Findings

| source | as written | input that shows it | evidently intended | confidence | as-written member | corrected member |
|---|---|---|---|---|---|---|
| agents/final_verdict.py:217-273 | `level_1_result.get('score', 0)` yields None when the record holds `score: None`, and `None * 0.5` raises TypeError | a Level 1 reply with no "d/10" in it (e.g. ""), followed by any Level 2 record and a verdict request | a missing score counts as 0, as the `.get(..., 0)` default shows | not executed | `FinalVerdict.CompositeAsWritten`, `FinalVerdict.CompositeAsWrittenFailsWithoutScore` | `FinalVerdict.Composite` (with `CompositeInRange`, `CompositeBetween`), used by `FinalVerdict.GenerateFinalVerdict`, `Orchestration.HiringFramework.GenerateFinalVerdict` and `ApiServer.GenerateVerdict` |
