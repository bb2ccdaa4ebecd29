# StudyBuddy self-quiz: a verified Dafny model

This project models the logic of a self-quiz application that exists in two
versions in one repository:

- **The Next.js version.** The user uploads a plain-text question file. The
  configuration form validates the settings and stores them in a
  partial-merge configuration store. The file is cut into blank-line-separated
  blocks, and a per-line state machine parses each block into a question. A
  timed test session then runs: select, submit, an explanation checkpoint
  after a wrong answer, a one-second countdown and a round-half-up score. A
  review cycles through the missed questions every fifteen seconds for thirty
  minutes.
- **The Vite version.** A positional parser reads 1-based numeric answers.
  The test page has a skip queue. It also computes a floor-rounded score
  percentage and passes it to the timer bar, which ignores it. The review is
  linear, with thirty seconds per question and a thirty-minute budget. The
  root component holds the screen flow (login, configure, test, summary,
  review) and builds the list of missed questions. The result summary rounds
  the score and decides pass or fail.

Each React component is a `class`:
- its `useState` cells are fields;
- its handlers and interval callbacks are methods;
- each method's `ensures` ties the new state to a pure transition function on
  a state record.

The properties the source promises are proved as lemmas about those functions.
Loops in the source are `while` loops proved against recursive specification
functions:
- the block loop, the line loop and the explanation loop of the parser;
- the tally in the Next.js session;
- the missed-question list in the root component.

JavaScript built-ins have their own definitions in `Text` and `JsMath`:
- `trim`, `split`, regular-expression block splitting, `parseInt`, `String(n)`;
- `padStart`, `Math.round`, `Math.floor`, `%` and `slice`.

| file | module | models |
|---|---|---|
| `text.dfy` | `Text` | string built-ins the core calls |
| `js_math.dfy` | `JsMath` | `Math.round`, `Math.floor`, `%`, `Math.min`, `slice` ends |
| `question_parser.dfy` | `QuestionParser` | `src/lib/questionParser.ts` |
| `question_parser_lemmas.dfy` | `QuestionParserLemmas` | reference definitions of the parser's behaviour, proved equal to it |
| `test_config_store.dfy` | `TestConfigStore` | `src/store/testConfigStore.ts` |
| `configure_form.dfy` | `ConfigureForm` | `src/components/ConfigureTest.tsx` |
| `test_session.dfy` | `TestSession` | `src/components/TestInterface.tsx` |
| `timer_bar.dfy` | `TimerBar` | `src/components/TimerBar.tsx` |
| `pages_configure.dfy` | `PagesConfigure` | `src/pages/ConfigureTest.tsx` |
| `pages_test.dfy` | `PagesTest` | `src/pages/TestInterface.tsx`, the click contract of `src/components/QuestionCard.tsx` |
| `pages_review.dfy` | `PagesReview` | `src/pages/ReviewMode.tsx` |
| `result_summary.dfy` | `ResultSummary` | `src/pages/ResultSummary.tsx` |
| `app.dfy` | `App` | `src/App.tsx` |

The two versions are kept apart and their differences are stated, not
reconciled:
- The Next.js parser keeps the last `Answer:` line; the Vite parser takes the
  first line starting with `Answer:`.
- One review cycles and the other is linear.
- The Next.js session and the result summary round the score. The Vite test
  page floors a percentage that the timer bar never shows.
- Unanswered questions count as neither correct nor incorrect in the Next.js
  session. In `App.tsx` they count as incorrect.

Where the source is wrong the model keeps both halves (see "## Findings"):
- the code as written, with a lemma that exhibits the fault;
- the corrected behaviour, which the rest of the model uses.

## Model

| member | source | states |
|---|---|---|
| Text.Trim | src/lib/questionParser.ts:24 | `trim()` result is no longer than the input and has no white space at either end |
| Text.TrimSlice | src/lib/questionParser.ts:40 | the trim is a slice of the input with only white space removed on either side |
| Text.TrimEmptyIffAllSpace | src/lib/questionParser.ts:21 | a block or line is dropped as blank exactly when it is all white space |
| Text.TrimTrimmed | src/lib/questionParser.ts:65 | trimming an already trimmed text changes nothing |
| Text.TrimAfterTrimStart | src/pages/ConfigureTest.tsx:40 | removing the marker's trailing white space and then trimming equals trimming |
| Text.Split | src/lib/questionParser.ts:27 | `split` on one character yields at least one piece and no piece contains the separator |
| Text.JoinSplit | src/lib/questionParser.ts:27 | joining the pieces of a split with the separator restores the text |
| Text.SplitJoin | src/lib/questionParser.ts:81 | splitting a join of separator-free pieces gives the pieces back |
| Text.SplitPrefix | src/pages/ConfigureTest.tsx:42 | splitting at the first separator gives the text before it, then the split of the rest |
| Text.SplitHasSecond | src/pages/ConfigureTest.tsx:42 | a text that contains ':' has a second piece, so `split(":")[1]` is defined |
| Text.SplitNoSeparator | src/pages/ConfigureTest.tsx:42 | a text without the separator splits into itself alone |
| Text.JoinEnds | src/lib/questionParser.ts:81 | a join begins with the first piece's first character and ends with the last piece's last character |
| Text.NormalizeNewlines | src/lib/questionParser.ts:21 | CRLF normalisation never lengthens the text and leaves a text without CR, or without LF, unchanged |
| Text.NormalizeAppend | src/lib/questionParser.ts:21 | a text cut anywhere but inside a CR LF pair normalises part by part |
| Text.NormalizeCRLF | src/lib/questionParser.ts:21 | each CR LF becomes one LF, and the text on either side is normalised on its own |
| Text.SplitBlocksNoBlankLine | src/lib/questionParser.ts:21 | the blank-line split cuts at every blank line, so no block holds a blank line |
| Text.SplitBlocksJoin | src/lib/questionParser.ts:21 | the split gives one block more than separators; each separator is a newline, white space and a newline; the blocks glued back in order with the separators give the text |
| Text.NatToString | src/components/TimerBar.tsx:12 | `String(n)` of a natural number is a non-empty run of digits without a leading zero |
| Text.NatToStringValue | src/components/TimerBar.tsx:12 | the digits written for `n` have the decimal value `n` |
| Text.IntToString | src/pages/ReviewMode.tsx:64 | `String(n)` starts with '-' exactly for negative `n` |
| Text.ParseIntDigits | src/pages/ConfigureTest.tsx:42 | `parseInt` reads a run of digits as its decimal value |
| Text.ParseIntNatToString | src/pages/ConfigureTest.tsx:42 | `parseInt(String(n))` is `n`: a written answer number reads back |
| Text.ParseIntPadStart2 | src/components/TimerBar.tsx:12 | a two-digit zero-padded number below 100 reads back as itself |
| Text.DecimalValueLeadingZero | src/components/TimerBar.tsx:12 | the zero added by `padStart` does not change the value |
| Text.PadStart2 | src/components/TimerBar.tsx:12 | `padStart(2, "0")` gives at least two characters, the original text at the end, zeros before it |
| Text.TakeLine | src/lib/questionParser.ts:44 | the regular expression `.*` matches a prefix of the text |
| Text.TakeLineStops | src/lib/questionParser.ts:44 | `.*` stops exactly at the first line terminator or at the end |
| Text.DigitPrefix | src/pages/ConfigureTest.tsx:42 | the digits `parseInt` reads are a prefix of its argument |
| Text.DigitPrefixLongest | src/pages/ConfigureTest.tsx:42 | that prefix is all digits and is followed by a non-digit or the end |
| Text.LowerAscii | src/lib/questionParser.ts:45-46 | the case-folded text has the same length and each character is the ASCII small letter of the original |
| Text.StartsWithIgnoreCaseIff | src/lib/questionParser.ts:45-46 | a label matches under the `i` flag exactly when each text character, lowered, is the label's character |
| Text.StartsWithIgnoreCaseLowered | src/lib/questionParser.ts:45-46 | a text and its lowered form match the same labels, so capitals do not matter |
| JsMath.RoundDiv | src/pages/ResultSummary.tsx:11 | `Math.round(num/den)`: the nearest integer, a half rounded up |
| JsMath.RoundPercentBounds | src/components/TestInterface.tsx:145-148 | a rounded percentage of a part of a whole lies in [0, 100]; it is 0 for no part and 100 for all |
| JsMath.RoundReal | src/components/TimerBar.tsx:18 | `Math.round(x)` is the integer within a half below and under a half above `x` |
| JsMath.FloorDiv | src/pages/TestInterface.tsx:66 | `Math.floor(num/den)` is the largest integer whose multiple of `den` does not exceed `num` |
| JsMath.JsRem | src/pages/ReviewMode.tsx:63 | JavaScript `%` truncates: the remainder has the sign of the dividend and is smaller than the divisor |
| JsMath.Min | src/pages/ConfigureTest.tsx:57 | `Math.min` is one of its arguments and no greater than either |
| JsMath.SliceEnd | src/components/ConfigureTest.tsx:136 | the end index `slice(0, end)` uses, clamped to the length, with negative ends counted from the back |
| QuestionParser.OptionMap.Get | src/lib/questionParser.ts:84 | `Map.get` finds a text exactly for a stored key |
| QuestionParser.OptionMap.Set | src/lib/questionParser.ts:67 | `Map.set` stores the text; a new key goes last, an existing key keeps its position, other keys are unchanged |
| QuestionParser.OptionMap.Values | src/lib/questionParser.ts:83 | `Array.from(map.values())` has one text per key, in key-insertion order |
| QuestionParser.SetKeepsPosition | src/lib/questionParser.ts:62-70 | overwriting a repeated key replaces its text where it stands and keeps the order of the option list |
| QuestionParser.FindDistinct | src/lib/questionParser.ts:31 | among distinct map keys a key is found at its one position |
| QuestionParser.AnswerMatch | src/lib/questionParser.ts:45 | `/^Answer:\s*(\d+)$/i` captures a non-empty run of digits |
| QuestionParser.AnswerMatchIff | src/lib/questionParser.ts:45 | the answer matcher accepts a line and captures `d` exactly when the line is `answer:` in any case, white space, then the digits `d` to the end |
| QuestionParser.OptionMatch | src/lib/questionParser.ts:64-65 | `/^(\d+)\)\s*(.*)/` captures a non-empty key and a trimmed text |
| QuestionParser.OptionMatchIff | src/lib/questionParser.ts:44-65 | the option matcher accepts a line exactly when it starts with digits and `)`; the key is all those digits and the text is the trimmed rest of the line after white space |
| QuestionParser.KindOf | src/lib/questionParser.ts:44-78 | the classifier gives option lines a trimmed text |
| QuestionParser.KindOfIff | src/lib/questionParser.ts:40-78 | a line is blank iff all white space; an explanation line iff it starts with `explanation:` in any case; otherwise an answer line iff it has the answer pattern, then an option line iff it has the option pattern; any other line is other text |
| QuestionParser.StepKeepsTexts | src/lib/questionParser.ts:62-70 | a step of the line loop keeps every stored option text non-empty and trimmed |
| QuestionParser.ScanFrom | src/lib/questionParser.ts:38-79 | the scan of the remaining lines keeps the option map valid and its texts non-empty |
| QuestionParser.ParseBlock | src/lib/questionParser.ts:24-104 | the per-block callback returns the question and diagnostics that the block's specification defines |
| QuestionParser.Diagnose | src/lib/questionParser.ts:86-90 | the validation pushes produce the diagnostics of the scan, in the source's order |
| QuestionParser.ScanLines | src/lib/questionParser.ts:38-79 | the line loop with its mutable state ends in the specification's scan of the block |
| QuestionParser.AppendLines | src/lib/questionParser.ts:55-57 | the inner loop appends every raw line after the `Explanation:` line |
| QuestionParser.NonBlankBlocks | src/lib/questionParser.ts:21 | the filter keeps exactly the blocks that are not blank, never more blocks than given |
| QuestionParser.NonBlankBlocksAppend | src/lib/questionParser.ts:21 | the filter distributes over concatenation, so it keeps order and multiplicity |
| QuestionParser.NonBlankBlocksOne | src/lib/questionParser.ts:21 | a single block is kept iff it is not blank |
| QuestionParser.BlockResults | src/lib/questionParser.ts:23-111 | one result per block |
| QuestionParser.Present | src/lib/questionParser.ts:98 | the collected questions are never more than the blocks |
| QuestionParser.ReportOf | src/lib/questionParser.ts:113-117 | the final log is "no valid questions" exactly when blocks existed and none parsed, and a count exactly when some parsed |
| QuestionParser.ParseQuestionsFromFileContent | src/lib/questionParser.ts:19-120 | the block loop returns the questions of the file's blocks in block order and the matching final log |
| QuestionParserLemmas.AnswerKeyIsLast | src/lib/questionParser.ts:59-61 | the answer key is the key of the last `Answer:` line before `Explanation:` |
| QuestionParserLemmas.QuestionLinesAreLeading | src/lib/questionParser.ts:71-78 | the question lines are the raw other lines before any option or answer line; later ones are ignored |
| QuestionParserLemmas.ExplanationTailIff | src/lib/questionParser.ts:48 | the explanation tail exists exactly when some line is an `Explanation:` line |
| QuestionParserLemmas.ExplanationIsTail | src/lib/questionParser.ts:48-58 | the explanation is absent (null) exactly without an `Explanation:` line; otherwise it is the label remainder and every following raw line, joined and trimmed |
| QuestionParserLemmas.BuildGet | src/lib/questionParser.ts:62-70 | a repeated key holds the text of its last non-empty option line |
| QuestionParserLemmas.BuildKeys | src/lib/questionParser.ts:62-70 | option keys come in the order of their first occurrence |
| QuestionParserLemmas.OptionsOfBlock | src/lib/questionParser.ts:62-70 | the block's options are its non-empty option lines: keys in first-occurrence order, each with its last text; an empty option never deletes a value |
| QuestionParserLemmas.ErrorsMeaning | src/lib/questionParser.ts:86-92 | each diagnostic is pushed exactly when its condition holds, and there are none exactly when all conditions pass |
| QuestionParserLemmas.BlockQuestionIff | src/lib/questionParser.ts:86-104 | a block yields a question exactly when it is not blank and has no diagnostic: question text, two option keys, an answer line, an answer key among the options |
| QuestionParserLemmas.BlockQuestionWellFormed | src/lib/questionParser.ts:81-104 | a returned question has non-empty trimmed text, at least two options, and a correct answer equal to the option under the answer key |
| QuestionParserLemmas.PresentMembers | src/lib/questionParser.ts:92-98 | a question is returned exactly when some block yields it |
| QuestionParserLemmas.PresentIdsRise | src/lib/questionParser.ts:98-99 | the returned questions follow block order |
| QuestionParserLemmas.ParseBlocksMembers | src/lib/questionParser.ts:92-104 | at most one question per block, so never more questions than blocks, and each comes from a block |
| QuestionParserLemmas.ParseBlocksWellFormed | src/lib/questionParser.ts:81-104 | every returned question is well formed and the output follows block order |
| QuestionParserLemmas.QuestionBlocksShape | src/lib/questionParser.ts:21 | the pieces of the CRLF-normalised text, glued back with the blank-line separators between them, give that text; the blocks kept are the non-blank pieces, none holding a blank line |
| TestConfigStore.Apply | src/store/testConfigStore.ts:27-28 | a spread key that is absent keeps the field, one present as `undefined` clears it, one with a value sets it |
| TestConfigStore.MergeOverwritesPresentKeys | src/store/testConfigStore.ts:27-28 | `setConfig` overwrites exactly the keys present in the partial, `undefined` included, and keeps the others |
| TestConfigStore.MergeNothing | src/store/testConfigStore.ts:27-28 | `setConfig({})` changes nothing |
| TestConfigStore.MergeIdempotent | src/store/testConfigStore.ts:27-28 | applying the same partial twice is applying it once |
| TestConfigStore.MergeTwice | src/store/testConfigStore.ts:27-28 | two `setConfig` calls equal one call with the second partial spread over the first |
| TestConfigStore.ConfigStore.constructor | src/store/testConfigStore.ts:17-26 | the store starts at 600 seconds, 10 questions, 70 percent |
| TestConfigStore.ConfigStore.SetConfig | src/store/testConfigStore.ts:27-28 | the stored configuration becomes the old one merged with the partial |
| ConfigureForm.PositiveIsAtLeastOne | src/components/ConfigureTest.tsx:23-24 | on whole numbers the schema's `positive()` and `min(1)` accept the same values |
| ConfigureForm.DefaultsOf | src/components/ConfigureTest.tsx:88-91 | the form defaults are never 0: a falsy stored value falls back to 10 minutes, 10 questions or 70 percent |
| ConfigureForm.InitialDefaults | src/components/ConfigureTest.tsx:88-91 | the initial store shows 10 minutes, 10 questions and 70 percent |
| ConfigureForm.FileProblemOf | src/components/ConfigureTest.tsx:97-115 | a file passes exactly when there is one, of type `text/plain`, at most 5 MiB; each rejection matches its guard in order |
| ConfigureForm.OutcomeStarted | src/components/ConfigureTest.tsx:96-153 | the test starts exactly with an acceptable non-empty file that yields a question; it loads min(requested, parsed) questions, at least one, and shows the notice exactly when fewer were parsed than requested |
| ConfigureForm.DefaultsRoundTrip | src/components/ConfigureTest.tsx:146-150 | after a submission the defaults read back the minutes entered, the actual limit and the pass mark |
| ConfigureForm.OnSubmit | src/components/ConfigureTest.tsx:96-167 | the outcome is the guard sequence's; on success the question store holds the limited questions and the configuration gets seconds, the actual limit and the pass mark; zero questions clears the store; other failures change nothing |
| ConfigureForm.QuestionStore.constructor | src/store/questionStore.ts:18 | the question store starts empty |
| ConfigureForm.QuestionStore.SetQuestions | src/store/questionStore.ts:19 | `setQuestions` replaces the stored questions with the given ones |
| ConfigureForm.QuestionStore.ClearQuestions | src/store/questionStore.ts:20 | `clearQuestions` empties the store |
| TestSession.TallyBound | src/components/TestInterface.tsx:126-142 | correct + incorrect never exceeds the question count, and equals it exactly when every question has a record |
| TestSession.IncorrectMembers | src/components/TestInterface.tsx:126-142 | the incorrect list holds exactly the questions whose record says incorrect, each with the answer given |
| TestSession.ScorePercentage | src/components/TestInterface.tsx:145-148 | the score is round-half-up of 100·correct/total, lies in [0, 100], and is 0 for no questions |
| TestSession.InitialInv | src/components/TestInterface.tsx:31-40 | the session starts loading, in a state the invariant accepts |
| TestSession.SetupRuns | src/components/TestInterface.tsx:46-73 | the session runs exactly with a user, three non-zero settings and questions; the countdown then starts at the configured timer; otherwise it redirects |
| TestSession.FinishIdempotent | src/components/TestInterface.tsx:152-165 | `finishTest` acts only on a running test, sets finished with `passed` iff score ≥ pass mark, and a second call changes nothing |
| TestSession.SubmitEffect | src/components/TestInterface.tsx:196-219 | submit needs a selection, a question and a running test; it records the answer with status correct iff it equals the correct text, clears the selection, advances or finishes on a correct answer, and opens the explanation on a wrong one |
| TestSession.ControlsEnabled | src/components/TestInterface.tsx:395-427 | selection and submit are disabled while the explanation is open; an enabled submit always acts |
| TestSession.NextEffect | src/components/TestInterface.tsx:221-228 | "next" closes the explanation and advances, or finishes on the last question; the index stays on a question |
| TestSession.TickEffect | src/components/TestInterface.tsx:169-188 | a tick while running takes a second off; reaching zero sets 0 and finishes, even with the explanation open |
| TestSession.StartReviewEffect | src/components/TestInterface.tsx:230-241 | review starts at the first missed question exactly when there is one; otherwise the session leaves for configuration |
| TestSession.ReviewTickEffect | src/components/TestInterface.tsx:244-263 | before thirty minutes each tick moves to the next missed question modulo their number; afterwards the review finishes and leaves |
| TestSession.TestInterface.constructor | src/components/TestInterface.tsx:31-40 | the component mounts in the initial state |
| TestSession.TestInterface.SetUp | src/components/TestInterface.tsx:46-73 | the set-up effect performs the set-up transition |
| TestSession.TestInterface.CountAnswers | src/components/TestInterface.tsx:126-142 | the tally loop returns the correct count and the incorrect list that the specification defines |
| TestSession.TestInterface.FinishTest | src/components/TestInterface.tsx:152-165 | performs the finish transition |
| TestSession.TestInterface.HandleAnswerSelect | src/components/TestInterface.tsx:192-194 | sets the selection |
| TestSession.TestInterface.HandleSubmitAnswer | src/components/TestInterface.tsx:196-219 | performs the submit transition |
| TestSession.TestInterface.HandleNextQuestion | src/components/TestInterface.tsx:221-228 | performs the next-question transition |
| TestSession.TestInterface.TimerTick | src/components/TestInterface.tsx:169-188 | performs one countdown tick |
| TestSession.TestInterface.StartReviewAt | src/components/TestInterface.tsx:230-241 | performs the start of review at the given time |
| TestSession.TestInterface.ReviewTickAt | src/components/TestInterface.tsx:244-263 | performs one review tick at the given time |
| TimerBar.Percentage | src/components/TimerBar.tsx:10 | the bar percentage is clamped to [0, 100]; it is NaN only for 0/0 |
| TimerBar.PercentageInBudget | src/components/TimerBar.tsx:10 | within the budget the bar is exactly the share of time left, 100 at the start, 0 at the end, and it never grows as time runs down |
| TimerBar.Label | src/components/TimerBar.tsx:18 | the label is `Math.round` of the percentage: within half a unit of it, halves rounded up, within [0, 100], and absent (NaN) exactly when the percentage is |
| TimerBar.TimeParts | src/components/TimerBar.tsx:11-17 | 60·minutes + seconds = time left, the seconds field is two characters, and it reads back as the seconds |
| PagesConfigure.NonBlank | src/pages/ConfigureTest.tsx:36 | the filter keeps only non-blank lines of the input, never more lines than given |
| PagesConfigure.NonBlankAppend | src/pages/ConfigureTest.tsx:36 | the filter distributes over concatenation, so it keeps order and multiplicity |
| PagesConfigure.NonBlankOne | src/pages/ConfigureTest.tsx:36 | a single line is kept iff it is not blank |
| PagesConfigure.NonBlankMembers | src/pages/ConfigureTest.tsx:36 | a line is kept exactly when it is in the input and not blank |
| PagesConfigure.NonBlankKeeps | src/pages/ConfigureTest.tsx:36 | lines without blanks pass the filter unchanged |
| PagesConfigure.BlockLines | src/pages/ConfigureTest.tsx:36 | a block's lines are non-blank and contain no newline |
| PagesConfigure.OptionTextMarker | src/pages/ConfigureTest.tsx:40 | a leading `[0-9A-Da-d])` and the white space after it are removed before the trim; a line without a marker is only trimmed |
| PagesConfigure.OptionTexts | src/pages/ConfigureTest.tsx:40 | one option text per line given |
| PagesConfigure.FirstStartingWith | src/pages/ConfigureTest.tsx:41-44 | `find` stops at the first line that starts with the label, or reports none |
| PagesConfigure.LabelHasColon | src/pages/ConfigureTest.tsx:42-45 | a line found by its label contains ':' |
| PagesConfigure.SecondFieldOf | src/pages/ConfigureTest.tsx:42-45 | `split(":")[1]` is the text between the first and the second ':' |
| PagesConfigure.ParseLinesIff | src/pages/ConfigureTest.tsx:36-47 | a block is kept exactly when it has six non-blank lines and an answer that `parseInt` reads as non-zero; the question is the first line, the options are lines 2 to 5, and without an explanation line the explanation is "Not available" |
| PagesConfigure.AnswerNumberRead | src/pages/ConfigureTest.tsx:41-43 | any answer number ≥ 1 is accepted, including one beyond the four options |
| PagesConfigure.AnswerLineField | src/pages/ConfigureTest.tsx:42 | the field of `Answer: <n>` is the digits of `n` |
| PagesConfigure.Kept | src/pages/ConfigureTest.tsx:48 | `filter(Boolean)` never yields more questions than results |
| PagesConfigure.KeptAppend | src/pages/ConfigureTest.tsx:48 | the filter keeps the input order |
| PagesConfigure.KeptMembers | src/pages/ConfigureTest.tsx:48 | a question is kept exactly when some block produced it |
| PagesConfigure.BlockResults | src/pages/ConfigureTest.tsx:35 | one result per block |
| PagesConfigure.ParseFileMembers | src/pages/ConfigureTest.tsx:34-48 | the file yields at most one question per block, exactly the questions its blocks produce |
| PagesConfigure.FormatParse | src/pages/ConfigureTest.tsx:34-47 | a question written in the file format (question, `A)` to `D)`, `Answer: n`, `Explanation: e`) reads back as itself |
| PagesConfigure.FormatLinesShape | src/pages/ConfigureTest.tsx:36-37 | the written block has seven non-blank lines |
| PagesConfigure.FormatAnswer | src/pages/ConfigureTest.tsx:41-42 | the answer line is the sixth line and reads back as the answer number |
| PagesConfigure.FormatOptions | src/pages/ConfigureTest.tsx:40 | the four option lines read back as the options |
| PagesConfigure.FormatExplanation | src/pages/ConfigureTest.tsx:44-45 | the explanation line reads back as the explanation |
| PagesConfigure.Selected | src/pages/ConfigureTest.tsx:57 | the selection is the first min(maxQuestions, count) questions of the shuffled order: a sub-multiset and a prefix |
| PagesConfigure.StartAsWrittenSelects | src/pages/ConfigureTest.tsx:54-58 | as written, a loaded set with a limit below 1 still starts a test; the selection is empty exactly for 0 and for limits at or below minus the count, and a negative limit drops that many questions from the end |
| PagesConfigure.StartSelection | src/pages/ConfigureTest.tsx:54-58 | the corrected start goes ahead exactly with questions loaded and a limit of at least 1, and then hands over between 1 and maxQuestions loaded questions, min(maxQuestions, count) of them |
| PagesConfigure.ConfigurePage.constructor | src/pages/ConfigureTest.tsx:22-26 | the page starts at 10 minutes, 10 questions, 70 percent, no file |
| PagesConfigure.ConfigurePage.SetTimer | src/pages/ConfigureTest.tsx:75 | sets the timer only |
| PagesConfigure.ConfigurePage.SetMaxQuestions | src/pages/ConfigureTest.tsx:84 | sets the question limit only |
| PagesConfigure.ConfigurePage.SetPassing | src/pages/ConfigureTest.tsx:93 | sets the pass mark only |
| PagesConfigure.ConfigurePage.HandleFileUpload | src/pages/ConfigureTest.tsx:28-52 | no file changes nothing; otherwise the file name is kept, the questions become the file's parse, and the alert reports their number |
| PagesConfigure.ConfigurePage.HandleStart | src/pages/ConfigureTest.tsx:54-59 | corrected: an empty set or a limit below 1 is refused and nothing changes; otherwise the questions are reordered in place and the selection and the three settings are handed over |
| PagesTest.MatchesBound | src/pages/TestInterface.tsx:53-55 | the score never exceeds the question count, and reaches it exactly when every answer is right |
| PagesTest.NoMatches | src/pages/TestInterface.tsx:53-55 | the score is 0 exactly when no answer is right |
| PagesTest.FlooredPercentage | src/pages/TestInterface.tsx:66 | the percentage handed to TimerBar, which declares no such prop and never shows it, is the score rounded down, within [0, 100] |
| PagesTest.ScorePercentBounds | src/pages/TestInterface.tsx:66 | a floored percentage of a part of a whole lies in [0, 100] |
| PagesTest.InitialInv | src/pages/TestInterface.tsx:8-12 | the page starts on the first question with the timer's minutes in seconds and an empty queue |
| PagesTest.SubmitEffect | src/pages/TestInterface.tsx:28-38 | submit advances before the last question; on the last one it jumps to the first skipped question once and removes it; otherwise it finishes with the answers |
| PagesTest.JumpAtMostOnce | src/pages/TestInterface.tsx:29-34 | once the skipped questions are revisited, nothing resets that, and submit proceeds linearly or finishes |
| PagesTest.SkipEffect | src/pages/TestInterface.tsx:40-45 | skip queues the current question unless it is queued, so the queue has no duplicates, then submits |
| PagesTest.AnswerRevises | src/pages/TestInterface.tsx:47-49 | answering overwrites the current answer, enables submit, and leaves other answers alone |
| PagesTest.TickEffect | src/pages/TestInterface.tsx:14-26 | each tick takes a second off; at one second or less the time becomes 0 and the page finishes with the answers given (corrected) |
| PagesTest.TimeoutAsWrittenLosesAnswers | src/pages/TestInterface.tsx:14-26 | as written, a timeout hands over no answers, so a right answer scores nothing (finding) |
| PagesTest.FirstMatchCounts | src/pages/TestInterface.tsx:53-55 | a right first answer scores at least one |
| PagesTest.ChosenAnswer | src/components/QuestionCard.tsx:24 | a click on an option stands for its 1-based option number, which is at least 1 (corrected) |
| PagesTest.CorrectClicksScoreNothingAsWritten | src/components/QuestionCard.tsx:24 | as written, clicking the correct option of every question scores 0 (finding) |
| PagesTest.CorrectClicksScoreAll | src/pages/TestInterface.tsx:47-55 | with 1-based answers, clicking the correct option of every question scores every question (corrected) |
| PagesTest.ClearedLimitCrashesAsWritten | src/pages/TestInterface.tsx:68-70 | as written, a cleared Max Questions field starts the page on no questions, which it cannot render |
| PagesTest.StartRenderable | src/pages/TestInterface.tsx:68-70 | whatever the corrected start hands over has a first question to render |
| PagesTest.TestPage.constructor | src/pages/TestInterface.tsx:7-12 | the page mounts in the initial state, on a set with a first question to render, as the corrected start guarantees |
| PagesTest.TestPage.HandleSubmit | src/pages/TestInterface.tsx:28-38 | performs the submit transition |
| PagesTest.TestPage.HandleSkip | src/pages/TestInterface.tsx:40-45 | performs the skip transition |
| PagesTest.TestPage.HandleAnswer | src/pages/TestInterface.tsx:47-49 | performs the answer transition |
| PagesTest.TestPage.SelectOption | src/components/QuestionCard.tsx:24 | a click on an option stores its 1-based number as the answer |
| PagesTest.TestPage.TimerTick | src/pages/TestInterface.tsx:14-26 | performs one countdown tick |
| PagesReview.InitialInv | src/pages/ReviewMode.tsx:19-21 | the review starts at the first missed question, with 1800 s overall and 30 s for the question |
| PagesReview.NextLinear | src/pages/ReviewMode.tsx:50-57 | `nextQuestion` moves to the next question and restarts its 30 s, or finishes on the last; there is no wrap-around |
| PagesReview.TransitionsKeepIndex | src/pages/ReviewMode.tsx:23-48 | the ticks and "End Review Early" keep the index on a missed question and never move it back |
| PagesReview.FinishedStays | src/pages/ReviewMode.tsx:23-35 | after the finish, further ticks change nothing |
| PagesReview.BudgetEnds | src/pages/ReviewMode.tsx:23-33 | with `t` seconds left, `t` ticks finish the review |
| PagesReview.QuestionTimeEnds | src/pages/ReviewMode.tsx:37-46 | with `t` seconds on the question, the `t`-th tick moves to the next question with 30 s, or finishes |
| PagesReview.OptionShown | src/pages/ReviewMode.tsx:84-91 | options are shown 1-based; a number outside 1..length shows nothing |
| PagesReview.ChosenOptionShown | src/pages/ReviewMode.tsx:84 | the chosen answer shows the clicked option; the missing answer -1 shows nothing |
| PagesReview.FormatTimeReads | src/pages/ReviewMode.tsx:61-65 | `formatTime` writes minutes, ':' and two-digit seconds that read back as the time |
| PagesReview.ReadTimeOf | src/pages/ReviewMode.tsx:64 | minutes and seconds around ':' split there and read back |
| PagesReview.SecondsDigits | src/pages/ReviewMode.tsx:64 | the seconds field is two digits |
| PagesReview.ReviewPage.constructor | src/pages/ReviewMode.tsx:18-21 | the review needs a missed question and starts in the initial state |
| PagesReview.ReviewPage.NextQuestion | src/pages/ReviewMode.tsx:50-57 | performs `nextQuestion` |
| PagesReview.ReviewPage.OverallTickNow | src/pages/ReviewMode.tsx:23-35 | performs one tick of the overall budget |
| PagesReview.ReviewPage.QuestionTickNow | src/pages/ReviewMode.tsx:37-48 | performs one tick of the question's countdown |
| PagesReview.ReviewPage.EndReviewEarly | src/pages/ReviewMode.tsx:107-112 | finishes at once |
| PagesReview.ReviewPage.Current | src/pages/ReviewMode.tsx:59 | the question on screen is the missed question at the index |
| ResultSummary.Score | src/pages/ResultSummary.tsx:11 | round-half-up of 100·correct/total, within [0, 100] when 0 ≤ correct ≤ total |
| ResultSummary.ScoreMonotone | src/pages/ResultSummary.tsx:11 | no correct answer scores 0, all of them 100, and more correct answers never score less |
| ResultSummary.PassedMonotone | src/pages/ResultSummary.tsx:12 | whoever passes with some correct answers passes with more |
| ResultSummary.MessageOf | src/pages/ResultSummary.tsx:34-40 | the passed message shows exactly when the test is passed |
| ResultSummary.ActionsRegardless | src/pages/ResultSummary.tsx:42-55 | review and "Configure New Test" are offered whether passed or not |
| App.IncorrectListMembers | src/App.tsx:40-52 | the missed list holds exactly the questions with no answer, the answer 0 or a wrong answer, each with `userAns ?? -1` |
| App.IncorrectListBound | src/App.tsx:40-52 | the missed list has at most one entry per question, so it is never longer than the test |
| App.UnansweredIsIncorrect | src/App.tsx:45-50 | an unanswered question is in the missed list with the answer -1 |
| App.CorrectIsTestScore | src/App.tsx:60-61 | with non-zero answer numbers, total − missed equals the test page's score |
| App.SummaryTotals | src/App.tsx:60-62 | correct + incorrect = total, correct ≥ 0 equals the test page's score, and the summary score lies in [0, 100] |
| App.ScreenFlow | src/App.tsx:17-93 | login → configure → test → summary → (review or configure); review returns to configure; review is reached only from the summary with a missed question |
| App.ReviewWithNothingMissedAsWritten | src/App.tsx:75 | as written, review with nothing missed opens a screen with no first question (finding) |
| App.AppState.constructor | src/App.tsx:17-24 | the app starts at login with empty fields and 10 minutes, 10 questions, 70 percent |
| App.AppState.SetRollNumber | src/App.tsx:18 | sets the roll number only |
| App.AppState.SetName | src/App.tsx:19 | sets the name only |
| App.AppState.HandleLogin | src/App.tsx:26-30 | alerts exactly when a field is empty; otherwise moves to configure |
| App.AppState.StartTest | src/App.tsx:32-38 | stores the questions and settings, clears the answers and the missed list, moves to the test; the test screen always has a question, as the corrected start guarantees |
| App.AppState.EndTest | src/App.tsx:40-56 | the loop stores the answers and builds the specified missed list, then moves to the summary |
| App.AppState.HandleRetry | src/App.tsx:58-76 | moves to configure and changes nothing else |
| App.AppState.HandleReview | src/App.tsx:75 | moves to review when a question was missed and to configure otherwise (corrected) |

## Left out

- Audio: the Tone.js synth and its loop are a foreign library with side effects only.
- Rendering: JSX and modal visuals are left out. Toasts and `router.push` become a `Route` value or a screen.
- File reading: `FileReader` and `file.text()` are left out. The text content is a parameter; `None` stands for a failed read.
- Shuffle: `sort(() => 0.5 - Math.random())` is not modelled as a random order. The Vite `handleStart` takes the resulting order as a parameter that must be a permutation. The Next.js `onSubmit` keeps the parsed order.
- Question ids: `uuidv4()` values are not modelled. Block `i` gets the id `firstId + i`, which is only as unique as the ids must be.
- Wall-clock time: `Date.now()` in the review loop becomes an explicit `nowMs` parameter of the review start and tick.
- Console output: the parser's warnings and errors are not modelled beyond the per-block diagnostics and the final report.
- Persistence: zustand `persist`/`sessionStorage` is not modelled. `userStore` and `questionStore` are plain setters (the user store is not part of this model); the question store is a two-method class.
- Auth form: `src/components/Auth.tsx` is not part of this model.
- Parse exceptions: the modelled parser is total. The `catch` branches of the Next.js parser and of `onSubmit` never fire in the model.
- Interval cancelling: a review tick after the review has finished is a no-op, because the source unmounts the screen then.
- TestSession.FinishIdempotent: `finishTest` scores with the answers after the final submission. As written, line 158 reads `correctAnswersCount` before React commits the last `setAnswers`, so a last correct answer may not be counted. The model states the intended synchronous behaviour.
- TestSession.ScorePercentage: rounds the exact rational 100·correct/total. JavaScript multiplies floating-point numbers, so a product can fall just under .5 (29 of 200 shows 14, not 15).
- ResultSummary.Score: rounds the exact rational, as above. It also requires a positive total, because a total of 0 gives NaN and `passed` is then false; with the corrected start no test on no questions is started. As written, such a test throws on the test page before any summary (see "## Findings").
- PagesTest.FlooredPercentage: floors the exact rational; the floating-point product can differ in the same way.
- TimerBar.Percentage: computed on exact reals, not on floating-point numbers.
- PagesTest.SkipEffect: `handleSkip` is modelled synchronously: the index is queued, and then `handleSubmit` runs on the queue that includes it. As written, `handleSubmit` reads the queue from before the `setSkipped` commits. A user sees the difference only on the last question. With an empty queue, Skip there finishes the test at once, where the model shows that question again. With a non-empty queue, `setSkipped(skipped.slice(1))` replaces the pending append, so the skipped last question never comes back.
- PagesConfigure.ConfigurePage.SetTimer: `+e.target.value` may be NaN or fractional in the source; the model takes integers. The same holds for SetMaxQuestions and SetPassing.
- ConfigureForm.FileProblemOf: `instanceof FileList` is modelled as the presence of a file list (`None` when it is not one).
- PagesReview.FormatTimeReads: stated for times ≥ 0 only. The budget stops at 0, so negative times never reach the display.

## Findings

| source | as written | input that shows it | evidently intended | confidence | as-written member | corrected member |
|---|---|---|---|---|---|---|
| src/components/QuestionCard.tsx:24 | `onSelect(index)` hands the 0-based option index to `handleAnswer` (src/pages/TestInterface.tsx:47-49), which stores it as the answer. The parser's answers are 1-based (src/pages/ConfigureTest.tsx:41-43). | One question with `Answer: 1`; the user clicks its first option: index 0 is stored, 0 ≠ 1, the score is 0, and `App.tsx` counts 0 as unanswered | store the 1-based option number `index + 1`, which the review screen's `options[userAnswer - 1]` also expects | not executed | PagesTest.CorrectClicksScoreNothingAsWritten | PagesTest.CorrectClicksScoreAll |
| src/pages/TestInterface.tsx:14-26 | the interval set up on mount calls `onFinish(userAnswers)` with the `userAnswers` of the first render, `{}` | Answer question 1 correctly and let the timer run out: `endTest` receives `{}` and every question counts as incorrect | finish with the answers given so far | not executed | PagesTest.TimeoutAsWrittenLosesAnswers | PagesTest.TickEffect |
| src/App.tsx:75 | `onReview` always switches to the review screen | Answer every question right and press "Start Review Session": `incorrectQuestions[0]` is undefined at src/pages/ReviewMode.tsx:59 and destructuring it throws | with nothing missed, go back to configuration, as the Next.js `startReview` does (src/components/TestInterface.tsx:230-241) | not executed | App.ReviewWithNothingMissedAsWritten | App.AppState.HandleReview |
| src/pages/ConfigureTest.tsx:57 | `handleStart` refuses only an empty question set. A Max Questions field cleared to 0 (`+""`) gives `slice(0, 0)`, an empty selection, and a negative value drops questions from the end. | Load a file, clear Max Questions and press Start: `TestInterface` gets `[]`, and `question.question` at src/pages/TestInterface.tsx:70 throws on `undefined` | also refuse a limit below 1, so the test always starts with at least one and at most `maxQuestions` questions | not executed | PagesTest.ClearedLimitCrashesAsWritten | PagesConfigure.ConfigurePage.HandleStart |
