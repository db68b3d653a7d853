# Quiz Whiz core, modelled in Dafny

Quiz Whiz is a Next.js quiz application. Questions come from Excel workbooks in the
`public` folder. This project models the app's decision-making core and proves its
properties:

- **The row parser of the loader** (`QuizLoader`). It turns the decoded cell grid of a
  sheet into questions, skipping the header, empty, short and bad-id rows, duplicate ids,
  blank questions and bad answers. Diagnostic counters record what was skipped.
- **The quiz-file list** (`QuizLoader.ListAvailableQuizFiles`). It keeps the spreadsheet
  names of the catalog and sorts them.
- **The quiz session** (`QuizArea`, a class). It holds the current question, one answer slot
  per question, and the Next/Submit gating.
- **The scorer** (`QuizResults`). It computes correct and wrong counts, the rounded
  percentage, and the per-question check marks.
- **The setup form's guards** (`QuizSetup`). The default count, the start guard chain and
  the disabled flags.
- **The page state machine** (`QuizPage.Home`, a class). It covers setup, active and results;
  loading the file list and the pool; sampling a quiz; and the retake and file-change resets.
- **The file-serving route** (`QuizFileRoute`). It validates the file name and looks up a
  directory entry, first match winning, when the exact name is absent.

Supporting modules:

- `Wrappers`: Option and Result.
- `JsText`: the JavaScript coercions the code relies on, namely `trim`, `endsWith`,
  `includes`, `parseInt` with and without a radix, `Number(string)` and `String(number)`.
- `JsSort`: the default `Array.prototype.sort` order on strings.
- `QuizData`: the `Question` record.

The loop in `loadQuizData` and the `forEach` of the scorer are methods with loops. Each is
proved equal to a fold, and the fold's lemmas carry the properties. The React components
whose handlers update state are classes. Every handler states the fields it changes and
keeps the rest.

JavaScript numbers are modelled as `real` plus a separate NaN. This keeps the following
quirks of the loader:

- a non-integral id such as 1.5 is accepted;
- a non-integral answer number such as 2.5 passes the range test but fails the
  correct-option test, because `options[1.5]` is `undefined`;
- `String(x || '')` maps every falsy cell to `''`.

Behaviour of the code that the model keeps as written:

- **Question ids.** Any positive number is accepted as an id, even 1.5, because the code
  tests only `isNaN(id) || id <= 0`.
- **Empty quiz.** Scoring an empty quiz computes `Math.round(0 / 0 * 100)`, which is NaN.
  `ScorePercentage` returns `None` for it. The page never shows the results of an empty quiz.
- **Starting with no questions.** `handleStartQuiz` on an empty pool sets an error and stays
  where it is.
- **Next-button gating.** The Next button is disabled on an unanswered question in every
  mode. `handleNextQuestion` itself is not gated.
- **Sampling.** The quiz is drawn by sorting with a random comparator, which is not a uniform
  shuffle. The model takes any permutation of the pool.
- **Mount order.** Both effects of the page run before the file listing resolves. The second
  finds no selection and no files and stops loading. Until the listing arrives, the page shows
  the "No Quiz Files Found" card instead of the spinner (`QuizPage.MountBeforeListing`).
- **Setup loading state.** Whenever the setup form's `isLoading` prop would be true, the page
  shows its full-page spinner instead, so the form never renders in its loading state.

## Model

| member | source | states |
|---|---|---|
| QuizLoader.LoadQuizData | src/lib/quiz-loader.ts:59-134 | The loop's result is the fold `Parse` of the rows. Every question is well formed and the ids are pairwise distinct. `totalRows` is the row count and `validQuestions` the number of questions. The seven per-row counters sum to the number of rows after the header. |
| QuizLoader.ProcessRow | src/lib/quiz-loader.ts:69-98 | One iteration of the loop body, through the empty, width and id tests, gives exactly the fold step on the row's checks. |
| QuizLoader.ProcessIdentifiedRow | src/lib/quiz-loader.ts:100-133 | The rest of the body gives the fold step for a row with a good id: the duplicate test, recording the id, the question-text test, the answer-range test, the correct-option test, then the push. |
| QuizLoader.CheckRow | src/lib/quiz-loader.ts:72-98 | A row is classified blank exactly when `isEmptyRow` holds, and short exactly when it is not blank and has fewer than 7 cells. A passing id is positive, and an accepted question carries that id and is well formed. |
| QuizLoader.BlankCellIsStringBlank | src/lib/quiz-loader.ts:156-160 | The blank-cell test equals `cell === null \|\| String(cell).trim() === ''` for every cell kind. |
| QuizLoader.EmptyRowIsStringBlank | src/lib/quiz-loader.ts:155-161 | A row is empty exactly when every cell is `null` or converts to a string that trims to nothing. |
| QuizLoader.ToNumber | src/lib/quiz-loader.ts:84 | `Number(cell)` of a blank cell is 0, so a blank id cell always fails the id test. |
| QuizLoader.CellText | src/lib/quiz-loader.ts:85-91 | `String(cell \|\| '')` is empty for every falsy cell (`null`, 0, `false`, `''`) and is `String(cell)` for every other cell. |
| QuizLoader.StartRowIndex | src/lib/quiz-loader.ts:66 | Row 0 is skipped exactly when its first cell is text that is not blank and does not read as a number. An empty sheet or an empty first row is never skipped. A skipped row is short or has a bad id, so it could never have yielded a question. |
| QuizLoader.IsHeaderRow | src/lib/quiz-loader.ts:164-172 | A header row has a non-blank first cell, so it is never an empty row. |
| JsText.NonNumericStart | src/lib/quiz-loader.ts:169 | Text whose first character is not whitespace, a digit, a sign or a point reads as NaN, so such a first cell marks a header. |
| QuizLoader.HeaderExamples | src/lib/quiz-loader.ts:164-172 | A row of column titles is a header. A row starting with the number 1 is not. |
| QuizLoader.HeaderRowNeverYieldsQuestion | src/lib/quiz-loader.ts:84-98 | A header row, processed as data, is short or fails the id test. It never reaches the duplicate test. |
| QuizLoader.HeaderSkipLosesNoQuestion | src/lib/quiz-loader.ts:66-68 | Skipping a header row yields the same questions as processing it. |
| QuizLoader.QuestionText | src/lib/quiz-loader.ts:85 | The question text read from a row is trimmed. |
| QuizLoader.RowOptions | src/lib/quiz-loader.ts:86-91 | A row yields exactly four options, each trimmed. |
| QuizLoader.AcceptedContentFacts | src/lib/quiz-loader.ts:108-131 | An accepted question keeps the id, text and options it was given. Its answer number is a finite integer in 1..4, and `correctAnswerIndex` is that number minus one. The correct option is non-empty. With a positive id and trimmed inputs, the question is well formed. |
| QuizLoader.AcceptedRowFacts | src/lib/quiz-loader.ts:84-132 | A row that yields a question is not empty and has at least 7 cells. `Number(row[0])` is the question's id. Text and options are those read from the row, the index is `Number(row[6]) - 1`, and the question is well formed. |
| QuizLoader.ScanIsValid | src/lib/quiz-loader.ts:94-133 | After any prefix of rows, the loop invariant holds. Questions are well formed, their ids are seen and pairwise distinct, `validQuestions` counts them, and each processed row has bumped exactly one counter. |
| QuizLoader.SeenIdsAreClaimedIds | src/lib/quiz-loader.ts:101-106 | An id is in `seenIds` exactly when some processed row reached the duplicate test with it, including rows later dropped for blank text or a bad answer. |
| QuizLoader.DuplicateIdBlocksLaterRows | src/lib/quiz-loader.ts:101-125 | Once a row has reached the duplicate test with an id, a later row with the same id only increments `duplicateIds`. This holds even if the first row yielded no question. |
| QuizLoader.BlankQuestionStillClaimsId | src/lib/quiz-loader.ts:101-112 | A blank-question row with id 1, followed by a valid row with id 1, gives no questions, one empty-question row and one duplicate. |
| QuizLoader.MalformedRowExample | src/lib/quiz-loader.ts:78-82 | A four-cell row yields nothing and counts as malformed. |
| QuizLoader.ScanOrigins | src/lib/quiz-loader.ts:68-132 | The fold's questions are the accepted contents of a strictly increasing sequence of processed rows, in order. |
| QuizLoader.QuestionsComeFromRowsInOrder | src/lib/quiz-loader.ts:127-132 | The loaded questions come from strictly increasing data-row indices. Each question is exactly what its row's checks accepted, and no such row is empty or short. |
| QuizLoader.SkippingNonDataRowOnlyChangesCounters | src/lib/quiz-loader.ts:68-98 | A first row that never reaches the duplicate test leaves the questions and the seen ids of every later prefix unchanged. |
| QuizLoader.ExcelEntries | src/lib/quiz-loader.ts:217-218 | A name is kept exactly when it is a string entry ending in ".xlsx" or ".xls". |
| QuizLoader.ListAvailableQuizFiles | src/lib/quiz-loader.ts:211-219 | The list is sorted, and is a permutation of the kept entries of an array document. Its members are exactly those entries. A non-array document gives an empty list. |
| JsSort.SortStrings | src/lib/quiz-loader.ts:219 | `sort()` yields a sorted permutation of its input. |
| JsSort.SortedPermutationUnique | src/lib/quiz-loader.ts:219 | Two sorted permutations of the same strings are equal, so the sorted list does not depend on the sorting algorithm. |
| JsText.Trim | src/lib/quiz-loader.ts:85-91 | `trim()` has no whitespace at either end, is no longer than its input, and is empty exactly when the input is all whitespace. |
| JsText.TrimKeepsMiddle | src/lib/quiz-loader.ts:85-91 | The input is some whitespace, then the trimmed text, then more whitespace: trimming removes only the two ends. |
| JsText.TrimIdempotent | src/lib/quiz-loader.ts:85-91 | Trimming twice is trimming once. |
| JsText.NumberOfDecimal | src/lib/quiz-loader.ts:84 | `Number` of a natural-number numeral is that number. |
| JsText.StringToNumber | src/lib/quiz-loader.ts:92 | `Number` of blank text is 0, so a blank answer cell fails the range test. |
| JsText.NumberToString | src/lib/quiz-loader.ts:85-91 | `String` of a number is non-empty and does not start with whitespace, so a numeric cell is never blank. |
| JsText.ParseIntOfDecimal | src/components/quiz/QuizSetup.tsx:59 | `parseInt(n.toString(), 10)` is n for every natural number n. |
| JsText.ParseIntAutoIsDecimal | src/components/quiz/QuizSetup.tsx:80 | Without a "0x" prefix, `parseInt(text)` and `parseInt(text, 10)` agree. |
| JsText.IndexOf | src/app/api/quiz-file/route.ts:27 | `indexOf` returns the first position where the substring occurs, and no position when it occurs nowhere. This underlies `includes`. |
| QuizArea.QuizArea.constructor | src/components/quiz/QuizArea.tsx:16-19 | The session starts at question 0 with one empty slot per question. |
| QuizArea.EmptySlots | src/components/quiz/QuizArea.tsx:18 | `Array(n).fill(null)` has n slots, all empty. |
| QuizArea.QuizArea.HandleOptionSelect | src/components/quiz/QuizArea.tsx:30-34 | The current slot becomes the chosen option, even if it was already answered. The other slots and the index are unchanged. |
| QuizArea.CountAfterAnswer | src/components/quiz/QuizArea.tsx:30-34 | Answering a slot raises the answered count by one if the slot was empty, and leaves the count unchanged on a re-selection. |
| QuizArea.QuizArea.HandleNextQuestion | src/components/quiz/QuizArea.tsx:36-40 | The index goes up by exactly one before the last question, and is unchanged on the last. It never decreases, and the answers are untouched. |
| QuizArea.QuizArea.HandleSubmitQuiz | src/components/quiz/QuizArea.tsx:42-44 | The answers handed over are exactly the slots, one per question. |
| QuizArea.QuizArea.ClickNext | src/components/quiz/QuizArea.tsx:72-75 | The Next button advances exactly when the question is not the last and its slot is answered. Otherwise nothing changes. |
| QuizArea.QuizArea.ShowsNextButton | src/components/quiz/QuizArea.tsx:72 | In a non-empty session exactly one of Next and Submit is rendered: Submit on the last question, Next on every other. |
| QuizArea.QuizArea.NextButtonDisabled | src/components/quiz/QuizArea.tsx:73 | A disabled Next button means the "Answered" counter is below the number of questions. |
| QuizArea.QuizArea.SubmitButtonDisabled | src/components/quiz/QuizArea.tsx:77 | Submit is disabled exactly while the "Answered" counter is below the number of slots. |
| QuizArea.QuizArea.ClickSubmit | src/components/quiz/QuizArea.tsx:48-79 | In a non-empty session, Submit delivers something exactly when the last question is showing and every slot is answered. What it delivers is the slots, all answered. An empty session renders no buttons. |
| QuizArea.CountIsLengthIffAllAnswered | src/components/quiz/QuizArea.tsx:70 | The "Answered" counter equals the number of questions exactly when no slot is null. |
| QuizArea.CountIsZeroIffNoneAnswered | src/components/quiz/QuizArea.tsx:70 | The "Answered" counter is zero exactly when every slot is null. |
| QuizResults.CountCorrect | src/components/quiz/QuizResults.tsx:18-23 | The `forEach` counts the non-null answers equal to the correct index of the question at the same position. |
| QuizResults.TallyIsMarkedPrefix | src/components/quiz/QuizResults.tsx:18-23 | The count over the first k answers equals the number of check marks on the first min(k, number of questions) questions. |
| QuizResults.TallyMatchesMarks | src/components/quiz/QuizResults.tsx:52-54 | `correctCount` equals the number of questions the review list marks correct. |
| QuizResults.Marked | src/components/quiz/QuizResults.tsx:54 | The review list's `isCorrect` agrees with the summary loop's test wherever that loop reads the answer. |
| QuizResults.NoMarksPastAnswers | src/components/quiz/QuizResults.tsx:53-54 | A question after the last answer is never marked correct, because `undefined` equals no index. |
| QuizResults.MarksPartition | src/components/quiz/QuizResults.tsx:24 | Every question is marked either correct or wrong. So `wrongCount = questions.length - correctCount` is the number of wrong marks, and an unanswered question counts as wrong. |
| QuizResults.AllMarkedIff | src/components/quiz/QuizResults.tsx:54 | All questions are marked correct exactly when each one is. |
| QuizResults.NoneMarkedIff | src/components/quiz/QuizResults.tsx:54 | No question is marked correct exactly when none is. |
| QuizResults.UnansweredIsNeverCorrect | src/components/quiz/QuizResults.tsx:87-93 | A null or missing answer is never marked correct. |
| QuizResults.ScorePercentage | src/components/quiz/QuizResults.tsx:25 | Empty quizzes give NaN, modelled as `None`. Otherwise the percentage p satisfies `p - 1/2 <= 100 * correct / total < p + 1/2`, which is round half up. |
| QuizResults.PercentageAtMost100 | src/components/quiz/QuizResults.tsx:25 | The percentage is at most 100 when correct <= total. |
| QuizResults.PercentageEnds | src/components/quiz/QuizResults.tsx:25 | All answers correct gives 100, and none correct gives 0. |
| QuizResults.PercentageMonotone | src/components/quiz/QuizResults.tsx:25 | More correct answers never give a lower percentage. |
| QuizResults.PercentageExamples | src/components/quiz/QuizResults.tsx:25 | 2 of 3 gives 67, 1 of 2 gives 50, 1 of 8 gives 13, and 0 of 0 gives NaN. |
| QuizResults.Summarize | src/components/quiz/QuizResults.tsx:18-25 | Correct is the number of check marks and wrong the number of crosses, which is `questions.length - correct`. The percentage is `ScorePercentage`, a number in 0..100 for a non-empty quiz. |
| QuizSetup.DefaultNumQuestions | src/components/quiz/QuizSetup.tsx:34-40 | The default text reads back as min(10, maxQuestions) when the pool is non-empty, and as 0 otherwise. |
| QuizSetup.HandleStart | src/components/quiz/QuizSetup.tsx:42-77 | A quiz starts exactly when files exist, questions are loaded, the pool is non-empty and 1 <= `parseInt(text, 10)` <= pool. It then starts with that count and the selected mode. Each refusal holds exactly when the earlier guards pass and its own fails. |
| QuizSetup.StartIsWithinPool | src/components/quiz/QuizSetup.tsx:59-76 | A started count lies between 1 and the pool size. |
| QuizSetup.DefaultCountStarts | src/components/quiz/QuizSetup.tsx:34-76 | With files and a loaded pool, the default count starts a quiz of min(10, pool) questions. |
| QuizSetup.StartMeansSetupEnabled | src/components/quiz/QuizSetup.tsx:79 | Whenever a quiz can start and nothing is loading, the form is not disabled. |
| QuizSetup.EnabledButtonPassesFirstGuards | src/components/quiz/QuizSetup.tsx:79-80 | With an enabled button and a decimal count, the start can only succeed or be refused as too many. |
| QuizSetup.SetupEnabledIffDefaultStarts | src/components/quiz/QuizSetup.tsx:79-80 | The form is enabled exactly when nothing is loading and the default count would start a quiz. An enabled form with the default count has an enabled button. |
| QuizSetup.HexCountEnablesButtonButIsRefused | src/components/quiz/QuizSetup.tsx:59-80 | "0x5" enables the button, because `parseInt("0x5")` is 5. The handler reads 0 from it and refuses it as an invalid number. |
| QuizPage.Home.constructor | src/app/page.tsx:20-30 | The initial state is setup, nothing loaded, loading, no error, testing mode, no files and no selection. |
| QuizPage.Home.BeginInitialize | src/app/page.tsx:35-37 | Before the listing is awaited, loading starts and the error is cleared. Nothing else changes. |
| QuizPage.Home.FinishInitialize | src/app/page.tsx:38-56 | With files, the first one is selected and the loading flag, error and pool are left as they are. With no files, or when the listing threw, the pool is emptied, the matching error is set and loading stops. |
| QuizPage.Home.RunLoadEffect | src/app/page.tsx:61-71 | Without a selected file, nothing is fetched and loading stops only if no files are listed. With one, loading starts, the error is cleared, and the fetch of that file begins. |
| QuizPage.Home.FinishLoad | src/app/page.tsx:73-91 | A non-empty result is stored unchanged. An empty result or a throw empties the pool and sets the error for the file the fetch started with. Loading stops in every case. |
| QuizPage.MountBeforeListing | src/app/page.tsx:32-66 | Right after mount, before the listing resolves, loading has stopped with no files and no error, so the "No Quiz Files Found" card and the setup form are shown. |
| QuizPage.Home.ShowsErrorScreen | src/app/page.tsx:145 | The full-page error appears only once loading has stopped, with an error and no files listed. |
| QuizPage.Home.SetupIsLoading | src/app/page.tsx:215 | Whenever the form's `isLoading` prop holds, the page shows the spinner of line 132 instead, so the form is never rendered loading. |
| QuizPage.SampleQuestions | src/app/page.tsx:102-105 | A non-negative count picks min(count, pool) questions, and a negative count drops that many from the end. No question is picked more often than the pool holds it. |
| QuizPage.SubMultisetKeepsDistinctIds | src/app/page.tsx:102-106 | A sample from a pool with distinct ids has distinct ids. |
| QuizPage.Home.HandleStartQuiz | src/app/page.tsx:96-110 | An empty pool only sets the error. Otherwise the mode is taken, the sample becomes the quiz with all slots empty, and the state becomes active. The pool, files, selection and loading flag are kept. |
| QuizPage.Home.HandleQuizComplete | src/app/page.tsx:112-115 | The given answers are stored and the results are shown. Nothing else changes. |
| QuizPage.Home.HandleRetakeQuiz | src/app/page.tsx:117-122 | The page returns to setup with the quiz and answers cleared. The pool and the mode are kept. |
| QuizPage.Home.HandleFileChange | src/app/page.tsx:124-130 | The new file is selected and the page returns to setup. The quiz, answers and pool are cleared, and the mode is kept. |
| QuizPage.Home.ClickStart | src/app/page.tsx:211-219 | The setup form decides with the page's props. A started quiz is active, has between 1 and pool-size questions drawn from the old pool, has distinct ids when the pool has them, and has one empty slot per question. The pool, files, selection, loading flag and error are kept in both cases, and a refusal changes nothing. |
| QuizPage.Home.SubmitFromArea | src/app/page.tsx:221-227 | For a non-empty quiz, the page moves to the results exactly when the session is on its last question with every slot answered. It then holds exactly the session's answers, all given. Otherwise it stays active. No other field changes. |
| QuizPage.Home.ResultsAreScorable | src/app/page.tsx:228-235 | When results are shown, the quiz is non-empty and there is one answer per question. So the scorer never reads a missing question, and the percentage is a number. |
| QuizFileRoute.ValidateFileName | src/app/api/quiz-file/route.ts:11-32 | A missing or empty name is refused as required. A name with another extension is refused as an invalid type. A spreadsheet name with "..", "/" or "\\" is refused as an invalid name. Checks run in that order and every refusal is status 400. |
| QuizFileRoute.TraversalIsCharacters | src/app/api/quiz-file/route.ts:27-32 | The traversal guard passes exactly when the name has no '/', no '\\' and no two consecutive dots. |
| QuizFileRoute.AcceptedNameIff | src/app/api/quiz-file/route.ts:18-32 | A name passes exactly when it is non-empty, ends in ".xlsx" or ".xls", and stays in the folder. |
| QuizFileRoute.FindMatchingIndex | src/app/api/quiz-file/route.ts:45-49 | `find` returns the first entry matching after normalization and lower-casing, or nothing when none matches. |
| QuizFileRoute.EntryMatches | src/app/api/quiz-file/route.ts:45-49 | An entry spelled exactly as the request always matches, whatever normalization and lower-casing do. |
| QuizFileRoute.FirstMatchIgnoresLaterEntries | src/app/api/quiz-file/route.ts:45-49 | Entries listed after the first match do not change the result. |
| QuizFileRoute.ResolveFile | src/app/api/quiz-file/route.ts:37-61 | A valid name whose NFC form exists is served under that form. Otherwise the first matching entry is served, and 404 is returned exactly when no entry matches. |
| QuizFileRoute.GuardExamples | src/app/api/quiz-file/route.ts:11-32 | No name and "" are refused as required, "notes.txt" as an invalid type, and "../a.xls" as an invalid name. |
| QuizFileRoute.FallbackExample | src/app/api/quiz-file/route.ts:44-61 | A request for "QUIZ.xlsx" is served from the entry "Quiz.xlsx". |

## Left out

- **Workbook decoding.** Fetching the workbook, `XLSX.read`, visible-sheet selection and
  `sheet_to_json` are I/O and library calls. The parser starts from the decoded grid, and
  the hidden-sheet counter is not modelled.
- **Network and environment plumbing.** This covers the retry loop, the environment-variable
  check, the catch-all that returns an empty list, and fetching `quiz-files.json`.
  `ListAvailableQuizFiles` starts from the parsed document.
- **Logging, rendering and styling.** Console logging, toasts and JSX rendering are left out,
  as is all of `QuestionDisplayCard`. Its learning-mode lock never takes effect, because the
  session is not given the mode, so answers can be changed in every mode.
- **Animation.** The progress-bar value and the fade-in timer are animation with
  floating-point values.
- **Floating point.** `QuizResults.ScorePercentage` is computed exactly, not with floating
  `Math.round`. The two can differ only when `100 * correct / total` lands within rounding
  error of a half.
- JsText.StringToNumber: models only plain decimal literals plus blank input. It does not
  read exponents, hexadecimal, binary, octal or `Infinity`, which all give NaN in the model.
  It also keeps the exact decimal value instead of rounding to the nearest double. So "1" and
  "1.00000000000000000001" are different ids in the model, while JavaScript reads both as 1
  and drops the second row as a duplicate. Likewise an answer "4.0000000000000001" is 4 in
  JavaScript and is accepted there, but the model rejects it as above 4.
- JsText.NumberToString: writes plain decimal notation with at most 20 fraction digits. It
  has no exponent form and does not reproduce JavaScript's shortest round-trip digits.
- **String model.** Strings are sequences of code points, not UTF-16 units. So `JsSort.LexLessEq`
  orders strings by code point, which differs from JavaScript only for characters outside
  the Basic Multilingual Plane.
- **Unicode library calls.** `normalize('NFC')` and `toLowerCase` are function parameters of
  `QuizFileRoute.ResolveFile`, whose properties are not modelled. Whether the normalized name
  exists, the directory listing, reading the file, the response headers and the 500 path are
  file-system I/O.
- **Randomness.** The random comparator shuffle is a caller-supplied permutation of the pool.
  No claim about uniformity is made.
- **Asynchrony.** Each React effect is split at its `await` into two methods: the part that
  runs when the effect fires (`BeginInitialize`, `RunLoadEffect`) and the continuation that
  applies the awaited result (`FinishInitialize`, `FinishLoad`). The model does not fix which
  order React runs them in; any sequence of calls is a possible schedule. The year in the
  footer is not modelled.
- QuizResults.CountCorrect: requires `AnswersFit`, meaning every answer past the last
  question is null, because otherwise the source's loop stops with a TypeError. The same
  holds for `QuizResults.Summarize`.
- QuizArea.QuizArea.HandleOptionSelect: requires a non-empty quiz, because the option buttons
  exist only when a question is on screen.
- QuizArea.QuizArea.ClickSubmit: requires a non-empty quiz, because for an empty one the
  component renders only "No questions available" and no buttons. The same holds for
  `QuizArea.QuizArea.ClickNext` and for `QuizPage.Home.SubmitFromArea`, whose quiz area the
  page renders only for a non-empty quiz.
- QuizPage.Home.HandleQuizComplete: requires the active state and one answer per question.
  Its only caller is the session's Submit, rendered only in the active state, which hands
  over its slots.
- QuizPage.Home.ClickStart: requires the setup state, because the form is rendered only in
  setup.
- QuizPage.Home.HandleStartQuiz: the shuffle is any permutation of the pool, given as a
  parameter.
- Exam mode, its 7200-second countdown and auto-submit, role filtering, per-file quotas and
  backward navigation are not modelled, because the code contains none of them. The quiz
  modes are learning and testing.
