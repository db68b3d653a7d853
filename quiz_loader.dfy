/**
 * The spreadsheet row parser of the quiz loader and the quiz-file list filter.
 *
 * The parser works on the grid of cells that the workbook decoder has already produced
 * (one sequence of cells per row, `null` for an empty cell). It skips a header row,
 * then classifies every remaining row: empty, too short, bad id, duplicate id, blank
 * question, bad answer, or a valid question. Each row bumps exactly one counter.
 *
 * LoadQuizData is the imperative loop; Scan is the same computation written as a fold,
 * and the lemmas about Scan carry the properties of the loop's result.
 */
module QuizLoader {
  import opened Wrappers
  import opened JsText
  import opened JsSort
  import opened QuizData

  // ---------------------------------------------------------------------------
  // Cells and the JavaScript coercions applied to them
  // ---------------------------------------------------------------------------

  /** A cell value as the decoder delivers it. */
  datatype Cell = Null | Number(n: real) | Text(s: string) | Boolean(b: bool)

  /** `Number(cell)`. A blank cell (null or whitespace text) reads as 0, so it never passes
      the id test. */
  function ToNumber(c: Cell): (r: JsNumber)
    ensures IsBlankCell(c) ==> r == Finite(0.0)
  {
    match c
    case Null => Finite(0.0)
    case Number(n) => Finite(n)
    case Text(s) => StringToNumber(s)
    case Boolean(b) => Finite(if b then 1.0 else 0.0)
  }

  /** `String(cell)`, for a cell that is not `null`. */
  function CellToString(c: Cell): string
    requires !c.Null?
  {
    match c
    case Number(n) => NumberToString(n)
    case Text(s) => s
    case Boolean(b) => if b then "true" else "false"
  }

  /** The cells JavaScript treats as falsy: `null`, 0, `false` and ''. */
  predicate IsFalsy(c: Cell) {
    c.Null? || c == Number(0.0) || c == Boolean(false) || c == Text("")
  }

  /** `String(cell || '')`: a falsy cell becomes '', any other cell its `String` form. */
  function CellText(c: Cell): (t: string)
    ensures t == (if IsFalsy(c) then "" else CellToString(c))
  {
    match c
    case Null => ""
    case Number(n) => if n == 0.0 then "" else NumberToString(n)
    case Text(s) => s
    case Boolean(b) => if b then "true" else ""
  }

  /** The test `isEmptyRow` applies to one cell, `cell === null || String(cell).trim() === ''`:
      only a null cell or a text cell of whitespace passes it (BlankCellIsStringBlank). */
  predicate IsBlankCell(c: Cell) {
    c.Null? || (c.Text? && IsBlank(c.s))
  }

  /** Numbers and booleans never convert to a blank string, so IsBlankCell is the source's test. */
  lemma BlankCellIsStringBlank(c: Cell)
    ensures IsBlankCell(c) <==> c.Null? || Trim(CellToString(c)) == []
  {
    match c
    case Number(n) => assert !IsWhitespace(NumberToString(n)[0]);
    case Boolean(b) => assert !IsWhitespace(CellToString(c)[0]);
    case _ =>
  }

  /** `isEmptyRow`: every cell is blank (vacuously true for a row without cells). */
  predicate IsEmptyRow(row: seq<Cell>) {
    forall k :: 0 <= k < |row| ==> IsBlankCell(row[k])
  }

  /** `isEmptyRow` as the source states it: every cell is `null` or converts to a string that
      trims to ''. */
  lemma EmptyRowIsStringBlank(row: seq<Cell>)
    ensures IsEmptyRow(row) <==> forall k :: 0 <= k < |row| ==> row[k].Null? || Trim(CellToString(row[k])) == []
  {
    forall k | 0 <= k < |row| {
      BlankCellIsStringBlank(row[k]);
    }
  }

  /** `isHeaderRow`: the first cell is a string that is not blank and does not read as a
      number. Such a cell is not blank, so a header row is never an empty row. */
  function IsHeaderRow(row: seq<Cell>): (h: bool)
    ensures h ==> !IsEmptyRow(row)
  {
    && |row| > 0
    && row[0].Text?
    && ToNumber(row[0]).NaN?
    && Trim(row[0].s) != []
  }

  /** The row the loop starts at: row 0 is skipped only when its first cell is text that is
      not blank and does not read as a number, so an empty sheet or an empty first row is
      never skipped, and a skipped row is one that could not have yielded a question. */
  function StartRowIndex(rows: seq<seq<Cell>>): (start: nat)
    ensures start <= 1 && start <= |rows|
    ensures start == 1 <==>
              && |rows| > 0 && |rows[0]| > 0 && rows[0][0].Text?
              && !IsBlank(rows[0][0].s) && StringToNumber(rows[0][0].s).NaN?
    ensures start == 1 ==> CheckRow(rows[0]) == ShortRow || CheckRow(rows[0]) == BadId
  {
    if |rows| > 0 && IsHeaderRow(rows[0]) then
      HeaderRowNeverYieldsQuestion(rows[0]);
      1
    else 0
  }

  // ---------------------------------------------------------------------------
  // Classifying one row
  // ---------------------------------------------------------------------------

  /** The trimmed question text of a row of at least two cells. */
  function QuestionText(row: seq<Cell>): (text: string)
    requires |row| >= 2
    ensures IsTrimmed(text)
  {
    Trim(CellText(row[1]))
  }

  /** The four trimmed options of a row of at least six cells. */
  function RowOptions(row: seq<Cell>): (options: seq<string>)
    requires |row| >= 6
    ensures |options| == 4 && forall k :: 0 <= k < 4 ==> IsTrimmed(options[k])
  {
    [Trim(CellText(row[2])), Trim(CellText(row[3])), Trim(CellText(row[4])), Trim(CellText(row[5]))]
  }

  /** What the question-text and answer tests make of a row whose id passed. */
  datatype Content = BlankQuestion | BadAnswer | Accepted(q: Question)

  /** The question-text and answer tests, in the loop's order, on the values read from a row
      whose id passed: the trimmed question text, the four trimmed options and
      `Number(row[6])`. */
  function ContentOf(id: real, questionText: string, options: seq<string>, correctAnswerNum: JsNumber): Content
    requires |options| == 4
  {
    if questionText == [] then BlankQuestion
    else if correctAnswerNum.NaN? || correctAnswerNum.value < 1.0 || correctAnswerNum.value > 4.0 then
      BadAnswer
    // options[1.5 - 1] is undefined, hence falsy: a non-integral answer number fails here
    else if !IsIntegral(correctAnswerNum.value) || options[correctAnswerNum.value.Floor - 1] == [] then
      BadAnswer
    else Accepted(Question(id, questionText, options, correctAnswerNum.value.Floor - 1))
  }

  /** The content tests applied to a row of at least seven cells. */
  function CheckContent(row: seq<Cell>, id: real): Content
    requires |row| >= 7
  {
    ContentOf(id, QuestionText(row), RowOptions(row), ToNumber(row[6]))
  }

  /** An accepted question carries the id, the text and the options it was given, its answer
      index is the answer number less one, and it is well formed when its inputs are trimmed. */
  lemma AcceptedContentFacts(id: real, questionText: string, options: seq<string>, correctAnswerNum: JsNumber)
    requires |options| == 4 && ContentOf(id, questionText, options, correctAnswerNum).Accepted?
    ensures var q := ContentOf(id, questionText, options, correctAnswerNum).q;
      && q.id == id && q.question == questionText && q.options == options
      && correctAnswerNum.Finite? && IsIntegral(correctAnswerNum.value)
      && q.correctAnswerIndex + 1 == correctAnswerNum.value.Floor
      && 0 <= q.correctAnswerIndex <= 3 && options[q.correctAnswerIndex] != []
      && (id > 0.0 && IsTrimmed(questionText) && (forall k :: 0 <= k < 4 ==> IsTrimmed(options[k])) ==> WellFormed(q))
  {
    var a := correctAnswerNum.value;
    assert IsIntegral(a) && 1.0 <= a <= 4.0;
    assert 1 <= a.Floor <= 4;
  }

  /** The outcome of the tests of the loop body that do not depend on earlier rows: the row
      is blank, too short or has a bad id, or it has a positive id and the question and
      answer tests give `content`. Only the duplicate-id test needs the seen set. */
  datatype RowCheck = BlankRow | ShortRow | BadId | GoodId(id: real, content: Content)

  /** What a row check can be: a passing id is positive, and an accepted question carries
      that id and is well formed. */
  predicate Sound(c: RowCheck) {
    c.GoodId? ==>
      && c.id > 0.0
      && (c.content.Accepted? ==> c.content.q.id == c.id && WellFormed(c.content.q))
  }

  predicate AllSound(checks: seq<RowCheck>) {
    forall k :: 0 <= k < |checks| ==> Sound(checks[k])
  }

  /** The empty-row, width and id tests in the loop's order, then the content tests. */
  function CheckRow(row: seq<Cell>): (c: RowCheck)
    ensures Sound(c)
    ensures c.BlankRow? <==> IsEmptyRow(row)
    ensures c.ShortRow? <==> !IsEmptyRow(row) && |row| < 7
  {
    if IsEmptyRow(row) then BlankRow
    else if |row| < 7 then ShortRow
    else
      var id := ToNumber(row[0]);
      if id.NaN? || id.value <= 0.0 then BadId
      else
        var content := CheckContent(row, id.value);
        if content.Accepted? then
          AcceptedContentFacts(id.value, QuestionText(row), RowOptions(row), ToNumber(row[6]));
          GoodId(id.value, content)
        else GoodId(id.value, content)
  }

  /** The checks of every row, in order. */
  function RowChecks(rows: seq<seq<Cell>>): (checks: seq<RowCheck>)
    ensures |checks| == |rows|
  {
    if rows == [] then [] else [CheckRow(rows[0])] + RowChecks(rows[1..])
  }

  lemma {:induction false} RowChecksAt(rows: seq<seq<Cell>>, k: nat)
    requires k < |rows|
    ensures RowChecks(rows)[k] == CheckRow(rows[k])
  {
    if k > 0 { RowChecksAt(rows[1..], k - 1); }
  }

  lemma RowChecksAreSound(rows: seq<seq<Cell>>)
    ensures AllSound(RowChecks(rows))
  {
    forall k | 0 <= k < |rows| ensures Sound(RowChecks(rows)[k]) {
      RowChecksAt(rows, k);
    }
  }

  /** The row gets as far as the duplicate-id test: not empty, wide enough, positive id. */
  predicate ReachesIdCheck(row: seq<Cell>) {
    CheckRow(row).GoodId?
  }

  /** The id such a row claims. */
  function RowId(row: seq<Cell>): real
    requires ReachesIdCheck(row)
  {
    CheckRow(row).id
  }

  /** An accepted row yields a well-formed question built from the row's own cells. */
  lemma AcceptedRowFacts(row: seq<Cell>)
    requires CheckRow(row).GoodId? && CheckRow(row).content.Accepted?
    ensures var q := CheckRow(row).content.q;
      && !IsEmptyRow(row) && |row| >= 7
      && ToNumber(row[0]) == Finite(q.id)
      && q.question == QuestionText(row) && q.options == RowOptions(row)
      && ToNumber(row[6]).Finite? && IsIntegral(ToNumber(row[6]).value)
      && q.correctAnswerIndex + 1 == ToNumber(row[6]).value.Floor
      && WellFormed(q)
  {
    var id := ToNumber(row[0]).value;
    assert CheckRow(row).content == CheckContent(row, id);
    AcceptedContentFacts(id, QuestionText(row), RowOptions(row), ToNumber(row[6]));
  }

  /** A header row never reaches the content tests: it is too short or its id is not a number. */
  lemma HeaderRowNeverYieldsQuestion(row: seq<Cell>)
    requires IsHeaderRow(row)
    ensures CheckRow(row) == ShortRow || CheckRow(row) == BadId
  {
    BlankCellIsStringBlank(row[0]);
    assert !IsBlankCell(row[0]);
  }

  // ---------------------------------------------------------------------------
  // The loop as a fold
  // ---------------------------------------------------------------------------

  /** The diagnostic counters of the loader (the hidden-sheet count is not modelled). */
  datatype Stats = Stats(
    totalRows: nat, emptyRows: nat, malformedRows: nat, invalidIdRows: nat,
    emptyQuestionRows: nat, invalidAnswerRows: nat, validQuestions: nat, duplicateIds: nat)

  /** The sum of the per-row counters. */
  function SkippedAndValid(s: Stats): nat {
    s.emptyRows + s.malformedRows + s.invalidIdRows + s.duplicateIds
      + s.emptyQuestionRows + s.invalidAnswerRows + s.validQuestions
  }

  /** The loop's variables: the questions pushed, the seen-id set and the counters. */
  datatype ParseState = ParseState(questions: seq<Question>, seenIds: set<real>, stats: Stats)

  function InitialState(totalRows: nat): ParseState {
    ParseState([], {}, Stats(totalRows, 0, 0, 0, 0, 0, 0, 0))
  }

  /** One iteration of the loop body on a row whose checks are `c`: the duplicate-id test
      comes after the id test and before the content tests, and a row that passes it adds
      its id to the seen set whatever the content tests then say. */
  function Step(st: ParseState, c: RowCheck): ParseState {
    var s := st.stats;
    match c
    case BlankRow => st.(stats := s.(emptyRows := s.emptyRows + 1))
    case ShortRow => st.(stats := s.(malformedRows := s.malformedRows + 1))
    case BadId => st.(stats := s.(invalidIdRows := s.invalidIdRows + 1))
    case GoodId(id, content) =>
      if id in st.seenIds then st.(stats := s.(duplicateIds := s.duplicateIds + 1))
      else
        var seen := st.seenIds + {id};
        match content
        case BlankQuestion => ParseState(st.questions, seen, s.(emptyQuestionRows := s.emptyQuestionRows + 1))
        case BadAnswer => ParseState(st.questions, seen, s.(invalidAnswerRows := s.invalidAnswerRows + 1))
        case Accepted(q) => ParseState(st.questions + [q], seen, s.(validQuestions := s.validQuestions + 1))
  }

  /** The row with checks `c` is pushed as a question when the loop reaches it with `seenIds`. */
  predicate Emits(c: RowCheck, seenIds: set<real>) {
    c.GoodId? && c.id !in seenIds && c.content.Accepted?
  }

  /** The state after the loop has processed rows `start .. i-1`. */
  function Scan(checks: seq<RowCheck>, start: nat, i: nat): ParseState
    requires start <= i <= |checks|
    decreases i - start
  {
    if i == start then InitialState(|checks|) else Step(Scan(checks, start, i - 1), checks[i - 1])
  }

  /** What `loadQuizData` computes from the decoded rows: the questions and the counters. */
  function Parse(rows: seq<seq<Cell>>): (seq<Question>, Stats) {
    var st := Scan(RowChecks(rows), StartRowIndex(rows), |rows|);
    (st.questions, st.stats)
  }

  /** The indices of the rows that yielded the questions of Scan(checks, start, i), in order. */
  ghost function Origins(checks: seq<RowCheck>, start: nat, i: nat): seq<nat>
    requires start <= i <= |checks|
    decreases i - start
  {
    if i == start then []
    else
      var before := Origins(checks, start, i - 1);
      if Emits(checks[i - 1], Scan(checks, start, i - 1).seenIds) then before + [i - 1] else before
  }

  // ---------------------------------------------------------------------------
  // Properties of the fold
  // ---------------------------------------------------------------------------

  /** The invariant the loop keeps. */
  predicate ScanInvariant(st: ParseState, totalRows: nat, processed: nat) {
    && (forall k :: 0 <= k < |st.questions| ==> WellFormed(st.questions[k]))
    && (forall k :: 0 <= k < |st.questions| ==> st.questions[k].id in st.seenIds)
    && DistinctIds(st.questions)
    && st.stats.totalRows == totalRows
    && st.stats.validQuestions == |st.questions|
    && SkippedAndValid(st.stats) == processed
  }

  /** Appending a well-formed question with a fresh id keeps the invariant. */
  lemma AppendKeepsInvariant(st: ParseState, q: Question, s: Stats, totalRows: nat, processed: nat)
    requires ScanInvariant(st, totalRows, processed)
    requires WellFormed(q) && q.id !in st.seenIds
    requires s.totalRows == totalRows && s.validQuestions == |st.questions| + 1
    requires SkippedAndValid(s) == processed + 1
    ensures ScanInvariant(ParseState(st.questions + [q], st.seenIds + {q.id}, s), totalRows, processed + 1)
  {
  }

  lemma StepKeepsInvariant(st: ParseState, c: RowCheck, totalRows: nat, processed: nat)
    requires ScanInvariant(st, totalRows, processed) && Sound(c)
    ensures ScanInvariant(Step(st, c), totalRows, processed + 1)
  {
    if Emits(c, st.seenIds) {
      var s := st.stats;
      AppendKeepsInvariant(st, c.content.q, s.(validQuestions := s.validQuestions + 1), totalRows, processed);
    }
  }

  /** Every emitted question is well formed, ids are pairwise distinct, each processed row
      bumps exactly one counter, and `validQuestions` counts the questions. */
  lemma {:induction false} ScanIsValid(checks: seq<RowCheck>, start: nat, i: nat)
    requires start <= i <= |checks| && AllSound(checks)
    ensures ScanInvariant(Scan(checks, start, i), |checks|, i - start)
    decreases i - start
  {
    if i > start {
      ScanIsValid(checks, start, i - 1);
      StepKeepsInvariant(Scan(checks, start, i - 1), checks[i - 1], |checks|, i - 1 - start);
    }
  }

  /** The ids a row adds to the seen set: its own id exactly when it reaches the duplicate
      test (a duplicate's id is already there). */
  function ClaimedIds(c: RowCheck): set<real> {
    if c.GoodId? then {c.id} else {}
  }

  /** Some row among `start .. i-1` reached the duplicate test with id `x`. */
  ghost predicate ClaimedBefore(checks: seq<RowCheck>, start: nat, i: nat, x: real)
    requires start <= i <= |checks|
  {
    exists j :: start <= j < i && x in ClaimedIds(checks[j])
  }

  /** An id is in the seen set exactly when some processed row reached the duplicate test
      with it, whether or not that row went on to yield a question. */
  lemma {:induction false} SeenIdsAreClaimedIds(checks: seq<RowCheck>, start: nat, i: nat, x: real)
    requires start <= i <= |checks|
    ensures x in Scan(checks, start, i).seenIds <==> ClaimedBefore(checks, start, i, x)
    decreases i - start
  {
    if i > start {
      SeenIdsAreClaimedIds(checks, start, i - 1, x);
      var prev := Scan(checks, start, i - 1);
      assert Scan(checks, start, i).seenIds == prev.seenIds + ClaimedIds(checks[i - 1]);
      if ClaimedBefore(checks, start, i, x) {
        var j :| start <= j < i && x in ClaimedIds(checks[j]);
        if j < i - 1 { assert ClaimedBefore(checks, start, i - 1, x); }
      }
    }
  }

  /** First claim wins: once a row has reached the duplicate test with an id, every later row
      that reaches it with the same id is counted as a duplicate and changes nothing else,
      even when the first row was itself dropped for a blank question or a bad answer. */
  lemma DuplicateIdBlocksLaterRows(rows: seq<seq<Cell>>, j: nat, k: nat)
    requires StartRowIndex(rows) <= j < k < |rows|
    requires ReachesIdCheck(rows[j]) && ReachesIdCheck(rows[k]) && RowId(rows[j]) == RowId(rows[k])
    ensures var checks, start := RowChecks(rows), StartRowIndex(rows);
      var before := Scan(checks, start, k);
      Scan(checks, start, k + 1) == before.(stats := before.stats.(duplicateIds := before.stats.duplicateIds + 1))
  {
    var checks, start := RowChecks(rows), StartRowIndex(rows);
    RowChecksAt(rows, j);
    RowChecksAt(rows, k);
    assert RowId(rows[k]) in ClaimedIds(checks[j]);
    SeenIdsAreClaimedIds(checks, start, k, RowId(rows[k]));
  }

  /** The questions of Scan(checks, start, i) are, in order, the accepted contents of an
      increasing sequence of processed rows, each of which passed the duplicate test. */
  lemma {:induction false} ScanOrigins(checks: seq<RowCheck>, start: nat, i: nat)
    requires start <= i <= |checks|
    ensures var qs := Scan(checks, start, i).questions;
      var origins := Origins(checks, start, i);
      && |origins| == |qs|
      && (forall k :: 0 <= k < |origins| ==> start <= origins[k] < i)
      && (forall k, l :: 0 <= k < l < |origins| ==> origins[k] < origins[l])
      && (forall k :: 0 <= k < |origins| ==>
            checks[origins[k]].GoodId? && checks[origins[k]].content == Accepted(qs[k]))
    decreases i - start
  {
    if i > start {
      ScanOrigins(checks, start, i - 1);
    }
  }

  /** The questions loaded are those of an increasing sequence of data rows, each of which
      passed every row-local test and yielded exactly that question. Blank and short rows
      are never among them. */
  lemma QuestionsComeFromRowsInOrder(rows: seq<seq<Cell>>)
    ensures var checks, start := RowChecks(rows), StartRowIndex(rows);
      var qs := Parse(rows).0;
      var origins := Origins(checks, start, |rows|);
      && |origins| == |qs|
      && (forall k :: 0 <= k < |origins| ==> start <= origins[k] < |rows|)
      && (forall k, l :: 0 <= k < l < |origins| ==> origins[k] < origins[l])
      && (forall k :: 0 <= k < |origins| ==> CheckRow(rows[origins[k]]) == GoodId(qs[k].id, Accepted(qs[k])))
      && (forall k :: 0 <= k < |origins| ==> !IsEmptyRow(rows[origins[k]]) && |rows[origins[k]]| >= 7)
  {
    var checks, start := RowChecks(rows), StartRowIndex(rows);
    ScanOrigins(checks, start, |rows|);
    var qs := Parse(rows).0;
    var origins := Origins(checks, start, |rows|);
    forall k | 0 <= k < |origins|
      ensures CheckRow(rows[origins[k]]) == GoodId(qs[k].id, Accepted(qs[k]))
    {
      RowChecksAt(rows, origins[k]);
    }
  }

  /** Two scans that agree on the questions and the seen ids keep agreeing on them: a first
      row that never reaches the duplicate test changes only the counters. */
  lemma {:induction false} SkippingNonDataRowOnlyChangesCounters(checks: seq<RowCheck>, i: nat)
    requires 1 <= i <= |checks| && !checks[0].GoodId?
    ensures Scan(checks, 1, i).questions == Scan(checks, 0, i).questions
    ensures Scan(checks, 1, i).seenIds == Scan(checks, 0, i).seenIds
  {
    if i > 1 {
      SkippingNonDataRowOnlyChangesCounters(checks, i - 1);
    }
  }

  /** Skipping the header row loses nothing: processing it as data would give the same
      questions, since it never reaches the duplicate test. */
  lemma HeaderSkipLosesNoQuestion(rows: seq<seq<Cell>>)
    requires |rows| > 0 && IsHeaderRow(rows[0])
    ensures Parse(rows).0 == Scan(RowChecks(rows), 0, |rows|).questions
  {
    HeaderRowNeverYieldsQuestion(rows[0]);
    RowChecksAt(rows, 0);
    SkippingNonDataRowOnlyChangesCounters(RowChecks(rows), |rows|);
  }

  // ---------------------------------------------------------------------------
  // The parse loop
  // ---------------------------------------------------------------------------

  /** The body of the row loop of `loadQuizData` (each early `return` is a `continue`), up to
      the id test. */
  method ProcessRow(row: seq<Cell>, questions0: seq<Question>, seenIds0: set<real>, stats0: Stats)
    returns (questions: seq<Question>, seenIds: set<real>, stats: Stats)
    ensures ParseState(questions, seenIds, stats) == Step(ParseState(questions0, seenIds0, stats0), CheckRow(row))
  {
    questions, seenIds, stats := questions0, seenIds0, stats0;

    if |row| == 0 || IsEmptyRow(row) {
      stats := stats.(emptyRows := stats.emptyRows + 1);
      return;
    }

    if |row| < 7 {
      stats := stats.(malformedRows := stats.malformedRows + 1);
      return;
    }

    var id := ToNumber(row[0]);
    var questionText := Trim(CellText(row[1]));
    var options := [Trim(CellText(row[2])), Trim(CellText(row[3])), Trim(CellText(row[4])), Trim(CellText(row[5]))];
    var correctAnswerNum := ToNumber(row[6]);

    if id.NaN? || id.value <= 0.0 {
      stats := stats.(invalidIdRows := stats.invalidIdRows + 1);
      return;
    }

    assert CheckRow(row) == GoodId(id.value, ContentOf(id.value, questionText, options, correctAnswerNum));
    questions, seenIds, stats := ProcessIdentifiedRow(id.value, questionText, options, correctAnswerNum, questions, seenIds, stats);
  }

  /** The rest of the loop body, from the duplicate-id test on, given the values read from
      the row. */
  method ProcessIdentifiedRow(id: real, questionText: string, options: seq<string>, correctAnswerNum: JsNumber,
                              questions0: seq<Question>, seenIds0: set<real>, stats0: Stats)
    returns (questions: seq<Question>, seenIds: set<real>, stats: Stats)
    requires |options| == 4
    ensures ParseState(questions, seenIds, stats)
         == Step(ParseState(questions0, seenIds0, stats0), GoodId(id, ContentOf(id, questionText, options, correctAnswerNum)))
  {
    questions, seenIds, stats := questions0, seenIds0, stats0;

    if id in seenIds {
      stats := stats.(duplicateIds := stats.duplicateIds + 1);
      return;
    }
    seenIds := seenIds + {id};

    if questionText == [] {
      stats := stats.(emptyQuestionRows := stats.emptyQuestionRows + 1);
      return;
    }

    if correctAnswerNum.NaN? || correctAnswerNum.value < 1.0 || correctAnswerNum.value > 4.0 {
      stats := stats.(invalidAnswerRows := stats.invalidAnswerRows + 1);
      return;
    }

    if !IsIntegral(correctAnswerNum.value) || options[correctAnswerNum.value.Floor - 1] == [] {
      stats := stats.(invalidAnswerRows := stats.invalidAnswerRows + 1);
      return;
    }

    questions := questions + [Question(id, questionText, options, correctAnswerNum.value.Floor - 1)];
    stats := stats.(validQuestions := stats.validQuestions + 1);
  }

  /** `loadQuizData` on rows already decoded from the first visible sheet. */
  method LoadQuizData(jsonData: seq<seq<Cell>>) returns (questions: seq<Question>, stats: Stats)
    ensures (questions, stats) == Parse(jsonData)
    ensures forall k :: 0 <= k < |questions| ==> WellFormed(questions[k])
    ensures DistinctIds(questions)
    ensures stats.totalRows == |jsonData| && stats.validQuestions == |questions|
    ensures SkippedAndValid(stats) == |jsonData| - StartRowIndex(jsonData)
  {
    ghost var checks := RowChecks(jsonData);
    stats := Stats(|jsonData|, 0, 0, 0, 0, 0, 0, 0);
    questions := [];
    var seenIds: set<real> := {};

    var startRowIndex := if |jsonData| > 0 && IsHeaderRow(jsonData[0]) then 1 else 0;

    for i := startRowIndex to |jsonData|
      invariant ParseState(questions, seenIds, stats) == Scan(checks, startRowIndex, i)
    {
      RowChecksAt(jsonData, i);
      questions, seenIds, stats := ProcessRow(jsonData[i], questions, seenIds, stats);
    }

    RowChecksAreSound(jsonData);
    ScanIsValid(checks, startRowIndex, |jsonData|);
  }

  // ---------------------------------------------------------------------------
  // Concrete rows
  // ---------------------------------------------------------------------------

  /** A title row is a header; a row starting with a numeric id is data. */
  lemma HeaderExamples()
    ensures IsHeaderRow([Text("Q ID"), Text("Question"), Text("A"), Text("B"), Text("C"), Text("D"), Text("Answer")])
    ensures !IsHeaderRow([Number(1.0), Text("What is 2+2?"), Text("3"), Text("4"), Text("5"), Text("6"), Number(2.0)])
  {
    NonNumericStart("Q ID");
  }

  /** A four-cell row is skipped as malformed and yields nothing. */
  lemma MalformedRowExample()
    ensures Parse([[Number(2.0), Text("Short row"), Text("A"), Text("B")]])
         == ([], Stats(1, 0, 1, 0, 0, 0, 0, 0))
  {
    var row := [Number(2.0), Text("Short row"), Text("A"), Text("B")];
    BlankCellIsStringBlank(row[0]);
    assert !IsEmptyRow(row);
  }

  /** A row whose question is blank still claims its id, so a later, otherwise valid row
      with the same id is dropped as a duplicate. */
  lemma BlankQuestionStillClaimsId()
    ensures var options := [Text("a"), Text("b"), Text("c"), Text("d")];
      Parse([[Number(1.0), Null] + options + [Number(1.0)],
             [Number(1.0), Text("Q")] + options + [Number(1.0)]])
      == ([], Stats(2, 0, 0, 0, 1, 0, 0, 1))
  {
    var options := [Text("a"), Text("b"), Text("c"), Text("d")];
    var r0 := [Number(1.0), Null] + options + [Number(1.0)];
    var r1 := [Number(1.0), Text("Q")] + options + [Number(1.0)];
    assert !IsBlankCell(r0[0]) && !IsBlankCell(r1[0]);
    assert QuestionText(r0) == [];
    assert CheckRow(r0) == GoodId(1.0, BlankQuestion);
    assert CheckRow(r1).GoodId? && CheckRow(r1).id == 1.0;
    RowChecksAt([r0, r1], 0);
    RowChecksAt([r0, r1], 1);
    assert StartRowIndex([r0, r1]) == 0;
  }

  // ---------------------------------------------------------------------------
  // The quiz-file list
  // ---------------------------------------------------------------------------

  /** An element of the parsed `quiz-files.json` array. */
  datatype JsonValue = JString(s: string) | JOther

  /** The parsed `quiz-files.json` document: an array or anything else. */
  datatype JsonDocument = JArray(items: seq<JsonValue>) | NotArray

  /** The extension test of the file-list filter. */
  predicate IsExcelFileName(name: string) {
    EndsWith(name, ".xlsx") || EndsWith(name, ".xls")
  }

  /** `fileList.filter(...)`: the string entries with a spreadsheet extension, in order. */
  function ExcelEntries(items: seq<JsonValue>): (names: seq<string>)
    ensures forall f :: f in names <==> JString(f) in items && IsExcelFileName(f)
    ensures |names| <= |items|
  {
    if items == [] then []
    else
      var rest := ExcelEntries(items[1..]);
      assert items == [items[0]] + items[1..];
      if items[0].JString? && IsExcelFileName(items[0].s) then [items[0].s] + rest else rest
  }

  /** The file list of `listAvailableQuizFiles` once the document is fetched: the spreadsheet
      names of an array document, sorted; nothing for any other document. */
  function ListAvailableQuizFiles(doc: JsonDocument): (files: seq<string>)
    ensures Sorted(files)
    ensures doc.JArray? ==> multiset(files) == multiset(ExcelEntries(doc.items))
    ensures forall f :: f in files <==> doc.JArray? && JString(f) in doc.items && IsExcelFileName(f)
  {
    match doc
    case NotArray => []
    case JArray(items) =>
      var files := SortStrings(ExcelEntries(items));
      assert forall f :: f in files <==> f in multiset(files);
      files
  }
}
