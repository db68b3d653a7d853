/**
 * The page component (`Home`): the quiz state machine setup -> active -> results -> setup,
 * the question pool loaded from the selected file, and the handlers the child components
 * call. React state setters become field assignments; each handler is one method whose
 * contract states every field it changes and keeps the rest.
 *
 * The asynchronous effects are split at their `await`: one method for the part that runs
 * when the effect fires, one for the continuation, whose awaited result (the file listing,
 * the loaded questions, or what was thrown) is a parameter. Any interleaving of the calls
 * is a possible schedule.
 * The random shuffle is a parameter too: any permutation of the pool.
 */
module QuizPage {
  import opened Wrappers
  import opened QuizData
  import opened QuizSetup
  import QuizArea
  import QuizResults

  datatype QuizState = Setup | Active | Results

  /** What an awaited call produced: a value, a thrown `Error` with its message, or a thrown
      value that is not an `Error`. */
  datatype Outcome<T> = Returned(value: T) | ThrewError(message: string) | ThrewOther

  /** The errors the page shows; `ErrorText` is the message on screen. */
  datatype PageError =
    | NoQuizFiles
    | ListingFailed(message: string)
    | ListingFailedUnknown
    | NoValidQuestions(file: string)
    | LoadFailed(message: string)
    | LoadFailedUnknown(file: string)
    | EmptyPool

  function ErrorText(e: PageError): string {
    match e
    case NoQuizFiles =>
      "No quiz files (.xlsx or .xls) found in the 'public' folder. Please add quiz files to use the application."
    case ListingFailed(message) => message
    case ListingFailedUnknown => "An unknown error occurred while listing quiz files."
    case NoValidQuestions(file) =>
      "No valid questions found in '" + file + "'. Please ensure it's correctly formatted and contains data."
    case LoadFailed(message) => message
    case LoadFailedUnknown(file) => "An unexpected error occurred while loading data from '" + file + "'."
    case EmptyPool => "Cannot start quiz: No questions loaded from the selected file."
  }

  // ---------------------------------------------------------------------------
  // getRandomQuestions
  // ---------------------------------------------------------------------------

  /** The end index `slice(0, end)` uses on a sequence of length `len`: a negative `end` counts
      from the back, and either way the index is clamped to `0..len`. */
  function SliceEnd(len: nat, end: int): (e: nat)
    ensures e <= len
    ensures 0 <= end ==> e == Min(end, len)
    ensures end < 0 ==> e == len - Min(-end, len)
  {
    if end < 0 then (if len + end < 0 then 0 else len + end)
    else if end > len then len
    else end
  }

  /** `getRandomQuestions(questions, count)` given the shuffled copy `shuffled`: its first
      `Math.min(count, questions.length)` elements, in the sense of `slice`. For a
      non-negative count that is `Math.min(count, |questions|)` questions; a negative count
      leaves off that many from the end. No question is picked more often than it occurs in
      the pool. */
  function SampleQuestions(questions: seq<Question>, shuffled: seq<Question>, count: int): (chosen: seq<Question>)
    requires multiset(shuffled) == multiset(questions)
    ensures 0 <= count ==> |chosen| == Min(count, |questions|)
    ensures count < 0 ==> |chosen| == (if |questions| + count < 0 then 0 else |questions| + count)
    ensures multiset(chosen) <= multiset(questions)
  {
    assert |shuffled| == |multiset(shuffled)| == |questions|;
    var e := SliceEnd(|shuffled|, Min(count, |questions|));
    assert shuffled == shuffled[..e] + shuffled[e..];
    shuffled[..e]
  }

  /** Two equal elements at different positions make the element occur at least twice. */
  lemma RepeatedElementCount(s: seq<Question>, i: nat, j: nat)
    requires i < j < |s| && s[i] == s[j]
    ensures multiset(s)[s[i]] >= 2
  {
    assert s == s[..j] + s[j..];
    assert s[i] in multiset(s[..j]);
    assert s[j] in multiset(s[j..]);
  }

  /** An element that occurs at least twice occurs at two different positions. */
  lemma {:induction false} TwoPositions(s: seq<Question>, x: Question) returns (a: nat, b: nat)
    requires multiset(s)[x] >= 2
    ensures a < b < |s| && s[a] == x && s[b] == x
  {
    assert s == [s[0]] + s[1..];
    if s[0] == x {
      assert x in multiset(s[1..]);
      var k :| 0 <= k < |s[1..]| && s[1..][k] == x;
      a, b := 0, k + 1;
    } else {
      var a', b' := TwoPositions(s[1..], x);
      a, b := a' + 1, b' + 1;
    }
  }

  /** Distinct ids survive any rearrangement that takes no question more often than the pool
      holds it: the chosen questions of a pool with distinct ids have distinct ids. */
  lemma {:induction false} SubMultisetKeepsDistinctIds(pool: seq<Question>, chosen: seq<Question>)
    requires DistinctIds(pool) && multiset(chosen) <= multiset(pool)
    ensures DistinctIds(chosen)
  {
    forall i, j | 0 <= i < j < |chosen|
      ensures chosen[i].id != chosen[j].id
    {
      assert chosen[i] in multiset(pool) && chosen[j] in multiset(pool) by {
        assert chosen[i] in multiset(chosen) && chosen[j] in multiset(chosen);
      }
      if chosen[i] == chosen[j] {
        RepeatedElementCount(chosen, i, j);
        var a, b := TwoPositions(pool, chosen[i]);
        assert false;
      } else {
        var a :| 0 <= a < |pool| && pool[a] == chosen[i];
        var b :| 0 <= b < |pool| && pool[b] == chosen[j];
      }
    }
  }

  // ---------------------------------------------------------------------------
  // The page
  // ---------------------------------------------------------------------------

  class Home {
    var quizState: QuizState
    var allLoadedQuestions: seq<Question>
    var currentQuizQuestions: seq<Question>
    var userAnswers: seq<Option<int>>
    var isLoading: bool
    var error: Option<PageError>
    var quizMode: QuizMode
    var availableFiles: seq<string>
    var selectedFile: Option<string>

    /** The answers belong to the quiz on screen: none in setup, one empty slot per question
        while the quiz runs, and one answer slot per question on the results screen. */
    predicate Valid()
      reads this
    {
      && (quizState == Setup ==> currentQuizQuestions == [] && userAnswers == [])
      && (quizState == Active ==> userAnswers == QuizArea.EmptySlots(|currentQuizQuestions|))
      && (quizState == Results ==> |userAnswers| == |currentQuizQuestions|)
    }

    /** `!selectedFile` is false: a file is selected and its name is not empty. */
    predicate HasSelectedFile()
      reads this
    {
      selectedFile.Some? && selectedFile.value != []
    }

    /** The initial state: setup, nothing loaded, loading, testing mode, no file. */
    constructor ()
      ensures Valid()
      ensures quizState == Setup && allLoadedQuestions == [] && currentQuizQuestions == [] && userAnswers == []
      ensures isLoading && error == None && quizMode == Testing
      ensures availableFiles == [] && selectedFile == None
    {
      quizState := Setup;
      allLoadedQuestions := [];
      currentQuizQuestions := [];
      userAnswers := [];
      isLoading := true;
      error := None;
      quizMode := Testing;
      availableFiles := [];
      selectedFile := None;
    }

    /** The first effect, on mount, up to its `await`: loading starts and the error is cleared. */
    method BeginInitialize()
      modifies this
      ensures isLoading && error == None
      ensures quizState == old(quizState) && currentQuizQuestions == old(currentQuizQuestions)
      ensures userAnswers == old(userAnswers) && quizMode == old(quizMode)
      ensures allLoadedQuestions == old(allLoadedQuestions)
      ensures availableFiles == old(availableFiles) && selectedFile == old(selectedFile)
    {
      isLoading := true;
      error := None;
    }

    /** The rest of `initializeQuizData`, given what `listAvailableQuizFiles` produced. With
        files, the first one is selected and nothing else is touched: the loading flag stays as
        it is. With none, or when the listing threw, the pool is emptied, an error is shown and
        loading stops. */
    method FinishInitialize(listing: Outcome<seq<string>>)
      requires Valid()
      modifies this
      ensures Valid()
      ensures quizState == old(quizState) && currentQuizQuestions == old(currentQuizQuestions)
      ensures userAnswers == old(userAnswers) && quizMode == old(quizMode)
      ensures availableFiles == (if listing.Returned? then listing.value else old(availableFiles))
      ensures listing.Returned? && listing.value != [] ==>
                && selectedFile == Some(listing.value[0]) && isLoading == old(isLoading)
                && error == old(error) && allLoadedQuestions == old(allLoadedQuestions)
      ensures listing.Returned? && listing.value == [] ==>
                && error == Some(NoQuizFiles) && allLoadedQuestions == [] && !isLoading
                && selectedFile == old(selectedFile)
      ensures listing.ThrewError? ==>
                && error == Some(ListingFailed(listing.message)) && allLoadedQuestions == [] && !isLoading
                && selectedFile == old(selectedFile)
      ensures listing.ThrewOther? ==>
                && error == Some(ListingFailedUnknown) && allLoadedQuestions == [] && !isLoading
                && selectedFile == old(selectedFile)
    {
      match listing {
        case Returned(files) =>
          availableFiles := files;
          if |files| > 0 {
            selectedFile := Some(files[0]);
          } else {
            error := Some(NoQuizFiles);
            allLoadedQuestions := [];
            isLoading := false;
          }
        case ThrewError(message) =>
          error := Some(ListingFailed(message));
          allLoadedQuestions := [];
          isLoading := false;
        case ThrewOther =>
          error := Some(ListingFailedUnknown);
          allLoadedQuestions := [];
          isLoading := false;
      }
    }

    /** The second effect, run on mount and whenever the selection or the number of files
        changes, up to the `await` of its fetch. Without a selected file it only stops loading,
        and only when no files are listed; it fetches nothing. With one, loading starts, the
        error is cleared, and the fetch of that file begins. */
    method RunLoadEffect() returns (fetching: Option<string>)
      modifies this
      ensures !old(HasSelectedFile()) ==>
                && fetching == None && error == old(error)
                && isLoading == (old(isLoading) && availableFiles != [])
      ensures old(HasSelectedFile()) ==> fetching == selectedFile && isLoading && error == None
      ensures quizState == old(quizState) && currentQuizQuestions == old(currentQuizQuestions)
      ensures userAnswers == old(userAnswers) && quizMode == old(quizMode)
      ensures allLoadedQuestions == old(allLoadedQuestions)
      ensures availableFiles == old(availableFiles) && selectedFile == old(selectedFile)
    {
      if !HasSelectedFile() {
        if |availableFiles| == 0 {
          isLoading := false;
        }
        return None;
      }
      fetching := selectedFile;
      isLoading := true;
      error := None;
    }

    /** The rest of `fetchQuestions` for the file `file` it was started with, given what
        `loadQuizData(file)` produced. A non-empty result becomes the pool unchanged; an empty
        result or a throw empties the pool and shows an error naming the file or carrying the
        thrown message. Loading stops in every case (the `finally`). */
    method FinishLoad(file: string, fetched: Outcome<seq<Question>>)
      requires Valid()
      modifies this
      ensures Valid()
      ensures !isLoading
      ensures quizState == old(quizState) && currentQuizQuestions == old(currentQuizQuestions)
      ensures userAnswers == old(userAnswers) && quizMode == old(quizMode)
      ensures availableFiles == old(availableFiles) && selectedFile == old(selectedFile)
      ensures fetched.Returned? && fetched.value != [] ==>
                allLoadedQuestions == fetched.value && error == old(error)
      ensures fetched.Returned? && fetched.value == [] ==>
                allLoadedQuestions == [] && error == Some(NoValidQuestions(file))
      ensures fetched.ThrewError? ==>
                allLoadedQuestions == [] && error == Some(LoadFailed(fetched.message))
      ensures fetched.ThrewOther? ==>
                allLoadedQuestions == [] && error == Some(LoadFailedUnknown(file))
    {
      match fetched {
        case Returned(data) =>
          if |data| > 0 {
            allLoadedQuestions := data;
          } else {
            allLoadedQuestions := [];
            error := Some(NoValidQuestions(file));
          }
        case ThrewError(message) =>
          allLoadedQuestions := [];
          error := Some(LoadFailed(message));
        case ThrewOther =>
          allLoadedQuestions := [];
          error := Some(LoadFailedUnknown(file));
      }
      isLoading := false;
    }

    /** `handleStartQuiz(numQuestions, mode)` with `shuffled` the shuffled copy of the pool.
        An empty pool only sets an error. Otherwise the mode is taken, the sample of the pool
        becomes the quiz, every answer slot is empty and the quiz becomes active. The pool,
        the files, the selection, the loading flag and the error are kept. */
    method HandleStartQuiz(numQuestions: int, mode: QuizMode, shuffled: seq<Question>)
      requires Valid()
      requires multiset(shuffled) == multiset(allLoadedQuestions)
      modifies this
      ensures Valid()
      ensures allLoadedQuestions == old(allLoadedQuestions) && availableFiles == old(availableFiles)
      ensures selectedFile == old(selectedFile) && isLoading == old(isLoading)
      ensures old(allLoadedQuestions) == [] ==>
                && error == Some(EmptyPool)
                && quizState == old(quizState) && quizMode == old(quizMode)
                && currentQuizQuestions == old(currentQuizQuestions) && userAnswers == old(userAnswers)
      ensures old(allLoadedQuestions) != [] ==>
                && error == old(error) && quizMode == mode && quizState == Active
                && currentQuizQuestions == SampleQuestions(allLoadedQuestions, shuffled, numQuestions)
                && userAnswers == QuizArea.EmptySlots(|currentQuizQuestions|)
    {
      if |allLoadedQuestions| == 0 {
        error := Some(EmptyPool);
        return;
      }
      quizMode := mode;
      var randomQuestions := SampleQuestions(allLoadedQuestions, shuffled, numQuestions);
      currentQuizQuestions := randomQuestions;
      userAnswers := QuizArea.EmptySlots(|randomQuestions|);
      quizState := Active;
    }

    /** `handleQuizComplete(answers)`: the session's answers, one per question of the quiz,
        are stored and the results are shown. */
    method HandleQuizComplete(answers: seq<Option<int>>)
      requires Valid() && quizState == Active && |answers| == |currentQuizQuestions|
      modifies this
      ensures Valid()
      ensures userAnswers == answers && quizState == Results
      ensures currentQuizQuestions == old(currentQuizQuestions) && allLoadedQuestions == old(allLoadedQuestions)
      ensures quizMode == old(quizMode) && error == old(error) && isLoading == old(isLoading)
      ensures availableFiles == old(availableFiles) && selectedFile == old(selectedFile)
    {
      userAnswers := answers;
      quizState := Results;
    }

    /** `handleRetakeQuiz`: back to setup with the quiz cleared; the pool and the mode stay. */
    method HandleRetakeQuiz()
      modifies this
      ensures Valid()
      ensures quizState == Setup && currentQuizQuestions == [] && userAnswers == []
      ensures allLoadedQuestions == old(allLoadedQuestions) && quizMode == old(quizMode)
      ensures error == old(error) && isLoading == old(isLoading)
      ensures availableFiles == old(availableFiles) && selectedFile == old(selectedFile)
    {
      quizState := Setup;
      currentQuizQuestions := [];
      userAnswers := [];
    }

    /** `handleFileChange(value)`: the new file is selected and the page returns to setup with
        the quiz and the pool cleared; the mode stays. */
    method HandleFileChange(value: string)
      modifies this
      ensures Valid()
      ensures selectedFile == Some(value) && quizState == Setup
      ensures currentQuizQuestions == [] && userAnswers == [] && allLoadedQuestions == []
      ensures quizMode == old(quizMode) && error == old(error) && isLoading == old(isLoading)
      ensures availableFiles == old(availableFiles)
    {
      selectedFile := Some(value);
      quizState := Setup;
      currentQuizQuestions := [];
      userAnswers := [];
      allLoadedQuestions := [];
    }

    // -------------------------------------------------------------------------
    // What is rendered
    // -------------------------------------------------------------------------

    /** The full-page spinner. */
    predicate ShowsGlobalLoader()
      reads this
    {
      isLoading && (availableFiles == [] || !HasSelectedFile() || (allLoadedQuestions == [] && error.None?))
    }

    /** The full-page error with the reload button. With no files listed the spinner takes
        precedence while loading, so this screen appears only once loading has stopped. */
    function ShowsErrorScreen(): (b: bool)
      reads this
      ensures b ==> !isLoading && error.Some? && availableFiles == []
    {
      !ShowsGlobalLoader() && error.Some? && availableFiles == []
    }

    predicate ShowsMainView()
      reads this
    {
      !ShowsGlobalLoader() && !ShowsErrorScreen()
    }

    predicate ShowsSetup()
      reads this
    {
      ShowsMainView() && quizState == Setup
    }

    /** The "No Quiz Files Found" card of the main view. */
    predicate ShowsNoFilesCard()
      reads this
    {
      ShowsMainView() && availableFiles == [] && !isLoading && error.None?
    }

    predicate ShowsQuizArea()
      reads this
    {
      ShowsMainView() && quizState == Active && currentQuizQuestions != []
    }

    predicate ShowsResults()
      reads this
    {
      ShowsMainView() && quizState == Results && currentQuizQuestions != []
    }

    /** The `isLoading` prop of the setup form. Whenever it holds, the page shows the
        full-page spinner instead of the form, so the form is never rendered loading. */
    function SetupIsLoading(): (b: bool)
      reads this
      ensures b ==> ShowsGlobalLoader() && !ShowsSetup()
    {
      isLoading && HasSelectedFile() && allLoadedQuestions == [] && error.None?
    }

    /** The results screen receives one answer per question and a non-empty quiz, so the
        scorer's summary loop reads no missing question and the percentage is a number. */
    lemma ResultsAreScorable()
      requires Valid() && ShowsResults()
      ensures QuizResults.AnswersFit(userAnswers, currentQuizQuestions)
      ensures QuizResults.ScorePercentage(0, |currentQuizQuestions|).Some?
    {
    }

    /** "Start Quiz" on the setup form: the form's guards decide with the page's props, and a
        quiz that starts has between one question and the whole pool, taken from the pool
        with distinct ids when the pool has them, so the quiz area is shown next. */
    method ClickStart(numQuestions: string, selectedMode: QuizMode, shuffled: seq<Question>)
      returns (decision: StartDecision)
      requires Valid() && quizState == Setup
      requires multiset(shuffled) == multiset(allLoadedQuestions)
      modifies this
      ensures Valid()
      ensures decision == HandleStart(old(availableFiles) != [], old(allLoadedQuestions) != [],
                                      |old(allLoadedQuestions)|, numQuestions, selectedMode)
      ensures allLoadedQuestions == old(allLoadedQuestions) && availableFiles == old(availableFiles)
      ensures selectedFile == old(selectedFile) && isLoading == old(isLoading) && error == old(error)
      ensures decision.Rejected? ==>
                && quizState == Setup && quizMode == old(quizMode)
                && currentQuizQuestions == old(currentQuizQuestions) && userAnswers == old(userAnswers)
      ensures decision.Start? ==>
                && quizState == Active && quizMode == selectedMode
                && |currentQuizQuestions| == decision.numQuestions
                && 1 <= |currentQuizQuestions| <= |old(allLoadedQuestions)|
                && multiset(currentQuizQuestions) <= multiset(old(allLoadedQuestions))
                && (DistinctIds(old(allLoadedQuestions)) ==> DistinctIds(currentQuizQuestions))
                && userAnswers == QuizArea.EmptySlots(|currentQuizQuestions|)
    {
      decision := HandleStart(availableFiles != [], allLoadedQuestions != [], |allLoadedQuestions|,
                              numQuestions, selectedMode);
      if decision.Start? {
        HandleStartQuiz(decision.numQuestions, decision.mode, shuffled);
        if DistinctIds(allLoadedQuestions) {
          SubMultisetKeepsDistinctIds(allLoadedQuestions, currentQuizQuestions);
        }
      }
    }

    /** "Submit" in the quiz area, which the page renders only for a non-empty quiz: the
        page moves to the results exactly when the session delivers, that is on the last
        question with every slot answered, and then holds exactly the session's answers, all
        of them given. Nothing else changes. */
    method SubmitFromArea(area: QuizArea.QuizArea) returns (submitted: bool)
      requires Valid() && quizState == Active && area.Valid()
      requires area.questions == currentQuizQuestions && currentQuizQuestions != []
      modifies this
      ensures Valid()
      ensures submitted <==> !area.ShowsNextButton() && QuizArea.CountAnswered(area.selectedAnswers) == |area.questions|
      ensures submitted ==> quizState == Results && userAnswers == area.selectedAnswers
      ensures submitted ==> forall i :: 0 <= i < |userAnswers| ==> userAnswers[i].Some?
      ensures !submitted ==> quizState == Active && userAnswers == old(userAnswers)
      ensures currentQuizQuestions == old(currentQuizQuestions) && allLoadedQuestions == old(allLoadedQuestions)
      ensures quizMode == old(quizMode) && error == old(error) && isLoading == old(isLoading)
      ensures availableFiles == old(availableFiles) && selectedFile == old(selectedFile)
    {
      var delivered := area.ClickSubmit();
      if delivered.Some? {
        HandleQuizComplete(delivered.value);
        submitted := true;
      } else {
        submitted := false;
      }
    }
  }

  /** Mounting the page: both effects run before the listing resolves. The second finds no
      selection and no files and stops loading, so until the listing arrives the page shows
      the "No Quiz Files Found" card and the setup form rather than the spinner. */
  method MountBeforeListing() returns (home: Home)
    ensures fresh(home) && home.Valid() && home.quizState == Setup
    ensures home.allLoadedQuestions == [] && home.selectedFile == None && home.quizMode == Testing
    ensures !home.isLoading && home.error == None && home.availableFiles == []
    ensures home.ShowsNoFilesCard() && home.ShowsSetup()
  {
    home := new Home();
    home.BeginInitialize();
    var fetching := home.RunLoadEffect();
  }

  /** Opening the page: once the listing arrives the first file is selected, the second
      effect runs again and loads it, and its questions become the pool. */
  method OpenPageExample(q0: Question, q1: Question, q2: Question)
  {
    var home := MountBeforeListing();
    home.FinishInitialize(Returned(["a.xlsx", "b.xls"]));
    assert home.selectedFile == Some("a.xlsx") && !home.isLoading;
    var fetching := home.RunLoadEffect();
    assert fetching == Some("a.xlsx") && home.isLoading && home.ShowsGlobalLoader();
    home.FinishLoad(fetching.value, Returned([q0, q1, q2]));
    assert home.allLoadedQuestions == [q0, q1, q2] && home.error == None && !home.isLoading;
  }

  /** A quiz of two from a pool of three (shuffled into its own order), completed and retaken: the pool and the mode survive
      the retake. */
  method QuizRoundExample(home: Home, q0: Question, q1: Question, q2: Question)
    requires home.Valid() && home.quizState == Setup && home.allLoadedQuestions == [q0, q1, q2]
    modifies home
  {
    home.HandleStartQuiz(2, Learning, [q0, q1, q2]);
    assert home.currentQuizQuestions == [q0, q1] && home.quizState == Active;
    home.HandleQuizComplete([Some(1), None]);
    home.HandleRetakeQuiz();
    assert home.quizState == Setup && home.allLoadedQuestions == [q0, q1, q2] && home.quizMode == Learning;
  }

  /** A file without valid questions empties the pool, and starting then only sets an error. */
  method EmptyFileExample()
  {
    var home := MountBeforeListing();
    home.FinishInitialize(Returned(["a.xlsx", "b.xls"]));
    home.HandleFileChange("b.xls");
    var fetching := home.RunLoadEffect();
    home.FinishLoad("b.xls", Returned([]));
    assert home.error == Some(NoValidQuestions("b.xls")) && home.allLoadedQuestions == [];
    home.HandleStartQuiz(5, Testing, []);
    assert home.error == Some(EmptyPool) && home.quizState == Setup;
  }
}
