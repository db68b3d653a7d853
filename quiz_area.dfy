/**
 * The quiz session of the QuizArea component: the index of the question on screen and one
 * answer slot per question, `null` until an option is chosen. Choosing an option overwrites
 * the slot of the current question; "Next" moves one question forward; "Submit" hands the
 * slots to the page. The buttons are gated as the component renders them.
 *
 * Answers are not locked in any mode: the session never receives the quiz mode, so an
 * answer can be changed until the quiz is submitted.
 */
module QuizArea {
  import opened Wrappers
  import opened QuizData

  /** The "Answered" counter: the slots that hold an answer. */
  function CountAnswered(s: seq<Option<int>>): (n: nat)
    ensures n <= |s|
  {
    if s == [] then 0 else (if s[0].Some? then 1 else 0) + CountAnswered(s[1..])
  }

  /** The counter reaches the number of slots exactly when every slot is answered. */
  lemma {:induction false} CountIsLengthIffAllAnswered(s: seq<Option<int>>)
    ensures CountAnswered(s) == |s| <==> forall i :: 0 <= i < |s| ==> s[i].Some?
  {
    if s != [] {
      CountIsLengthIffAllAnswered(s[1..]);
      if forall i :: 0 <= i < |s| ==> s[i].Some? {
        assert forall i :: 0 <= i < |s[1..]| ==> s[1..][i].Some? by {
          forall i | 0 <= i < |s[1..]| ensures s[1..][i].Some? { assert s[1..][i] == s[i + 1]; }
        }
      }
      if CountAnswered(s) == |s| {
        forall i | 0 <= i < |s| ensures s[i].Some? {
          if i > 0 { assert s[i] == s[1..][i - 1]; }
        }
      }
    }
  }

  /** The counter is zero exactly when no slot is answered. */
  lemma {:induction false} CountIsZeroIffNoneAnswered(s: seq<Option<int>>)
    ensures CountAnswered(s) == 0 <==> forall i :: 0 <= i < |s| ==> s[i].None?
  {
    if s != [] {
      CountIsZeroIffNoneAnswered(s[1..]);
      if forall i :: 0 <= i < |s| ==> s[i].None? {
        assert forall i :: 0 <= i < |s[1..]| ==> s[1..][i].None? by {
          forall i | 0 <= i < |s[1..]| ensures s[1..][i].None? { assert s[1..][i] == s[i + 1]; }
        }
      }
      if CountAnswered(s) == 0 {
        forall i | 0 <= i < |s| ensures s[i].None? {
          if i > 0 { assert s[i] == s[1..][i - 1]; }
        }
      }
    }
  }

  /** Answering slot `i` raises the counter by one when it was empty and leaves it unchanged
      when an answer is being replaced. */
  lemma {:induction false} CountAfterAnswer(s: seq<Option<int>>, i: nat, o: int)
    requires i < |s|
    ensures CountAnswered(s[i := Some(o)]) == CountAnswered(s) + (if s[i].None? then 1 else 0)
  {
    if i == 0 {
      assert s[i := Some(o)][1..] == s[1..];
    } else {
      CountAfterAnswer(s[1..], i - 1, o);
      assert s[i := Some(o)][1..] == s[1..][i - 1 := Some(o)];
    }
  }

  /** A sequence of `n` empty slots: `Array(n).fill(null)`. */
  function EmptySlots(n: nat): (s: seq<Option<int>>)
    ensures |s| == n && forall i :: 0 <= i < n ==> s[i].None?
  {
    seq(n, _ => None)
  }

  class QuizArea {
    const questions: seq<Question>
    var currentQuestionIndex: nat
    var selectedAnswers: seq<Option<int>>

    /** One slot per question, and the index names a question (or is 0 for an empty quiz). */
    predicate Valid()
      reads this
    {
      && |selectedAnswers| == |questions|
      && (currentQuestionIndex == 0 || currentQuestionIndex < |questions|)
    }

    /** The session starts on the first question with every slot empty. */
    constructor (questions: seq<Question>)
      ensures Valid()
      ensures this.questions == questions
      ensures currentQuestionIndex == 0
      ensures selectedAnswers == EmptySlots(|questions|)
    {
      this.questions := questions;
      currentQuestionIndex := 0;
      selectedAnswers := EmptySlots(|questions|);
    }

    /** `handleOptionSelect`: the current question's slot becomes `optionIndex`, whether or
        not it held an answer; every other slot and the index stay as they were. The option
        buttons exist only when there is a question on screen. */
    method HandleOptionSelect(optionIndex: int)
      requires Valid() && |questions| > 0
      modifies this
      ensures Valid()
      ensures selectedAnswers == old(selectedAnswers)[old(currentQuestionIndex) := Some(optionIndex)]
      ensures currentQuestionIndex == old(currentQuestionIndex)
    {
      var newAnswers := selectedAnswers;
      newAnswers := newAnswers[currentQuestionIndex := Some(optionIndex)];
      selectedAnswers := newAnswers;
    }

    /** `handleNextQuestion`: one question forward, unless the last question is on screen.
        The index never moves backward and the answers are untouched. */
    method HandleNextQuestion()
      requires Valid()
      modifies this
      ensures Valid()
      ensures old(currentQuestionIndex) < |questions| - 1 ==> currentQuestionIndex == old(currentQuestionIndex) + 1
      ensures old(currentQuestionIndex) >= |questions| - 1 ==> currentQuestionIndex == old(currentQuestionIndex)
      ensures currentQuestionIndex >= old(currentQuestionIndex)
      ensures selectedAnswers == old(selectedAnswers)
    {
      if currentQuestionIndex < |questions| - 1 {
        currentQuestionIndex := currentQuestionIndex + 1;
      }
    }

    /** `handleSubmitQuiz`: the answers handed to `onQuizComplete`, exactly the slots. */
    method HandleSubmitQuiz() returns (answers: seq<Option<int>>)
      requires Valid()
      ensures answers == selectedAnswers && |answers| == |questions|
    {
      answers := selectedAnswers;
    }

    /** The "Answered" counter shown below the question. */
    function AnsweredCount(): nat
      reads this
    {
      CountAnswered(selectedAnswers)
    }

    /** "Next" is rendered on every question but the last; "Submit" on the last. In a valid,
        non-empty session exactly one of the two is rendered, "Submit" on the last question. */
    function ShowsNextButton(): (b: bool)
      reads this
      ensures Valid() && |questions| > 0 ==> (b <==> currentQuestionIndex != |questions| - 1)
    {
      currentQuestionIndex < |questions| - 1
    }

    /** "Next" is disabled while the current question has no answer; then the "Answered"
        counter is below the number of questions. */
    function NextButtonDisabled(): (b: bool)
      requires Valid() && |questions| > 0
      reads this
      ensures b ==> CountAnswered(selectedAnswers) < |questions|
    {
      CountIsLengthIffAllAnswered(selectedAnswers);
      selectedAnswers[currentQuestionIndex].None?
    }

    /** "Submit" is disabled while some slot has no answer: exactly while the "Answered"
        counter is below the number of slots. */
    function SubmitButtonDisabled(): (b: bool)
      reads this
      ensures b <==> CountAnswered(selectedAnswers) < |selectedAnswers|
    {
      CountIsLengthIffAllAnswered(selectedAnswers);
      exists i :: 0 <= i < |selectedAnswers| && selectedAnswers[i].None?
    }

    /** A click on the button in the footer, when one is rendered and enabled: "Next" moves on
        only from an answered, non-last question; otherwise nothing changes. */
    method ClickNext()
      requires Valid() && |questions| > 0
      modifies this
      ensures Valid()
      ensures selectedAnswers == old(selectedAnswers)
      ensures currentQuestionIndex == (if old(currentQuestionIndex) < |questions| - 1
                                          && old(selectedAnswers)[old(currentQuestionIndex)].Some?
                                       then old(currentQuestionIndex) + 1 else old(currentQuestionIndex))
    {
      if ShowsNextButton() && !NextButtonDisabled() {
        HandleNextQuestion();
      }
    }

    /** A click on "Submit": delivered only from the last question with every slot answered,
        and then the delivered answers are the slots, all of them answers. The footer exists
        only when there is a question on screen. */
    method ClickSubmit() returns (delivered: Option<seq<Option<int>>>)
      requires Valid() && |questions| > 0
      ensures delivered.Some? <==> !ShowsNextButton() && CountAnswered(selectedAnswers) == |questions|
      ensures delivered.Some? ==> delivered.value == selectedAnswers
      ensures delivered.Some? ==> forall i :: 0 <= i < |delivered.value| ==> delivered.value[i].Some?
    {
      CountIsLengthIffAllAnswered(selectedAnswers);
      if !ShowsNextButton() && !SubmitButtonDisabled() {
        var answers := HandleSubmitQuiz();
        delivered := Some(answers);
      } else {
        delivered := None;
      }
    }
  }

  /** A concrete session: answering the first of two questions enables "Next", moving on
      shows "Submit", which stays disabled until the second question is answered. */
  method SessionExample(q0: Question, q1: Question)
  {
    var area := new QuizArea([q0, q1]);
    assert area.ShowsNextButton() && area.NextButtonDisabled();
    area.HandleOptionSelect(2);
    assert !area.NextButtonDisabled();
    area.ClickNext();
    assert area.currentQuestionIndex == 1 && !area.ShowsNextButton();
    var early := area.ClickSubmit();
    assert area.selectedAnswers == [Some(2), None];
    assert CountAnswered(area.selectedAnswers) == 1;
    assert early.None?;
    area.HandleOptionSelect(0);
    assert area.selectedAnswers == [Some(2), Some(0)];
    assert CountAnswered(area.selectedAnswers) == 2;
    var done := area.ClickSubmit();
    assert done == Some([Some(2), Some(0)]);
  }
}
