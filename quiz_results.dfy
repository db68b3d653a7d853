/**
 * The scorer of the QuizResults component. The summary counts the answers that equal the
 * correct option index of the question at the same position; the review list marks each
 * question correct or not by the same comparison; the percentage is the share of correct
 * answers rounded half up.
 *
 * A slot past the end of `answers` reads as `undefined` in the review list, which equals no
 * option index, so `Marked` is false there.
 */
module QuizResults {
  import opened Wrappers
  import opened QuizData

  /** The summary loop reads `questions[index]` for every non-null answer, so it stops with a
      TypeError unless every answer past the last question is null. */
  predicate AnswersFit(answers: seq<Option<int>>, questions: seq<Question>) {
    forall i :: |questions| <= i < |answers| ==> answers[i].None?
  }

  /** The summary loop's test for the answer at `index`. */
  predicate CountsAsCorrect(answers: seq<Option<int>>, questions: seq<Question>, index: nat)
    requires index < |answers| && AnswersFit(answers, questions)
  {
    answers[index].Some? && answers[index].value == questions[index].correctAnswerIndex
  }

  /** The number of correct answers among the first `k`, as the summary loop counts them. */
  function Tally(answers: seq<Option<int>>, questions: seq<Question>, k: nat): (n: nat)
    requires k <= |answers| && AnswersFit(answers, questions)
    ensures n <= k
  {
    if k == 0 then 0
    else Tally(answers, questions, k - 1) + (if CountsAsCorrect(answers, questions, k - 1) then 1 else 0)
  }

  /** `correctCount`: the `forEach` over the answers. */
  method CountCorrect(answers: seq<Option<int>>, questions: seq<Question>) returns (correctCount: nat)
    requires AnswersFit(answers, questions)
    ensures correctCount == Tally(answers, questions, |answers|)
  {
    correctCount := 0;
    var index := 0;
    while index < |answers|
      invariant index <= |answers|
      invariant correctCount == Tally(answers, questions, index)
    {
      var answer := answers[index];
      if answer.Some? && answer.value == questions[index].correctAnswerIndex {
        correctCount := correctCount + 1;
      }
      index := index + 1;
    }
  }

  /** The review list's `isCorrect` for the question at `index`. Where the summary loop also
      looks at the answer, the two tests agree. */
  function Marked(answers: seq<Option<int>>, questions: seq<Question>, index: nat): (m: bool)
    requires index < |questions|
    ensures index < |answers| && AnswersFit(answers, questions) ==>
              (m <==> CountsAsCorrect(answers, questions, index))
  {
    index < |answers| && answers[index] == Some(questions[index].correctAnswerIndex)
  }

  /** The number of questions among the first `k` that the review list marks correct. */
  function MarkedUpTo(answers: seq<Option<int>>, questions: seq<Question>, k: nat): (n: nat)
    requires k <= |questions|
    ensures n <= k
  {
    if k == 0 then 0
    else MarkedUpTo(answers, questions, k - 1) + (if Marked(answers, questions, k - 1) then 1 else 0)
  }

  /** The number of questions among the first `k` that the review list marks wrong. */
  function CrossedUpTo(answers: seq<Option<int>>, questions: seq<Question>, k: nat): (n: nat)
    requires k <= |questions|
    ensures n <= k
  {
    if k == 0 then 0
    else CrossedUpTo(answers, questions, k - 1) + (if Marked(answers, questions, k - 1) then 0 else 1)
  }

  /** No question is marked correct past the last answer. */
  lemma {:induction false} NoMarksPastAnswers(answers: seq<Option<int>>, questions: seq<Question>, k: nat)
    requires |answers| <= k <= |questions|
    ensures MarkedUpTo(answers, questions, k) == MarkedUpTo(answers, questions, |answers|)
  {
    if k > |answers| {
      NoMarksPastAnswers(answers, questions, k - 1);
    }
  }

  /** The summary tally of the first `k` answers equals the check marks on the first
      `min(k, |questions|)` questions. */
  lemma {:induction false} TallyIsMarkedPrefix(answers: seq<Option<int>>, questions: seq<Question>, k: nat)
    requires k <= |answers| && AnswersFit(answers, questions)
    ensures Tally(answers, questions, k) == MarkedUpTo(answers, questions, if k <= |questions| then k else |questions|)
  {
    if k > 0 {
      TallyIsMarkedPrefix(answers, questions, k - 1);
    }
  }

  /** The number of check marks in the review list equals `correctCount`. */
  lemma TallyMatchesMarks(answers: seq<Option<int>>, questions: seq<Question>)
    requires AnswersFit(answers, questions)
    ensures Tally(answers, questions, |answers|) == MarkedUpTo(answers, questions, |questions|)
  {
    TallyIsMarkedPrefix(answers, questions, |answers|);
    if |answers| < |questions| {
      NoMarksPastAnswers(answers, questions, |questions|);
    }
  }

  /** Every question is marked either correct or wrong. */
  lemma {:induction false} MarksPartition(answers: seq<Option<int>>, questions: seq<Question>, k: nat)
    requires k <= |questions|
    ensures MarkedUpTo(answers, questions, k) + CrossedUpTo(answers, questions, k) == k
  {
    if k > 0 {
      MarksPartition(answers, questions, k - 1);
    }
  }

  /** All `k` questions are marked correct exactly when each of them is. */
  lemma {:induction false} AllMarkedIff(answers: seq<Option<int>>, questions: seq<Question>, k: nat)
    requires k <= |questions|
    ensures MarkedUpTo(answers, questions, k) == k <==> forall i :: 0 <= i < k ==> Marked(answers, questions, i)
  {
    if k > 0 {
      AllMarkedIff(answers, questions, k - 1);
    }
  }

  /** No question is marked correct exactly when none of them is. */
  lemma {:induction false} NoneMarkedIff(answers: seq<Option<int>>, questions: seq<Question>, k: nat)
    requires k <= |questions|
    ensures MarkedUpTo(answers, questions, k) == 0 <==> forall i :: 0 <= i < k ==> !Marked(answers, questions, i)
  {
    if k > 0 {
      NoneMarkedIff(answers, questions, k - 1);
    }
  }

  /** An unanswered question is never marked correct. */
  lemma UnansweredIsNeverCorrect(answers: seq<Option<int>>, questions: seq<Question>, index: nat)
    requires index < |questions| && (index >= |answers| || answers[index].None?)
    ensures !Marked(answers, questions, index)
  {
  }

  /** `correctCount`, `wrongCount` and the percentage shown in the summary. */
  datatype Score = Score(correct: nat, wrong: int, percentage: Option<nat>)

  /** `Math.round(correct / total * 100)` in exact arithmetic: `None` stands for the NaN of
      an empty quiz; otherwise the nearest integer to `100 * correct / total`, a half going up. */
  function ScorePercentage(correct: nat, total: nat): (p: Option<nat>)
    ensures p.None? <==> total == 0
    ensures p.Some? ==> (2 * p.value - 1) * total <= 200 * correct < (2 * p.value + 1) * total
  {
    if total == 0 then None else Some((200 * correct + total) / (2 * total))
  }

  /** A share of at most the whole is at most 100 percent. */
  lemma PercentageAtMost100(correct: nat, total: nat)
    requires total > 0 && correct <= total
    ensures ScorePercentage(correct, total).value <= 100
  {
    var p := ScorePercentage(correct, total).value;
    assert (2 * p - 1) * total <= 200 * total;
    CancelFactor(2 * p - 1, 201, total);
  }

  /** Comparing two multiples of the same positive factor compares the multipliers. */
  lemma CancelFactor(a: int, b: int, t: nat)
    requires t > 0 && a * t < b * t
    ensures a < b
  {
    if a >= b {
      MulMonotone(a, b, t);
      assert false;
    }
  }

  /** Everything right is 100 percent, nothing right is 0 percent. */
  lemma PercentageEnds(total: nat)
    requires total > 0
    ensures ScorePercentage(total, total) == Some(100)
    ensures ScorePercentage(0, total) == Some(0)
  {
    DivisionOfQuotient(100, total, 2 * total);
    DivisionOfQuotient(0, total, 2 * total);
  }

  /** Dividing `q * d + r` by `d` gives back `q` when the remainder `r` is below `d`. */
  lemma DivisionOfQuotient(q: nat, r: nat, d: nat)
    requires r < d
    ensures (q * d + r) / d == q
  {
    var k := (q * d + r) / d;
    var m := (q * d + r) % d;
    assert d * k + m == q * d + r;
    if k > q {
      MulMonotone(k, q + 1, d);
      assert false;
    } else if k < q {
      MulMonotone(q, k + 1, d);
      assert false;
    }
  }

  /** Multiplying by a natural number keeps the order. */
  lemma {:induction false} MulMonotone(a: int, b: int, t: nat)
    ensures a >= b ==> a * t >= b * t
  {
    if a >= b && t > 0 {
      MulMonotone(a, b, t - 1);
      assert a * t == a * (t - 1) + a && b * t == b * (t - 1) + b;
    }
  }

  /** More correct answers never give a lower percentage. */
  lemma PercentageMonotone(c1: nat, c2: nat, total: nat)
    requires total > 0 && c1 <= c2
    ensures ScorePercentage(c1, total).value <= ScorePercentage(c2, total).value
  {
    var p1 := ScorePercentage(c1, total).value;
    var p2 := ScorePercentage(c2, total).value;
    assert (2 * p1 - 1) * total < (2 * p2 + 1) * total;
    CancelFactor(2 * p1 - 1, 2 * p2 + 1, total);
  }

  /** The summary of the results screen. */
  method Summarize(answers: seq<Option<int>>, questions: seq<Question>) returns (s: Score)
    requires AnswersFit(answers, questions)
    ensures s.correct == MarkedUpTo(answers, questions, |questions|)
    ensures s.wrong == CrossedUpTo(answers, questions, |questions|) && s.wrong == |questions| - s.correct
    ensures s.percentage == ScorePercentage(s.correct, |questions|)
    ensures |questions| > 0 ==> s.percentage.Some? && s.percentage.value <= 100
  {
    var correctCount := CountCorrect(answers, questions);
    TallyMatchesMarks(answers, questions);
    MarksPartition(answers, questions, |questions|);
    var wrongCount := |questions| - correctCount;
    if |questions| > 0 {
      PercentageAtMost100(correctCount, |questions|);
    }
    s := Score(correctCount, wrongCount, ScorePercentage(correctCount, |questions|));
  }

  /** Two of three right is 67 percent; one of two is 50; one of eight (12.5) rounds up to 13. */
  lemma PercentageExamples()
    ensures ScorePercentage(2, 3) == Some(67)
    ensures ScorePercentage(1, 2) == Some(50)
    ensures ScorePercentage(1, 8) == Some(13)
    ensures ScorePercentage(0, 0) == None
  {
  }
}
