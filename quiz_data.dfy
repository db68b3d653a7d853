/** The records shared by the loader, the quiz session, the scorer and the page. */
module QuizData {
  import opened JsText

  /** One multiple-choice question. JavaScript numbers are modelled as reals, so an id
      such as 1.5, which the loader lets through, is representable. */
  datatype Question = Question(id: real, question: string, options: seq<string>, correctAnswerIndex: int)

  /** The two quiz modes the page offers. */
  datatype QuizMode = Learning | Testing

  /** What every question the loader emits satisfies: a positive id, non-empty trimmed text,
      exactly four trimmed options, a correct index in 0..3 and a non-empty correct option. */
  predicate WellFormed(q: Question) {
    && q.id > 0.0
    && q.question != [] && IsTrimmed(q.question)
    && |q.options| == 4
    && (forall k :: 0 <= k < 4 ==> IsTrimmed(q.options[k]))
    && 0 <= q.correctAnswerIndex <= 3
    && q.options[q.correctAnswerIndex] != []
  }

  /** No two questions share an id. */
  predicate DistinctIds(qs: seq<Question>) {
    forall i, j :: 0 <= i < j < |qs| ==> qs[i].id != qs[j].id
  }
}
