/** The immutable records of the quiz: categories and questions (Category.kt, Question.kt). */
module Domain {

  /** A quiz category. `totalQuestions` is display metadata only: nothing checks it against the catalog. */
  datatype Category = Category(
    id: int,
    name: string,
    description: string,
    iconName: string,
    totalQuestions: int)

  /** A multiple-choice question; `category` is held by value, as the data class holds it. */
  datatype Question = Question(
    id: int,
    text: string,
    options: seq<string>,
    correctAnswerIndex: int,
    category: Category,
    explanation: string)

  /** The shape every catalog question is expected to have: the correct answer is one of the options. */
  predicate WellFormed(q: Question) {
    0 <= q.correctAnswerIndex < |q.options|
  }

  /** No two questions of `qs` share an id. */
  predicate DistinctIds(qs: seq<Question>) {
    forall i, j :: 0 <= i < j < |qs| ==> qs[i].id != qs[j].id
  }
}
