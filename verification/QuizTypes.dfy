/** Values shared by the quiz modules: a drawn question, an answer row, an attempt's status. */
module QuizTypes {

  import opened Wrappers

  /** A per-question time limit, in whole seconds. */
  type Limit = n: int | 0 < n witness 1

  /** One entry of `questions_snapshot`. A missing or zero limit is resolved to None at draw time. */
  datatype Question = Question(id: int, points: nat, limit: Option<Limit>)

  /** One `quiz_answers` row. */
  datatype Answer = Answer(questionId: int, correct: bool, points: int, timedOut: bool)

  datatype AttemptStatus = InProgress | Completed | TimedOut | ViolationFail

  predicate Terminal(status: AttemptStatus) {
    status != InProgress
  }

  /** Question ids are positions in the config list, so a draw never repeats one. */
  ghost predicate DistinctIds(questions: seq<Question>) {
    forall i, j :: 0 <= i < j < |questions| ==> questions[i].id != questions[j].id
  }
}
