/** Overrides and regrades in the form the server runs them: rows overwritten or appended in
    a loop, and a cohort of attempts re-scored one after the other.
 */
module ScoreRecord {
  import opened QuizTypes
  import Scoring

  /** Crediting other questions leaves the row of this one where it was. */
  lemma {:induction false} CreditLeavesRow(answers: seq<Answer>, questions: seq<Question>, ids: set<int>, id: int)
    requires forall k :: 0 <= k < |questions| ==> questions[k].id != id
    ensures Scoring.LastRow(Scoring.Credit(answers, questions, ids), id) == Scoring.LastRow(answers, id)
  {
    if questions != [] {
      var front := questions[..|questions| - 1];
      CreditLeavesRow(answers, front, ids, id);
      var done := Scoring.Credit(answers, front, ids);
      var out := Scoring.CreditOne(done, questions[|questions| - 1]);
      assert forall i :: 0 <= i < |done| ==> out[i].questionId == done[i].questionId;
      assert |out| > |done| ==> out[|done|].questionId != id;
      var p, r := Scoring.LastRow(done, id), Scoring.LastRow(out, id);
      assert r >= 0 ==> done[r].questionId == id;
      assert p >= 0 ==> out[p].questionId == id;
    }
  }

  lemma {:induction false} CreditNothing(answers: seq<Answer>, questions: seq<Question>)
    ensures Scoring.Credit(answers, questions, {}) == answers
  {
    if questions != [] { CreditNothing(answers, questions[..|questions| - 1]); }
  }

  class AttemptSheet {
    const questions: seq<Question>
    const threshold: real
    const forceFail: bool
    var answers: seq<Answer>
    var status: AttemptStatus
    var isPassed: bool
    var score: int
    var maxScore: int

    constructor (questions: seq<Question>, answers: seq<Answer>, threshold: real, forceFail: bool)
      ensures Value() == Scoring.Sheet(questions, answers, threshold, forceFail, InProgress, false, 0, 0)
    {
      this.questions, this.answers, this.threshold, this.forceFail := questions, answers, threshold, forceFail;
      status, isPassed, score, maxScore := InProgress, false, 0, 0;
    }

    function Value(): Scoring.Sheet
      reads this
    {
      Scoring.Sheet(questions, answers, threshold, forceFail, status, isPassed, score, maxScore)
    }

    /** The `by_question` dictionary: the last row of each question. */
    method RowsByQuestion() returns (rows: map<int, nat>)
      ensures forall id :: id in rows <==> Scoring.LastRow(answers, id) >= 0
      ensures forall id :: id in rows ==> rows[id] == Scoring.LastRow(answers, id)
    {
      rows := map[];
      for i := 0 to |answers|
        invariant forall id :: id in rows <==> Scoring.LastRow(answers[..i], id) >= 0
        invariant forall id :: id in rows ==> rows[id] == Scoring.LastRow(answers[..i], id)
      {
        assert answers[..i + 1][..i] == answers[..i];
        rows := rows[answers[i].questionId := i];
      }
      assert answers[..|answers|] == answers;
    }

    method ApplyQuestionOverrides(ids: set<int>) returns (changed: nat)
      requires DistinctIds(questions)
      modifies this`answers
      ensures answers == Scoring.Credit(old(answers), questions, ids)
      ensures changed == |set k | 0 <= k < |questions| && questions[k].id in ids|
    {
      if ids == {} {
        CreditNothing(answers, questions);
        assert (set k | 0 <= k < |questions| && questions[k].id in ids) == {};
        return 0;
      }
      var rows := RowsByQuestion();
      ghost var before := answers;
      changed := 0;
      for n := 0 to |questions|
        invariant answers == Scoring.Credit(before, questions[..n], ids)
        invariant changed == |set k | 0 <= k < n && questions[k].id in ids|
      {
        var q := questions[n];
        assert questions[..n + 1][..n] == questions[..n];
        ghost var upto := set k | 0 <= k < n && questions[k].id in ids;
        if q.id in ids {
          CreditLeavesRow(before, questions[..n], ids, q.id);
          if q.id in rows {
            var r := rows[q.id];
            answers := answers[r := answers[r].(correct := true, points := q.points)];
          } else {
            answers := answers + [Answer(q.id, true, q.points, false)];
          }
          changed := changed + 1;
          assert (set k | 0 <= k < n + 1 && questions[k].id in ids) == upto + {n};
        } else {
          assert (set k | 0 <= k < n + 1 && questions[k].id in ids) == upto;
        }
      }
      assert questions[..|questions|] == questions;
    }

    method ScoreAttempt()
      modifies this`score, this`maxScore, this`isPassed
      ensures Value() == Scoring.Scored(old(Value()))
    {
      score, maxScore := Scoring.PointsOf(answers), Scoring.MaxScore(questions);
      isPassed := !forceFail && Scoring.Verdict(score, maxScore, threshold);
    }

    method Finalize(ruled: set<int>, outcome: AttemptStatus)
      requires DistinctIds(questions)
      modifies this
      ensures Value() == Scoring.Finalize(old(Value()), ruled, outcome)
    {
      var _ := ApplyQuestionOverrides(ruled);
      ScoreAttempt();
      status := if forceFail then ViolationFail else outcome;
    }
  }

  /** `regrade_question`: every attempt of the cohort that the ruling can still change is
      re-scored, the others are left alone; returns the positions that flipped to passing. */
  method RegradeQuestion(cohort: seq<AttemptSheet>, id: int) returns (flipped: seq<nat>)
    requires forall i, j :: 0 <= i < j < |cohort| ==> cohort[i] != cohort[j]
    requires forall i :: 0 <= i < |cohort| ==> DistinctIds(cohort[i].questions)
    modifies cohort
    ensures forall i :: 0 <= i < |cohort| ==> cohort[i].Value() == Scoring.Regrade(old(cohort[i].Value()), id)
    ensures forall i :: i in flipped <==> 0 <= i < |cohort| && cohort[i].isPassed && !old(cohort[i].isPassed)
  {
    flipped := [];
    for n := 0 to |cohort|
      invariant forall i :: 0 <= i < n ==> cohort[i].Value() == Scoring.Regrade(old(cohort[i].Value()), id)
      invariant forall i :: n <= i < |cohort| ==> cohort[i].Value() == old(cohort[i].Value())
      invariant forall i :: i in flipped <==> 0 <= i < n && cohort[i].isPassed && !old(cohort[i].isPassed)
    {
      var s := cohort[n];
      if Scoring.Regradable(s.Value(), id) {
        ghost var before := s.Value();
        var _ := s.ApplyQuestionOverrides({id});
        s.ScoreAttempt();
        assert s.Value() == Scoring.Regrade(before, id);
        if s.isPassed { flipped := flipped + [n]; }
      }
    }
  }
}
