/** Scoring an attempt, and re-scoring it when a question is ruled broken. */
module Scoring {
  // The score comes from the rows and the frozen draw; a ruling credits its question, also in
  // attempts that finished before it landed.

  import opened QuizTypes
  import opened Wrappers
  import AttemptClock

  /** The part of an attempt that scoring reads and writes. */
  datatype Sheet = Sheet(
    questions: seq<Question>,
    answers: seq<Answer>,
    threshold: real,
    forceFail: bool,
    status: AttemptStatus,
    isPassed: bool,
    score: int,
    maxScore: int)

  // ---------------------------------------------------------------- the rule

  function PointsOf(answers: seq<Answer>): int {
    if answers == [] then 0 else PointsOf(answers[..|answers| - 1]) + answers[|answers| - 1].points
  }

  function MaxScore(questions: seq<Question>): nat {
    if questions == [] then 0 else questions[0].points + MaxScore(questions[1..])
  }

  predicate Verdict(score: int, maxScore: int, threshold: real) {
    maxScore > 0 && score as real / maxScore as real >= threshold
  }

  /** `score_attempt`, stored on the sheet. */
  function Scored(s: Sheet): Sheet {
    var score, maxScore := PointsOf(s.answers), MaxScore(s.questions);
    s.(score := score, maxScore := maxScore,
       isPassed := !s.forceFail && Verdict(score, maxScore, s.threshold))
  }

  /** The pass mark: a score passes exactly when it reaches the threshold's share of a positive
      maximum. So a full score passes every threshold up to 1, and reaching it exactly is enough. */
  lemma VerdictMeans(score: int, maxScore: int, threshold: real)
    ensures Verdict(score, maxScore, threshold) <==> maxScore > 0 && score as real >= threshold * maxScore as real
    ensures maxScore > 0 && threshold <= 1.0 ==> Verdict(maxScore, maxScore, threshold)
    ensures maxScore > 0 && score as real == threshold * maxScore as real ==> Verdict(score, maxScore, threshold)
  {
    if maxScore > 0 {
      ShareReaches(score as real, maxScore as real, threshold);
      ShareReaches(maxScore as real, maxScore as real, threshold);
      AtMostWhole(maxScore as real, threshold);
    }
  }

  lemma ShareReaches(s: real, m: real, t: real)
    requires m > 0.0
    ensures s / m >= t <==> s >= t * m
  {
    var share := s / m;
    assert share * m == s;
    assert (share - t) * m == s - t * m;
    if share >= t { assert (share - t) * m >= 0.0; } else { assert (t - share) * m > 0.0; }
  }

  lemma AtMostWhole(m: real, t: real)
    requires m > 0.0
    ensures t <= 1.0 ==> t * m <= m
  {
    if t <= 1.0 { assert (1.0 - t) * m >= 0.0; }
  }

  // ---------------------------------------------------------------- overrides

  /** Position of the last row for a question, or -1. */
  function LastRow(answers: seq<Answer>, id: int): (r: int)
    ensures -1 <= r < |answers|
    ensures r >= 0 ==> answers[r].questionId == id
    ensures forall i :: r < i < |answers| ==> answers[i].questionId != id
  {
    if answers == [] then -1
    else if answers[|answers| - 1].questionId == id then |answers| - 1
    else LastRow(answers[..|answers| - 1], id)
  }

  function CreditOne(answers: seq<Answer>, q: Question): seq<Answer> {
    var r := LastRow(answers, q.id);
    if r >= 0 then answers[r := answers[r].(correct := true, points := q.points)]
    else answers + [Answer(q.id, true, q.points, false)]
  }

  /** `apply_question_overrides`: full credit for every overridden question of the draw. */
  function Credit(answers: seq<Answer>, questions: seq<Question>, ids: set<int>): seq<Answer> {
    if questions == [] then answers else
    var done := Credit(answers, questions[..|questions| - 1], ids);
    var q := questions[|questions| - 1];
    if q.id in ids then CreditOne(done, q) else done
  }

  // ---------------------------------------------------------------- reference meaning

  /** At most one row per drawn question, each worth between 0 and the question's points. */
  ghost predicate WellFormed(answers: seq<Answer>, questions: seq<Question>) {
    (forall i, j :: 0 <= i < j < |answers| ==> answers[i].questionId != answers[j].questionId)
    && (forall i :: 0 <= i < |answers| ==> InDraw(answers[i], questions))
  }

  ghost predicate InDraw(row: Answer, questions: seq<Question>) {
    exists k :: 0 <= k < |questions| && questions[k].id == row.questionId && 0 <= row.points <= questions[k].points
  }

  function Earned(answers: seq<Answer>, id: int): int {
    var r := LastRow(answers, id);
    if r >= 0 then answers[r].points else 0
  }

  /** What the answers are worth, question by question, with the ruled ones credited at once. */
  function CreditedScore(answers: seq<Answer>, questions: seq<Question>, ruled: set<int>): int {
    if questions == [] then 0 else
    (if questions[0].id in ruled then questions[0].points else Earned(answers, questions[0].id))
    + CreditedScore(answers, questions[1..], ruled)
  }

  lemma EarnedOf(answers: seq<Answer>, k: nat)
    requires k < |answers|
    requires forall i, j :: 0 <= i < j < |answers| ==> answers[i].questionId != answers[j].questionId
    ensures LastRow(answers, answers[k].questionId) == k
  {
  }

  lemma {:induction false} EarnedBounds(answers: seq<Answer>, questions: seq<Question>, k: nat)
    requires DistinctIds(questions) && WellFormed(answers, questions) && k < |questions|
    ensures 0 <= Earned(answers, questions[k].id) <= questions[k].points
  {
    var r := LastRow(answers, questions[k].id);
    if r >= 0 {
      assert InDraw(answers[r], questions);
    }
  }

  /** Adding a row for a new question adds its points exactly once. */
  lemma {:induction false} CreditedScoreAppend(answers: seq<Answer>, row: Answer, questions: seq<Question>)
    requires DistinctIds(questions)
    requires forall i :: 0 <= i < |answers| ==> answers[i].questionId != row.questionId
    ensures CreditedScore(answers + [row], questions, {}) == CreditedScore(answers, questions, {})
            + if exists k :: 0 <= k < |questions| && questions[k].id == row.questionId then row.points else 0
  {
    if questions != [] {
      CreditedScoreAppend(answers, row, questions[1..]);
      var longer := answers + [row];
      assert longer[..|longer| - 1] == answers;
      if questions[0].id == row.questionId {
        assert LastRow(answers, row.questionId) == -1;
        assert forall k :: 0 <= k < |questions[1..]| ==> questions[1..][k] == questions[k + 1];
      } else if exists k :: 0 <= k < |questions| && questions[k].id == row.questionId {
        var k :| 0 <= k < |questions| && questions[k].id == row.questionId;
        assert questions[1..][k - 1].id == row.questionId;
      }
    }
  }

  lemma {:induction false} NoRowsNoPoints(questions: seq<Question>)
    ensures CreditedScore([], questions, {}) == 0
  {
    if questions != [] { NoRowsNoPoints(questions[1..]); }
  }

  /** Summing rows and summing questions agree when no question has two rows. */
  lemma {:induction false} PointsByQuestion(answers: seq<Answer>, questions: seq<Question>)
    requires DistinctIds(questions) && WellFormed(answers, questions)
    ensures PointsOf(answers) == CreditedScore(answers, questions, {})
  {
    if answers == [] {
      NoRowsNoPoints(questions);
    } else {
      var front, row := answers[..|answers| - 1], answers[|answers| - 1];
      assert forall i :: 0 <= i < |front| ==> InDraw(answers[i], questions);
      PointsByQuestion(front, questions);
      CreditedScoreAppend(front, row, questions);
      assert front + [row] == answers;
      assert InDraw(row, questions);
    }
  }

  // ---------------------------------------------------------------- crediting

  /** What one override does to the rows: the question's last row becomes correct and worth full
      points, or such a row is added; no other row changes. */
  lemma CreditOneExactly(answers: seq<Answer>, q: Question)
    ensures var r, out := LastRow(answers, q.id), CreditOne(answers, q);
            if r >= 0 then
              |out| == |answers| && out[r] == Answer(q.id, true, q.points, answers[r].timedOut)
              && forall i :: 0 <= i < |answers| && i != r ==> out[i] == answers[i]
            else out == answers + [Answer(q.id, true, q.points, false)]
  {
  }

  /** Crediting every question gives the maximum. */
  lemma {:induction false} FullCredit(answers: seq<Answer>, questions: seq<Question>, all: set<int>)
    requires forall k :: 0 <= k < |questions| ==> questions[k].id in all
    ensures CreditedScore(answers, questions, all) == MaxScore(questions)
  {
    if questions != [] {
      assert forall k :: 0 <= k < |questions[1..]| ==> questions[1..][k] == questions[k + 1];
      FullCredit(answers, questions[1..], all);
    }
  }

  /** The maximum is what the questions are worth together. */
  lemma {:induction false} MaxScoreAddsUp(questions: seq<Question>, q: Question)
    ensures MaxScore([]) == 0 && MaxScore(questions + [q]) == MaxScore(questions) + q.points
  {
    if questions == [] {
      assert ([] + [q])[1..] == [];
    } else {
      assert (questions + [q])[1..] == questions[1..] + [q];
      MaxScoreAddsUp(questions[1..], q);
    }
  }

  lemma CreditOneMeans(answers: seq<Answer>, q: Question, questions: seq<Question>, k: nat)
    requires DistinctIds(questions) && WellFormed(answers, questions)
    requires k < |questions| && q == questions[k]
    ensures WellFormed(CreditOne(answers, q), questions)
    ensures Earned(CreditOne(answers, q), q.id) == q.points
    ensures forall id :: id != q.id ==> Earned(CreditOne(answers, q), id) == Earned(answers, id)
  {
    var r := LastRow(answers, q.id);
    var out := CreditOne(answers, q);
    var row := if r >= 0 then out[r] else out[|answers|];
    assert InDraw(row, questions) by { assert questions[k].id == row.questionId; }
    forall i | 0 <= i < |out| ensures InDraw(out[i], questions) {
      if i < |answers| { assert InDraw(answers[i], questions); }
    }
    EarnedOf(out, if r >= 0 then r else |answers|);
    forall id | id != q.id ensures Earned(out, id) == Earned(answers, id) {
      var p := LastRow(answers, id);
      if p >= 0 {
        assert out[p] == answers[p];
        EarnedOf(out, p);
      } else {
        assert LastRow(out, id) == -1;
      }
    }
  }

  /** Crediting sets exactly the overridden questions of the draw to full points. */
  lemma {:induction false} CreditMeans(answers: seq<Answer>, questions: seq<Question>, n: nat, ids: set<int>)
    requires DistinctIds(questions) && WellFormed(answers, questions) && n <= |questions|
    ensures var out := Credit(answers, questions[..n], ids);
            WellFormed(out, questions)
            && (forall k :: 0 <= k < n ==>
                  Earned(out, questions[k].id)
                  == if questions[k].id in ids then questions[k].points else Earned(answers, questions[k].id))
            && (forall k :: n <= k < |questions| ==>
                  Earned(out, questions[k].id) == Earned(answers, questions[k].id))
  {
    if n > 0 {
      CreditMeans(answers, questions, n - 1, ids);
      assert questions[..n][..n - 1] == questions[..n - 1];
      var done := Credit(answers, questions[..n - 1], ids);
      CreditOneMeans(done, questions[n - 1], questions, n - 1);
    } else {
      assert questions[..0] == [];
    }
  }

  lemma {:induction false} SameEarnedSameScore(a: seq<Answer>, b: seq<Answer>, questions: seq<Question>,
      ids: set<int>, ruled: set<int>)
    requires forall k :: 0 <= k < |questions| ==>
               Earned(b, questions[k].id)
               == if questions[k].id in ids then questions[k].points else Earned(a, questions[k].id)
    ensures CreditedScore(b, questions, ruled) == CreditedScore(a, questions, ids + ruled)
  {
    if questions != [] {
      assert questions[1..] == questions[1..];
      forall k | 0 <= k < |questions[1..]|
        ensures Earned(b, questions[1..][k].id)
                == if questions[1..][k].id in ids then questions[1..][k].points else Earned(a, questions[1..][k].id)
      {
        assert questions[1..][k] == questions[k + 1];
      }
      SameEarnedSameScore(a, b, questions[1..], ids, ruled);
    }
  }

  /** Crediting one set and then another is crediting their union, in any order. */
  lemma CreditComposes(answers: seq<Answer>, questions: seq<Question>, ids: set<int>, ruled: set<int>)
    requires DistinctIds(questions) && WellFormed(answers, questions)
    ensures var out := Credit(answers, questions, ids);
            WellFormed(out, questions)
            && CreditedScore(out, questions, ruled) == CreditedScore(answers, questions, ids + ruled)
  {
    CreditMeans(answers, questions, |questions|, ids);
    assert questions[..|questions|] == questions;
    SameEarnedSameScore(answers, Credit(answers, questions, ids), questions, ids, ruled);
  }

  /** More rulings never lower the score, and the score stays within the maximum. */
  lemma {:induction false} CreditedMonotone(answers: seq<Answer>, questions: seq<Question>, small: set<int>,
      big: set<int>)
    requires small <= big
    requires forall k :: 0 <= k < |questions| ==> 0 <= Earned(answers, questions[k].id) <= questions[k].points
    ensures 0 <= CreditedScore(answers, questions, small) <= CreditedScore(answers, questions, big)
            <= MaxScore(questions)
  {
    if questions != [] {
      forall k | 0 <= k < |questions[1..]|
        ensures 0 <= Earned(answers, questions[1..][k].id) <= questions[1..][k].points
      {
        assert questions[1..][k] == questions[k + 1];
      }
      CreditedMonotone(answers, questions[1..], small, big);
    }
  }

  lemma AllEarnedBounds(answers: seq<Answer>, questions: seq<Question>)
    requires DistinctIds(questions) && WellFormed(answers, questions)
    ensures forall k :: 0 <= k < |questions| ==> 0 <= Earned(answers, questions[k].id) <= questions[k].points
  {
    forall k | 0 <= k < |questions| ensures 0 <= Earned(answers, questions[k].id) <= questions[k].points {
      EarnedBounds(answers, questions, k);
    }
  }

  lemma VerdictMonotone(s1: int, s2: int, maxScore: int, threshold: real)
    requires s1 <= s2 && Verdict(s1, maxScore, threshold)
    ensures Verdict(s2, maxScore, threshold)
  {
    assert s1 as real / maxScore as real <= s2 as real / maxScore as real;
  }

  /** `score <= max_score` whenever no question has two rows. */
  lemma ScoreWithinMax(answers: seq<Answer>, questions: seq<Question>)
    requires DistinctIds(questions) && WellFormed(answers, questions)
    ensures 0 <= PointsOf(answers) <= MaxScore(questions)
  {
    PointsByQuestion(answers, questions);
    AllEarnedBounds(answers, questions);
    CreditedMonotone(answers, questions, {}, {});
  }

  // ---------------------------------------------------------------- finishing and rulings

  /** The scoring part of `_grade_and_finalize`; `ruled` are the overrides already on record. */
  function Finalize(s: Sheet, ruled: set<int>, outcome: AttemptStatus): Sheet {
    var c := Scored(s.(answers := Credit(s.answers, s.questions, ruled)));
    c.(status := if s.forceFail then ViolationFail else outcome)
  }

  predicate Regradable(s: Sheet, id: int) {
    s.status in {Completed, TimedOut} && !s.isPassed
    && exists k :: 0 <= k < |s.questions| && s.questions[k].id == id
  }

  /** The body of `regrade_question` for one attempt. */
  function Regrade(s: Sheet, id: int): Sheet {
    if Regradable(s, id) then Scored(s.(answers := Credit(s.answers, s.questions, {id}))) else s
  }

  function RegradeAll(s: Sheet, rulings: seq<int>): Sheet {
    if rulings == [] then s
    else Regrade(RegradeAll(s, rulings[..|rulings| - 1]), rulings[|rulings| - 1])
  }

  function Ids(rulings: seq<int>): set<int> {
    set i | i in rulings
  }

  /** How a finished sheet stands to the answers the student gave and the rulings so far. */
  ghost predicate Settled(s: Sheet, own: seq<Answer>, ruled: set<int>) {
    var credited := CreditedScore(own, s.questions, ruled);
    WellFormed(s.answers, s.questions)
    && s.score == PointsOf(s.answers) && s.maxScore == MaxScore(s.questions) && !s.forceFail
    && s.isPassed == Verdict(credited, s.maxScore, s.threshold)
    && (!s.isPassed ==> forall more: set<int> ::
          CreditedScore(s.answers, s.questions, more) == CreditedScore(own, s.questions, ruled + more))
  }

  lemma {:induction false} ForeignRuling(own: seq<Answer>, questions: seq<Question>, ruled: set<int>, id: int)
    requires forall k :: 0 <= k < |questions| ==> questions[k].id != id
    ensures CreditedScore(own, questions, ruled + {id}) == CreditedScore(own, questions, ruled)
  {
    if questions != [] {
      forall k | 0 <= k < |questions[1..]| ensures questions[1..][k].id != id {
        assert questions[1..][k] == questions[k + 1];
      }
      ForeignRuling(own, questions[1..], ruled, id);
    }
  }

  lemma RegradeSettles(s: Sheet, own: seq<Answer>, ruled: set<int>, id: int)
    requires DistinctIds(s.questions) && WellFormed(own, s.questions)
    requires Settled(s, own, ruled) && s.status in {Completed, TimedOut}
    ensures Settled(Regrade(s, id), own, ruled + {id})
    ensures s.isPassed ==> Regrade(s, id).isPassed
  {
    AllEarnedBounds(own, s.questions);
    CreditedMonotone(own, s.questions, ruled, ruled + {id});
    if s.isPassed {
      VerdictMonotone(CreditedScore(own, s.questions, ruled), CreditedScore(own, s.questions, ruled + {id}),
                      s.maxScore, s.threshold);
    } else if !Regradable(s, id) {
      ForeignRuling(own, s.questions, ruled, id);
      forall more: set<int>
        ensures CreditedScore(s.answers, s.questions, more) == CreditedScore(own, s.questions, ruled + {id} + more)
      {
        ForeignRuling(own, s.questions, ruled + more, id);
        assert ruled + more + {id} == ruled + {id} + more;
      }
    } else {
      var t := Regrade(s, id);
      CreditComposes(s.answers, s.questions, {id}, {});
      assert {id} + {} == {id};
      PointsByQuestion(t.answers, t.questions);
      forall more: set<int>
        ensures CreditedScore(t.answers, s.questions, more) == CreditedScore(own, s.questions, ruled + {id} + more)
      {
        CreditComposes(s.answers, s.questions, {id}, more);
        assert ruled + ({id} + more) == ruled + {id} + more;
      }
    }
  }

  lemma FinalizeSettles(s: Sheet, ruled: set<int>, outcome: AttemptStatus)
    requires DistinctIds(s.questions) && WellFormed(s.answers, s.questions)
    requires outcome in {Completed, TimedOut} && !s.forceFail
    ensures Settled(Finalize(s, ruled, outcome), s.answers, ruled)
    ensures Finalize(s, ruled, outcome).status == outcome
  {
    var t := Finalize(s, ruled, outcome);
    CreditComposes(s.answers, s.questions, ruled, {});
    assert ruled + {} == ruled;
    PointsByQuestion(t.answers, t.questions);
    forall more: set<int>
      ensures CreditedScore(t.answers, s.questions, more) == CreditedScore(s.answers, s.questions, ruled + more)
    {
      CreditComposes(s.answers, s.questions, ruled, more);
    }
  }

  lemma {:induction false} RegradeAllSettles(s: Sheet, own: seq<Answer>, ruled: set<int>, rulings: seq<int>)
    requires DistinctIds(s.questions) && WellFormed(own, s.questions)
    requires Settled(s, own, ruled) && s.status in {Completed, TimedOut}
    ensures var t := RegradeAll(s, rulings);
            Settled(t, own, ruled + Ids(rulings)) && (s.isPassed ==> t.isPassed)
            && t.status == s.status && t.questions == s.questions && t.threshold == s.threshold
  {
    if rulings == [] {
      assert ruled + Ids(rulings) == ruled;
    } else {
      var front, id := rulings[..|rulings| - 1], rulings[|rulings| - 1];
      RegradeAllSettles(s, own, ruled, front);
      RegradeSettles(RegradeAll(s, front), own, ruled + Ids(front), id);
      assert rulings == front + [id];
      assert ruled + Ids(front) + {id} == ruled + Ids(rulings);
    }
  }

  // ---------------------------------------------------------------- main results

  /** Rulings are order-independent. Whatever rulings were on record when the attempt finished
      and whatever came later, repeated or in any order, the verdict is that of the student's
      own answers with every ruled question credited at once; a pass never reverts; and the
      stored score stays within the maximum. */
  lemma RulingsOrderFree(s: Sheet, before: set<int>, outcome: AttemptStatus, rulings: seq<int>, more: seq<int>)
    requires DistinctIds(s.questions) && WellFormed(s.answers, s.questions)
    requires outcome in {Completed, TimedOut} && !s.forceFail
    ensures var t := RegradeAll(Finalize(s, before, outcome), rulings);
            t.isPassed == Verdict(CreditedScore(s.answers, s.questions, before + Ids(rulings)),
                                  MaxScore(s.questions), s.threshold)
            && (t.isPassed ==> RegradeAll(t, more).isPassed)
            && WellFormed(t.answers, t.questions) && 0 <= t.score <= t.maxScore
  {
    FinalizeSettles(s, before, outcome);
    var f := Finalize(s, before, outcome);
    RegradeAllSettles(f, s.answers, before, rulings);
    var t := RegradeAll(f, rulings);
    RegradeAllSettles(t, s.answers, before + Ids(rulings), more);
    ScoreWithinMax(t.answers, t.questions);
  }

  /** An attempt failed for cheating is not moved by any ruling. */
  lemma {:induction false} CheatingIsNotRegraded(s: Sheet, before: set<int>, outcome: AttemptStatus, rulings: seq<int>)
    requires s.forceFail
    ensures var t := Finalize(s, before, outcome);
            RegradeAll(t, rulings) == t && !t.isPassed && t.status == ViolationFail
  {
    if rulings != [] { CheatingIsNotRegraded(s, before, outcome, rulings[..|rulings| - 1]); }
  }

  // ---------------------------------------------------------------- the stored score

  /** The rulings the stored score counts: each in order, until the attempt passes. */
  function Counted(own: seq<Answer>, questions: seq<Question>, threshold: real, ruled: set<int>,
      rulings: seq<int>): set<int> {
    if rulings == [] then ruled else
    var last := |rulings| - 1;
    var u := Counted(own, questions, threshold, ruled, rulings[..last]);
    if Verdict(CreditedScore(own, questions, u), MaxScore(questions), threshold) then u else u + {rulings[last]}
  }

  lemma {:induction false} CountedBetween(own: seq<Answer>, questions: seq<Question>, threshold: real,
      ruled: set<int>, rulings: seq<int>)
    ensures ruled <= Counted(own, questions, threshold, ruled, rulings) <= ruled + Ids(rulings)
  {
    if rulings != [] { CountedBetween(own, questions, threshold, ruled, rulings[..|rulings| - 1]); }
  }

  /** One regrade of an unpassed sheet stores the score with one more question credited. */
  lemma RegradeStores(s: Sheet, own: seq<Answer>, ruled: set<int>, id: int)
    requires DistinctIds(s.questions) && WellFormed(own, s.questions)
    requires Settled(s, own, ruled) && s.status in {Completed, TimedOut} && !s.isPassed
    ensures Regrade(s, id).score == CreditedScore(own, s.questions, ruled + {id})
  {
    var t := Regrade(s, id);
    if Regradable(s, id) {
      CreditComposes(s.answers, s.questions, {id}, {});
      assert {id} + {} == {id};
      PointsByQuestion(t.answers, t.questions);
    } else {
      ForeignRuling(own, s.questions, ruled, id);
      PointsByQuestion(s.answers, s.questions);
      assert ruled + {} == ruled;
    }
  }

  lemma {:induction false} RegradeAllStores(s: Sheet, own: seq<Answer>, ruled: set<int>, rulings: seq<int>)
    requires DistinctIds(s.questions) && WellFormed(own, s.questions)
    requires Settled(s, own, ruled) && s.status in {Completed, TimedOut}
    requires s.score == CreditedScore(own, s.questions, ruled)
    ensures var t, u := RegradeAll(s, rulings), Counted(own, s.questions, s.threshold, ruled, rulings);
            t.score == CreditedScore(own, s.questions, u)
            && t.isPassed == Verdict(t.score, MaxScore(s.questions), s.threshold)
            && (!t.isPassed ==> u == ruled + Ids(rulings))
  {
    if rulings == [] {
      assert ruled + Ids(rulings) == ruled;
    } else {
      var front, id := rulings[..|rulings| - 1], rulings[|rulings| - 1];
      RegradeAllStores(s, own, ruled, front);
      RegradeAllSettles(s, own, ruled, front);
      RegradeAllSettles(s, own, ruled, rulings);
      assert rulings == front + [id];
      assert ruled + Ids(front) + {id} == ruled + Ids(rulings);
      if !RegradeAll(s, front).isPassed { RegradeStores(RegradeAll(s, front), own, ruled + Ids(front), id); }
    }
  }

  /** Crediting more questions leaves the score alone exactly when they were earned in full. */
  lemma {:induction false} SameScoreExactly(own: seq<Answer>, questions: seq<Question>, small: set<int>, big: set<int>)
    requires small <= big
    requires forall k :: 0 <= k < |questions| ==> 0 <= Earned(own, questions[k].id) <= questions[k].points
    ensures CreditedScore(own, questions, small) == CreditedScore(own, questions, big) <==>
              forall k :: 0 <= k < |questions| && questions[k].id in big - small ==>
                Earned(own, questions[k].id) == questions[k].points
  {
    if questions != [] {
      var rest := questions[1..];
      assert forall k :: 0 <= k < |rest| ==> rest[k] == questions[k + 1];
      assert forall k :: 1 <= k < |questions| ==> questions[k] == rest[k - 1];
      SameScoreExactly(own, rest, small, big);
      CreditedMonotone(own, rest, small, big);
    }
  }

  /** The stored score counts the rulings in order until the attempt passes. It is the score with
      every ruled question credited at once, and so free of their order, if and only if every
      ruled question it does not count was not drawn or was earned in full; in particular while
      the attempt has not passed. */
  lemma StoredScoreExactly(s: Sheet, before: set<int>, outcome: AttemptStatus, rulings: seq<int>)
    requires DistinctIds(s.questions) && WellFormed(s.answers, s.questions)
    requires outcome in {Completed, TimedOut} && !s.forceFail
    ensures var t := RegradeAll(Finalize(s, before, outcome), rulings);
            var u := Counted(s.answers, s.questions, s.threshold, before, rulings);
            t.score == CreditedScore(s.answers, s.questions, u)
            && (t.score == CreditedScore(s.answers, s.questions, before + Ids(rulings)) <==>
                  forall k :: 0 <= k < |s.questions| && s.questions[k].id in Ids(rulings) - u ==>
                    Earned(s.answers, s.questions[k].id) == s.questions[k].points)
            && (!t.isPassed ==> u == before + Ids(rulings))
  {
    var f := Finalize(s, before, outcome);
    var u := Counted(s.answers, s.questions, s.threshold, before, rulings);
    FinalizeSettles(s, before, outcome);
    CreditComposes(s.answers, s.questions, before, {});
    assert before + {} == before;
    PointsByQuestion(f.answers, f.questions);
    RegradeAllStores(f, s.answers, before, rulings);
    CountedBetween(s.answers, s.questions, s.threshold, before, rulings);
    AllEarnedBounds(s.answers, s.questions);
    SameScoreExactly(s.answers, s.questions, u, before + Ids(rulings));
    assert before + Ids(rulings) - u == Ids(rulings) - u;
  }

  /** A question of 10 points and one of 1 point, neither with a clock of its own. */
  const TWO := [Question(1, 10, None), Question(2, 1, None)]

  /** A one-page attempt at them, left alone until its ten minutes have passed. */
  ghost function LeftAlone(): AttemptClock.Attempt {
    AttemptClock.Run(AttemptClock.Start(TWO, Some(10), 0.0), AttemptClock.Ledger(0, 0.0),
                     [AttemptClock.Event(601.0, AttemptClock.ShowPage)]).0
  }

  lemma LeftAloneTimesOut()
    ensures LeftAlone().answers == [] && LeftAlone().status == TimedOut && LeftAlone().questions == TWO
  {
    var a := AttemptClock.Start(TWO, Some(10), 0.0);
    assert !a.stepped by { assert forall i :: 0 <= i < |TWO| ==> TWO[i].limit.None?; }
    assert AttemptClock.IsTimedOut(a, 601.0);
    assert [AttemptClock.Event(601.0, AttemptClock.ShowPage)][1..] == [];
  }

  lemma CreditTwo(ruled: set<int>)
    ensures CreditedScore([], TWO, ruled) == (if 1 in ruled then 10 else 0) + (if 2 in ruled then 1 else 0)
    ensures MaxScore(TWO) == 11
  {
    assert TWO[1..] == [Question(2, 1, None)] && TWO[1..][1..] == [];
    assert MaxScore(TWO[1..]) == 1;
    assert CreditedScore([], TWO[1..], ruled) == if 2 in ruled then 1 else 0;
  }

  lemma CountTwo(i: int, j: int)
    requires {i, j} == {1, 2}
    ensures Counted([], TWO, 0.5, {}, [i, j]) == if i == 1 then {1} else {1, 2}
  {
    CreditTwo({});
    CreditTwo({i});
    assert [i, j][..1] == [i] && [i][..0] == [];
    assert Counted([], TWO, 0.5, {}, [i]) == {i};
  }

  lemma StoredInOrder(s: Sheet, i: int, j: int)
    requires {i, j} == {1, 2} && s.questions == TWO && s.answers == [] && s.threshold == 0.5 && !s.forceFail
    ensures RegradeAll(Finalize(s, {}, TimedOut), [i, j]).score == if i == 1 then 10 else 11
  {
    StoredScoreExactly(s, {}, TimedOut, [i, j]);
    CountTwo(i, j);
    CreditTwo(if i == 1 then {1} else {1, 2});
  }

  /** The stored score, unlike the verdict, can depend on the order of the rulings: once an
      attempt passes, later rulings skip it. */
  lemma ScoreDependsOnOrder()
    ensures var a := LeftAlone();
            var f := Finalize(Sheet(a.questions, a.answers, 0.5, a.forceFail, InProgress, false, 0, 0), {}, a.status);
            RegradeAll(f, [1, 2]).score == 10 && RegradeAll(f, [2, 1]).score == 11
  {
    LeftAloneTimesOut();
    var a := LeftAlone();
    assert !a.forceFail;
    var s := Sheet(a.questions, a.answers, 0.5, a.forceFail, InProgress, false, 0, 0);
    StoredInOrder(s, 1, 2);
    StoredInOrder(s, 2, 1);
  }

  /** From the first request to the last ruling no question has two rows: the rows any run of
      the attempt leaves are well formed, so the results above apply to them. */
  lemma RunRowsWellFormed(questions: seq<Question>, limitMinutes: Option<Limit>, t0: real,
      events: seq<AttemptClock.Event>)
    requires DistinctIds(questions) && AttemptClock.InOrder(events, t0)
    ensures var start := AttemptClock.Start(questions, limitMinutes, t0);
            var a := AttemptClock.Run(start, AttemptClock.Ledger(0, 0.0), events).0;
            WellFormed(a.answers, questions) && 0 <= PointsOf(a.answers) <= MaxScore(questions)
  {
    AttemptClock.OneRowPerQuestion(questions, limitMinutes, t0, events);
    var a := AttemptClock.Run(AttemptClock.Start(questions, limitMinutes, t0), AttemptClock.Ledger(0, 0.0), events).0;
    forall i | 0 <= i < |a.answers| ensures InDraw(a.answers[i], questions) {
      assert AttemptClock.RowFor(a.answers[i], questions[i]);
    }
    forall i, j | 0 <= i < j < |a.answers| ensures a.answers[i].questionId != a.answers[j].questionId {
      assert AttemptClock.RowFor(a.answers[i], questions[i]) && AttemptClock.RowFor(a.answers[j], questions[j]);
    }
    ScoreWithinMax(a.answers, questions);
  }
}
