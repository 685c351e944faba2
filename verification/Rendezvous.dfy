/** A submission graded by a quiz and by the teacher's points, with nothing uploaded. */
module Rendezvous {
  // The two halves arrive in either order, attempts can be ruled on, granted and failed in between,
  // and the points are shared by the rows of a squad. Each request is one atomic step.

  import opened Wrappers
  import opened QuizTypes
  import opened Grants
  import SM = StateMachine
  import TS = TeacherScores

  /** One student's assignment row. */
  datatype Row = Row(scores: map<string, nat>, grade: Option<int>)

  /** `formula` is the grade of the quiz and the points once both are in. */
  datatype Rules = Rules(criteria: seq<TS.Criterion>, formula: (map<Student, seq<Try>>, map<string, nat>) -> int)

  datatype Work = Work(quiz: Quiz, owner: Student, rows: map<Student, Row>)

  // ---------------------------------------------------------------- the two halves

  /** `quiz_complete`: every enrolled student on the submission has a passed attempt. */
  predicate QuizComplete(q: Quiz) {
    q.students != {} && forall s :: s in q.students ==> AnyPassed(TriesOf(q, s))
  }

  /** `_quiz_passed`: some attempt of the submission is passed. */
  predicate SomePassed(q: Quiz) {
    exists s :: s in q.tries && AnyPassed(q.tries[s])
  }

  /** `scores_complete_for`: every required criterion is entered on the owner's row. */
  predicate ScoresComplete(w: Work, rules: Rules) {
    w.owner in w.rows && TS.IsComplete(rules.criteria, w.rows[w.owner].scores)
  }

  // ---------------------------------------------------------------- steps

  function GradeRow(r: Row, g: int): Row {
    r.(grade := Some(g))
  }

  /** `finalize_grade`: nothing is written while a half is missing; otherwise every row of the
      squad gets the same grade. */
  function FinalizeGrade(w: Work, rules: Rules): Work {
    if !SomePassed(w.quiz) || !ScoresComplete(w, rules) then w
    else
      var g := rules.formula(w.quiz.tries, w.rows[w.owner].scores);
      w.(rows := map s | s in w.rows :: GradeRow(w.rows[s], g))
  }

  function WithStatus(w: Work, status: SM.Status): Work {
    w.(quiz := w.quiz.(status := status))
  }

  /** Where a complete quiz goes: completed if the points are in, to the teacher if not. */
  function QuizDone(w: Work, rules: Rules, done: SM.Event, waits: SM.Event): Work
    requires SM.Next(w.quiz.status, done).Some? && SM.Next(w.quiz.status, waits).Some?
  {
    if ScoresComplete(w, rules) then FinalizeGrade(WithStatus(w, SM.Next(w.quiz.status, done).value), rules)
    else WithStatus(w, SM.Next(w.quiz.status, waits).value)
  }

  function StartAttempt(w: Work, s: Student): Work {
    w.(quiz := Start(w.quiz, s))
  }

  function FinishAttempt(w: Work, rules: Rules, s: Student, outcome: AttemptStatus, passed: bool, pct: real): Work
    requires HasRunning(w.quiz, s)
  {
    var v := w.(quiz := Finish(w.quiz, s, outcome, passed, pct, SM.QuizSent));
    if w.quiz.status == SM.QuizSent && passed && QuizComplete(v.quiz) then
      QuizDone(v, rules, SM.QuizPassed, SM.QuizPassedTeacher)
    else v
  }

  predicate Flipped(q: Quiz, flips: Flips) {
    exists s, i :: s in q.tries && 0 <= i < |q.tries[s]| && (s, i) in flips && Regradable(q.tries[s][i])
  }

  /** `_advance_submission` after an accepted ruling flipped some attempt. */
  function Advance(w: Work, rules: Rules): Work {
    if w.quiz.status == SM.QuizSent then
      (if QuizComplete(w.quiz) then QuizDone(w, rules, SM.QuizPassed, SM.QuizPassedTeacher) else w)
    else if w.quiz.status == SM.Failed then
      (if QuizComplete(w.quiz) then QuizDone(w, rules, SM.DisputeRegradePassed, SM.DisputeRegradePassedTeacher) else w)
    else if w.quiz.status == SM.Completed then FinalizeGrade(w, rules)
    else w
  }

  function AcceptRuling(w: Work, rules: Rules, flips: Flips): Work {
    var v := w.(quiz := FlipAll(w.quiz, flips));
    if Flipped(w.quiz, flips) then Advance(v, rules) else v
  }

  function GrantAttempt(w: Work, s: Student): Work {
    var r := Grant(w.quiz, s);
    if r.Ok? then w.(quiz := r.value) else w
  }

  datatype Refusal = LosesScore | ScoresIncomplete | NoRejecting | NothingToCheck | NotAwaiting

  function ScoreRow(r: Row, scores: map<string, nat>): Row {
    r.(scores := scores)
  }

  /** `teacher_save_scores` with the points parsed from the form. */
  function SaveScores(w: Work, rules: Rules, scores: map<string, nat>): Result<Work, Refusal> {
    var complete := TS.IsComplete(rules.criteria, scores);
    if w.quiz.status == SM.Completed && !complete then Err(LosesScore)
    else
      var v := w.(rows := map s | s in w.rows :: ScoreRow(w.rows[s], scores));
      if complete && v.quiz.status == SM.AwaitingTeacherReview && SomePassed(v.quiz) then
        Ok(FinalizeGrade(WithStatus(v, SM.Completed), rules))
      else if complete && v.quiz.status == SM.Completed then Ok(FinalizeGrade(v, rules))
      else Ok(v)
  }

  /** `_apply_review_decision` with "approve". */
  function Approve(w: Work, rules: Rules): Result<Work, Refusal> {
    if w.quiz.status != SM.AwaitingTeacherReview then Err(NotAwaiting)
    else if !ScoresComplete(w, rules) then Err(ScoresIncomplete)
    else if SomePassed(w.quiz) then Ok(FinalizeGrade(WithStatus(w, SM.Completed), rules))
    else Ok(WithStatus(w, SM.QuizSent))
  }

  datatype Step =
    | DoStart(s: Student)
    | DoFinish(s: Student, outcome: AttemptStatus, passed: bool, pct: real)
    | DoRuling(flips: Flips)
    | DoGrant(s: Student)
    | DoScores(scores: map<string, nat>)
    | DoApprove
    | DoReject
    | DoRequeue

  predicate Enabled(w: Work, step: Step) {
    step.DoFinish? ==> HasRunning(w.quiz, step.s) && Terminal(step.outcome)
  }

  function OrSame(w: Work, r: Result<Work, Refusal>): Work {
    if r.Ok? then r.value else w
  }

  /** Rejecting a scored work and re-running checks on an upload-less one are always refused. */
  function Do(w: Work, rules: Rules, step: Step): Work
    requires Enabled(w, step)
  {
    match step
    case DoStart(s) => StartAttempt(w, s)
    case DoFinish(s, outcome, passed, pct) => FinishAttempt(w, rules, s, outcome, passed, pct)
    case DoRuling(flips) => AcceptRuling(w, rules, flips)
    case DoGrant(s) => GrantAttempt(w, s)
    case DoScores(scores) => OrSame(w, SaveScores(w, rules, scores))
    case DoApprove => OrSame(w, Approve(w, rules))
    case DoReject => w
    case DoRequeue => w
  }

  // ---------------------------------------------------------------- invariant

  ghost predicate SameGrade(w: Work) {
    exists g :: forall s :: s in w.rows ==> w.rows[s].grade == Some(g)
  }

  /** A running attempt is not passed yet. */
  ghost predicate OpenUnpassed(q: Quiz) {
    forall s, i :: s in q.tries && 0 <= i < |q.tries[s]| && Running(q.tries[s][i]) ==> !q.tries[s][i].isPassed
  }

  ghost predicate Inv(w: Work, rules: Rules) {
    w.quiz.students != {} && w.owner in w.rows && OpenUnpassed(w.quiz)
    && w.quiz.status in {SM.QuizSent, SM.Failed, SM.AwaitingTeacherReview, SM.Completed}
    && (w.quiz.status == SM.QuizSent ==> !QuizComplete(w.quiz))
    && (w.quiz.status == SM.AwaitingTeacherReview ==> QuizComplete(w.quiz) && !ScoresComplete(w, rules))
    && (w.quiz.status == SM.Completed ==> QuizComplete(w.quiz) && ScoresComplete(w, rules) && SameGrade(w))
  }

  lemma CompleteMeansSome(q: Quiz)
    requires QuizComplete(q)
    ensures SomePassed(q)
  {
    var s :| s in q.students;
    assert AnyPassed(TriesOf(q, s));
  }

  lemma FinalizeWrites(w: Work, rules: Rules)
    requires QuizComplete(w.quiz) && ScoresComplete(w, rules)
    ensures var v := FinalizeGrade(w, rules);
            v.quiz == w.quiz && v.owner == w.owner && v.rows.Keys == w.rows.Keys
            && ScoresComplete(v, rules) && SameGrade(v)
  {
    CompleteMeansSome(w.quiz);
    var g := rules.formula(w.quiz.tries, w.rows[w.owner].scores);
    var v := FinalizeGrade(w, rules);
    assert forall s :: s in v.rows ==> v.rows[s].grade == Some(g);
  }

  // ---------------------------------------------------------------- the quiz half

  lemma StartQuiz(q: Quiz, s: Student)
    requires OpenUnpassed(q)
    ensures var v := Start(q, s);
            OpenUnpassed(v) && v.students == q.students && v.status == q.status
            && (QuizComplete(v) <==> QuizComplete(q))
  {
    var v := Start(q, s);
    forall t | t in q.students ensures AnyPassed(TriesOf(v, t)) <==> AnyPassed(TriesOf(q, t)) {
      if AnyPassed(TriesOf(q, t)) {
        var i :| 0 <= i < |TriesOf(q, t)| && TriesOf(q, t)[i].isPassed;
        assert TriesOf(v, t)[i].isPassed;
      }
    }
  }

  /** Closing an attempt only adds a pass, and only if it passed. */
  lemma CloseQuiz(q: Quiz, s: Student, outcome: AttemptStatus, passed: bool, pct: real)
    requires HasRunning(q, s) && OpenUnpassed(q) && Terminal(outcome)
    ensures var c := Close(q, s, outcome, passed, pct);
            OpenUnpassed(c) && c.students == q.students
            && (QuizComplete(q) ==> QuizComplete(c)) && (!passed && QuizComplete(c) ==> QuizComplete(q))
  {
    var c := Close(q, s, outcome, passed, pct);
    forall t | AnyPassed(TriesOf(q, t)) ensures AnyPassed(TriesOf(c, t)) {
      var i :| 0 <= i < |TriesOf(q, t)| && TriesOf(q, t)[i].isPassed;
      assert TriesOf(c, t)[i].isPassed;
    }
    if !passed {
      forall t | AnyPassed(TriesOf(c, t)) ensures AnyPassed(TriesOf(q, t)) {
        var i :| 0 <= i < |TriesOf(c, t)| && TriesOf(c, t)[i].isPassed;
        assert TriesOf(q, t)[i].isPassed;
      }
    }
  }

  /** A ruling only adds passes, and adds none if it flips nothing. */
  lemma FlipQuiz(q: Quiz, flips: Flips)
    requires OpenUnpassed(q)
    ensures var v := FlipAll(q, flips);
            OpenUnpassed(v) && v.students == q.students && v.status == q.status
            && (QuizComplete(q) ==> QuizComplete(v)) && (!Flipped(q, flips) && QuizComplete(v) ==> QuizComplete(q))
  {
    var v := FlipAll(q, flips);
    forall t | AnyPassed(TriesOf(q, t)) ensures AnyPassed(TriesOf(v, t)) {
      var i :| 0 <= i < |TriesOf(q, t)| && TriesOf(q, t)[i].isPassed;
      assert TriesOf(v, t)[i].isPassed;
    }
    if !Flipped(q, flips) {
      forall t | AnyPassed(TriesOf(v, t)) ensures AnyPassed(TriesOf(q, t)) {
        var i :| 0 <= i < |TriesOf(v, t)| && TriesOf(v, t)[i].isPassed;
        assert TriesOf(q, t)[i].isPassed;
      }
    }
  }

  // ---------------------------------------------------------------- each step

  /** Once the quiz is complete, the points decide between COMPLETED and the teacher. */
  lemma DoneKeeps(w: Work, rules: Rules, done: SM.Event, waits: SM.Event)
    requires w.quiz.students != {} && w.owner in w.rows && OpenUnpassed(w.quiz) && QuizComplete(w.quiz)
    requires SM.Next(w.quiz.status, done) == Some(SM.Completed)
    requires SM.Next(w.quiz.status, waits) == Some(SM.AwaitingTeacherReview)
    ensures Inv(QuizDone(w, rules, done, waits), rules)
  {
    if ScoresComplete(w, rules) {
      var v := WithStatus(w, SM.Completed);
      assert QuizComplete(v.quiz) by { SameTries(w.quiz, v.quiz); }
      FinalizeWrites(v, rules);
    } else {
      SameTries(w.quiz, WithStatus(w, SM.AwaitingTeacherReview).quiz);
    }
  }

  lemma SameTries(q: Quiz, v: Quiz)
    requires v.tries == q.tries && v.students == q.students
    ensures QuizComplete(v) <==> QuizComplete(q)
    ensures SomePassed(v) <==> SomePassed(q)
    ensures OpenUnpassed(v) <==> OpenUnpassed(q)
  {
    assert forall s :: TriesOf(v, s) == TriesOf(q, s);
  }

  /** An attempt that ends without moving the work on. */
  lemma FinishStays(w: Work, rules: Rules, s: Student, outcome: AttemptStatus, passed: bool, pct: real)
    requires Inv(w, rules) && HasRunning(w.quiz, s) && Terminal(outcome)
    requires var v := w.(quiz := Finish(w.quiz, s, outcome, passed, pct, SM.QuizSent));
             w.quiz.status == SM.QuizSent && passed ==> !QuizComplete(v.quiz)
    ensures Inv(w.(quiz := Finish(w.quiz, s, outcome, passed, pct, SM.QuizSent)), rules)
  {
    CloseQuiz(w.quiz, s, outcome, passed, pct);
    SameTries(Close(w.quiz, s, outcome, passed, pct), Finish(w.quiz, s, outcome, passed, pct, SM.QuizSent));
  }

  lemma FinishKeeps(w: Work, rules: Rules, s: Student, outcome: AttemptStatus, passed: bool, pct: real)
    requires Inv(w, rules) && HasRunning(w.quiz, s) && Terminal(outcome)
    ensures Inv(FinishAttempt(w, rules, s, outcome, passed, pct), rules)
  {
    var v := w.(quiz := Finish(w.quiz, s, outcome, passed, pct, SM.QuizSent));
    if w.quiz.status == SM.QuizSent && passed && QuizComplete(v.quiz) {
      CloseQuiz(w.quiz, s, outcome, passed, pct);
      SameTries(Close(w.quiz, s, outcome, passed, pct), v.quiz);
      DoneKeeps(v, rules, SM.QuizPassed, SM.QuizPassedTeacher);
    } else {
      FinishStays(w, rules, s, outcome, passed, pct);
    }
  }

  lemma RulingKeeps(w: Work, rules: Rules, flips: Flips)
    requires Inv(w, rules)
    ensures Inv(AcceptRuling(w, rules, flips), rules)
  {
    FlipQuiz(w.quiz, flips);
    if Flipped(w.quiz, flips) { AdvanceKeeps(w.(quiz := FlipAll(w.quiz, flips)), rules); }
  }

  lemma AdvanceKeeps(w: Work, rules: Rules)
    requires w.quiz.students != {} && w.owner in w.rows && OpenUnpassed(w.quiz)
    requires w.quiz.status in {SM.QuizSent, SM.Failed, SM.AwaitingTeacherReview, SM.Completed}
    requires w.quiz.status == SM.AwaitingTeacherReview ==> QuizComplete(w.quiz) && !ScoresComplete(w, rules)
    requires w.quiz.status == SM.Completed ==> QuizComplete(w.quiz) && ScoresComplete(w, rules)
    ensures Inv(Advance(w, rules), rules)
  {
    if QuizComplete(w.quiz) {
      if w.quiz.status == SM.QuizSent {
        DoneKeeps(w, rules, SM.QuizPassed, SM.QuizPassedTeacher);
      } else if w.quiz.status == SM.Failed {
        DoneKeeps(w, rules, SM.DisputeRegradePassed, SM.DisputeRegradePassedTeacher);
      } else if w.quiz.status == SM.Completed {
        FinalizeWrites(w, rules);
      }
    }
  }

  lemma GrantKeeps(w: Work, rules: Rules, s: Student)
    requires Inv(w, rules)
    ensures Inv(GrantAttempt(w, s), rules)
  {
    if Grant(w.quiz, s).Ok? {
      SameTries(w.quiz, GrantAttempt(w, s).quiz);
      assert !AnyPassed(TriesOf(w.quiz, s));
    }
  }

  lemma ScoresKeep(w: Work, rules: Rules, scores: map<string, nat>)
    requires Inv(w, rules) && SaveScores(w, rules, scores).Ok?
    ensures Inv(SaveScores(w, rules, scores).value, rules)
  {
    var v := w.(rows := map s | s in w.rows :: ScoreRow(w.rows[s], scores));
    assert ScoresComplete(v, rules) <==> TS.IsComplete(rules.criteria, scores);
    if TS.IsComplete(rules.criteria, scores) && v.quiz.status in {SM.AwaitingTeacherReview, SM.Completed} {
      CompleteMeansSome(v.quiz);
      var u := WithStatus(v, SM.Completed);
      SameTries(v.quiz, u.quiz);
      FinalizeWrites(u, rules);
      assert v.quiz.status == SM.Completed ==> u == v;
    }
  }

  lemma StepKeeps(w: Work, rules: Rules, step: Step)
    requires Inv(w, rules) && Enabled(w, step)
    ensures Inv(Do(w, rules, step), rules)
  {
    match step
    case DoStart(s) => StartQuiz(w.quiz, s);
    case DoFinish(s, outcome, passed, pct) => FinishKeeps(w, rules, s, outcome, passed, pct);
    case DoRuling(flips) => RulingKeeps(w, rules, flips);
    case DoGrant(s) => GrantKeeps(w, rules, s);
    case DoScores(scores) => if SaveScores(w, rules, scores).Ok? { ScoresKeep(w, rules, scores); }
    case DoApprove =>
    case DoReject =>
    case DoRequeue =>
  }

  // ---------------------------------------------------------------- runs

  ghost predicate IsRun(w: Work, rules: Rules, steps: seq<Step>, end: Work)
    decreases |steps|
  {
    if steps == [] then w == end
    else Enabled(w, steps[0]) && IsRun(Do(w, rules, steps[0]), rules, steps[1..], end)
  }

  /** `open_quiz_submission`: nothing attempted yet; points may have been entered before. */
  ghost predicate Opened(w: Work) {
    w.quiz.status == SM.QuizSent && w.quiz.tries == map[] && w.quiz.students != {} && w.owner in w.rows
  }

  lemma {:induction false} RunKeeps(w: Work, rules: Rules, steps: seq<Step>, end: Work)
    requires Inv(w, rules) && IsRun(w, rules, steps, end)
    ensures Inv(end, rules)
    decreases |steps|
  {
    if steps != [] {
      StepKeeps(w, rules, steps[0]);
      RunKeeps(Do(w, rules, steps[0]), rules, steps[1..], end);
    }
  }

  lemma OpenedInv(w: Work, rules: Rules)
    requires Opened(w)
    ensures Inv(w, rules)
  {
    var s :| s in w.quiz.students;
    assert TriesOf(w.quiz, s) == [];
    assert !AnyPassed(TriesOf(w.quiz, s));
  }

  /** Whichever half arrives last completes the work. In every run, unless an exhausted cap has
      failed it: it waits on the quiz exactly while the quiz is incomplete, waits on the teacher
      exactly while only the points are missing, and is completed exactly when both are in; a
      completed work has the same grade on all rows. */
  lemma LastHalfCompletes(start: Work, rules: Rules, steps: seq<Step>, w: Work)
    requires Opened(start) && IsRun(start, rules, steps, w)
    ensures w.quiz.status in {SM.QuizSent, SM.Failed, SM.AwaitingTeacherReview, SM.Completed}
    ensures w.quiz.status != SM.Failed ==>
              (w.quiz.status == SM.QuizSent <==> !QuizComplete(w.quiz))
              && (w.quiz.status == SM.AwaitingTeacherReview <==> QuizComplete(w.quiz) && !ScoresComplete(w, rules))
              && (w.quiz.status == SM.Completed <==> QuizComplete(w.quiz) && ScoresComplete(w, rules))
    ensures w.quiz.status == SM.Completed ==> QuizComplete(w.quiz) && ScoresComplete(w, rules) && SameGrade(w)
  {
    OpenedInv(start, rules);
    RunKeeps(start, rules, steps, w);
  }

  ghost predicate BothHalves(w: Work, rules: Rules) {
    QuizComplete(w.quiz) && ScoresComplete(w, rules)
  }

  lemma FailedStays(w: Work, rules: Rules, step: Step)
    requires w.quiz.status == SM.Failed && Enabled(w, step) && !step.DoRuling? && !step.DoGrant?
    ensures Do(w, rules, step).quiz.status == SM.Failed
  {
  }

  lemma AdvanceNotFailed(w: Work, rules: Rules)
    requires w.quiz.status != SM.Failed
    ensures Advance(w, rules).quiz.status != SM.Failed
  {
  }

  lemma FinishFails(w: Work, rules: Rules, s: Student, outcome: AttemptStatus, passed: bool, pct: real)
    requires HasRunning(w.quiz, s) && w.quiz.status != SM.Failed
    ensures FinishAttempt(w, rules, s, outcome, passed, pct).quiz.status == SM.Failed
            ==> w.quiz.status == SM.QuizSent && !passed
  {
    var v := w.(quiz := Finish(w.quiz, s, outcome, passed, pct, SM.QuizSent));
    if w.quiz.status == SM.QuizSent && passed && QuizComplete(v.quiz) {
      assert SM.Next(v.quiz.status, SM.QuizPassed) == Some(SM.Completed);
      assert SM.Next(v.quiz.status, SM.QuizPassedTeacher) == Some(SM.AwaitingTeacherReview);
    }
  }

  /** The only step that fails a work is an attempt that does not pass. */
  lemma FailedByFinish(w: Work, rules: Rules, step: Step)
    requires Enabled(w, step) && w.quiz.status != SM.Failed
    ensures Do(w, rules, step).quiz.status == SM.Failed
            ==> step.DoFinish? && !step.passed && w.quiz.status == SM.QuizSent
  {
    match step
    case DoFinish(s, outcome, passed, pct) => FinishFails(w, rules, s, outcome, passed, pct);
    case DoRuling(flips) => AdvanceNotFailed(w.(quiz := FlipAll(w.quiz, flips)), rules);
    case DoGrant(s) => if Grantable(w.quiz, s) { GrantEdge(w.quiz, s); }
    case _ =>
  }

  lemma ArrivalWhenOpen(w: Work, rules: Rules, step: Step)
    requires Inv(w, rules) && Enabled(w, step) && w.quiz.status != SM.Failed
    requires BothHalves(Do(w, rules, step), rules)
    ensures Do(w, rules, step).quiz.status == SM.Completed
  {
    StepKeeps(w, rules, step);
    var v := Do(w, rules, step);
    if v.quiz.status == SM.Failed {
      FailedByFinish(w, rules, step);
      CloseQuiz(w.quiz, step.s, step.outcome, step.passed, step.pct);
      SameTries(Close(w.quiz, step.s, step.outcome, step.passed, step.pct), v.quiz);
    }
  }

  /** Exactly when the request that brings in the last half completes the work: always, unless
      an exhausted cap has already failed it, and then only if that request is a ruling. */
  lemma LastHalfCompletesExactly(start: Work, rules: Rules, steps: seq<Step>, w: Work, step: Step)
    requires Opened(start) && IsRun(start, rules, steps, w) && Enabled(w, step)
    requires !BothHalves(w, rules) && BothHalves(Do(w, rules, step), rules)
    ensures Do(w, rules, step).quiz.status == SM.Completed <==> w.quiz.status != SM.Failed || step.DoRuling?
  {
    OpenedInv(start, rules);
    RunKeeps(start, rules, steps, w);
    if w.quiz.status != SM.Failed {
      ArrivalWhenOpen(w, rules, step);
    } else if step.DoRuling? {
      RulingArrives(w, rules, step.flips);
    } else if step.DoGrant? {
      if Grant(w.quiz, step.s).Ok? { SameTries(w.quiz, Grant(w.quiz, step.s).value); }
    } else {
      FailedStays(w, rules, step);
    }
  }

  /** On a failed work a ruling that leaves both halves in has completed it. */
  lemma AdvanceArrives(w: Work, rules: Rules)
    requires w.quiz.status == SM.Failed && BothHalves(w, rules)
    ensures Advance(w, rules).quiz.status == SM.Completed
  {
  }

  lemma AdvanceKeepsHalves(w: Work, rules: Rules)
    requires w.quiz.status == SM.Failed && BothHalves(Advance(w, rules), rules)
    ensures BothHalves(w, rules)
  {
    SameTries(w.quiz, Advance(w, rules).quiz);
  }

  lemma RulingArrives(w: Work, rules: Rules, flips: Flips)
    requires Inv(w, rules) && w.quiz.status == SM.Failed
    requires !BothHalves(w, rules) && BothHalves(AcceptRuling(w, rules, flips), rules)
    ensures AcceptRuling(w, rules, flips).quiz.status == SM.Completed
  {
    FlipQuiz(w.quiz, flips);
    if Flipped(w.quiz, flips) {
      var v := w.(quiz := FlipAll(w.quiz, flips));
      AdvanceKeepsHalves(v, rules);
      AdvanceArrives(v, rules);
    }
  }

  /** Some run from here ends FAILED with both halves in. */
  ghost predicate MayStick(w: Work, rules: Rules) {
    exists steps, end :: IsRun(w, rules, steps, end) && BothHalves(end, rules) && end.quiz.status == SM.Failed
  }

  lemma OneMore(w: Work, rules: Rules, step: Step, next: Work)
    requires Enabled(w, step) && Do(w, rules, step) == next && MayStick(next, rules)
    ensures MayStick(w, rules)
  {
    var rest, end :| IsRun(next, rules, rest, end) && BothHalves(end, rules) && end.quiz.status == SM.Failed;
    assert ([step] + rest)[1..] == rest;
    assert IsRun(w, rules, [step] + rest, end);
  }

  /** Two students share a quiz with one attempt each. */
  function Shared(scores: map<string, nat>, status: SM.Status, tries: map<Student, seq<Try>>): Work {
    Work(Quiz(status, Some(1), {1, 2}, tries, map[]), 1, map[1 := Row(scores, None), 2 := Row(scores, None)])
  }

  const LIVE := Try(InProgress, false, 0.0)
  const LOST := Try(Completed, false, 0.0)
  const WON := Try(Completed, true, 100.0)

  lemma EndSticks(scores: map<string, nat>, rules: Rules)
    requires TS.IsComplete(rules.criteria, scores)
    ensures MayStick(Shared(scores, SM.Failed, map[1 := [WON], 2 := [WON]]), rules)
  {
    var end := Shared(scores, SM.Failed, map[1 := [WON], 2 := [WON]]);
    assert [WON][0].isPassed;
    assert AnyPassed([WON]);
    assert IsRun(end, rules, [], end);
  }

  /** Closing the only attempt of one of two students. */
  lemma CloseOnly(q: Quiz, s: Student, other: Student, t: Try, outcome: AttemptStatus, passed: bool, pct: real)
    requires s != other && q.tries == map[s := [LIVE], other := [t]]
    ensures HasRunning(q, s)
    ensures Close(q, s, outcome, passed, pct) == q.(tries := map[s := [Try(outcome, passed, pct)], other := [t]])
  {
    assert [LIVE][0 := Try(outcome, passed, pct)] == [Try(outcome, passed, pct)];
  }

  lemma SecondPasses(scores: map<string, nat>, rules: Rules)
    requires TS.IsComplete(rules.criteria, scores)
    ensures MayStick(Shared(scores, SM.Failed, map[1 := [WON], 2 := [LIVE]]), rules)
  {
    var w := Shared(scores, SM.Failed, map[1 := [WON], 2 := [LIVE]]);
    var end := Shared(scores, SM.Failed, map[1 := [WON], 2 := [WON]]);
    EndSticks(scores, rules);
    assert w.quiz.tries == map[2 := [LIVE], 1 := [WON]];
    CloseOnly(w.quiz, 2, 1, WON, Completed, true, 100.0);
    assert end.quiz.tries == map[2 := [WON], 1 := [WON]];
    OneMore(w, rules, DoFinish(2, Completed, true, 100.0), end);
  }

  lemma FlipFirst(q: Quiz, flips: Flips)
    requires q.tries == map[1 := [LOST], 2 := [LIVE]] && flips == map[(1, 0) := 100.0]
    ensures FlipAll(q, flips) == q.(tries := map[1 := [WON], 2 := [LIVE]])
  {
    assert FlipTries([LOST], 1, flips) == [WON] && FlipTries([LIVE], 2, flips) == [LIVE];
    assert FlipAll(q, flips).tries == map[1 := [WON], 2 := [LIVE]];
  }

  lemma FirstFlips(scores: map<string, nat>, rules: Rules)
    requires TS.IsComplete(rules.criteria, scores)
    ensures MayStick(Shared(scores, SM.Failed, map[1 := [LOST], 2 := [LIVE]]), rules)
  {
    var flips: Flips := map[(1, 0) := 100.0];
    var w := Shared(scores, SM.Failed, map[1 := [LOST], 2 := [LIVE]]);
    var v := Shared(scores, SM.Failed, map[1 := [WON], 2 := [LIVE]]);
    FlipFirst(w.quiz, flips);
    assert !QuizComplete(v.quiz) by {
      assert 2 in v.quiz.students && TriesOf(v.quiz, 2) == [LIVE] && !AnyPassed([LIVE]);
    }
    assert Advance(v, rules) == v;
    SecondPasses(scores, rules);
    OneMore(w, rules, DoRuling(flips), v);
  }

  lemma FirstFails(scores: map<string, nat>, rules: Rules)
    requires TS.IsComplete(rules.criteria, scores)
    ensures MayStick(Shared(scores, SM.QuizSent, map[1 := [LIVE], 2 := [LIVE]]), rules)
  {
    var w := Shared(scores, SM.QuizSent, map[1 := [LIVE], 2 := [LIVE]]);
    CloseOnly(w.quiz, 1, 2, LIVE, Completed, false, 0.0);
    assert Exhausts(w.quiz, 1);
    FirstFlips(scores, rules);
    OneMore(w, rules, DoFinish(1, Completed, false, 0.0), Shared(scores, SM.Failed, map[1 := [LOST], 2 := [LIVE]]));
  }

  lemma SecondStarts(scores: map<string, nat>, rules: Rules)
    requires TS.IsComplete(rules.criteria, scores)
    ensures MayStick(Shared(scores, SM.QuizSent, map[1 := [LIVE]]), rules)
  {
    var w := Shared(scores, SM.QuizSent, map[1 := [LIVE]]);
    FirstFails(scores, rules);
    assert CanStart(w.quiz, 2);
    assert [] + [LIVE] == [LIVE];
    assert map[1 := [LIVE]][2 := [LIVE]] == map[1 := [LIVE], 2 := [LIVE]];
    OneMore(w, rules, DoStart(2), Shared(scores, SM.QuizSent, map[1 := [LIVE], 2 := [LIVE]]));
  }

  /** Such a failed work is reachable. With the points in, the first student fails and so fails
      the work, a ruling then passes that attempt, and the second student, still running,
      passes: both halves are in and the work stays FAILED. */
  lemma FailedWithBothHalves(rules: Rules, scores: map<string, nat>)
    requires TS.IsComplete(rules.criteria, scores)
    ensures var start := Shared(scores, SM.QuizSent, map[]);
            Opened(start) && MayStick(start, rules)
  {
    var start := Shared(scores, SM.QuizSent, map[]);
    SecondStarts(scores, rules);
    assert CanStart(start.quiz, 1);
    assert [] + [LIVE] == [LIVE];
    OneMore(start, rules, DoStart(1), Shared(scores, SM.QuizSent, map[1 := [LIVE]]));
  }

  lemma {:induction false} CompletedStays(w: Work, rules: Rules, steps: seq<Step>, end: Work)
    requires w.quiz.status == SM.Completed && IsRun(w, rules, steps, end)
    ensures end.quiz.status == SM.Completed
    decreases |steps|
  {
    if steps != [] { CompletedStays(Do(w, rules, steps[0]), rules, steps[1..], end); }
  }

  /** From COMPLETED on nothing is lost: the work stays completed, every required score stays
      entered, and the rows keep one common grade. */
  lemma CompletedNeverLosesAScore(start: Work, rules: Rules, before: seq<Step>, w: Work, later: seq<Step>, end: Work)
    requires Opened(start) && IsRun(start, rules, before, w) && IsRun(w, rules, later, end)
    requires w.quiz.status == SM.Completed
    ensures end.quiz.status == SM.Completed && ScoresComplete(end, rules) && SameGrade(end)
  {
    OpenedInv(start, rules);
    RunKeeps(start, rules, before, w);
    RunKeeps(w, rules, later, end);
    CompletedStays(w, rules, later, end);
  }

  // ---------------------------------------------------------------- is the grade current?

  /** Every row holds the grade of the attempts and points as they are now. */
  ghost predicate Current(w: Work, rules: Rules) {
    w.owner in w.rows
    && forall s :: s in w.rows ==> w.rows[s].grade == Some(rules.formula(w.quiz.tries, w.rows[w.owner].scores))
  }

  lemma FinalizeIsCurrent(w: Work, rules: Rules)
    requires QuizComplete(w.quiz) && ScoresComplete(w, rules)
    ensures Current(FinalizeGrade(w, rules), rules)
  {
    CompleteMeansSome(w.quiz);
    assert FinalizeGrade(w, rules).rows[w.owner].scores == w.rows[w.owner].scores;
  }

  lemma DoneIsCurrent(w: Work, rules: Rules, done: SM.Event, waits: SM.Event)
    requires QuizComplete(w.quiz)
    requires SM.Next(w.quiz.status, done) == Some(SM.Completed)
    requires SM.Next(w.quiz.status, waits) == Some(SM.AwaitingTeacherReview)
    ensures QuizDone(w, rules, done, waits).quiz.status == SM.Completed ==>
              Current(QuizDone(w, rules, done, waits), rules)
  {
    if ScoresComplete(w, rules) {
      var v := WithStatus(w, SM.Completed);
      SameTries(w.quiz, v.quiz);
      FinalizeIsCurrent(v, rules);
    }
  }

  lemma AdvanceIsCurrent(w: Work, rules: Rules)
    requires w.quiz.status == SM.Completed ==> QuizComplete(w.quiz) && ScoresComplete(w, rules)
    ensures Advance(w, rules).quiz.status == SM.Completed ==> Current(Advance(w, rules), rules)
  {
    if QuizComplete(w.quiz) {
      if w.quiz.status == SM.QuizSent {
        DoneIsCurrent(w, rules, SM.QuizPassed, SM.QuizPassedTeacher);
      } else if w.quiz.status == SM.Failed {
        DoneIsCurrent(w, rules, SM.DisputeRegradePassed, SM.DisputeRegradePassedTeacher);
      } else if w.quiz.status == SM.Completed {
        FinalizeIsCurrent(w, rules);
      }
    }
  }

  lemma SavedIsCurrent(w: Work, rules: Rules, scores: map<string, nat>)
    requires Inv(w, rules) && SaveScores(w, rules, scores).Ok?
    ensures var v := SaveScores(w, rules, scores).value;
            v.quiz.status == SM.Completed ==> Current(v, rules)
  {
    var u := w.(rows := map s | s in w.rows :: ScoreRow(w.rows[s], scores));
    if TS.IsComplete(rules.criteria, scores) && w.quiz.status in {SM.AwaitingTeacherReview, SM.Completed} {
      CompleteMeansSome(w.quiz);
      var v := WithStatus(u, SM.Completed);
      SameTries(u.quiz, v.quiz);
      FinalizeIsCurrent(v, rules);
      assert w.quiz.status == SM.Completed ==> v == u;
    }
  }

  lemma FlipNothing(q: Quiz, flips: Flips)
    requires !Flipped(q, flips)
    ensures FlipAll(q, flips) == q
  {
    forall s | s in q.tries ensures FlipTries(q.tries[s], s, flips) == q.tries[s] {
      forall i | 0 <= i < |q.tries[s]| ensures FlipOne(q.tries[s][i], s, i, flips) == q.tries[s][i] {}
    }
    assert FlipAll(q, flips).tries == q.tries;
  }

  lemma RulingIsCurrent(w: Work, rules: Rules, flips: Flips)
    requires Inv(w, rules) && (w.quiz.status == SM.Completed ==> Current(w, rules))
    ensures var v := AcceptRuling(w, rules, flips);
            v.quiz.status == SM.Completed ==> Current(v, rules)
  {
    if Flipped(w.quiz, flips) {
      FlipQuiz(w.quiz, flips);
      AdvanceIsCurrent(w.(quiz := FlipAll(w.quiz, flips)), rules);
    } else {
      FlipNothing(w.quiz, flips);
    }
  }

  /** The one request that can leave a stale grade: an attempt that ends on a completed work. */
  ghost predicate LateFinish(w: Work, step: Step) {
    w.quiz.status == SM.Completed && step.DoFinish?
  }

  lemma CompletingFinish(w: Work, rules: Rules, s: Student, outcome: AttemptStatus, passed: bool, pct: real)
    requires HasRunning(w.quiz, s) && w.quiz.status != SM.Completed
    ensures var v := FinishAttempt(w, rules, s, outcome, passed, pct);
            v.quiz.status == SM.Completed ==> Current(v, rules)
  {
    var v := w.(quiz := Finish(w.quiz, s, outcome, passed, pct, SM.QuizSent));
    if w.quiz.status == SM.QuizSent && passed && QuizComplete(v.quiz) {
      DoneIsCurrent(v, rules, SM.QuizPassed, SM.QuizPassedTeacher);
    }
  }

  /** Every other request leaves a completed work with a current grade. */
  lemma StepIsCurrent(w: Work, rules: Rules, step: Step)
    requires Inv(w, rules) && Enabled(w, step) && !LateFinish(w, step)
    requires w.quiz.status == SM.Completed ==> Current(w, rules)
    ensures Do(w, rules, step).quiz.status == SM.Completed ==> Current(Do(w, rules, step), rules)
  {
    match step
    case DoFinish(s, outcome, passed, pct) => CompletingFinish(w, rules, s, outcome, passed, pct);
    case DoRuling(flips) => RulingIsCurrent(w, rules, flips);
    case DoScores(scores) => if SaveScores(w, rules, scores).Ok? { SavedIsCurrent(w, rules, scores); }
    case DoGrant(s) => GrantIsCurrent(w, rules, s);
    case DoStart(s) =>
    case DoApprove => assert Approve(w, rules).Err?;
    case DoReject =>
    case DoRequeue =>
  }

  lemma GrantIsCurrent(w: Work, rules: Rules, s: Student)
    requires w.quiz.status == SM.Completed ==> Current(w, rules)
    ensures GrantAttempt(w, s).quiz.status == SM.Completed ==> Current(GrantAttempt(w, s), rules)
  {
    if Grantable(w.quiz, s) { GrantEdge(w.quiz, s); }
  }

  /** Exactly when a request keeps the grade of a completed work current: unless it ends an attempt
      that changes what the formula gives. */
  lemma CurrentExactly(w: Work, rules: Rules, step: Step)
    requires Inv(w, rules) && Enabled(w, step) && w.quiz.status == SM.Completed && Current(w, rules)
    ensures var v, scores := Do(w, rules, step), w.rows[w.owner].scores;
            Current(v, rules) <==>
              !(step.DoFinish? && rules.formula(v.quiz.tries, scores) != rules.formula(w.quiz.tries, scores))
  {
    if step.DoFinish? {
      var v := Do(w, rules, step);
      assert v.rows == w.rows && v.owner == w.owner;
      assert w.rows[w.owner].grade == Some(rules.formula(w.quiz.tries, w.rows[w.owner].scores));
    } else {
      OneStep(w, rules, step);
      CompletedStays(w, rules, [step], Do(w, rules, step));
      StepIsCurrent(w, rules, step);
    }
  }

  lemma OneStep(w: Work, rules: Rules, step: Step)
    requires Enabled(w, step)
    ensures IsRun(w, rules, [step], Do(w, rules, step))
  {
    assert [step][1..] == [];
  }

  ghost predicate NoneRuns(q: Quiz) {
    forall s :: !HasRunning(q, s)
  }

  ghost predicate NoLateFinish(w: Work, rules: Rules, steps: seq<Step>)
    decreases |steps|
  {
    steps == []
    || (Enabled(w, steps[0]) && !LateFinish(w, steps[0]) && NoLateFinish(Do(w, rules, steps[0]), rules, steps[1..]))
  }

  lemma {:induction false} RunIsCurrent(w: Work, rules: Rules, steps: seq<Step>, end: Work)
    requires Inv(w, rules) && IsRun(w, rules, steps, end) && NoLateFinish(w, rules, steps)
    requires w.quiz.status == SM.Completed ==> Current(w, rules)
    ensures end.quiz.status == SM.Completed ==> Current(end, rules)
    decreases |steps|
  {
    if steps != [] {
      StepKeeps(w, rules, steps[0]);
      StepIsCurrent(w, rules, steps[0]);
      RunIsCurrent(Do(w, rules, steps[0]), rules, steps[1..], end);
    }
  }

  /** In every run in which no attempt ends on an already completed work, a completed work holds on
      all its rows the grade of the attempts and points as they are. */
  lemma CompletedGradeIsCurrent(start: Work, rules: Rules, steps: seq<Step>, w: Work)
    requires Opened(start) && IsRun(start, rules, steps, w) && NoLateFinish(start, rules, steps)
    ensures w.quiz.status == SM.Completed ==> Current(w, rules)
  {
    OpenedInv(start, rules);
    RunIsCurrent(start, rules, steps, w);
  }

  lemma IdleStays(w: Work, rules: Rules, step: Step)
    requires Enabled(w, step) && w.quiz.status == SM.Completed && NoneRuns(w.quiz)
    ensures NoneRuns(Do(w, rules, step).quiz) && !step.DoFinish?
  {
    assert step.DoFinish? ==> HasRunning(w.quiz, step.s);
    var v := Do(w, rules, step);
    forall s ensures !HasRunning(v.quiz, s) {
      assert !HasRunning(w.quiz, s);
    }
  }

  /** What a caller can check at completion: if no attempt is running then, the grade stays current
      whatever follows. */
  lemma {:induction false} IdleStaysCurrent(w: Work, rules: Rules, steps: seq<Step>, end: Work)
    requires Inv(w, rules) && w.quiz.status == SM.Completed && Current(w, rules) && NoneRuns(w.quiz)
    requires IsRun(w, rules, steps, end)
    ensures Current(end, rules)
    decreases |steps|
  {
    if steps != [] {
      IdleStays(w, rules, steps[0]);
      CurrentExactly(w, rules, steps[0]);
      StepKeeps(w, rules, steps[0]);
      OneStep(w, rules, steps[0]);
      CompletedStays(w, rules, [steps[0]], Do(w, rules, steps[0]));
      IdleStaysCurrent(Do(w, rules, steps[0]), rules, steps[1..], end);
    }
  }

  // ---------------------------------------------------------------- what each request asks and does

  /** Grading writes one grade to every row, if a quiz is passed and all required points are in, and
      otherwise nothing; the points stay as they are. */
  lemma FinalizeExactly(w: Work, rules: Rules)
    ensures var v := FinalizeGrade(w, rules);
            v == w.(rows := v.rows) && v.rows.Keys == w.rows.Keys
            && (forall s :: s in w.rows ==> v.rows[s].scores == w.rows[s].scores)
            && forall s :: s in w.rows ==>
                 v.rows[s].grade == if SomePassed(w.quiz) && ScoresComplete(w, rules)
                                    then Some(rules.formula(w.quiz.tries, w.rows[w.owner].scores))
                                    else w.rows[s].grade
  {
  }

  /** Saving points is refused exactly when it would take a required one from a completed work. */
  lemma SavesExactly(w: Work, rules: Rules, scores: map<string, nat>)
    ensures SaveScores(w, rules, scores).Err? <==>
              w.quiz.status == SM.Completed
              && exists i :: 0 <= i < |rules.criteria|
                             && !rules.criteria[i].optional && rules.criteria[i].key !in scores
    ensures SaveScores(w, rules, scores).Err? ==> SaveScores(w, rules, scores).error == LosesScore
  {
  }

  /** Saving gives every row exactly these points, and a work that waited for the teacher with its quiz
      passed completes as soon as the required ones are in. */
  lemma SavedExactly(w: Work, rules: Rules, scores: map<string, nat>)
    requires SaveScores(w, rules, scores).Ok?
    ensures var v := SaveScores(w, rules, scores).value;
            v.rows.Keys == w.rows.Keys && (forall s :: s in w.rows ==> v.rows[s].scores == scores)
            && var approved := w.quiz.status == SM.AwaitingTeacherReview && SomePassed(w.quiz)
                               && TS.IsComplete(rules.criteria, scores);
               v.quiz == w.quiz.(status := if approved then SM.Completed else w.quiz.status)
  {
    var v := w.(rows := map s | s in w.rows :: ScoreRow(w.rows[s], scores));
    FinalizeExactly(WithStatus(v, SM.Completed), rules);
    FinalizeExactly(v, rules);
  }

  /** The teacher's approval is accepted exactly for a waiting work with all required points; it
      completes a work whose quiz is passed and sends out the quiz of any other. */
  lemma ApprovesExactly(w: Work, rules: Rules)
    ensures var r := Approve(w, rules);
            (r.Ok? <==> w.quiz.status == SM.AwaitingTeacherReview && ScoresComplete(w, rules))
            && (r.Err? ==>
                  r.error == if w.quiz.status == SM.AwaitingTeacherReview then ScoresIncomplete else NotAwaiting)
            && (r.Ok? ==> r.value.quiz.status == if SomePassed(w.quiz) then SM.Completed else SM.QuizSent)
            && (r.Ok? ==> r.value.quiz.tries == w.quiz.tries)
  {
    FinalizeExactly(WithStatus(w, SM.Completed), rules);
  }

  /** What the two halves are: a passed attempt of every enrolled student, and a value for every
      required criterion on the owner's row. */
  lemma HalvesMean(w: Work, rules: Rules)
    ensures QuizComplete(w.quiz) <==>
              w.quiz.students != {}
              && forall s :: s in w.quiz.students ==>
                   s in w.quiz.tries && exists i :: 0 <= i < |w.quiz.tries[s]| && w.quiz.tries[s][i].isPassed
    ensures ScoresComplete(w, rules) <==>
              w.owner in w.rows
              && forall i :: 0 <= i < |rules.criteria| && !rules.criteria[i].optional ==>
                   rules.criteria[i].key in w.rows[w.owner].scores
  {
    forall s | s in w.quiz.students
      ensures AnyPassed(TriesOf(w.quiz, s)) <==>
                s in w.quiz.tries && exists i :: 0 <= i < |w.quiz.tries[s]| && w.quiz.tries[s][i].isPassed
    {
    }
  }
}
