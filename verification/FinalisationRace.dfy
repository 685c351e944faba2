/** Squad members finishing their quiz slices at the same time, as interleaved transactions. */
module FinalisationRace {
  // Read committed: a transaction's own flushed rows are visible to it at once and to others only
  // when it commits; `refresh(..., with_for_update=True)` takes the submission's row lock and holds
  // it until the commit; a write to the row waits for that lock.

  import opened StateMachine

  type Student = int

  /** What one member's current request is doing. */
  datatype Phase =
    | Idle
    | Running                             // an attempt is open, no finishing request yet
    | PassFlushed(sawSent: bool)          // graded as a pass, flushed privately; status as first loaded
    | Locked                              // holds the row lock, status re-read
    | Decided(move: bool)                 // quiz_complete evaluated, not committed yet
    | FailGraded(sawSent: bool, exhausts: bool)

  /** Committed rows, the lock, and two auxiliary logs: who moved the submission, and the
      enrolled members' passes committed without a decision having looked at them since. The
      phases range over everyone taking the quiz, enrolled or not. */
  datatype State = State(
    status: Status,
    lock: set<Student>,
    phase: map<Student, Phase>,
    passed: set<Student>,
    exhausted: set<Student>,
    movers: seq<Student>,
    unseen: set<Student>)

  datatype Step =
    | Start(m: Student)
    | GradePass(m: Student)
    | TakeLock(m: Student)
    | Decide(m: Student)
    | CommitPass(m: Student)
    | CommitPassUnlocked(m: Student)
    | GradeFail(m: Student, exhausts: bool)
    | CommitFail(m: Student)
    | Grant(m: Student)

  /** `quiz_complete` as member m's transaction sees it; `needed` are the enrolled members. */
  predicate QuizComplete(s: State, needed: set<Student>, m: Student) {
    needed != {} && needed <= s.passed + {m}
  }

  /** Only an enrolled member can be granted an attempt. */
  predicate Enabled(s: State, needed: set<Student>, step: Step) {
    step.m in s.phase &&
    var p := s.phase[step.m];
    match step
    case Start(m) => p == Idle && s.status == QuizSent && m !in s.passed && m !in s.exhausted
    case GradePass(m) => p == Running
    case TakeLock(m) => p == PassFlushed(true) && s.lock == {}
    case Decide(m) => p == Locked
    case CommitPass(m) => p.Decided?
    case CommitPassUnlocked(m) => p == PassFlushed(false)
    case GradeFail(m, _) => p == Running
    case CommitFail(m) => p.FailGraded? && (p.sawSent && p.exhausts ==> s.lock == {})
    case Grant(m) => p == Idle && m in needed && m in s.exhausted && s.status in {Failed, QuizSent} && s.lock == {}
  }

  /** `target` is where a complete quiz sends the submission: COMPLETED or the teacher. */
  function Apply(s: State, needed: set<Student>, target: Status, step: Step): State
    requires Enabled(s, needed, step)
  {
    var m := step.m;
    match step
    case Start(_) => s.(phase := s.phase[m := Running])
    case GradePass(_) => s.(phase := s.phase[m := PassFlushed(s.status == QuizSent)])
    case TakeLock(_) => s.(phase := s.phase[m := Locked], lock := {m})
    case Decide(_) =>
      s.(phase := s.phase[m := Decided(s.status == QuizSent && QuizComplete(s, needed, m))], unseen := {})
    case CommitPass(_) =>
      var move := s.phase[m].move;
      s.(phase := s.phase[m := Idle], passed := s.passed + {m}, lock := {},
         status := if move then target else s.status,
         movers := if move then s.movers + [m] else s.movers)
    case CommitPassUnlocked(_) =>
      s.(phase := s.phase[m := Idle], passed := s.passed + {m},
         unseen := if m in needed then s.unseen + {m} else s.unseen)
    case GradeFail(_, exhausts) => s.(phase := s.phase[m := FailGraded(s.status == QuizSent, exhausts)])
    case CommitFail(_) =>
      var p := s.phase[m];
      s.(phase := s.phase[m := Idle],
         exhausted := if p.exhausts then s.exhausted + {m} else s.exhausted,
         status := if p.sawSent && p.exhausts then Failed else s.status)
    case Grant(_) => s.(status := QuizSent, exhausted := s.exhausted - {m})
  }

  function Init(all: set<Student>): State {
    State(QuizSent, {}, map m | m in all :: Idle, {}, {}, [], {})
  }

  ghost predicate IsRun(s: State, needed: set<Student>, target: Status, steps: seq<Step>, end: State)
    decreases |steps|
  {
    if steps == [] then s == end
    else Enabled(s, needed, steps[0]) && IsRun(Apply(s, needed, target, steps[0]), needed, target, steps[1..], end)
  }

  // ---------------------------------------------------------------- invariant

  ghost predicate Busy(p: Phase) {
    p != Idle
  }

  ghost predicate HoldsLock(p: Phase) {
    p == Locked || p.Decided?
  }

  ghost predicate Inv(s: State, needed: set<Student>, target: Status) {
    needed != {} && needed <= s.phase.Keys && s.unseen <= needed
    && s.passed !! s.exhausted
    && s.status in {QuizSent, Failed, target}
    && (forall m :: m in s.phase && Busy(s.phase[m]) ==> m !in s.passed && m !in s.exhausted)
    && (forall m :: m in s.phase ==> (HoldsLock(s.phase[m]) <==> m in s.lock))
    && (s.lock == {} || exists m :: m in s.phase && s.lock == {m})
    && (forall m :: m in s.phase && s.phase[m] == Decided(true) ==>
          s.status == QuizSent && s.unseen == {} && needed <= s.passed + {m})
    && (forall m :: m in s.phase && s.phase[m] == Decided(false) && s.unseen == {} && s.status == QuizSent ==>
          !(needed <= s.passed + {m}))
    && (s.status == Failed ==> exists x :: x in s.exhausted)
    && Moves(s, needed, target)
  }

  /** The submission is moved at most once, and only when all enrolled members have passed. */
  ghost predicate Moves(s: State, needed: set<Student>, target: Status) {
    (s.status == target ==> s.movers != [])
    && (s.status == QuizSent ==> s.movers == [])
    && (s.movers != [] ==> |s.movers| == 1 && s.movers[0] in s.phase && needed <= s.passed && s.unseen == {})
    && (needed <= s.passed && s.unseen == {} && s.status == QuizSent ==> InFlight(s))
  }

  /** A decision to move the submission that is not committed yet. */
  ghost predicate InFlight(s: State) {
    exists m :: m in s.phase && s.phase[m] == Decided(true)
  }

  lemma StepKeeps(s: State, needed: set<Student>, target: Status, step: Step)
    requires target in {Completed, AwaitingTeacherReview}
    requires Inv(s, needed, target) && Enabled(s, needed, step)
    ensures Inv(Apply(s, needed, target, step), needed, target)
    ensures Apply(s, needed, target, step).phase.Keys == s.phase.Keys
  {
    var m := step.m;
    match step
    case Start(_) => QuietStepKeeps(s, needed, target, step);
    case GradePass(_) => QuietStepKeeps(s, needed, target, step);
    case GradeFail(_, _) => QuietStepKeeps(s, needed, target, step);
    case TakeLock(_) => LockStepKeeps(s, needed, target, step);
    case Decide(_) => LockStepKeeps(s, needed, target, step);
    case CommitPass(_) => CommitKeeps(s, needed, target, m);
    case CommitPassUnlocked(_) => UnlockedKeeps(s, needed, target, m);
    case CommitFail(_) => FailKeeps(s, needed, target, m);
    case Grant(_) => GrantKeeps(s, needed, target, m);
  }

  /** Steps inside one transaction that nobody else can see. */
  lemma QuietStepKeeps(s: State, needed: set<Student>, target: Status, step: Step)
    requires target in {Completed, AwaitingTeacherReview}
    requires Inv(s, needed, target) && Enabled(s, needed, step)
    requires step.Start? || step.GradePass? || step.GradeFail?
    ensures Inv(Apply(s, needed, target, step), needed, target)
  {
    assert Apply(s, needed, target, step).phase.Keys == s.phase.Keys;
  }

  lemma LockStepKeeps(s: State, needed: set<Student>, target: Status, step: Step)
    requires target in {Completed, AwaitingTeacherReview}
    requires Inv(s, needed, target) && Enabled(s, needed, step)
    requires step.TakeLock? || step.Decide?
    ensures Inv(Apply(s, needed, target, step), needed, target)
  {
    assert Apply(s, needed, target, step).phase.Keys == s.phase.Keys;
    assert step.m !in s.passed;
  }

  lemma FailKeeps(s: State, needed: set<Student>, target: Status, m: Student)
    requires target in {Completed, AwaitingTeacherReview}
    requires Inv(s, needed, target) && Enabled(s, needed, CommitFail(m))
    ensures Inv(Apply(s, needed, target, CommitFail(m)), needed, target)
  {
    var t := Apply(s, needed, target, CommitFail(m));
    assert t.phase.Keys == s.phase.Keys;
    assert m !in s.passed && s.phase[m].exhausts ==> m in t.exhausted;
    if s.status == Failed {
      var x :| x in s.exhausted;
      assert x in t.exhausted;
    }
  }

  lemma GrantKeeps(s: State, needed: set<Student>, target: Status, m: Student)
    requires target in {Completed, AwaitingTeacherReview}
    requires Inv(s, needed, target) && Enabled(s, needed, Grant(m))
    ensures Inv(Apply(s, needed, target, Grant(m)), needed, target)
  {
    var t := Apply(s, needed, target, Grant(m));
    assert m in needed && m !in s.passed;
    assert forall n :: n in t.phase ==> !HoldsLock(t.phase[n]);
  }

  lemma CommitKeeps(s: State, needed: set<Student>, target: Status, m: Student)
    requires target in {Completed, AwaitingTeacherReview}
    requires Inv(s, needed, target) && Enabled(s, needed, CommitPass(m))
    ensures Inv(Apply(s, needed, target, CommitPass(m)), needed, target)
  {
    assert m !in s.passed && m in s.lock;
    var t := Apply(s, needed, target, CommitPass(m));
    assert t.phase.Keys == s.phase.Keys;
    forall n | n in s.phase ensures !HoldsLock(t.phase[n]) {
      assert n != m ==> n !in s.lock;
    }
  }

  lemma UnlockedKeeps(s: State, needed: set<Student>, target: Status, m: Student)
    requires target in {Completed, AwaitingTeacherReview}
    requires Inv(s, needed, target) && Enabled(s, needed, CommitPassUnlocked(m))
    ensures Inv(Apply(s, needed, target, CommitPassUnlocked(m)), needed, target)
  {
    assert m !in s.passed;
    var t := Apply(s, needed, target, CommitPassUnlocked(m));
    assert t.phase.Keys == s.phase.Keys;
    forall n | n in s.phase && n != m && t.phase[n] == Decided(true) ensures m !in needed {
      assert m !in s.passed + {n};
    }
    forall n | needed <= t.passed + {n} && m !in needed ensures needed <= s.passed + {n} {}
  }

  lemma {:induction false} RunKeeps(s: State, needed: set<Student>, target: Status, steps: seq<Step>, end: State)
    requires target in {Completed, AwaitingTeacherReview}
    requires Inv(s, needed, target) && IsRun(s, needed, target, steps, end)
    ensures Inv(end, needed, target) && end.phase.Keys == s.phase.Keys
    decreases |steps|
  {
    if steps != [] {
      StepKeeps(s, needed, target, steps[0]);
      RunKeeps(Apply(s, needed, target, steps[0]), needed, target, steps[1..], end);
    }
  }

  lemma InitInv(all: set<Student>, needed: set<Student>, target: Status)
    requires needed != {} && needed <= all && target in {Completed, AwaitingTeacherReview}
    ensures Inv(Init(all), needed, target) && Init(all).phase.Keys == all
  {
    assert Init(all).phase.Keys == all;
  }

  // ---------------------------------------------------------------- conditions on the steps

  /** Every enrolled member's pass that committed without the lock is followed by a decision. */
  ghost predicate Looked(steps: seq<Step>, needed: set<Student>) {
    forall i :: 0 <= i < |steps| && steps[i].CommitPassUnlocked? && steps[i].m in needed ==> Decides(steps[i + 1..])
  }

  ghost predicate Decides(steps: seq<Step>) {
    exists j :: 0 <= j < |steps| && steps[j].Decide?
  }

  lemma LookedTail(steps: seq<Step>, needed: set<Student>)
    requires steps != []
    ensures Looked(steps, needed) <==>
              Looked(steps[1..], needed)
              && (steps[0].CommitPassUnlocked? && steps[0].m in needed ==> Decides(steps[1..]))
    ensures Decides(steps) <==> steps[0].Decide? || Decides(steps[1..])
  {
    var rest := steps[1..];
    forall i | 0 <= i < |rest| ensures rest[i + 1..] == steps[i + 2..] && rest[i] == steps[i + 1] {}
    if Looked(steps, needed) {
      forall i | 0 <= i < |rest| && rest[i].CommitPassUnlocked? && rest[i].m in needed ensures Decides(rest[i + 1..]) {
        assert Decides(steps[i + 1 + 1..]);
      }
    }
    if Looked(rest, needed) && (steps[0].CommitPassUnlocked? && steps[0].m in needed ==> Decides(rest)) {
      forall i | 0 <= i < |steps| && steps[i].CommitPassUnlocked? && steps[i].m in needed
        ensures Decides(steps[i + 1..]) {
        if i > 0 { assert rest[i - 1] == steps[i] && rest[i - 1 + 1..] == steps[i + 1..]; }
      }
    }
    if Decides(rest) {
      var j :| 0 <= j < |rest| && rest[j].Decide?;
      assert steps[j + 1].Decide?;
    }
    if Decides(steps) && !steps[0].Decide? {
      var j :| 0 <= j < |steps| && steps[j].Decide?;
      assert rest[j - 1].Decide?;
    }
  }

  lemma {:induction false} UnseenRun(s: State, needed: set<Student>, target: Status, steps: seq<Step>, end: State)
    requires IsRun(s, needed, target, steps, end)
    ensures end.unseen == {} <==> Looked(steps, needed) && (s.unseen == {} || Decides(steps))
    decreases |steps|
  {
    if steps != [] {
      LookedTail(steps, needed);
      UnseenRun(Apply(s, needed, target, steps[0]), needed, target, steps[1..], end);
    }
  }

  ghost predicate NoGrant(steps: seq<Step>) {
    forall i :: 0 <= i < |steps| ==> !steps[i].Grant?
  }

  /** The commit of an exhausting failure whose request loaded QUIZ_SENT: it writes FAILED,
      whatever the submission has become since. */
  ghost predicate WritesFailed(s: State, step: Step) {
    step.CommitFail? && step.m in s.phase && s.phase[step.m] == FailGraded(true, true)
  }

  /** Such a commit by a member who is not enrolled, with no grant after it. */
  ghost predicate Spoiled(s: State, needed: set<Student>, target: Status, steps: seq<Step>)
    decreases |steps|
  {
    steps != [] && Enabled(s, needed, steps[0])
    && ((WritesFailed(s, steps[0]) && steps[0].m !in needed && NoGrant(steps[1..]))
        || Spoiled(Apply(s, needed, target, steps[0]), needed, target, steps[1..]))
  }

  lemma NoGrantTail(steps: seq<Step>)
    requires steps != []
    ensures NoGrant(steps) <==> !steps[0].Grant? && NoGrant(steps[1..])
  {
    assert forall i :: 1 <= i < |steps| ==> steps[i] == steps[1..][i - 1];
    assert forall i :: 0 <= i < |steps[1..]| ==> steps[1..][i] == steps[i + 1];
  }

  lemma {:induction false} ExhaustedStays(s: State, needed: set<Student>, target: Status, steps: seq<Step>,
      end: State, m: Student)
    requires IsRun(s, needed, target, steps, end) && NoGrant(steps) && m in s.exhausted
    ensures m in end.exhausted
    decreases |steps|
  {
    if steps != [] {
      NoGrantTail(steps);
      ExhaustedStays(Apply(s, needed, target, steps[0]), needed, target, steps[1..], end, m);
    }
  }

  lemma {:induction false} FailedStays(s: State, needed: set<Student>, target: Status, steps: seq<Step>, end: State)
    requires target in {Completed, AwaitingTeacherReview}
    requires Inv(s, needed, target) && IsRun(s, needed, target, steps, end)
    requires Spoiled(s, needed, target, steps) || (s.status == Failed && NoGrant(steps))
    ensures end.status == Failed
    decreases |steps|
  {
    if steps != [] {
      NoGrantTail(steps);
      StepKeeps(s, needed, target, steps[0]);
      FailedStays(Apply(s, needed, target, steps[0]), needed, target, steps[1..], end);
    }
  }

  lemma {:induction false} FailedBySpoiling(s: State, needed: set<Student>, target: Status, steps: seq<Step>,
      end: State)
    requires target in {Completed, AwaitingTeacherReview}
    requires Inv(s, needed, target) && IsRun(s, needed, target, steps, end)
    requires end.status == Failed && needed <= end.passed
    ensures Spoiled(s, needed, target, steps) || (s.status == Failed && NoGrant(steps))
    decreases |steps|
  {
    if steps != [] {
      var t := Apply(s, needed, target, steps[0]);
      NoGrantTail(steps);
      StepKeeps(s, needed, target, steps[0]);
      FailedBySpoiling(t, needed, target, steps[1..], end);
      RunKeeps(t, needed, target, steps[1..], end);
      if !Spoiled(t, needed, target, steps[1..]) && s.status != Failed && steps[0].m in needed {
        ExhaustedStays(t, needed, target, steps[1..], end, steps[0].m);
      }
    }
  }

  // ---------------------------------------------------------------- main results

  /** In every interleaving: the submission leaves for its target only after every enrolled
      member's pass is committed, and exactly one member moves it. A failing request undoes that
      if and only if it is an exhausting failure of a member who is not enrolled. */
  lemma MovedOnceAndOnlyWhenAllPassed(all: set<Student>, needed: set<Student>, target: Status, steps: seq<Step>,
      end: State)
    requires needed != {} && needed <= all && target in {Completed, AwaitingTeacherReview}
    requires IsRun(Init(all), needed, target, steps, end)
    ensures end.status in {QuizSent, Failed, target}
    ensures end.movers != [] ==> needed <= end.passed && |end.movers| == 1 && end.movers[0] in all
    ensures end.movers != [] ==>
              if Spoiled(Init(all), needed, target, steps) then end.status == Failed else end.status == target
    ensures end.movers == [] ==> end.status != target
  {
    InitInv(all, needed, target);
    RunKeeps(Init(all), needed, target, steps, end);
    if Spoiled(Init(all), needed, target, steps) {
      FailedStays(Init(all), needed, target, steps, end);
    } else if end.movers != [] && end.status == Failed {
      FailedBySpoiling(Init(all), needed, target, steps, end);
    }
  }

  /** Once every enrolled member's pass is committed, the submission stands at its target, or the
      decision to send it there is about to commit, if and only if some decision followed the last
      enrolled member's pass committed without the lock, and no member who is not enrolled has
      failed it for good. */
  lemma AllPassedMeansMoved(all: set<Student>, needed: set<Student>, target: Status, steps: seq<Step>, end: State)
    requires needed != {} && needed <= all && target in {Completed, AwaitingTeacherReview}
    requires IsRun(Init(all), needed, target, steps, end)
    requires needed <= end.passed
    ensures end.status == target || InFlight(end) <==>
              Looked(steps, needed) && !Spoiled(Init(all), needed, target, steps)
  {
    InitInv(all, needed, target);
    RunKeeps(Init(all), needed, target, steps, end);
    UnseenRun(Init(all), needed, target, steps, end);
    if Spoiled(Init(all), needed, target, steps) {
      FailedStays(Init(all), needed, target, steps, end);
    } else if end.status == Failed {
      FailedBySpoiling(Init(all), needed, target, steps, end);
    }
  }

  /** No enrolled member's pass was graded while the submission stood at FAILED. */
  ghost predicate EveryPassSawQuizSent(steps: seq<Step>, needed: set<Student>) {
    forall i :: 0 <= i < |steps| && steps[i].CommitPassUnlocked? ==> steps[i].m !in needed
  }

  /** A quiz taken by enrolled members only cannot be spoiled. */
  lemma {:induction false} EnrolledDoNotSpoil(s: State, needed: set<Student>, target: Status, steps: seq<Step>)
    requires s.phase.Keys <= needed
    ensures !Spoiled(s, needed, target, steps)
    decreases |steps|
  {
    if steps != [] && Enabled(s, needed, steps[0]) {
      EnrolledDoNotSpoil(Apply(s, needed, target, steps[0]), needed, target, steps[1..]);
    }
  }

  /** When everyone taking the quiz is enrolled and every passing request found the submission at
      QUIZ_SENT, the last pass to commit is also the one that has moved it: two members finishing
      at once cannot both miss it. */
  lemma LastPassMoves(needed: set<Student>, target: Status, steps: seq<Step>, end: State)
    requires needed != {} && target in {Completed, AwaitingTeacherReview}
    requires IsRun(Init(needed), needed, target, steps, end) && EveryPassSawQuizSent(steps, needed)
    ensures end.status == target <==> needed <= end.passed
  {
    MovedOnceAndOnlyWhenAllPassed(needed, needed, target, steps, end);
    EnrolledDoNotSpoil(Init(needed), needed, target, steps);
    if needed <= end.passed {
      AllPassedMeansMoved(needed, needed, target, steps, end);
      InitInv(needed, needed, target);
      RunKeeps(Init(needed), needed, target, steps, end);
      assert forall m :: m in end.phase ==> !Busy(end.phase[m]);
    }
  }

  // ---------------------------------------------------------------- what the rows say of the run

  ghost predicate NoGrantTo(steps: seq<Step>, m: Student) {
    forall k :: 0 <= k < |steps| ==> steps[k] != Grant(m)
  }

  ghost predicate Commits(steps: seq<Step>, m: Student) {
    exists j :: 0 <= j < |steps| && steps[j] == CommitFail(m)
  }

  /** A failure graded as the last attempt is committed, and no attempt is granted after it. */
  ghost predicate OutOfAttempts(steps: seq<Step>, m: Student) {
    exists i :: 0 <= i < |steps| && steps[i] == GradeFail(m, true)
                && Commits(steps[i + 1..], m) && NoGrantTo(steps[i + 1..], m)
  }

  ghost predicate CommitsPass(steps: seq<Step>, m: Student) {
    exists i :: 0 <= i < |steps| && (steps[i] == CommitPass(m) || steps[i] == CommitPassUnlocked(m))
  }

  lemma HistoryTail(steps: seq<Step>, m: Student)
    requires steps != []
    ensures NoGrantTo(steps, m) <==> steps[0] != Grant(m) && NoGrantTo(steps[1..], m)
    ensures Commits(steps, m) <==> steps[0] == CommitFail(m) || Commits(steps[1..], m)
    ensures CommitsPass(steps, m) <==>
              steps[0] == CommitPass(m) || steps[0] == CommitPassUnlocked(m) || CommitsPass(steps[1..], m)
  {
    var rest := steps[1..];
    assert forall k :: 0 <= k < |rest| ==> rest[k] == steps[k + 1];
    assert forall k :: 1 <= k < |steps| ==> steps[k] == rest[k - 1];
  }

  lemma OutTail(steps: seq<Step>, m: Student)
    requires steps != []
    ensures OutOfAttempts(steps, m) <==>
              OutOfAttempts(steps[1..], m)
              || (steps[0] == GradeFail(m, true) && Commits(steps[1..], m) && NoGrantTo(steps[1..], m))
  {
    var rest := steps[1..];
    forall i | 0 <= i < |rest| ensures rest[i + 1..] == steps[i + 2..] && rest[i] == steps[i + 1] {}
    if OutOfAttempts(rest, m) {
      var i :| 0 <= i < |rest| && rest[i] == GradeFail(m, true)
               && Commits(rest[i + 1..], m) && NoGrantTo(rest[i + 1..], m);
      assert steps[i + 1] == GradeFail(m, true) && steps[i + 2..] == rest[i + 1..];
    }
    if OutOfAttempts(steps, m) {
      var i :| 0 <= i < |steps| && steps[i] == GradeFail(m, true)
               && Commits(steps[i + 1..], m) && NoGrantTo(steps[i + 1..], m);
      if i > 0 { assert rest[i - 1] == steps[i] && rest[i - 1 + 1..] == steps[i + 1..]; }
    }
  }

  /** A failure graded as the last attempt, not committed yet. */
  ghost predicate FailingForGood(s: State, m: Student) {
    m in s.phase && s.phase[m].FailGraded? && s.phase[m].exhausts
  }

  lemma ExhaustedStep(s: State, needed: set<Student>, target: Status, step: Step, m: Student)
    requires Enabled(s, needed, step)
    ensures var t := Apply(s, needed, target, step);
            (m in t.exhausted <==>
               (m in s.exhausted && step != Grant(m)) || (step == CommitFail(m) && FailingForGood(s, m)))
            && (FailingForGood(t, m) <==>
                  (FailingForGood(s, m) && step != CommitFail(m)) || step == GradeFail(m, true))
    ensures FailingForGood(s, m) ==> step != Grant(m) && step != GradeFail(m, true)
  {
  }

  lemma {:induction false} ExhaustedRun(s: State, needed: set<Student>, target: Status, steps: seq<Step>, end: State,
      m: Student)
    requires IsRun(s, needed, target, steps, end)
    ensures m in end.exhausted <==>
              OutOfAttempts(steps, m)
              || (FailingForGood(s, m) && Commits(steps, m) && NoGrantTo(steps, m))
              || (m in s.exhausted && NoGrantTo(steps, m))
    decreases |steps|
  {
    if steps != [] {
      HistoryTail(steps, m);
      OutTail(steps, m);
      ExhaustedStep(s, needed, target, steps[0], m);
      ExhaustedRun(Apply(s, needed, target, steps[0]), needed, target, steps[1..], end, m);
    }
  }

  lemma {:induction false} PassedRun(s: State, needed: set<Student>, target: Status, steps: seq<Step>, end: State,
      m: Student)
    requires IsRun(s, needed, target, steps, end)
    ensures m in end.passed <==> m in s.passed || CommitsPass(steps, m)
    decreases |steps|
  {
    if steps != [] {
      HistoryTail(steps, m);
      PassedRun(Apply(s, needed, target, steps[0]), needed, target, steps[1..], end, m);
    }
  }

  /** In every run: a member has passed exactly when a pass of theirs was committed, and is out of
      attempts exactly when a failure of their last attempt was committed and none granted since. */
  lemma RowsTellTheRun(all: set<Student>, needed: set<Student>, target: Status, steps: seq<Step>, end: State,
      m: Student)
    requires needed != {} && needed <= all && target in {Completed, AwaitingTeacherReview}
    requires IsRun(Init(all), needed, target, steps, end)
    ensures m in end.passed <==> CommitsPass(steps, m)
    ensures m in end.exhausted <==> OutOfAttempts(steps, m)
  {
    InitInv(all, needed, target);
    PassedRun(Init(all), needed, target, steps, end, m);
    ExhaustedRun(Init(all), needed, target, steps, end, m);
  }

  /** So exactly these may start: anyone taking the quiz who is idle while the submission is at
      QUIZ_SENT, with no committed pass and with attempts left; and exactly an enrolled, idle member
      out of attempts may be granted one. */
  lemma WhoMayStart(all: set<Student>, needed: set<Student>, target: Status, steps: seq<Step>, end: State, m: Student)
    requires needed != {} && needed <= all && target in {Completed, AwaitingTeacherReview}
    requires IsRun(Init(all), needed, target, steps, end) && m in end.phase && end.phase[m] == Idle
    ensures Enabled(end, needed, Start(m)) <==>
              end.status == QuizSent && !CommitsPass(steps, m) && !OutOfAttempts(steps, m)
    ensures Enabled(end, needed, Grant(m)) <==>
              m in needed && OutOfAttempts(steps, m) && end.status != target && end.lock == {}
  {
    MovedOnceAndOnlyWhenAllPassed(all, needed, target, steps, end);
    RowsTellTheRun(all, needed, target, steps, end, m);
  }

  /** What a graded request may still do to the submission is settled when it is graded: only one that
      found QUIZ_SENT can move it, a failure exactly if it was the last attempt, a pass only by the
      lock. */
  lemma GradedOnceForAll(s: State, needed: set<Student>, target: Status, m: Student, exhausts: bool, later: State)
    requires Enabled(s, needed, GradeFail(m, exhausts)) && Enabled(later, needed, CommitFail(m))
    requires later.phase[m] == Apply(s, needed, target, GradeFail(m, exhausts)).phase[m]
    ensures Apply(later, needed, target, CommitFail(m)).status
            == if s.status == QuizSent && exhausts then Failed else later.status
    ensures Apply(later, needed, target, CommitFail(m)).passed == later.passed
    ensures Apply(later, needed, target, CommitFail(m)).exhausted == later.exhausted + if exhausts then {m} else {}
  {
  }

  lemma PassGradedOnceForAll(s: State, needed: set<Student>, target: Status, m: Student, later: State)
    requires Enabled(s, needed, GradePass(m)) && m in later.phase
    requires later.phase[m] == Apply(s, needed, target, GradePass(m)).phase[m]
    ensures Enabled(later, needed, CommitPassUnlocked(m)) <==> s.status != QuizSent
    ensures Enabled(later, needed, TakeLock(m)) <==> s.status == QuizSent && later.lock == {}
    ensures Enabled(later, needed, CommitPassUnlocked(m)) ==>
              Apply(later, needed, target, CommitPassUnlocked(m)).status == later.status
              && Apply(later, needed, target, CommitPassUnlocked(m)).passed == later.passed + {m}
  {
  }

  /** In the middle of a finishing request. */
  ghost predicate Finishing(p: Phase) {
    p != Idle && p != Running
  }

  /** The row lock never leaves finishing requests waiting for each other: while some member is
      finishing, some finishing member can go on. */
  lemma NobodyStuck(all: set<Student>, needed: set<Student>, target: Status, steps: seq<Step>, end: State, m: Student)
    returns (step: Step)
    requires needed != {} && needed <= all && target in {Completed, AwaitingTeacherReview}
    requires IsRun(Init(all), needed, target, steps, end) && m in end.phase && Finishing(end.phase[m])
    ensures Enabled(end, needed, step) && Finishing(end.phase[step.m])
  {
    InitInv(all, needed, target);
    RunKeeps(Init(all), needed, target, steps, end);
    var h := m;
    if end.lock != {} { h :| h in end.phase && end.lock == {h}; }
    step := match end.phase[h]
      case PassFlushed(sawSent) => if sawSent then TakeLock(h) else CommitPassUnlocked(h)
      case Locked => Decide(h)
      case Decided(_) => CommitPass(h)
      case _ => CommitFail(h);
  }

  lemma {:induction false} RunExtends(s: State, needed: set<Student>, target: Status, steps: seq<Step>, mid: State,
      step: Step)
    requires IsRun(s, needed, target, steps, mid) && Enabled(mid, needed, step)
    ensures IsRun(s, needed, target, steps + [step], Apply(mid, needed, target, step))
    decreases |steps|
  {
    var longer := steps + [step];
    if steps == [] {
      assert longer[1..] == [];
    } else {
      assert longer[1..] == steps[1..] + [step];
      RunExtends(Apply(s, needed, target, steps[0]), needed, target, steps[1..], mid, step);
    }
  }

  /** Two members, 1 and 2, with nobody having moved the submission. */
  function Pair(status: Status, lock: set<Student>, one: Phase, two: Phase, passed: set<Student>,
                exhausted: set<Student>, unseen: set<Student>): State {
    State(status, lock, map[1 := one, 2 := two], passed, exhausted, [], unseen)
  }

  ghost predicate Reached(both: set<Student>, target: Status, end: State) {
    ReachedWith(both, both, target, end)
  }

  ghost predicate ReachedWith(all: set<Student>, needed: set<Student>, target: Status, end: State) {
    exists steps :: IsRun(Init(all), needed, target, steps, end)
  }

  lemma Advance(both: set<Student>, target: Status, mid: State, step: Step, next: State)
    requires Reached(both, target, mid)
    requires Enabled(mid, both, step) && next == Apply(mid, both, target, step)
    ensures Reached(both, target, next)
  {
    AdvanceWith(both, both, target, mid, step, next);
  }

  lemma AdvanceWith(all: set<Student>, needed: set<Student>, target: Status, mid: State, step: Step, next: State)
    requires ReachedWith(all, needed, target, mid)
    requires Enabled(mid, needed, step) && next == Apply(mid, needed, target, step)
    ensures ReachedWith(all, needed, target, next)
  {
    var steps :| IsRun(Init(all), needed, target, steps, mid);
    RunExtends(Init(all), needed, target, steps, mid, step);
  }

  lemma BothAnswering(both: set<Student>, target: Status)
    requires both == {1, 2}
    ensures Reached(both, target, Pair(QuizSent, {}, Running, Running, {}, {}, {}))
  {
    var s0 := Pair(QuizSent, {}, Idle, Idle, {}, {}, {});
    assert IsRun(Init(both), both, target, [], s0);
    var s1 := Pair(QuizSent, {}, Running, Idle, {}, {}, {});
    Advance(both, target, s0, Start(1), s1);
    Advance(both, target, s1, Start(2), Pair(QuizSent, {}, Running, Running, {}, {}, {}));
  }

  /** 1 uses up its attempts while 2 is still answering. */
  lemma OneExhausted(both: set<Student>, target: Status)
    requires both == {1, 2}
    ensures Reached(both, target, Pair(Failed, {}, Idle, Running, {}, {1}, {}))
  {
    BothAnswering(both, target);
    var s0 := Pair(QuizSent, {}, Running, Running, {}, {}, {});
    var s1 := Pair(QuizSent, {}, FailGraded(true, true), Running, {}, {}, {});
    Advance(both, target, s0, GradeFail(1, true), s1);
    Advance(both, target, s1, CommitFail(1), Pair(Failed, {}, Idle, Running, {}, {1}, {}));
  }

  /** 2 grades its pass at FAILED; then the teacher grants 1 an attempt, and 1 passes it. */
  lemma PassGradedAtFailed(both: set<Student>, target: Status)
    requires both == {1, 2}
    ensures Reached(both, target, Pair(QuizSent, {}, PassFlushed(true), PassFlushed(false), {}, {}, {}))
  {
    OneExhausted(both, target);
    var s0 := Pair(Failed, {}, Idle, Running, {}, {1}, {});
    var s1 := s0.(phase := map[1 := Idle, 2 := PassFlushed(false)]);
    Advance(both, target, s0, GradePass(2), s1);
    var s2 := Pair(QuizSent, {}, Idle, PassFlushed(false), {}, {}, {});
    Advance(both, target, s1, Grant(1), s2);
    var s3 := s2.(phase := map[1 := Running, 2 := PassFlushed(false)]);
    Advance(both, target, s2, Start(1), s3);
    Advance(both, target, s3, GradePass(1), Pair(QuizSent, {}, PassFlushed(true), PassFlushed(false), {}, {}, {}));
  }

  /** 1 decides under the lock before 2's pass is visible. */
  lemma DecidedTooEarly(both: set<Student>, target: Status)
    requires both == {1, 2}
    ensures Reached(both, target, Pair(QuizSent, {}, Idle, PassFlushed(false), {1}, {}, {}))
  {
    PassGradedAtFailed(both, target);
    var s0 := Pair(QuizSent, {}, PassFlushed(true), PassFlushed(false), {}, {}, {});
    var s1 := Pair(QuizSent, {1}, Locked, PassFlushed(false), {}, {}, {});
    Advance(both, target, s0, TakeLock(1), s1);
    assert 2 in both && 2 !in s1.passed + {1};
    var s2 := Pair(QuizSent, {1}, Decided(false), PassFlushed(false), {}, {}, {});
    Advance(both, target, s1, Decide(1), s2);
    Advance(both, target, s2, CommitPass(1), Pair(QuizSent, {}, Idle, PassFlushed(false), {1}, {}, {}));
  }

  /** The condition is needed: a pass graded while the submission stood at FAILED commits
      unlooked at, so all members can have passed with the submission still at QUIZ_SENT, and
      then no step is left that could move it. */
  lemma AStuckRunExists(both: set<Student>, target: Status) returns (end: State)
    requires both == {1, 2}
    ensures Reached(both, target, end)
    ensures end.passed == both && end.status == QuizSent && end.movers == []
    ensures forall step :: !Enabled(end, both, step)
  {
    DecidedTooEarly(both, target);
    end := Pair(QuizSent, {}, Idle, Idle, {1, 2}, {}, {2});
    var s := Pair(QuizSent, {}, Idle, PassFlushed(false), {1}, {}, {});
    Advance(both, target, s, CommitPassUnlocked(2), end);
  }

  /** 2, who is no longer enrolled, fails its last attempt at QUIZ_SENT but has not committed. */
  lemma OutsiderFailing(target: Status)
    ensures ReachedWith({1, 2}, {1}, target, Pair(QuizSent, {}, Running, FailGraded(true, true), {}, {}, {}))
  {
    var s0 := Pair(QuizSent, {}, Idle, Idle, {}, {}, {});
    assert IsRun(Init({1, 2}), {1}, target, [], s0);
    var s1 := Pair(QuizSent, {}, Running, Idle, {}, {}, {});
    AdvanceWith({1, 2}, {1}, target, s0, Start(1), s1);
    var s2 := Pair(QuizSent, {}, Running, Running, {}, {}, {});
    AdvanceWith({1, 2}, {1}, target, s1, Start(2), s2);
    AdvanceWith({1, 2}, {1}, target, s2, GradeFail(2, true),
                Pair(QuizSent, {}, Running, FailGraded(true, true), {}, {}, {}));
  }

  /** Meanwhile 1, the only enrolled member, passes and takes the lock. */
  lemma LockedMeanwhile(target: Status)
    ensures ReachedWith({1, 2}, {1}, target, Pair(QuizSent, {1}, Locked, FailGraded(true, true), {}, {}, {}))
  {
    OutsiderFailing(target);
    var s0 := Pair(QuizSent, {}, Running, FailGraded(true, true), {}, {}, {});
    var s1 := Pair(QuizSent, {}, PassFlushed(true), FailGraded(true, true), {}, {}, {});
    AdvanceWith({1, 2}, {1}, target, s0, GradePass(1), s1);
    AdvanceWith({1, 2}, {1}, target, s1, TakeLock(1), Pair(QuizSent, {1}, Locked, FailGraded(true, true), {}, {}, {}));
  }

  lemma DecidedMeanwhile(target: Status)
    ensures ReachedWith({1, 2}, {1}, target, Pair(QuizSent, {1}, Decided(true), FailGraded(true, true), {}, {}, {}))
  {
    LockedMeanwhile(target);
    var s := Pair(QuizSent, {1}, Locked, FailGraded(true, true), {}, {}, {});
    assert QuizComplete(s, {1}, 1);
    AdvanceWith({1, 2}, {1}, target, s, Decide(1),
                Pair(QuizSent, {1}, Decided(true), FailGraded(true, true), {}, {}, {}));
  }

  /** And moves the submission. */
  lemma MovedMeanwhile(target: Status)
    ensures ReachedWith({1, 2}, {1}, target,
                        Pair(target, {}, Idle, FailGraded(true, true), {1}, {}, {}).(movers := [1]))
  {
    DecidedMeanwhile(target);
    var s := Pair(QuizSent, {1}, Decided(true), FailGraded(true, true), {}, {}, {});
    assert s.movers + [1] == [1];
    AdvanceWith({1, 2}, {1}, target, s, CommitPass(1),
                Pair(target, {}, Idle, FailGraded(true, true), {1}, {}, {}).(movers := [1]));
  }

  /** Enrolment is needed: the late commit of an unenrolled member's failure overwrites the
      target with FAILED, and nothing is left that could undo it. */
  lemma AFailureOverwrites(target: Status) returns (end: State)
    requires target in {Completed, AwaitingTeacherReview}
    ensures ReachedWith({1, 2}, {1}, target, end)
    ensures end.movers == [1] && end.passed == {1} && end.status == Failed
    ensures forall step :: !Enabled(end, {1}, step)
  {
    MovedMeanwhile(target);
    var s := Pair(target, {}, Idle, FailGraded(true, true), {1}, {}, {}).(movers := [1]);
    end := Pair(Failed, {}, Idle, Idle, {1}, {2}, {}).(movers := [1]);
    AdvanceWith({1, 2}, {1}, target, s, CommitFail(2), end);
  }
}
