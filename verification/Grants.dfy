/** Quiz attempts on one submission, the cap on them, and extra attempts a teacher grants. */
module Grants {
  // The cap is fixed for the run; how a pass moves the submission is left to the mode in use, so a
  // pass, a ruling and any outside request may set its status to anything.

  import opened Wrappers
  import opened QuizTypes
  import SM = StateMachine

  type Student = nat

  /** One attempt of a student; `pct` is its quiz percentage once finished. */
  datatype Try = Try(status: AttemptStatus, isPassed: bool, pct: real)

  datatype Quiz = Quiz(
    status: SM.Status,
    base: Option<int>,
    students: set<Student>,
    tries: map<Student, seq<Try>>,
    extra: map<Student, nat>)

  function TriesOf(q: Quiz, s: Student): seq<Try> {
    if s in q.tries then q.tries[s] else []
  }

  function ExtraOf(q: Quiz, s: Student): nat {
    if s in q.extra then q.extra[s] else 0
  }

  /** `effective_max_attempts` */
  function Cap(q: Quiz, s: Student): Option<int> {
    if q.base.None? then None else Some(q.base.value + ExtraOf(q, s))
  }

  predicate Running(t: Try) {
    !Terminal(t.status)
  }

  predicate AnyRunning(ts: seq<Try>) {
    exists i :: 0 <= i < |ts| && Running(ts[i])
  }

  predicate AnyPassed(ts: seq<Try>) {
    exists i :: 0 <= i < |ts| && ts[i].isPassed
  }

  /** Finished attempts, whatever their outcome. */
  function Used(ts: seq<Try>): nat {
    if ts == [] then 0 else Used(ts[..|ts| - 1]) + if Running(ts[|ts| - 1]) then 0 else 1
  }

  // ---------------------------------------------------------------- steps

  /** The gates of `start_or_resume_quiz`, in order. */
  predicate CanStart(q: Quiz, s: Student) {
    q.status == SM.QuizSent && !AnyRunning(TriesOf(q, s)) && !AnyPassed(TriesOf(q, s))
    && (Cap(q, s).None? || Used(TriesOf(q, s)) < Cap(q, s).value)
  }

  function Start(q: Quiz, s: Student): Quiz {
    if CanStart(q, s) then q.(tries := q.tries[s := TriesOf(q, s) + [Try(InProgress, false, 0.0)]]) else q
  }

  /** The running attempt, which is always the last one. */
  predicate HasRunning(q: Quiz, s: Student) {
    var ts := TriesOf(q, s);
    ts != [] && Running(ts[|ts| - 1])
  }

  function Close(q: Quiz, s: Student, outcome: AttemptStatus, passed: bool, pct: real): Quiz
    requires HasRunning(q, s)
  {
    var ts := TriesOf(q, s);
    q.(tries := q.tries[s := ts[|ts| - 1 := Try(outcome, passed, pct)]])
  }

  /** A failing attempt that uses up the cap fails the submission, if it is still open. */
  function Exhausts(q: Quiz, s: Student): bool {
    q.status == SM.QuizSent && Cap(q, s).Some? && Used(TriesOf(q, s)) + 1 >= Cap(q, s).value
  }

  /** `_grade_and_finalize`; `onPass` is where the mode sends the submission after a pass. */
  function Finish(q: Quiz, s: Student, outcome: AttemptStatus, passed: bool, pct: real, onPass: SM.Status): Quiz
    requires HasRunning(q, s)
  {
    var c := Close(q, s, outcome, passed, pct);
    if q.status != SM.QuizSent then c
    else if passed then c.(status := onPass)
    else if Exhausts(q, s) then c.(status := SM.Failed)
    else c
  }

  predicate Regradable(t: Try) {
    t.status in {Completed, TimedOut} && !t.isPassed
  }

  /** The attempts a ruling flips to passing, with their new percentages. */
  type Flips = map<(Student, nat), real>

  function FlipOne(t: Try, s: Student, i: nat, flips: Flips): Try {
    if (s, i) in flips && Regradable(t) then t.(isPassed := true, pct := flips[(s, i)]) else t
  }

  function FlipTries(ts: seq<Try>, s: Student, flips: Flips): seq<Try> {
    seq(|ts|, i requires 0 <= i < |ts| => FlipOne(ts[i], s, i, flips))
  }

  function FlipAll(q: Quiz, flips: Flips): Quiz {
    q.(tries := map s | s in q.tries :: FlipTries(q.tries[s], s, flips))
  }

  /** `is_exhausted` */
  predicate IsExhausted(q: Quiz, s: Student) {
    var ts := TriesOf(q, s);
    Cap(q, s).Some? && ts != [] && !AnyRunning(ts) && !AnyPassed(ts) && |ts| >= Cap(q, s).value
  }

  predicate Grantable(q: Quiz, s: Student) {
    s in q.students && q.status in {SM.Failed, SM.QuizSent} && IsExhausted(q, s)
  }

  /** `grant_extra_attempt`; anything but a stuck student is refused. */
  function Grant(q: Quiz, s: Student): Result<Quiz, string> {
    if Grantable(q, s) && SM.Next(q.status, SM.QuizAttemptGranted).Some? then
      Ok(q.(extra := q.extra[s := ExtraOf(q, s) + 1], status := SM.Next(q.status, SM.QuizAttemptGranted).value))
    else Err("student is not stuck on an exhausted quiz for this submission")
  }

  /** A grant the gates let through is always a legal transition, and reopens the quiz. */
  lemma GrantEdge(q: Quiz, s: Student)
    requires Grantable(q, s)
    ensures SM.Next(q.status, SM.QuizAttemptGranted) == Some(SM.QuizSent)
  {
  }

  datatype Step =
    | StartStep(s: Student)
    | FinishStep(s: Student, outcome: AttemptStatus, passed: bool, pct: real, onPass: SM.Status)
    | RulingStep(flips: Flips, after: SM.Status)
    | GrantStep(s: Student)
    | OutsideStep(after: SM.Status)

  predicate Enabled(q: Quiz, step: Step) {
    step.FinishStep? ==> HasRunning(q, step.s) && Terminal(step.outcome)
  }

  function Do(q: Quiz, step: Step): Quiz
    requires Enabled(q, step)
  {
    match step
    case StartStep(s) => Start(q, s)
    case FinishStep(s, outcome, passed, pct, onPass) => Finish(q, s, outcome, passed, pct, onPass)
    case RulingStep(flips, after) => FlipAll(q, flips).(status := after)
    case GrantStep(s) => if Grant(q, s).Ok? then Grant(q, s).value else q
    case OutsideStep(after) => q.(status := after)
  }

  ghost predicate IsRun(q: Quiz, steps: seq<Step>, end: Quiz)
    decreases |steps|
  {
    if steps == [] then q == end
    else Enabled(q, steps[0]) && IsRun(Do(q, steps[0]), steps[1..], end)
  }

  // ---------------------------------------------------------------- invariant

  /** Only the last attempt may be running, and the attempts stay within the cap. */
  ghost predicate StudentOk(q: Quiz, s: Student) {
    var ts := TriesOf(q, s);
    (forall i :: 0 <= i < |ts| - 1 ==> Terminal(ts[i].status))
    && (q.base.Some? && ts != [] ==> |ts| <= q.base.value + ExtraOf(q, s))
  }

  ghost predicate Inv(q: Quiz) {
    forall s :: StudentOk(q, s)
  }

  lemma {:induction false} UsedAll(ts: seq<Try>)
    requires forall i :: 0 <= i < |ts| ==> Terminal(ts[i].status)
    ensures Used(ts) == |ts|
  {
    if ts != [] { UsedAll(ts[..|ts| - 1]); }
  }

  lemma StartKeeps(q: Quiz, s: Student)
    requires Inv(q)
    ensures Inv(Start(q, s))
  {
    var v := Start(q, s);
    assert StudentOk(q, s);
    if CanStart(q, s) {
      var ts := TriesOf(q, s);
      assert forall i :: 0 <= i < |ts| ==> !Running(ts[i]);
      UsedAll(ts);
    }
    forall t ensures StudentOk(v, t) { assert StudentOk(q, t); }
  }

  lemma StepKeeps(q: Quiz, step: Step)
    requires Inv(q) && Enabled(q, step)
    ensures Inv(Do(q, step)) && Do(q, step).base == q.base
  {
    match step
    case StartStep(s) => StartKeeps(q, s);
    case FinishStep(s, outcome, passed, pct, onPass) =>
      forall t ensures StudentOk(Do(q, step), t) { assert StudentOk(q, t); }
    case RulingStep(flips, after) =>
      forall t ensures StudentOk(Do(q, step), t) { assert StudentOk(q, t); }
    case GrantStep(s) =>
      forall t ensures StudentOk(Do(q, step), t) { assert StudentOk(q, t); }
    case OutsideStep(after) =>
      forall t ensures StudentOk(Do(q, step), t) { assert StudentOk(q, t); }
  }

  lemma {:induction false} RunKeeps(q: Quiz, steps: seq<Step>, end: Quiz)
    requires Inv(q) && IsRun(q, steps, end)
    ensures Inv(end) && end.base == q.base
    decreases |steps|
  {
    if steps != [] {
      StepKeeps(q, steps[0]);
      RunKeeps(Do(q, steps[0]), steps[1..], end);
    }
  }

  function Fresh(base: Option<int>, students: set<Student>): Quiz {
    Quiz(SM.QuizSent, base, students, map[], map[])
  }

  // ---------------------------------------------------------------- main results

  /** In every run each student has at most one running attempt, the last one, and never more
      attempts than the base cap plus the grants. */
  lemma AttemptsWithinCap(base: Option<int>, students: set<Student>, steps: seq<Step>, q: Quiz, s: Student)
    requires IsRun(Fresh(base, students), steps, q)
    ensures var ts := TriesOf(q, s);
            (forall i, j :: 0 <= i < |ts| && 0 <= j < |ts| && Running(ts[i]) && Running(ts[j]) ==> i == j)
            && (base.Some? && ts != [] ==> |ts| <= base.value + ExtraOf(q, s))
  {
    RunKeeps(Fresh(base, students), steps, q);
    assert StudentOk(q, s);
  }

  /** A grant succeeds only when the bound is reached with equality, and then the student can
      start at once. */
  lemma GrantAtTheBound(base: Option<int>, students: set<Student>, steps: seq<Step>, q: Quiz, s: Student)
    requires IsRun(Fresh(base, students), steps, q)
    requires Grant(q, s).Ok?
    ensures base.Some? && |TriesOf(q, s)| == base.value + ExtraOf(q, s)
    ensures CanStart(Grant(q, s).value, s) && !CanStart(q, s)
  {
    RunKeeps(Fresh(base, students), steps, q);
    assert StudentOk(q, s);
    var ts := TriesOf(q, s);
    assert forall i :: 0 <= i < |ts| ==> !Running(ts[i]);
    UsedAll(ts);
  }

  ghost predicate NoGrantTo(steps: seq<Step>, s: Student) {
    forall i :: 0 <= i < |steps| ==> steps[i] != GrantStep(s)
  }

  lemma {:induction false} ExtraStays(q: Quiz, steps: seq<Step>, end: Quiz, s: Student)
    requires IsRun(q, steps, end) && NoGrantTo(steps, s)
    ensures ExtraOf(end, s) == ExtraOf(q, s) && |TriesOf(end, s)| >= |TriesOf(q, s)|
    decreases |steps|
  {
    if steps != [] {
      assert steps[0] != GrantStep(s);
      assert forall i :: 0 <= i < |steps[1..]| ==> steps[1..][i] == steps[i + 1];
      ExtraStays(Do(q, steps[0]), steps[1..], end, s);
    }
  }

  /** A grant is worth exactly one more attempt: whatever happens afterwards, short of another
      grant, the student gets at most one, and once it is used the student cannot start again;
      and a next grant needs the student to be exhausted again. */
  lemma GrantIsOneAttempt(base: Option<int>, students: set<Student>, before: seq<Step>, q: Quiz, s: Student,
                          later: seq<Step>, end: Quiz)
    requires IsRun(Fresh(base, students), before, q) && Grant(q, s).Ok?
    requires IsRun(Grant(q, s).value, later, end) && NoGrantTo(later, s)
    ensures |TriesOf(q, s)| <= |TriesOf(end, s)| <= |TriesOf(q, s)| + 1
    ensures |TriesOf(end, s)| == |TriesOf(q, s)| + 1 ==> !CanStart(end, s)
    ensures Grantable(end, s) ==> |TriesOf(end, s)| == |TriesOf(q, s)| + 1
  {
    GrantAtTheBound(base, students, before, q, s);
    RunKeeps(Fresh(base, students), before, q);
    var g := Grant(q, s).value;
    assert Inv(g) by {
      StepKeeps(q, GrantStep(s));
      assert Do(q, GrantStep(s)) == g;
    }
    RunKeeps(g, later, end);
    ExtraStays(g, later, end, s);
    assert StudentOk(end, s) && TriesOf(g, s) == TriesOf(q, s);
    var ts := TriesOf(end, s);
    if |ts| == |TriesOf(q, s)| + 1 && CanStart(end, s) {
      assert forall i :: 0 <= i < |ts| ==> !Running(ts[i]);
      UsedAll(ts);
    }
  }

  // ---------------------------------------------------------------- what each request asks and does

  lemma UsedInRun(q: Quiz, s: Student)
    requires StudentOk(q, s)
    ensures !AnyRunning(TriesOf(q, s)) ==> Used(TriesOf(q, s)) == |TriesOf(q, s)|
    ensures HasRunning(q, s) ==> Used(TriesOf(q, s)) + 1 == |TriesOf(q, s)|
  {
    var ts := TriesOf(q, s);
    if !AnyRunning(ts) {
      assert forall i :: 0 <= i < |ts| ==> !Running(ts[i]);
      UsedAll(ts);
    } else if HasRunning(q, s) {
      UsedAll(ts[..|ts| - 1]);
    }
  }

  /** Exactly when a student may start, in every run: the quiz is out, nothing of theirs is running or
      passed, and they have had fewer attempts than the cap with its grants. Starting adds one running,
      unpassed attempt of that student. */
  lemma StartsExactly(base: Option<int>, students: set<Student>, steps: seq<Step>, q: Quiz, s: Student)
    requires IsRun(Fresh(base, students), steps, q)
    ensures var ts := TriesOf(q, s);
            CanStart(q, s) <==>
              q.status == SM.QuizSent && (forall i :: 0 <= i < |ts| ==> Terminal(ts[i].status) && !ts[i].isPassed)
              && (base.Some? ==> |ts| < base.value + ExtraOf(q, s))
    ensures CanStart(q, s) ==>
              Start(q, s).tries == q.tries[s := TriesOf(q, s) + [Try(InProgress, false, 0.0)]]
              && Start(q, s) == q.(tries := Start(q, s).tries)
    ensures !CanStart(q, s) ==> Start(q, s) == q
  {
    RunKeeps(Fresh(base, students), steps, q);
    assert StudentOk(q, s);
    UsedInRun(q, s);
    var ts := TriesOf(q, s);
    if forall i :: 0 <= i < |ts| ==> Terminal(ts[i].status) && !ts[i].isPassed {
      assert !AnyRunning(ts) && !AnyPassed(ts);
    }
    if !AnyRunning(ts) && !AnyPassed(ts) {
      forall i | 0 <= i < |ts| ensures Terminal(ts[i].status) && !ts[i].isPassed {
        assert !Running(ts[i]);
      }
    }
  }

  /** What ending an attempt does, in every run: its row gets the outcome, and a submission still at
      QUIZ_SENT goes on by a pass, or fails exactly when the failed attempt was the last one allowed. */
  lemma EndsExactly(base: Option<int>, students: set<Student>, steps: seq<Step>, q: Quiz, s: Student,
                    outcome: AttemptStatus, passed: bool, pct: real, onPass: SM.Status)
    requires IsRun(Fresh(base, students), steps, q) && HasRunning(q, s)
    ensures var v, ts := Finish(q, s, outcome, passed, pct, onPass), TriesOf(q, s);
            v == q.(tries := v.tries, status := v.status)
            && v.tries == q.tries[s := ts[..|ts| - 1] + [Try(outcome, passed, pct)]]
            && v.status == if q.status != SM.QuizSent then q.status
                           else if passed then onPass
                           else if base.Some? && |ts| >= base.value + ExtraOf(q, s) then SM.Failed
                           else SM.QuizSent
  {
    RunKeeps(Fresh(base, students), steps, q);
    assert StudentOk(q, s);
    UsedInRun(q, s);
    var ts := TriesOf(q, s);
    assert ts[|ts| - 1 := Try(outcome, passed, pct)] == ts[..|ts| - 1] + [Try(outcome, passed, pct)];
  }

  /** Exactly when an attempt is granted, in every run: an enrolled student who has used up the cap
      without passing, while the submission is failed or still open. The grant adds one attempt to
      that student's cap and reopens the quiz. */
  lemma GrantsExactly(base: Option<int>, students: set<Student>, steps: seq<Step>, q: Quiz, s: Student)
    requires IsRun(Fresh(base, students), steps, q)
    ensures var ts := TriesOf(q, s);
            Grant(q, s).Ok? <==>
              s in q.students && q.status in {SM.Failed, SM.QuizSent} && base.Some? && ts != []
              && (forall i :: 0 <= i < |ts| ==> Terminal(ts[i].status) && !ts[i].isPassed)
              && |ts| == base.value + ExtraOf(q, s)
    ensures Grant(q, s).Ok? ==>
              Grant(q, s).value == q.(status := SM.QuizSent, extra := q.extra[s := ExtraOf(q, s) + 1])
  {
    RunKeeps(Fresh(base, students), steps, q);
    assert StudentOk(q, s);
    var ts := TriesOf(q, s);
    if forall i :: 0 <= i < |ts| ==> Terminal(ts[i].status) && !ts[i].isPassed {
      assert !AnyRunning(ts) && !AnyPassed(ts);
    }
    if !AnyRunning(ts) && !AnyPassed(ts) {
      forall i | 0 <= i < |ts| ensures Terminal(ts[i].status) && !ts[i].isPassed {
        assert !Running(ts[i]);
      }
    }
    if Grantable(q, s) { GrantEdge(q, s); }
  }

  /** What a ruling does to an attempt: it passes those it names that are finished, unpassed and not
      failed for violations, and leaves all others as they were. */
  lemma FlipsExactly(q: Quiz, flips: Flips, s: Student, i: nat)
    requires s in q.tries && i < |q.tries[s]|
    ensures var v, t := FlipAll(q, flips), q.tries[s][i];
            v == q.(tries := v.tries) && v.tries.Keys == q.tries.Keys && |v.tries[s]| == |q.tries[s]|
            && if (s, i) in flips && (t.status == Completed || t.status == TimedOut) && !t.isPassed
               then v.tries[s][i] == Try(t.status, true, flips[(s, i)])
               else v.tries[s][i] == t
  {
  }
}
