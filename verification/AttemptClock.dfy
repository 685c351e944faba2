/** One quiz attempt as a timed state machine. */
module AttemptClock {
  // A cursor over the drawn questions, an anchor for the current question's clock, air-raid pauses
  // that freeze "now", penalties that walk the anchor back, and the catch-up loop that burns expired
  // questions. Timestamps are reals, in seconds. Each request happens at one instant `now`.

  import opened QuizTypes
  import opened Wrappers
  import Rounding

  /** QUESTION_GRACE_SECONDS */
  const GRACE := 5.0

  datatype Attempt = Attempt(
    questions: seq<Question>,
    startedAt: real,
    stepped: bool,
    limitMinutes: Option<Limit>,
    index: nat,
    anchor: Option<real>,
    pausedAt: Option<real>,
    pausedSeconds: int,
    answers: seq<Answer>,
    timePenalty: int,
    forceFail: bool,
    status: AttemptStatus)

  // ---------------------------------------------------------------- clock readings

  /** Python's int() on a float: truncation toward zero. */
  function Truncate(x: real): int {
    if x < 0.0 then -((-x).Floor) else x.Floor
  }

  function AtLeastZero(x: int): nat {
    if x < 0 then 0 else x
  }

  function OpenPauseSeconds(a: Attempt, now: real): real {
    match a.pausedAt
    case None => 0.0
    case Some(p) => now - p
  }

  function EffectiveNow(a: Attempt, now: real): real {
    now - OpenPauseSeconds(a, now)
  }

  function ElapsedSeconds(a: Attempt, now: real): real {
    EffectiveNow(a, now) - a.startedAt - a.pausedSeconds as real
  }

  /** Remaining time of the whole attempt before it is rounded for display. */
  function RealRemaining(a: Attempt, now: real): real
    requires a.limitMinutes.Some?
  {
    (a.limitMinutes.value * 60 - a.timePenalty) as real - ElapsedSeconds(a, now)
  }

  function IsTimedOut(a: Attempt, now: real): bool {
    a.limitMinutes.Some? && RealRemaining(a, now) < 0.0
  }

  function SecondsRemaining(a: Attempt, now: real): Option<nat> {
    if a.limitMinutes.None? then None else Some(AtLeastZero(Truncate(RealRemaining(a, now))))
  }

  predicate QuestionTimed(a: Attempt) {
    a.index < |a.questions| && a.questions[a.index].limit.Some? && a.anchor.Some?
  }

  /** Remaining time of the current question before it is rounded for display. */
  function RealQuestionRemaining(a: Attempt, now: real): real
    requires QuestionTimed(a)
  {
    a.questions[a.index].limit.value as real - (EffectiveNow(a, now) - a.anchor.value)
  }

  function QuestionSecondsRemaining(a: Attempt, now: real): Option<nat> {
    if QuestionTimed(a) then Some(AtLeastZero(Rounding.Ceil(RealQuestionRemaining(a, now)))) else None
  }

  // ---------------------------------------------------------------- settling the clock

  function CloseOpenPause(a: Attempt, now: real): Attempt {
    if a.pausedAt.None? then a else
    var elapsed := Truncate(OpenPauseSeconds(a, now));
    a.(pausedSeconds := a.pausedSeconds + elapsed,
       anchor := if a.anchor.Some? then Some(a.anchor.value + elapsed as real) else None,
       pausedAt := None)
  }

  function TimedOutRow(q: Question): Answer {
    Answer(q.id, false, 0, true)
  }

  /** The catch-up loop of `_advance_expired`, one question a call. */
  function Burn(a: Attempt, now: real): Attempt
    decreases |a.questions| - a.index
  {
    if a.index >= |a.questions| then a else
    var q := a.questions[a.index];
    if q.limit.None? then a
    else if a.anchor.None? then a.(anchor := Some(now))
    else if now - a.anchor.value <= q.limit.value as real + GRACE then a
    else
      Burn(a.(answers := a.answers + [TimedOutRow(q)],
              index := a.index + 1,
              anchor := Some(a.anchor.value + q.limit.value as real)), now)
  }

  function AdvanceExpired(a: Attempt, now: real): Attempt {
    if a.pausedAt.Some? then a else Burn(a, now)
  }

  // ---------------------------------------------------------------- requests

  function Start(questions: seq<Question>, limitMinutes: Option<Limit>, now: real): Attempt {
    var stepped := exists i :: 0 <= i < |questions| && questions[i].limit.Some?;
    Attempt(questions, now, stepped, limitMinutes, 0, if stepped then Some(now) else None,
            None, 0, [], 0, false, InProgress)
  }

  /** The clock part of `_grade_and_finalize`. */
  function Finish(a: Attempt, now: real, status: AttemptStatus): Attempt {
    CloseOpenPause(a.(status := if a.forceFail then ViolationFail else status), now)
  }

  function Show(a: Attempt, now: real): Attempt {
    if Terminal(a.status) then a
    else if a.forceFail then Finish(a, now, ViolationFail)
    else if a.pausedAt.Some? then a
    else if IsTimedOut(a, now) then Finish(a, now, TimedOut)
    else if !a.stepped then a
    else
      var b := AdvanceExpired(a, now);
      if b.index >= |b.questions| then Finish(b, now, Completed)
      else if b.anchor.None? then b.(anchor := Some(now))
      else b
  }

  function GradedRow(q: Question, correct: bool): Answer {
    Answer(q.id, correct, if correct then q.points else 0, false)
  }

  /** A posted answer counts only for the question under the cursor, and only if nothing
      expired before the post landed. */
  function Accepts(a: Attempt, now: real, posted: int): bool {
    var b := AdvanceExpired(a, now);
    !Terminal(a.status) && a.stepped && a.pausedAt.None? && !a.forceFail &&
    b.index == a.index && posted == b.index && b.index < |b.questions|
  }

  function AnswerQuestion(a: Attempt, now: real, posted: int, correct: bool): Attempt {
    if Terminal(a.status) || !a.stepped || a.pausedAt.Some? then a
    else if a.forceFail then Finish(a, now, ViolationFail)
    else
      var b := AdvanceExpired(a, now);
      var c := if Accepts(a, now, posted) then
                 b.(answers := b.answers + [GradedRow(b.questions[b.index], correct)],
                    index := b.index + 1,
                    anchor := Some(now))
               else b;
      if c.index >= |c.questions| then Finish(c, now, Completed) else c
  }

  datatype Penalty = NoPenalty | Fail | ReduceTime(seconds: nat)

  function ReportViolation(a: Attempt, action: Penalty): Attempt {
    if a.status != InProgress || a.pausedAt.Some? then a else
    match action
    case NoPenalty => a
    case Fail => a.(forceFail := true)
    case ReduceTime(s) =>
      if a.stepped then
        (if a.anchor.Some? then a.(anchor := Some(a.anchor.value - s as real)) else a)
      else a.(timePenalty := a.timePenalty + s)
  }

  function RequestPause(a: Attempt, now: real, alert: bool): Attempt {
    if a.status != InProgress || a.pausedAt.Some? then a
    else if IsTimedOut(a, now) then Finish(a, now, TimedOut)
    else
      var b := if a.stepped then AdvanceExpired(a, now) else a;
      if a.stepped && b.index >= |b.questions| then Finish(b, now, Completed)
      else if alert then b.(pausedAt := Some(now))
      else b
  }

  function Resume(a: Attempt, now: real): Attempt {
    CloseOpenPause(a, now)
  }

  function GradeAll(questions: seq<Question>, correct: seq<bool>): seq<Answer>
    requires |correct| == |questions|
  {
    seq(|questions|, i requires 0 <= i < |questions| => GradedRow(questions[i], correct[i]))
  }

  /** The one-page form: every question gets a row, whatever was posted before. */
  function SubmitQuiz(a: Attempt, now: real, correct: int -> bool): Attempt {
    if Terminal(a.status) || a.stepped || a.pausedAt.Some? then a
    else
      var marks := seq(|a.questions|, i requires 0 <= i < |a.questions| => correct(a.questions[i].id));
      Finish(a.(answers := GradeAll(a.questions, marks)), now,
             if IsTimedOut(a, now) then TimedOut else Completed)
  }

  datatype Request =
    | ShowPage
    | PostAnswer(posted: int, correct: bool)
    | PostForm(marks: int -> bool)
    | PostViolation(action: Penalty)
    | PostPause(alert: bool)
    | PostResume

  function Serve(a: Attempt, now: real, r: Request): Attempt {
    match r
    case ShowPage => Show(a, now)
    case PostAnswer(posted, correct) => AnswerQuestion(a, now, posted, correct)
    case PostForm(marks) => SubmitQuiz(a, now, marks)
    case PostViolation(action) => ReportViolation(a, action)
    case PostPause(alert) => RequestPause(a, now, alert)
    case PostResume => Resume(a, now)
  }

  // ---------------------------------------------------------------- catch-up

  /** Sum of the limits of questions[lo..hi]; an untimed question adds nothing. */
  function LimitSum(questions: seq<Question>, lo: nat, hi: nat): real
    requires lo <= hi <= |questions|
    decreases hi - lo
  {
    if lo == hi then 0.0 else
    (if questions[lo].limit.Some? then questions[lo].limit.value as real else 0.0)
    + LimitSum(questions, lo + 1, hi)
  }

  /** The rows that burning questions[lo..hi] leaves, in draw order. */
  function TimedOutRows(questions: seq<Question>, lo: nat, hi: nat): seq<Answer>
    requires lo <= hi <= |questions|
    decreases hi - lo
  {
    if lo == hi then [] else [TimedOutRow(questions[lo])] + TimedOutRows(questions, lo + 1, hi)
  }

  ghost predicate TimedRun(questions: seq<Question>, lo: nat, hi: nat)
    requires lo <= hi <= |questions|
    decreases hi - lo
  {
    lo == hi || (questions[lo].limit.Some? && TimedRun(questions, lo + 1, hi))
  }

  ghost predicate AllTimed(questions: seq<Question>) {
    forall i :: 0 <= i < |questions| ==> questions[i].limit.Some?
  }

  /** Exactly the questions whose cumulative limit plus one single grace has passed burn. */
  ghost predicate Expired(a: Attempt, now: real, k: nat)
    requires a.anchor.Some? && a.index + k <= |a.questions|
  {
    TimedRun(a.questions, a.index, a.index + k)
    && (k > 0 ==> now - a.anchor.value > LimitSum(a.questions, a.index, a.index + k) + GRACE)
  }

  lemma {:induction false} LimitSumNonNegative(questions: seq<Question>, lo: nat, hi: nat)
    requires lo <= hi <= |questions|
    ensures LimitSum(questions, lo, hi) >= 0.0
    decreases hi - lo
  {
    if lo < hi { LimitSumNonNegative(questions, lo + 1, hi); }
  }

  /** The number burned is the longest expired run: at least k questions burn if and only if
      the next k are timed and their limits plus one grace have passed. */
  lemma {:induction false} BurnedExactly(a: Attempt, now: real, k: nat)
    requires a.anchor.Some? && a.index + k <= |a.questions|
    ensures Burn(a, now).index >= a.index + k <==> Expired(a, now, k)
    decreases |a.questions| - a.index
  {
    if k == 0 {
      BurnGrows(a, now);
    } else {
      LimitSumNonNegative(a.questions, a.index + 1, a.index + k);
      var q := a.questions[a.index];
      if q.limit.Some? && now - a.anchor.value > q.limit.value as real + GRACE {
        var b := a.(answers := a.answers + [TimedOutRow(q)], index := a.index + 1,
                    anchor := Some(a.anchor.value + q.limit.value as real));
        BurnedExactly(b, now, k - 1);
      }
    }
  }

  /** What burning leaves behind: the cursor only moves forward, each burned question has a
      zero row in draw order, and the anchor stands where the last burned window ended. */
  lemma {:induction false} BurnGrows(a: Attempt, now: real)
    requires a.anchor.Some? && a.index <= |a.questions|
    ensures var b := Burn(a, now);
            a.index <= b.index <= |a.questions|
            && b == a.(index := b.index, anchor := b.anchor, answers := b.answers)
            && b.anchor == Some(a.anchor.value + LimitSum(a.questions, a.index, b.index))
            && b.answers == a.answers + TimedOutRows(a.questions, a.index, b.index)
    decreases |a.questions| - a.index
  {
    if a.index < |a.questions| {
      var q := a.questions[a.index];
      if q.limit.Some? && now - a.anchor.value > q.limit.value as real + GRACE {
        BurnGrows(a.(answers := a.answers + [TimedOutRow(q)], index := a.index + 1,
                     anchor := Some(a.anchor.value + q.limit.value as real)), now);
      }
    }
  }

  /** Polling does not matter: settling at t1 and again at t2 is settling once at t2. */
  lemma {:induction false} PollingIndependent(a: Attempt, t1: real, t2: real)
    requires a.anchor.Some? && a.pausedAt.None? && t1 <= t2
    ensures AdvanceExpired(AdvanceExpired(a, t1), t2) == AdvanceExpired(a, t2)
    decreases |a.questions| - a.index
  {
    if a.index < |a.questions| {
      var q := a.questions[a.index];
      if q.limit.Some? && t1 - a.anchor.value > q.limit.value as real + GRACE {
        PollingIndependent(a.(answers := a.answers + [TimedOutRow(q)], index := a.index + 1,
                              anchor := Some(a.anchor.value + q.limit.value as real)), t1, t2);
      }
    }
  }

  // ---------------------------------------------------------------- invariant of every run

  /** The most time the first k questions can take: each its limit plus one grace. */
  function Budget(questions: seq<Question>, k: nat): real
    requires k <= |questions|
  {
    if k == 0 then 0.0 else
    Budget(questions, k - 1) + GRACE +
    (if questions[k - 1].limit.Some? then questions[k - 1].limit.value as real else 0.0)
  }

  /** A row of the right question: a correct one is worth its full points, any other nothing, and a
      question that ran out is not correct. */
  predicate RowFor(row: Answer, q: Question) {
    row.questionId == q.id && row.points == (if row.correct then q.points else 0) && (row.timedOut ==> !row.correct)
  }

  /** One row per question passed, in draw order. */
  ghost predicate OneRowEach(answers: seq<Answer>, questions: seq<Question>) {
    |answers| <= |questions|
    && forall i :: 0 <= i < |answers| ==> RowFor(answers[i], questions[i])
  }

  ghost predicate Inv(a: Attempt, now: real) {
    a.startedAt <= now
    && a.index <= |a.questions|
    && OneRowEach(a.answers, a.questions)
    && (a.stepped ==> |a.answers| == a.index)
    && (a.status == InProgress && !a.stepped ==> a.answers == [])
    && (a.stepped <==> a.anchor.Some?)
    && (a.pausedAt.Some? ==> a.status == InProgress && a.startedAt <= a.pausedAt.value <= now)
    && (a.anchor.Some? ==> a.anchor.value <= EffectiveNow(a, now))
    && (a.stepped && AllTimed(a.questions) ==>
          a.anchor.value <= a.startedAt + a.pausedSeconds as real + Budget(a.questions, a.index))
  }

  /** Closed pauses so far and their true total length: what the whole-second column forgets. */
  datatype Ledger = Ledger(closed: nat, pausedTime: real)

  ghost function Book(l: Ledger, before: Attempt, after: Attempt, now: real): Ledger {
    if before.pausedAt.Some? && after.pausedAt.None? then
      Ledger(l.closed + 1, l.pausedTime + (now - before.pausedAt.value))
    else l
  }

  ghost predicate Booked(a: Attempt, l: Ledger) {
    var lost := l.pausedTime - a.pausedSeconds as real;
    if l.closed == 0 then lost == 0.0 else 0.0 <= lost < l.closed as real
  }

  /** Wall time since the start without any pause, closed or open. */
  ghost function TrueUnpaused(a: Attempt, l: Ledger, now: real): real {
    now - a.startedAt - l.pausedTime - OpenPauseSeconds(a, now)
  }

  lemma {:induction false} BurnWithinBudget(a: Attempt, now: real)
    requires a.anchor.Some? && a.index <= |a.questions|
    ensures Burn(a, now).index <= |a.questions| && Burn(a, now).anchor.Some?
    ensures Burn(a, now).anchor.value - a.anchor.value
            <= Budget(a.questions, Burn(a, now).index) - Budget(a.questions, a.index)
    ensures a.anchor.value <= now ==> Burn(a, now).anchor.value <= now
    decreases |a.questions| - a.index
  {
    if a.index < |a.questions| {
      var q := a.questions[a.index];
      if q.limit.Some? && now - a.anchor.value > q.limit.value as real + GRACE {
        BurnWithinBudget(a.(answers := a.answers + [TimedOutRow(q)], index := a.index + 1,
                            anchor := Some(a.anchor.value + q.limit.value as real)), now);
      }
    }
  }

  lemma {:induction false} BurnKeepsRows(a: Attempt, now: real)
    requires a.anchor.Some? && a.index <= |a.questions|
    requires OneRowEach(a.answers, a.questions) && |a.answers| == a.index
    ensures var b := Burn(a, now);
            b.questions == a.questions && OneRowEach(b.answers, b.questions) && |b.answers| == b.index
    decreases |a.questions| - a.index
  {
    if a.index < |a.questions| {
      var q := a.questions[a.index];
      if q.limit.Some? && now - a.anchor.value > q.limit.value as real + GRACE {
        BurnKeepsRows(a.(answers := a.answers + [TimedOutRow(q)], index := a.index + 1,
                         anchor := Some(a.anchor.value + q.limit.value as real)), now);
      }
    }
  }

  /** Burning changes the cursor, the anchor and the rows, nothing else. */
  lemma {:induction false} BurnFrame(a: Attempt, now: real)
    ensures var b := Burn(a, now);
            b == a.(index := b.index, anchor := b.anchor, answers := b.answers)
    decreases |a.questions| - a.index
  {
    if a.index < |a.questions| && a.anchor.Some? {
      var q := a.questions[a.index];
      if q.limit.Some? && now - a.anchor.value > q.limit.value as real + GRACE {
        BurnFrame(a.(answers := a.answers + [TimedOutRow(q)], index := a.index + 1,
                     anchor := Some(a.anchor.value + q.limit.value as real)), now);
      }
    }
  }

  lemma SettleKeeps(a: Attempt, now: real)
    requires Inv(a, now) && a.stepped
    ensures Inv(AdvanceExpired(a, now), now)
    ensures a.pausedAt.None? ==> AdvanceExpired(a, now).pausedAt.None?
    ensures AdvanceExpired(a, now).status == a.status && AdvanceExpired(a, now).stepped
  {
    if a.pausedAt.None? {
      BurnFrame(a, now);
      BurnWithinBudget(a, now);
      BurnKeepsRows(a, now);
    }
  }

  lemma FinishKeeps(a: Attempt, now: real, status: AttemptStatus)
    requires Inv(a, now) && Terminal(status)
    ensures Inv(Finish(a, now, status), now)
  {
    var b := a.(status := if a.forceFail then ViolationFail else status, pausedAt := a.pausedAt);
    if b.pausedAt.Some? {
      assert EffectiveNow(a, now) == a.pausedAt.value;
    }
  }

  /** An accepted post is inside the window of the question it answers. */
  lemma AcceptedInWindow(a: Attempt, now: real, posted: int)
    requires Inv(a, now) && Accepts(a, now, posted)
    ensures AdvanceExpired(a, now) == a
    ensures a.questions[a.index].limit.Some? ==>
              now <= a.anchor.value + a.questions[a.index].limit.value as real + GRACE
  {
    BurnGrows(a, now);
    BurnedExactly(a, now, 1);
    assert LimitSum(a.questions, a.index + 1, a.index + 1) == 0.0;
    assert TimedRun(a.questions, a.index + 1, a.index + 1);
  }

  lemma AnswerKeeps(a: Attempt, now: real, posted: int, correct: bool)
    requires Inv(a, now)
    ensures Inv(AnswerQuestion(a, now, posted, correct), now)
  {
    if !(Terminal(a.status) || !a.stepped || a.pausedAt.Some?) {
      if a.forceFail {
        FinishKeeps(a, now, ViolationFail);
      } else {
        SettleKeeps(a, now);
        var b := AdvanceExpired(a, now);
        if Accepts(a, now, posted) {
          AcceptedInWindow(a, now, posted);
          var c := b.(answers := b.answers + [GradedRow(b.questions[b.index], correct)],
                      index := b.index + 1, anchor := Some(now));
          assert Inv(c, now);
          FinishKeeps(c, now, Completed);
        } else {
          FinishKeeps(b, now, Completed);
        }
      }
    }
  }

  lemma ShowKeeps(a: Attempt, now: real)
    requires Inv(a, now)
    ensures Inv(Show(a, now), now)
  {
    FinishKeeps(a, now, ViolationFail);
    FinishKeeps(a, now, TimedOut);
    if a.stepped {
      SettleKeeps(a, now);
      FinishKeeps(AdvanceExpired(a, now), now, Completed);
    }
  }

  lemma PauseKeeps(a: Attempt, now: real, alert: bool)
    requires Inv(a, now)
    ensures Inv(RequestPause(a, now, alert), now)
  {
    FinishKeeps(a, now, TimedOut);
    if a.stepped {
      SettleKeeps(a, now);
      FinishKeeps(AdvanceExpired(a, now), now, Completed);
    }
  }

  lemma SubmitKeeps(a: Attempt, now: real, marks: int -> bool)
    requires Inv(a, now)
    ensures Inv(SubmitQuiz(a, now, marks), now)
  {
  }

  lemma ViolationKeeps(a: Attempt, now: real, action: Penalty)
    requires Inv(a, now)
    ensures Inv(ReportViolation(a, action), now)
  {
  }

  lemma ResumeKeeps(a: Attempt, now: real)
    requires Inv(a, now)
    ensures Inv(Resume(a, now), now)
  {
    if a.pausedAt.Some? { assert EffectiveNow(a, now) == a.pausedAt.value; }
  }

  /** Every request keeps the invariant. */
  lemma ServeKeeps(a: Attempt, now: real, r: Request)
    requires Inv(a, now)
    ensures Inv(Serve(a, now, r), now)
  {
    match r
    case ShowPage => ShowKeeps(a, now);
    case PostAnswer(posted, correct) => AnswerKeeps(a, now, posted, correct);
    case PostForm(marks) => SubmitKeeps(a, now, marks);
    case PostViolation(action) => ViolationKeeps(a, now, action);
    case PostPause(alert) => PauseKeeps(a, now, alert);
    case PostResume => ResumeKeeps(a, now);
  }

  /** Only a pause that closes changes the paused column, by its whole seconds. */
  lemma ServeBooks(a: Attempt, l: Ledger, now: real, r: Request)
    requires Inv(a, now) && Booked(a, l)
    ensures Booked(Serve(a, now, r), Book(l, a, Serve(a, now, r), now))
  {
    if a.pausedAt.None? && a.stepped { BurnGrows(a, now); }
  }

  datatype Event = Event(at: real, request: Request)

  ghost predicate InOrder(events: seq<Event>, from: real) {
    |events| > 0 ==> from <= events[0].at && InOrder(events[1..], events[0].at)
  }

  ghost function Run(a: Attempt, l: Ledger, events: seq<Event>): (Attempt, Ledger)
    decreases |events|
  {
    if events == [] then (a, l) else
    var b := Serve(a, events[0].at, events[0].request);
    Run(b, Book(l, a, b, events[0].at), events[1..])
  }

  ghost function EndTime(events: seq<Event>, from: real): real {
    if events == [] then from else events[|events| - 1].at
  }

  lemma InvLater(a: Attempt, t1: real, t2: real)
    requires Inv(a, t1) && t1 <= t2
    ensures Inv(a, t2)
  {
    if a.pausedAt.Some? {
      assert EffectiveNow(a, t1) == EffectiveNow(a, t2);
    }
  }

  lemma {:induction false} RunKeepsFrom(a: Attempt, l: Ledger, events: seq<Event>, from: real)
    requires Inv(a, from) && Booked(a, l) && InOrder(events, from)
    ensures var (b, m) := Run(a, l, events);
            Inv(b, EndTime(events, from)) && Booked(b, m) && b.questions == a.questions
            && b.startedAt == a.startedAt && b.stepped == a.stepped
    decreases |events|
  {
    if events != [] {
      var e := events[0];
      InvLater(a, from, e.at);
      ServeKeeps(a, e.at, e.request);
      ServeBooks(a, l, e.at, e.request);
      ServeFixed(a, e.at, e.request);
      var b := Serve(a, e.at, e.request);
      RunKeepsFrom(b, Book(l, a, b, e.at), events[1..], e.at);
    }
  }

  /** The draw and the start are frozen. */
  lemma ServeFixed(a: Attempt, now: real, r: Request)
    requires Inv(a, now)
    ensures var b := Serve(a, now, r);
            b.questions == a.questions && b.startedAt == a.startedAt && b.stepped == a.stepped
  {
    if a.pausedAt.None? && a.stepped { BurnGrows(a, now); }
  }

  /** In every run of requests at non-decreasing times the invariant and the ledger hold. */
  lemma RunKeeps(questions: seq<Question>, limitMinutes: Option<Limit>, t0: real, events: seq<Event>)
    requires InOrder(events, t0)
    ensures var (a, l) := Run(Start(questions, limitMinutes, t0), Ledger(0, 0.0), events);
            a.questions == questions && a.startedAt == t0
            && Inv(a, EndTime(events, t0)) && Booked(a, l)
  {
    RunKeepsFrom(Start(questions, limitMinutes, t0), Ledger(0, 0.0), events, t0);
  }

  // ---------------------------------------------------------------- main results

  /** No run stretches an all-timed quiz: whatever pauses, penalties and polls came before, an
      answer is accepted only up to the start plus the pauses plus (limit + 5) per question. */
  lemma NoStretching(questions: seq<Question>, limitMinutes: Option<Limit>, t0: real,
                     events: seq<Event>, now: real, posted: int)
    requires InOrder(events, t0) && EndTime(events, t0) <= now
    requires AllTimed(questions)
    ensures var a := Run(Start(questions, limitMinutes, t0), Ledger(0, 0.0), events).0;
            a.questions == questions && a.index <= |questions|
            && (a.stepped ==>
                  a.anchor.Some? &&
                  a.anchor.value <= t0 + a.pausedSeconds as real + Budget(questions, a.index))
            && (Accepts(a, now, posted) ==>
                  a.index < |questions| &&
                  now <= t0 + a.pausedSeconds as real + Budget(questions, a.index + 1))
  {
    RunKeeps(questions, limitMinutes, t0, events);
    var a := Run(Start(questions, limitMinutes, t0), Ledger(0, 0.0), events).0;
    InvLater(a, EndTime(events, t0), now);
    if Accepts(a, now, posted) {
      BurnGrows(a, now);
      AcceptedInWindow(a, now, posted);
    }
  }

  /** After k closed pauses the clock runs ahead of true unpaused time by 0 when k is 0 and by
      less than k seconds otherwise, at any later instant, paused or not. */
  lemma PauseDrift(questions: seq<Question>, limitMinutes: Option<Limit>, t0: real,
                   events: seq<Event>, now: real)
    requires InOrder(events, t0) && EndTime(events, t0) <= now
    ensures var (a, l) := Run(Start(questions, limitMinutes, t0), Ledger(0, 0.0), events);
            var drift := ElapsedSeconds(a, now) - TrueUnpaused(a, l, now);
            if l.closed == 0 then drift == 0.0 else 0.0 <= drift < l.closed as real
  {
    RunKeeps(questions, limitMinutes, t0, events);
  }

  /** While a pause is open both countdowns stand still, whenever they are read. */
  lemma FrozenWhilePaused(a: Attempt, t1: real, t2: real)
    requires a.pausedAt.Some?
    ensures SecondsRemaining(a, t1) == SecondsRemaining(a, t2)
    ensures QuestionSecondsRemaining(a, t1) == QuestionSecondsRemaining(a, t2)
    ensures AdvanceExpired(a, t1) == a
  {
    assert EffectiveNow(a, t1) == EffectiveNow(a, t2);
  }

  /** Resuming takes less than one second off either clock, and never gives any back. */
  lemma ResumeCostsUnderASecond(a: Attempt, now: real)
    requires a.pausedAt.Some? && a.pausedAt.value <= now
    ensures var b := Resume(a, now);
            (a.limitMinutes.Some? ==>
                  0.0 <= RealRemaining(a, now) - RealRemaining(b, now) < 1.0)
            && (QuestionTimed(a) ==>
                  QuestionTimed(b) &&
                  0.0 <= RealQuestionRemaining(a, now) - RealQuestionRemaining(b, now) < 1.0)
  {
    assert EffectiveNow(a, now) == a.pausedAt.value;
  }

  /** In every run of a stepped attempt the answers are one row per question passed, in draw
      order, and only a running attempt is paused. */
  lemma OneRowPerQuestion(questions: seq<Question>, limitMinutes: Option<Limit>, t0: real, events: seq<Event>)
    requires InOrder(events, t0)
    ensures var a := Run(Start(questions, limitMinutes, t0), Ledger(0, 0.0), events).0;
            OneRowEach(a.answers, questions)
            && (a.stepped ==> |a.answers| == a.index)
            && (Terminal(a.status) ==> a.pausedAt.None?)
  {
    RunKeeps(questions, limitMinutes, t0, events);
  }

  // ---------------------------------------------------------------- when a poll matters

  /** A poll at t1 that a poll at t2 would not have made up for: it froze a forced failure's
      pause at other whole seconds, or it moved past questions before the attempt's own time was up. */
  ghost predicate PollDiverges(a: Attempt, t1: real, t2: real) {
    !Terminal(a.status) &&
    if a.forceFail then
      a.pausedAt.Some? && Truncate(OpenPauseSeconds(a, t1)) != Truncate(OpenPauseSeconds(a, t2))
    else a.pausedAt.None? && a.stepped && !IsTimedOut(a, t1) && IsTimedOut(a, t2)
         && (a.index < AdvanceExpired(a, t1).index || a.index == |a.questions|)
  }

  lemma SettledClock(a: Attempt, t1: real, t2: real)
    requires Inv(a, t1) && t1 <= t2 && a.stepped && a.pausedAt.None?
    ensures var b := AdvanceExpired(a, t1);
            (IsTimedOut(b, t2) <==> IsTimedOut(a, t2)) && (IsTimedOut(a, t1) ==> IsTimedOut(a, t2))
            && AdvanceExpired(b, t2) == AdvanceExpired(a, t2)
            && a.index <= b.index <= AdvanceExpired(a, t2).index && (b.index == a.index ==> b == a)
            && b.status == a.status && b.forceFail == a.forceFail && b.stepped && b.pausedAt.None?
            && b.questions == a.questions && b.anchor.Some?
  {
    BurnGrows(a, t1);
    PollingIndependent(a, t1, t2);
    BurnGrows(AdvanceExpired(a, t1), t2);
    assert LimitSum(a.questions, a.index, a.index) == 0.0;
  }

  /** Polling twice is polling once, at the later time, exactly when the first poll does not diverge. */
  lemma PollTwiceExactly(a: Attempt, t1: real, t2: real)
    requires Inv(a, t1) && t1 <= t2
    ensures Show(Show(a, t1), t2) == Show(a, t2) <==> !PollDiverges(a, t1, t2)
  {
    if !Terminal(a.status) && !a.forceFail && a.pausedAt.None? && a.stepped { SettledClock(a, t1, t2); }
  }

  /** A poll that decides the fate of an answer posted later: it failed a marked attempt that the
      post would have left alone, it found the attempt's time up, which a post does not look at,
      or it uncovered the very question the post answers. */
  ghost predicate PollDecides(a: Attempt, t1: real, t2: real, posted: int) {
    !Terminal(a.status) &&
    if a.forceFail then a.pausedAt.Some? || !a.stepped
    else a.pausedAt.None?
         && (IsTimedOut(a, t1)
             || (a.stepped && a.index < AdvanceExpired(a, t1).index == AdvanceExpired(a, t2).index == posted
                 && posted < |a.questions|))
  }

  /** Inserting a poll before a posted answer changes nothing exactly when it does not decide. */
  lemma PollBeforeAnswerExactly(a: Attempt, t1: real, t2: real, posted: int, correct: bool)
    requires Inv(a, t1) && t1 <= t2
    ensures AnswerQuestion(Show(a, t1), t2, posted, correct) == AnswerQuestion(a, t2, posted, correct)
            <==> !PollDecides(a, t1, t2, posted)
  {
    if !Terminal(a.status) && !a.forceFail && a.pausedAt.None? && a.stepped {
      SettledClock(a, t1, t2);
      BurnGrows(a, t2);
    }
  }

  /** Two questions of ten seconds each, begun at 0 seconds. */
  function TwoShort(limitMinutes: Option<Limit>): Attempt {
    Attempt([Question(1, 1, Some(10)), Question(2, 1, Some(10))], 0.0, true, limitMinutes, 0, Some(0.0), None, 0, [], 0,
            false, InProgress)
  }

  /** The first has expired. */
  function SecondOpen(limitMinutes: Option<Limit>): Attempt {
    TwoShort(limitMinutes).(answers := [Answer(1, false, 0, true)], index := 1, anchor := Some(10.0))
  }

  lemma TwoShortStarts(limitMinutes: Option<Limit>)
    ensures Start(TwoShort(None).questions, limitMinutes, 0.0) == TwoShort(limitMinutes)
  {
    assert TwoShort(None).questions[0].limit.Some?;
  }

  lemma FirstBurns(limitMinutes: Option<Limit>, now: real)
    requires 15.0 < now <= 25.0
    ensures AdvanceExpired(TwoShort(limitMinutes), now) == SecondOpen(limitMinutes)
    ensures AdvanceExpired(SecondOpen(limitMinutes), now) == SecondOpen(limitMinutes)
  {
    var a, b := TwoShort(limitMinutes), SecondOpen(limitMinutes);
    assert Burn(b, now) == b;
    assert a.answers + [TimedOutRow(a.questions[0])] == b.answers;
    assert Burn(a, now) == Burn(b, now);
  }

  /** The answer to the second question, posted at 21 seconds, is recorded and ends the attempt if
      the page was shown at 20 seconds; otherwise only the first question's expiry is recorded. */
  lemma APollMatters()
    ensures var a := Start(TwoShort(None).questions, None, 0.0);
            var polled, alone := AnswerQuestion(Show(a, 20.0), 21.0, 1, true), AnswerQuestion(a, 21.0, 1, true);
            polled.answers == [Answer(1, false, 0, true), Answer(2, true, 1, false)] && polled.status == Completed
            && alone.answers == [Answer(1, false, 0, true)] && alone.index == 1 && alone.status == InProgress
  {
    TwoShortStarts(None);
    FirstBurns(None, 20.0);
    FirstBurns(None, 21.0);
    var b := SecondOpen(None);
    assert Show(TwoShort(None), 20.0) == b;
    assert Accepts(b, 21.0, 1) && !Accepts(TwoShort(None), 21.0, 1);
    assert b.answers + [GradedRow(b.questions[1], true)] == [Answer(1, false, 0, true), Answer(2, true, 1, false)];
  }

  /** With one minute for the whole attempt, polls at 20 and at 61 seconds leave the first
      question's row behind; the second poll alone times the attempt out without any row. */
  lemma TwoPollsDiverge()
    ensures var a := Start(TwoShort(None).questions, Some(1), 0.0);
            var both, last := Show(Show(a, 20.0), 61.0), Show(a, 61.0);
            both.status == TimedOut && both.answers == [Answer(1, false, 0, true)] && both.index == 1
            && last.status == TimedOut && last.answers == [] && last.index == 0
  {
    TwoShortStarts(Some(1));
    FirstBurns(Some(1), 20.0);
    var a := TwoShort(Some(1));
    assert !IsTimedOut(a, 20.0) && IsTimedOut(a, 61.0);
    assert Show(a, 20.0) == SecondOpen(Some(1));
  }

  ghost predicate OnlyPolls(events: seq<Event>) {
    forall i :: 0 <= i < |events| ==> events[i].request.ShowPage?
  }

  /** A quiz without a limit on the whole attempt: however often the page is polled, the attempt
      ends up as after the last poll alone. */
  lemma {:induction false} PollsCollapse(a: Attempt, l: Ledger, events: seq<Event>, from: real)
    requires Inv(a, from) && a.limitMinutes.None? && (a.forceFail ==> a.pausedAt.None?)
    requires events != [] && InOrder(events, from) && OnlyPolls(events)
    ensures Run(a, l, events).0 == Show(a, EndTime(events, from))
    decreases |events|
  {
    var e := events[0];
    assert e.request.ShowPage?;
    var b := Show(a, e.at);
    InvLater(a, from, e.at);
    if |events| > 1 {
      ShowKeeps(a, e.at);
      PollLeaves(a, e.at);
      PollsCollapse(b, Book(l, a, b, e.at), events[1..], e.at);
      InOrderEnds(events[1..], e.at);
      PollTwiceExactly(a, e.at, EndTime(events, from));
    }
  }

  lemma PollLeaves(a: Attempt, now: real)
    requires Inv(a, now) && a.limitMinutes.None? && (a.forceFail ==> a.pausedAt.None?)
    ensures var b := Show(a, now);
            b.limitMinutes.None? && (b.forceFail ==> b.pausedAt.None?)
  {
    if a.pausedAt.None? && a.stepped { BurnGrows(a, now); }
  }

  lemma {:induction false} InOrderEnds(events: seq<Event>, from: real)
    requires InOrder(events, from)
    ensures from <= EndTime(events, from)
  {
    if |events| > 1 { InOrderEnds(events[1..], events[0].at); }
  }
}
