/** What each request does to an attempt, in the student's terms. */
module AttemptLaws {
  // Which rows it records, when the clock takes a question or the attempt away, and what pauses and
  // penalties are worth.

  import opened Wrappers
  import opened QuizTypes
  import opened AttemptClock

  // ---------------------------------------------------------------- starting

  /** A new attempt is running, at its first question, without rows, pauses or penalties; its
      questions have clocks of their own exactly when some drawn question is timed. */
  lemma StartsFresh(questions: seq<Question>, limitMinutes: Option<Limit>, t0: real)
    ensures var a := Start(questions, limitMinutes, t0);
            a.status == InProgress && a.index == 0 && a.answers == [] && a.pausedAt.None? && a.pausedSeconds == 0
            && a.timePenalty == 0 && !a.forceFail && a.questions == questions && a.startedAt == t0
            && (a.stepped <==> exists q :: q in questions && q.limit.Some?)
            && a.anchor == (if a.stepped then Some(t0) else None)
    ensures forall now :: IsTimedOut(Start(questions, limitMinutes, t0), now)
                          <==> limitMinutes.Some? && now - t0 > 60.0 * limitMinutes.value as real
  {
  }

  /** The two countdowns shown: what is left of the attempt rounded down, what is left of the
      question rounded up, neither below zero. */
  lemma CountdownsMean(a: Attempt, now: real)
    ensures a.limitMinutes.Some? ==>
              SecondsRemaining(a, now).Some?
              && var n, left := SecondsRemaining(a, now).value as real, RealRemaining(a, now);
                 if left < 0.0 then n == 0.0 else n <= left < n + 1.0
    ensures QuestionTimed(a) ==>
              QuestionSecondsRemaining(a, now).Some?
              && var n, left := QuestionSecondsRemaining(a, now).value as real, RealQuestionRemaining(a, now);
                 if left < 0.0 then n == 0.0 else n - 1.0 < left <= n
  {
  }

  /** The two clocks of an attempt that is not paused: a fresh attempt's runs from its start, a
      question's from its anchor, and its window stays open one grace longer than its countdown. */
  lemma ClocksRun(questions: seq<Question>, limitMinutes: Option<Limit>, t0: real, a: Attempt, now: real)
    requires a.pausedAt.None?
    ensures limitMinutes.Some? ==>
              RealRemaining(Start(questions, limitMinutes, t0), now) == 60.0 * limitMinutes.value as real - (now - t0)
    ensures QuestionTimed(a) ==> (WindowOpen(a, now) <==> RealQuestionRemaining(a, now) >= -5.0)
  {
  }

  // ---------------------------------------------------------------- answering

  /** The current question's window, grace included, is still open. */
  ghost predicate WindowOpen(a: Attempt, now: real)
    requires a.index < |a.questions|
  {
    var q := a.questions[a.index];
    q.limit.Some? && a.anchor.Some? ==> now <= a.anchor.value + q.limit.value as real + GRACE
  }

  /** Exactly which posts are recorded: one for the question under the cursor, of a running stepped
      attempt that is not paused or marked to be failed, inside the question's window. */
  lemma AcceptsExactly(a: Attempt, now: real, posted: int)
    requires Inv(a, now)
    ensures Accepts(a, now, posted) <==>
              a.status == InProgress && a.stepped && a.pausedAt.None? && !a.forceFail
              && posted == a.index && a.index < |a.questions| && WindowOpen(a, now)
  {
    if a.stepped && a.pausedAt.None? {
      BurnGrows(a, now);
      if a.index < |a.questions| {
        BurnedExactly(a, now, 1);
        assert LimitSum(a.questions, a.index + 1, a.index + 1) == 0.0;
        assert TimedRun(a.questions, a.index + 1, a.index + 1);
        if Burn(a, now).index == a.index { assert LimitSum(a.questions, a.index, a.index) == 0.0; }
      }
    }
  }

  /** A recorded post adds one row, of the current question and with the post's own mark: full
      points if correct, none if not. The next question's clock starts, or the attempt completes. */
  lemma AnswerRecords(a: Attempt, now: real, posted: int, correct: bool)
    requires Inv(a, now) && Accepts(a, now, posted)
    ensures var b, q := AnswerQuestion(a, now, posted, correct), a.questions[a.index];
            |b.answers| == |a.answers| + 1 && b.answers[..|a.answers|] == a.answers
            && b.answers[|a.answers|] == Answer(q.id, correct, if correct then q.points else 0, false)
            && b.index == a.index + 1 && b.anchor == Some(now)
            && b.status == (if b.index == |a.questions| then Completed else InProgress)
  {
    AcceptedInWindow(a, now, posted);
  }

  /** A post that is not recorded earns nothing: it only settles what has run out. */
  lemma RejectedEarnsNothing(a: Attempt, now: real, posted: int, correct: bool)
    requires Inv(a, now) && !Accepts(a, now, posted)
    ensures var b := AnswerQuestion(a, now, posted, correct);
            |a.answers| <= |b.answers| && b.answers[..|a.answers|] == a.answers
            && (a.status == InProgress && a.stepped && a.pausedAt.None? && !a.forceFail ==>
                  b.index == AdvanceExpired(a, now).index
                  && b.status == (if AllExpired(a, now) then Completed else InProgress))
            && (!(a.status == InProgress && a.stepped && a.pausedAt.None?) ==> b == a)
            && forall i :: |a.answers| <= i < |b.answers| ==>
                 b.answers[i].timedOut && !b.answers[i].correct && b.answers[i].points == 0
  {
    if a.stepped && a.pausedAt.None? {
      BurnGrows(a, now);
      BurnedRows(a.questions, a.index, Burn(a, now).index);
      BurnedExactly(a, now, |a.questions| - a.index);
    }
  }

  lemma {:induction false} BurnedRows(questions: seq<Question>, lo: nat, hi: nat)
    requires lo <= hi <= |questions|
    ensures forall row :: row in TimedOutRows(questions, lo, hi) ==> row.timedOut && !row.correct && row.points == 0
    decreases hi - lo
  {
    if lo < hi { BurnedRows(questions, lo + 1, hi); }
  }

  /** A submitted form records one row per question, each with that question's own mark, and ends
      the attempt; on any other attempt it changes nothing. */
  lemma FormRecords(a: Attempt, now: real, marks: int -> bool)
    requires Inv(a, now)
    ensures var b := SubmitQuiz(a, now, marks);
            if a.status == InProgress && !a.stepped && a.pausedAt.None? then
              |b.answers| == |a.questions|
              && (forall i :: 0 <= i < |a.questions| ==>
                    var q, right := a.questions[i], marks(a.questions[i].id);
                    b.answers[i] == Answer(q.id, right, if right then q.points else 0, false))
              && b.status == (if a.forceFail then ViolationFail else if IsTimedOut(a, now) then TimedOut else Completed)
            else b == a
  {
  }

  // ---------------------------------------------------------------- showing the page

  /** All questions still open have run out. */
  ghost predicate AllExpired(a: Attempt, now: real)
    requires a.anchor.Some? && a.index <= |a.questions|
  {
    Expired(a, now, |a.questions| - a.index)
  }

  /** What showing the page makes of an attempt. */
  lemma ShowDecides(a: Attempt, now: real)
    requires Inv(a, now)
    ensures var b := Show(a, now);
            b.status == if Terminal(a.status) then a.status
                        else if a.forceFail then ViolationFail
                        else if a.pausedAt.Some? then InProgress
                        else if IsTimedOut(a, now) then TimedOut
                        else if a.stepped && AllExpired(a, now) then Completed
                        else InProgress
  {
    if a.stepped && a.pausedAt.None? {
      BurnGrows(a, now);
      BurnedExactly(a, now, |a.questions| - a.index);
    }
  }

  /** What is shown is open: a running, unpaused attempt has time left, and so has its question. */
  lemma ShownIsOpen(a: Attempt, now: real)
    requires Inv(a, now)
    ensures var b := Show(a, now);
            b.status == InProgress && b.pausedAt.None? ==>
              !b.forceFail && !IsTimedOut(b, now) && (b.stepped ==> b.index < |b.questions| && WindowOpen(b, now))
  {
    if !Terminal(a.status) && !a.forceFail && a.pausedAt.None? && !IsTimedOut(a, now) && a.stepped {
      SettledClock(a, now, now);
      var b := AdvanceExpired(a, now);
      SettleKeeps(a, now);
      if b.index < |b.questions| {
        BurnedExactly(b, now, 1);
        assert LimitSum(b.questions, b.index + 1, b.index + 1) == 0.0;
        assert TimedRun(b.questions, b.index + 1, b.index + 1);
      }
    }
  }

  // ---------------------------------------------------------------- pauses

  /** Exactly when a pause opens: during an alert, on a running unpaused attempt with time left and
      a question left. An open pause is never moved. */
  lemma PauseOpensExactly(a: Attempt, now: real, alert: bool)
    requires Inv(a, now)
    ensures a.pausedAt.Some? ==> RequestPause(a, now, alert) == a
    ensures a.pausedAt.None? ==>
              (RequestPause(a, now, alert).pausedAt == Some(now)
               <==> a.status == InProgress && alert && !IsTimedOut(a, now) && (a.stepped ==> !AllExpired(a, now)))
    ensures a.pausedAt.None? && RequestPause(a, now, alert).pausedAt.Some? ==>
              RequestPause(a, now, alert).pausedAt == Some(now)
  {
    if a.stepped && a.pausedAt.None? {
      BurnGrows(a, now);
      BurnedExactly(a, now, |a.questions| - a.index);
    }
  }

  /** A resume ends the pause and books its whole seconds, on the attempt and on its question's
      clock, and changes nothing else. */
  lemma ResumeEnds(a: Attempt, now: real)
    requires Inv(a, now)
    ensures var b := Resume(a, now);
            b.pausedAt.None? && (a.pausedAt.None? ==> b == a)
            && (a.pausedAt.Some? ==>
                  var booked := b.pausedSeconds - a.pausedSeconds;
                  booked as real <= now - a.pausedAt.value < booked as real + 1.0
                  && (a.anchor.Some? ==> b.anchor == Some(a.anchor.value + booked as real))
                  && b == a.(pausedAt := None, pausedSeconds := b.pausedSeconds, anchor := b.anchor))
  {
  }

  /** A pause request settles what has run out first, whether or not there is an alert: past its
      minutes the attempt times out, with no question left it completes, and otherwise it stays as
      settled, paused or not. */
  lemma PauseSettles(a: Attempt, now: real, alert: bool)
    requires Inv(a, now) && a.status == InProgress && a.pausedAt.None?
    ensures var b := RequestPause(a, now, alert);
            b.status == (if a.forceFail && (IsTimedOut(a, now) || (a.stepped && AllExpired(a, now))) then ViolationFail
                         else if IsTimedOut(a, now) then TimedOut
                         else if a.stepped && AllExpired(a, now) then Completed
                         else InProgress)
            && (b.status == InProgress ==>
                  var settled := if a.stepped then AdvanceExpired(a, now) else a;
                  b == settled.(pausedAt := if alert then Some(now) else None))
  {
    if a.stepped {
      BurnGrows(a, now);
      BurnedExactly(a, now, |a.questions| - a.index);
    }
  }

  // ---------------------------------------------------------------- violations

  ghost predicate Punishable(a: Attempt) {
    a.status == InProgress && a.pausedAt.None?
  }

  /** A time penalty takes exactly its seconds off the running clock: the current question's on a
      stepped attempt, the whole attempt's on any other. */
  lemma PenaltyBites(a: Attempt, seconds: nat, now: real)
    requires Punishable(a)
    ensures var b := ReportViolation(a, ReduceTime(seconds));
            (a.stepped && QuestionTimed(a) ==>
               QuestionTimed(b) && RealQuestionRemaining(b, now) == RealQuestionRemaining(a, now) - seconds as real)
            && (!a.stepped && a.limitMinutes.Some? ==>
                  b.limitMinutes.Some? && RealRemaining(b, now) == RealRemaining(a, now) - seconds as real)
            && b == a.(anchor := b.anchor, timePenalty := b.timePenalty)
            && (a.stepped ==> b.timePenalty == a.timePenalty) && (!a.stepped ==> b.anchor == a.anchor)
  {
  }

  /** A failing violation ends the attempt as such at the next look, whenever that is. */
  lemma FailTakesEffect(a: Attempt, now: real)
    requires Punishable(a)
    ensures var b := ReportViolation(a, Fail);
            b == a.(forceFail := true) && Show(b, now).status == ViolationFail
            && (a.stepped ==> AnswerQuestion(b, now, b.index, true).status == ViolationFail
                              && AnswerQuestion(b, now, b.index, true).answers == a.answers)
  {
  }

  /** Nothing is punished on a paused or finished attempt, nor by a rule without effect. */
  lemma NoPenaltyOtherwise(a: Attempt, action: Penalty)
    requires Punishable(a) ==> action == NoPenalty
    ensures ReportViolation(a, action) == a
  {
  }
}
