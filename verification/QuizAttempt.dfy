/** The attempt row and its handlers in the form the server runs them: fields updated in
    place, with loops. Every method is proved to compute the step of AttemptClock that it
    names, so the results about runs hold of this object.
 */
module AttemptRecord {
  import opened QuizTypes
  import opened Wrappers
  import AttemptClock

  class QuizAttempt {
    const questions: seq<Question>
    const startedAt: real
    const stepped: bool
    const limitMinutes: Option<Limit>
    var index: nat
    var anchor: Option<real>
    var pausedAt: Option<real>
    var pausedSeconds: int
    var answers: seq<Answer>
    var timePenalty: int
    var forceFail: bool
    var status: AttemptStatus

    function Value(): AttemptClock.Attempt
      reads this
    {
      AttemptClock.Attempt(questions, startedAt, stepped, limitMinutes, index, anchor, pausedAt,
                           pausedSeconds, answers, timePenalty, forceFail, status)
    }

    constructor (questions: seq<Question>, limitMinutes: Option<Limit>, now: real)
      ensures Value() == AttemptClock.Start(questions, limitMinutes, now)
    {
      var timed := exists i :: 0 <= i < |questions| && questions[i].limit.Some?;
      this.questions, this.startedAt, this.stepped, this.limitMinutes := questions, now, timed, limitMinutes;
      index, anchor, pausedAt, pausedSeconds := 0, if timed then Some(now) else None, None, 0;
      answers, timePenalty, forceFail, status := [], 0, false, InProgress;
    }

    method CloseOpenPause(now: real) returns (elapsed: int)
      modifies this
      ensures Value() == AttemptClock.CloseOpenPause(old(Value()), now)
      ensures elapsed == pausedSeconds - old(pausedSeconds)
    {
      if pausedAt.None? { return 0; }
      elapsed := AttemptClock.Truncate(now - pausedAt.value);
      pausedSeconds := pausedSeconds + elapsed;
      if anchor.Some? {
        anchor := Some(anchor.value + elapsed as real);
      }
      pausedAt := None;
    }

    /** Returns how many questions were burned. */
    method AdvanceExpired(now: real) returns (burned: nat)
      modifies this
      ensures Value() == AttemptClock.AdvanceExpired(old(Value()), now)
      ensures burned == index - old(index)
    {
      burned := 0;
      if pausedAt.Some? { return; }
      while index < |questions|
        invariant pausedAt.None? && burned == index - old(index)
        invariant AttemptClock.Burn(Value(), now) == AttemptClock.Burn(old(Value()), now)
      {
        var q := questions[index];
        if q.limit.None? { break; }
        if anchor.None? {
          anchor := Some(now);
          break;
        }
        if now - anchor.value <= q.limit.value as real + AttemptClock.GRACE { break; }
        answers := answers + [AttemptClock.TimedOutRow(q)];
        index := index + 1;
        anchor := Some(anchor.value + q.limit.value as real);
        burned := burned + 1;
      }
    }

    method Finish(now: real, outcome: AttemptStatus)
      modifies this
      ensures Value() == AttemptClock.Finish(old(Value()), now, outcome)
    {
      status := if forceFail then ViolationFail else outcome;
      var _ := CloseOpenPause(now);
    }

    method Show(now: real)
      modifies this
      ensures Value() == AttemptClock.Show(old(Value()), now)
    {
      if Terminal(status) { return; }
      if forceFail { Finish(now, ViolationFail); return; }
      if pausedAt.Some? { return; }
      if AttemptClock.IsTimedOut(Value(), now) { Finish(now, TimedOut); return; }
      if stepped {
        var _ := AdvanceExpired(now);
        AttemptClock.BurnFrame(old(Value()), now);
        if index >= |questions| { Finish(now, Completed); return; }
        if anchor.None? { anchor := Some(now); }
      }
    }

    method AnswerQuestion(now: real, posted: int, correct: bool)
      modifies this
      ensures Value() == AttemptClock.AnswerQuestion(old(Value()), now, posted, correct)
    {
      if Terminal(status) || !stepped || pausedAt.Some? { return; }
      if forceFail { Finish(now, ViolationFail); return; }
      var expired := AdvanceExpired(now);
      if expired == 0 && posted == index && index < |questions| {
        var q := questions[index];
        answers := answers + [AttemptClock.GradedRow(q, correct)];
        index := index + 1;
        anchor := Some(now);
      }
      if index >= |questions| { Finish(now, Completed); }
    }

    method ReportViolation(action: AttemptClock.Penalty)
      modifies this
      ensures Value() == AttemptClock.ReportViolation(old(Value()), action)
    {
      if status != InProgress || pausedAt.Some? { return; }
      match action
      case NoPenalty =>
      case Fail => forceFail := true;
      case ReduceTime(s) =>
        if !stepped {
          timePenalty := timePenalty + s;
        } else if anchor.Some? {
          anchor := Some(anchor.value - s as real);
        }
    }

    method RequestPause(now: real, alert: bool)
      modifies this
      ensures Value() == AttemptClock.RequestPause(old(Value()), now, alert)
    {
      if status != InProgress || pausedAt.Some? { return; }
      if AttemptClock.IsTimedOut(Value(), now) { Finish(now, TimedOut); return; }
      if stepped {
        var _ := AdvanceExpired(now);
        if index >= |questions| { Finish(now, Completed); return; }
      }
      if alert { pausedAt := Some(now); }
    }

    method SubmitQuiz(now: real, marks: int -> bool)
      modifies this
      ensures Value() == AttemptClock.SubmitQuiz(old(Value()), now, marks)
    {
      if Terminal(status) || stepped || pausedAt.Some? { return; }
      var outcome := if AttemptClock.IsTimedOut(Value(), now) then TimedOut else Completed;
      var rows: seq<Answer> := [];
      for i := 0 to |questions|
        invariant |rows| == i
        invariant forall j :: 0 <= j < i ==>
                    rows[j] == AttemptClock.GradedRow(questions[j], marks(questions[j].id))
      {
        rows := rows + [AttemptClock.GradedRow(questions[i], marks(questions[i].id))];
      }
      ghost var byId := seq(|questions|, i requires 0 <= i < |questions| => marks(questions[i].id));
      assert rows == AttemptClock.GradeAll(questions, byId);
      answers := rows;
      Finish(now, outcome);
    }
  }
}
