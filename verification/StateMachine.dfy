/** The submission lifecycle table. */
module StateMachine {
  import opened Wrappers

  datatype Status =
    | Pending | Validating | ValidationFailed | Testing | TestFailed
    | AwaitingAiReview | AiReviewing | AiReviewFailed | AwaitingTeacherReview
    | QuizSent | Completed | Failed

  datatype Event =
    | StartValidation | QuizOpened | ValidationPassed | ValidationRejected
    | TestRejected | TestPassedTestsOnly | TestPassedAi | TestPassedTeacher | TestPassedQuiz
    | StartAiReview | AiReviewDoneTeacher | AiReviewDoneCompleted | AiReviewPassedQuiz | AiReviewBroke
    | RetryAiReview | AiReviewSkipToTeacher
    | QuizPassed | QuizPassedTeacher | QuizFailed | QuizAttemptGranted
    | TeacherApprove | TeacherReject | TeacherSendQuiz
    | DisputeRegradePassed | DisputeRegradePassedTeacher
    | RequeueChecks

  /** The statuses the module loop gives the `requeue_checks` exit to. */
  const REQUEUEABLE: seq<Status> := [
    Validating, Testing, AwaitingAiReview, AiReviewing, AiReviewFailed,
    ValidationFailed, TestFailed, Failed, AwaitingTeacherReview]

  /** The literal table, before the loop. */
  const BASE: map<Status, map<Event, Status>> := map[
    Pending := map[StartValidation := Validating, QuizOpened := QuizSent],
    Validating := map[ValidationPassed := Testing, ValidationRejected := ValidationFailed],
    Testing := map[TestRejected := TestFailed, TestPassedTestsOnly := Completed,
                   TestPassedAi := AwaitingAiReview, TestPassedTeacher := AwaitingTeacherReview,
                   TestPassedQuiz := QuizSent],
    AwaitingAiReview := map[StartAiReview := AiReviewing],
    AiReviewing := map[AiReviewDoneTeacher := AwaitingTeacherReview, AiReviewDoneCompleted := Completed,
                       AiReviewPassedQuiz := QuizSent, AiReviewBroke := AiReviewFailed],
    AiReviewFailed := map[RetryAiReview := AiReviewing, AiReviewSkipToTeacher := AwaitingTeacherReview],
    QuizSent := map[QuizPassed := Completed, QuizPassedTeacher := AwaitingTeacherReview,
                    QuizFailed := Failed, QuizAttemptGranted := QuizSent],
    AwaitingTeacherReview := map[TeacherApprove := Completed, TeacherReject := Failed, TeacherSendQuiz := QuizSent],
    Failed := map[DisputeRegradePassed := Completed, DisputeRegradePassedTeacher := AwaitingTeacherReview,
                  QuizAttemptGranted := QuizSent]
  ]

  /** The table as used: None is InvalidTransitionError. */
  function Next(status: Status, event: Event): Option<Status> {
    if event == RequeueChecks then (if status in REQUEUEABLE then Some(Pending) else None)
    else Lookup(BASE, status, event)
  }

  function Lookup(table: map<Status, map<Event, Status>>, status: Status, event: Event): Option<Status> {
    if status in table && event in table[status] then Some(table[status][event]) else None
  }

  /** The module loop: it adds the requeue exit and changes nothing else. */
  method BuildTable() returns (table: map<Status, map<Event, Status>>)
    ensures forall s, e :: Lookup(table, s, e) == Next(s, e)
  {
    table := AddRequeue(BASE, REQUEUEABLE);
    forall s ensures Lookup(BASE, s, RequeueChecks) == None {}
  }

  method AddRequeue(base: map<Status, map<Event, Status>>, stuck: seq<Status>)
      returns (table: map<Status, map<Event, Status>>)
    ensures forall s, e :: Lookup(table, s, e)
              == if e == RequeueChecks && s in stuck then Some(Pending) else Lookup(base, s, e)
  {
    table := base;
    for i := 0 to |stuck|
      invariant forall s, e :: Lookup(table, s, e)
                  == if e == RequeueChecks && s in stuck[..i] then Some(Pending) else Lookup(base, s, e)
    {
      var row := if stuck[i] in table then table[stuck[i]] else map[];
      ghost var before := table;
      table := table[stuck[i] := row[RequeueChecks := Pending]];
      assert forall s, e :: Lookup(table, s, e)
               == if s == stuck[i] && e == RequeueChecks then Some(Pending) else Lookup(before, s, e);
      assert stuck[..i + 1] == stuck[..i] + [stuck[i]];
    }
    assert stuck[..|stuck|] == stuck;
  }

  /** The status after a list of events; an invalid event raises and leaves it unchanged. */
  function After(status: Status, events: seq<Event>): Status
    decreases |events|
  {
    if events == [] then status else
    var next := Next(status, events[0]);
    After(if next.Some? then next.value else status, events[1..])
  }

  /** COMPLETED is final: no sequence of events leaves it. */
  lemma {:induction false} CompletedIsFinal(events: seq<Event>)
    ensures After(Completed, events) == Completed
  {
    if events != [] {
      assert Completed !in BASE && Completed !in REQUEUEABLE;
      CompletedIsFinal(events[1..]);
    }
  }

  // ---------------------------------------------------------------- the table by event

  /** The statuses an event may be raised in. */
  function Sources(event: Event): set<Status> {
    match event
    case StartValidation => {Pending}
    case QuizOpened => {Pending}
    case ValidationPassed => {Validating}
    case ValidationRejected => {Validating}
    case TestRejected => {Testing}
    case TestPassedTestsOnly => {Testing}
    case TestPassedAi => {Testing}
    case TestPassedTeacher => {Testing}
    case TestPassedQuiz => {Testing}
    case StartAiReview => {AwaitingAiReview}
    case AiReviewDoneTeacher => {AiReviewing}
    case AiReviewDoneCompleted => {AiReviewing}
    case AiReviewPassedQuiz => {AiReviewing}
    case AiReviewBroke => {AiReviewing}
    case RetryAiReview => {AiReviewFailed}
    case AiReviewSkipToTeacher => {AiReviewFailed}
    case QuizPassed => {QuizSent}
    case QuizPassedTeacher => {QuizSent}
    case QuizFailed => {QuizSent}
    case QuizAttemptGranted => {QuizSent, Failed}
    case TeacherApprove => {AwaitingTeacherReview}
    case TeacherReject => {AwaitingTeacherReview}
    case TeacherSendQuiz => {AwaitingTeacherReview}
    case DisputeRegradePassed => {Failed}
    case DisputeRegradePassedTeacher => {Failed}
    case RequeueChecks =>
      {Validating, Testing, AwaitingAiReview, AiReviewing, AiReviewFailed, ValidationFailed, TestFailed, Failed,
       AwaitingTeacherReview}
  }

  /** Where an event leads. */
  function Target(event: Event): Status {
    match event
    case StartValidation => Validating
    case QuizOpened => QuizSent
    case ValidationPassed => Testing
    case ValidationRejected => ValidationFailed
    case TestRejected => TestFailed
    case TestPassedTestsOnly => Completed
    case TestPassedAi => AwaitingAiReview
    case TestPassedTeacher => AwaitingTeacherReview
    case TestPassedQuiz => QuizSent
    case StartAiReview => AiReviewing
    case AiReviewDoneTeacher => AwaitingTeacherReview
    case AiReviewDoneCompleted => Completed
    case AiReviewPassedQuiz => QuizSent
    case AiReviewBroke => AiReviewFailed
    case RetryAiReview => AiReviewing
    case AiReviewSkipToTeacher => AwaitingTeacherReview
    case QuizPassed => Completed
    case QuizPassedTeacher => AwaitingTeacherReview
    case QuizFailed => Failed
    case QuizAttemptGranted => QuizSent
    case TeacherApprove => Completed
    case TeacherReject => Failed
    case TeacherSendQuiz => QuizSent
    case DisputeRegradePassed => Completed
    case DisputeRegradePassedTeacher => AwaitingTeacherReview
    case RequeueChecks => Pending
  }

  ghost predicate AsTransposed(status: Status, event: Event) {
    Next(status, event) == if status in Sources(event) then Some(Target(event)) else None
  }

  lemma PendingRow(event: Event)
    ensures AsTransposed(Pending, event)
  {
  }

  lemma ValidatingRow(event: Event)
    ensures AsTransposed(Validating, event)
  {
  }

  lemma TestingRow(event: Event)
    ensures AsTransposed(Testing, event)
  {
  }

  lemma AwaitingAiReviewRow(event: Event)
    ensures AsTransposed(AwaitingAiReview, event)
  {
  }

  lemma AiReviewingRow(event: Event)
    ensures AsTransposed(AiReviewing, event)
  {
  }

  lemma AiReviewFailedRow(event: Event)
    ensures AsTransposed(AiReviewFailed, event)
  {
  }

  lemma QuizSentRow(event: Event)
    ensures AsTransposed(QuizSent, event)
  {
  }

  lemma AwaitingTeacherReviewRow(event: Event)
    ensures AsTransposed(AwaitingTeacherReview, event)
  {
  }

  lemma FailedRow(event: Event)
    ensures AsTransposed(Failed, event)
  {
  }

  lemma EmptyRows(event: Event)
    ensures AsTransposed(ValidationFailed, event) && AsTransposed(TestFailed, event) && AsTransposed(Completed, event)
  {
  }

  /** The table read by event: each event leads to one status, from exactly its sources. */
  lemma OneTargetPerEvent(status: Status, event: Event)
    ensures Next(status, event) == if status in Sources(event) then Some(Target(event)) else None
  {
    match status
    case Pending => PendingRow(event);
    case Validating => ValidatingRow(event);
    case Testing => TestingRow(event);
    case AwaitingAiReview => AwaitingAiReviewRow(event);
    case AiReviewing => AiReviewingRow(event);
    case AiReviewFailed => AiReviewFailedRow(event);
    case QuizSent => QuizSentRow(event);
    case AwaitingTeacherReview => AwaitingTeacherReviewRow(event);
    case Failed => FailedRow(event);
    case _ => EmptyRows(event);
  }

  /** The work goes from one status to the other by these events in turn. */
  ghost predicate Leads(from: Status, to: Status, events: seq<Event>)
    decreases |events|
  {
    if events == [] then from == to
    else Next(from, events[0]).Some? && Leads(Next(from, events[0]).value, to, events[1..])
  }

  lemma OneMoreEvent(from: Status, event: Event, rest: seq<Event>)
    requires from in Sources(event) && Leads(Target(event), Completed, rest)
    ensures Leads(from, Completed, [event] + rest)
  {
    OneTargetPerEvent(from, event);
    assert ([event] + rest)[1..] == rest;
  }

  /** From every status some events still lead to COMPLETED. */
  lemma CompletedIsReachable(from: Status) returns (events: seq<Event>)
    ensures Leads(from, Completed, events)
  {
    var last: Option<Event> := match from
      case QuizSent => Some(QuizPassed)
      case AwaitingTeacherReview => Some(TeacherApprove)
      case AiReviewing => Some(AiReviewDoneCompleted)
      case Testing => Some(TestPassedTestsOnly)
      case Failed => Some(DisputeRegradePassed)
      case _ => None;
    if from == Completed {
      events := [];
    } else if last.Some? {
      OneMoreEvent(from, last.value, []);
      events := [last.value] + [];
    } else {
      OneMoreEvent(QuizSent, QuizPassed, []);
      OneMoreEvent(Pending, QuizOpened, [QuizPassed] + []);
      events := [QuizOpened] + ([QuizPassed] + []);
      if from != Pending {
        OneMoreEvent(from, RequeueChecks, events);
        events := [RequeueChecks] + events;
      }
    }
  }
}
