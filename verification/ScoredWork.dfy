/** The scored submission in the form the server runs it: the status assigned through the
    table, points and grades written row by row. Every method is proved to compute the step of
    Rendezvous it names.
 */
module ScoredRecords {
  import opened Wrappers
  import opened QuizTypes
  import opened Grants
  import opened Rendezvous
  import SM = StateMachine
  import TS = TeacherScores

  class ScoredWork {
    const rules: Rules
    const owner: Student
    var quiz: Quiz
    var rows: map<Student, Row>

    function Value(): Work
      reads this
    {
      Work(quiz, owner, rows)
    }

    constructor (rules: Rules, owner: Student, quiz: Quiz, rows: map<Student, Row>)
      ensures Value() == Work(quiz, owner, rows) && this.rules == rules
    {
      this.rules, this.owner, this.quiz, this.rows := rules, owner, quiz, rows;
    }

    /** `transition`: an event the table does not allow raises and changes nothing. */
    method Transition(event: SM.Event) returns (ok: bool)
      modifies this`quiz
      ensures ok <==> SM.Next(old(quiz.status), event).Some?
      ensures Value() == if ok then WithStatus(old(Value()), SM.Next(old(quiz.status), event).value) else old(Value())
    {
      var next := SM.Next(quiz.status, event);
      ok := next.Some?;
      if ok { quiz := quiz.(status := next.value); }
    }

    /** Write one grade to every row of the squad. */
    method WriteGrade(g: int)
      modifies this`rows
      ensures rows == map s | s in old(rows) :: GradeRow(old(rows)[s], g)
    {
      var todo := rows.Keys;
      while todo != {}
        invariant todo <= old(rows).Keys
        invariant rows == map s | s in old(rows) :: if s in todo then old(rows)[s] else GradeRow(old(rows)[s], g)
        decreases todo
      {
        var s :| s in todo;
        rows := rows[s := rows[s].(grade := Some(g))];
        todo := todo - {s};
      }
    }

    method FinalizeGrade()
      modifies this`rows
      ensures Value() == Rendezvous.FinalizeGrade(old(Value()), rules)
    {
      if !SomePassed(quiz) || !ScoresComplete(Value(), rules) { return; }
      WriteGrade(rules.formula(quiz.tries, rows[owner].scores));
    }

    method QuizDone(done: SM.Event, waits: SM.Event)
      requires SM.Next(quiz.status, done).Some? && SM.Next(quiz.status, waits).Some?
      modifies this
      ensures Value() == Rendezvous.QuizDone(old(Value()), rules, done, waits)
    {
      if ScoresComplete(Value(), rules) {
        var _ := Transition(done);
        FinalizeGrade();
      } else {
        var _ := Transition(waits);
      }
    }

    method StartAttempt(s: Student)
      modifies this`quiz
      ensures Value() == Rendezvous.StartAttempt(old(Value()), s)
    {
      if CanStart(quiz, s) {
        quiz := quiz.(tries := quiz.tries[s := TriesOf(quiz, s) + [Try(InProgress, false, 0.0)]]);
      }
    }

    method FinishAttempt(s: Student, outcome: AttemptStatus, passed: bool, pct: real)
      requires HasRunning(quiz, s)
      modifies this
      ensures Value() == Rendezvous.FinishAttempt(old(Value()), rules, s, outcome, passed, pct)
    {
      var open, exhausts := quiz.status == SM.QuizSent, Exhausts(quiz, s);
      quiz := Close(quiz, s, outcome, passed, pct);
      if open {
        if passed {
          if QuizComplete(quiz) { QuizDone(SM.QuizPassed, SM.QuizPassedTeacher); }
        } else if exhausts {
          var _ := Transition(SM.QuizFailed);
        }
      }
    }

    /** A quiz the ruling may have completed leaves `quiz_sent` or `failed`. */
    method QuizDoneIfComplete(done: SM.Event, waits: SM.Event)
      requires SM.Next(quiz.status, done).Some? && SM.Next(quiz.status, waits).Some?
      modifies this
      ensures Value() == if QuizComplete(old(quiz))
              then Rendezvous.QuizDone(old(Value()), rules, done, waits) else old(Value())
    {
      if QuizComplete(quiz) { QuizDone(done, waits); }
    }

    /** `_advance_submission` */
    method AdvanceSubmission()
      modifies this
      ensures Value() == Rendezvous.Advance(old(Value()), rules)
    {
      if quiz.status == SM.QuizSent {
        QuizDoneIfComplete(SM.QuizPassed, SM.QuizPassedTeacher);
      } else if quiz.status == SM.Failed {
        QuizDoneIfComplete(SM.DisputeRegradePassed, SM.DisputeRegradePassedTeacher);
      } else if quiz.status == SM.Completed {
        FinalizeGrade();
      }
    }

    method AcceptRuling(flips: Flips)
      modifies this
      ensures Value() == Rendezvous.AcceptRuling(old(Value()), rules, flips)
    {
      var flipped := Flipped(quiz, flips);
      quiz := FlipAll(quiz, flips);
      if flipped { AdvanceSubmission(); }
    }

    method GrantAttempt(s: Student) returns (granted: bool)
      modifies this`quiz
      ensures Value() == Rendezvous.GrantAttempt(old(Value()), s)
      ensures granted <==> Grant(old(quiz), s).Ok?
    {
      granted := Grantable(quiz, s);
      if granted {
        GrantEdge(quiz, s);
        var _ := Transition(SM.QuizAttemptGranted);
        quiz := quiz.(extra := quiz.extra[s := ExtraOf(quiz, s) + 1]);
      }
    }

    /** Write the points to every row of the squad. */
    method WriteScores(scores: map<string, nat>)
      modifies this`rows
      ensures rows == map s | s in old(rows) :: ScoreRow(old(rows)[s], scores)
    {
      var todo := rows.Keys;
      while todo != {}
        invariant todo <= old(rows).Keys
        invariant rows == map s | s in old(rows) :: if s in todo then old(rows)[s] else ScoreRow(old(rows)[s], scores)
        decreases todo
      {
        var s :| s in todo;
        rows := rows[s := rows[s].(scores := scores)];
        todo := todo - {s};
      }
    }

    /** Approving a work whose quiz is passed and whose points are in. */
    method CompleteByTeacher()
      requires quiz.status == SM.AwaitingTeacherReview
      modifies this
      ensures Value() == Rendezvous.FinalizeGrade(WithStatus(old(Value()), SM.Completed), rules)
    {
      var _ := Transition(SM.TeacherApprove);
      FinalizeGrade();
    }

    method SaveScores(scores: map<string, nat>) returns (refused: Option<Refusal>)
      modifies this
      ensures Rendezvous.SaveScores(old(Value()), rules, scores)
              == if refused.Some? then Err(refused.value) else Ok(Value())
      ensures refused.Some? ==> Value() == old(Value())
    {
      var complete := TS.IsComplete(rules.criteria, scores);
      if quiz.status == SM.Completed && !complete { return Some(LosesScore); }
      WriteScores(scores);
      assert Value() == old(Value()).(rows := map s | s in old(rows) :: ScoreRow(old(rows)[s], scores));
      refused := None;
      if complete {
        if quiz.status == SM.AwaitingTeacherReview && SomePassed(quiz) {
          CompleteByTeacher();
        } else if quiz.status == SM.Completed {
          FinalizeGrade();
        }
      }
    }

    method Approve() returns (refused: Option<Refusal>)
      modifies this
      ensures Rendezvous.Approve(old(Value()), rules) == if refused.Some? then Err(refused.value) else Ok(Value())
      ensures refused.Some? ==> Value() == old(Value())
    {
      if quiz.status != SM.AwaitingTeacherReview { return Some(NotAwaiting); }
      if !ScoresComplete(Value(), rules) { return Some(ScoresIncomplete); }
      refused := None;
      if SomePassed(quiz) {
        CompleteByTeacher();
      } else {
        var _ := Transition(SM.TeacherSendQuiz);
      }
    }
  }
}
