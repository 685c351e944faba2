# The quiz engine and the squad protocol, modelled and proved in Dafny

This project models how the submissions checker runs a quiz and what surrounds it:

- one timed attempt, with its cursor, per-question anchor, air-raid pauses, penalties and
  the catch-up loop that burns expired questions (`AttemptClock`, `AttemptLaws`,
  `QuizAttempt`);
- scoring with teacher rulings, before and after an attempt is finished (`Scoring`, `ScoreSheet`);
- the draw, the option shuffle and the split of one draw among a squad (`QuizDraw`, `OptionShuffle`);
- squads: invites, answers to them that run at the same time, locking, the submission rows and
  the draw they share (`Squads`, `SquadLaws`, `SquadRuns`, `SquadBoard`);
- the race of squad members who finish a quiz at the same time (`FinalisationRace`);
- the submission lifecycle, the attempt cap and its grants, and the two halves of a scored
  grade (`StateMachine`, `Grants`, `Rendezvous`, `ScoredWork`);
- the grade itself (`Rounding`, `TeacherScores`, `Grading`, `ScoredGrade`);
- three self-contained algorithms: the multipart splitter, the boundary simplifier and the
  login limiter (`Multipart`, `Rdp`, `RateLimit`).

Code that only computes is modelled by functions. Code that changes records in place is
modelled twice: as a step on values, about which the run-wide results are proved, and as a
class or method with the loops and assignments of the source (`AttemptRecord.QuizAttempt`,
`ScoreRecord.AttemptSheet`, `SquadRecords.SquadBoard`, `ScoredRecords.ScoredWork`), each
method proved to compute that step. The main results quantify over every run from an initial
state: any list of requests at non-decreasing times, or any interleaving of transaction steps.

Nine expected properties do not hold of the code as it stands. Each has a concrete input and
the exact condition under which it does hold:

- A row filed by a squad member need not carry the squad. A student whose invite is cancelled
  while their accept is in flight can hand in work alone before that accept commits
  (`AStrayRowIsReachable`). The rule holds at the end of a run exactly when no accept committed
  for a student who had filed since it took its lock, unless a delete by an earlier copy has
  removed the joined squad again (`RowRuleExactly`); filing is safe exactly
  when no accept of the student holds a squad row (`FilingIsSafeExactly`).
- A finished squad quiz need not move the submission. A pass graded while the submission stands
  at FAILED commits without the row lock and without looking (`AStuckRunExists`). With all enrolled
  members passed, the submission has moved exactly when a decision followed the last such commit
  and no unenrolled member has failed it for good (`AllPassedMeansMoved`).
- A move can be undone: the exhausting failure of a member who is no longer enrolled overwrites it
  (`AFailureOverwrites`), and nothing else does (`MovedOnceAndOnlyWhenAllPassed`).
- The half of a scored grade that arrives last does not complete a work that an exhausted cap has
  already failed, unless that half is a ruling (`LastHalfCompletesExactly`,
  `FailedWithBothHalves`).
- The grade of a completed squad work can be stale (`AStaleGradeIsReachable`): exactly when an
  attempt that was running at completion passes, beats its student's best and moves the mean to
  other quiz points (`SquadCurrentExactly`). A solo grade never is (`SoloGradeIsTheSum`).
- A locked squad can be deleted (`ALockedSquadIsDeleted`): exactly by a decline or a cancellation
  that loaded the squad while it was unlocked with at most one member (`LockedSurvivesExactly`).
- The verdict of an attempt does not depend on the order of rulings, but the stored score can
  (`ScoreDependsOnOrder`): it counts rulings in order until the attempt passes, and is the score
  with all credited at once exactly when every ruled question it leaves out was not drawn or was
  earned in full (`StoredScoreExactly`).
- Shuffling options preserves multiple-choice grading exactly for keys that are in range and
  free of duplicates (`MultipleChoiceLaw`, `UnsoundKeyBreaksLaw`).
- How often the page is polled can matter (`APollMatters`, `TwoPollsDiverge`): `PollTwiceExactly` and `PollBeforeAnswerExactly` say
  exactly when one more poll changes what a later poll or answer finds.

## Model

| member | source | states |
|---|---|---|
| `AttemptClock.BurnedExactly` | src/submissions_checker/api/routes/student_quiz.py:301-338 | catch-up burns at least k questions if and only if the next k are timed and their limits together plus one single grace have passed |
| `AttemptClock.BurnGrows` | src/submissions_checker/api/routes/student_quiz.py:284-338 | catch-up only moves the cursor forward, adds one zero row per burned question in draw order, leaves the anchor where the last burned window ended, and touches nothing else |
| `AttemptClock.PollingIndependent` | src/submissions_checker/api/routes/student_quiz.py:301-338 | settling at t1 and again at t2 gives the same attempt as settling once at t2 |
| `AttemptClock.PollTwiceExactly` | src/submissions_checker/api/routes/student_quiz.py:895-960 | a poll followed by a later one leaves what the later one alone would, if and only if the first did not move past questions before the attempt's own time ran out, or fail a marked attempt in the middle of a pause at other whole seconds |
| `AttemptClock.TwoPollsDiverge` | src/submissions_checker/api/routes/student_quiz.py:895-960 | with one minute for the attempt, polls after 20 and 61 seconds leave the first question's row and cursor, the second poll alone times out without any row |
| `AttemptClock.PollBeforeAnswerExactly` | src/submissions_checker/api/routes/student_quiz.py:1624-1713 | a poll before a posted answer changes nothing if and only if it neither fails a marked attempt the post would leave alone, nor finds the attempt's time up, nor uncovers the very question the post answers |
| `AttemptClock.APollMatters` | src/submissions_checker/api/routes/student_quiz.py:1624-1713 | of two ten-second questions, an answer to the second posted after 21 seconds is recorded and ends the attempt if the page was shown after 20 seconds; otherwise only the first question's expiry is recorded and the attempt stays open at the second |
| `AttemptClock.PollsCollapse` | src/submissions_checker/api/routes/student_quiz.py:895-960 | without an attempt-wide limit any series of polls leaves exactly what its last poll alone leaves |
| `AttemptClock.ServeKeeps` | src/submissions_checker/api/routes/student_quiz.py:895-1000 | every request (show, answer, submit, violation, pause, resume) keeps the attempt invariant |
| `AttemptClock.ServeBooks` | src/submissions_checker/api/routes/student_quiz.py:147-164 | only closing a pause changes the paused column, by its whole seconds; an independent ledger of true pause time stays in step |
| `AttemptClock.RunKeeps` | src/submissions_checker/api/routes/student_quiz.py:1624-1713 | the invariant and the ledger hold after any requests at non-decreasing times |
| `AttemptClock.NoStretching` | src/submissions_checker/api/routes/student_quiz.py:301-338 | in every run of an all-timed quiz the anchor stays within start + pauses + the sum of (limit + 5) over passed questions, and no answer is accepted past that bound for its own question |
| `AttemptClock.AcceptedInWindow` | src/submissions_checker/api/routes/student_quiz.py:1672-1704 | an accepted answer has nothing to catch up on and lies inside its question's window plus grace |
| `AttemptClock.PauseDrift` | src/submissions_checker/api/routes/student_quiz.py:130-174 | in every run, after k closed pauses elapsed time exceeds true unpaused time by 0 if k is 0 and by an amount in [0, k) otherwise |
| `AttemptClock.FrozenWhilePaused` | src/submissions_checker/api/routes/student_quiz.py:130-233 | while a pause is open both countdowns read the same at any two instants and nothing expires |
| `AttemptClock.ResumeCostsUnderASecond` | src/submissions_checker/api/routes/student_quiz.py:1486-1535 | a resume takes between 0 and less than one second off either real-valued remaining time |
| `AttemptClock.OneRowPerQuestion` | src/submissions_checker/api/routes/student_quiz.py:284-338 | in every run the answers are one row per question already passed, in draw order, worth the question's points if correct and nothing if not, none both timed out and correct, and no finished attempt is paused |
| `AttemptLaws.StartsFresh` | src/submissions_checker/api/routes/student_quiz.py:847-879 | a new attempt is running at its first question without rows, pauses or penalties, has question clocks exactly when some drawn question is timed, and times out exactly past its minutes |
| `AttemptLaws.ClocksRun` | src/submissions_checker/api/routes/student_quiz.py:167-233 | without a pause a fresh attempt's clock runs down from its minutes, and a question's window is open exactly until five seconds past its countdown |
| `AttemptLaws.CountdownsMean` | src/submissions_checker/api/routes/student_quiz.py:189-233 | the attempt's countdown is its remaining time rounded down, the question's rounded up, neither below zero |
| `AttemptLaws.AcceptsExactly` | src/submissions_checker/api/routes/student_quiz.py:1656-1704 | a post is recorded exactly on a running, stepped, unpaused, unmarked attempt, for the question under the cursor, inside its window |
| `AttemptLaws.AnswerRecords` | src/submissions_checker/api/routes/student_quiz.py:1680-1709 | a recorded post adds one row of the current question with the post's own mark, worth full points if correct and none if not, and moves on or completes |
| `AttemptLaws.RejectedEarnsNothing` | src/submissions_checker/api/routes/student_quiz.py:1669-1679 | any other post keeps the rows there are and adds only timed-out rows worth nothing |
| `AttemptLaws.FormRecords` | src/submissions_checker/api/routes/student_quiz.py:1748-1804 | a submitted form records one row per question, each with that question's own mark, and ends the attempt by its cause; on any other attempt it changes nothing |
| `AttemptLaws.ShowDecides` | src/submissions_checker/api/routes/student_quiz.py:895-960 | what showing the page makes of an attempt: failed if marked, timed out past its minutes, completed when all questions have run out, else left running |
| `AttemptLaws.ShownIsOpen` | src/submissions_checker/api/routes/student_quiz.py:895-960 | a running, unpaused attempt that is shown has time left, and so has its question |
| `AttemptLaws.PauseOpensExactly` | src/submissions_checker/api/routes/student_quiz.py:1371-1483 | a pause opens exactly during an alert on a running, unpaused attempt with time and a question left, and an open one is never moved |
| `AttemptLaws.PauseSettles` | src/submissions_checker/api/routes/student_quiz.py:1371-1483 | a pause request settles what has run out first, with or without an alert, and may end the attempt by it |
| `AttemptLaws.ResumeEnds` | src/submissions_checker/api/routes/student_quiz.py:1486-1535 | a resume ends the pause, books its whole seconds on both clocks, and changes nothing else |
| `AttemptLaws.PenaltyBites` | src/submissions_checker/api/routes/student_quiz.py:1200-1225 | a time penalty takes exactly its seconds off the clock that is running |
| `AttemptLaws.FailTakesEffect` | src/submissions_checker/api/routes/student_quiz.py:1196-1206 | a failing violation ends the attempt as one at the next look, with no answer recorded in between |
| `AttemptLaws.NoPenaltyOtherwise` | src/submissions_checker/api/routes/student_quiz.py:1160-1200 | nothing is punished on a paused or finished attempt |
| `AttemptRecord.QuizAttempt.constructor` | src/submissions_checker/api/routes/student_quiz.py:847-879 | a new attempt starts at the first question, and its anchor is set exactly when some drawn question is timed |
| `AttemptRecord.QuizAttempt.CloseOpenPause` | src/submissions_checker/api/routes/student_quiz.py:147-164 | adds the floored pause to the paused column, shifts the anchor by as much and clears the pause |
| `AttemptRecord.QuizAttempt.AdvanceExpired` | src/submissions_checker/api/routes/student_quiz.py:301-338 | the loop computes the recursive catch-up and returns how many questions it burned |
| `AttemptRecord.QuizAttempt.Finish` | src/submissions_checker/api/routes/student_quiz.py:597-642 | finishing closes an open pause first and sets the outcome |
| `AttemptRecord.QuizAttempt.Show` | src/submissions_checker/api/routes/student_quiz.py:895-960 | showing the page settles expiries and finishes an attempt that ran out |
| `AttemptRecord.QuizAttempt.AnswerQuestion` | src/submissions_checker/api/routes/student_quiz.py:1624-1713 | an answer settles expiries, is recorded only for the current question, moves the cursor and the anchor, and finishes after the last question |
| `AttemptRecord.QuizAttempt.ReportViolation` | src/submissions_checker/api/routes/student_quiz.py:1196-1240 | on a running, unpaused attempt a penalty walks the anchor back (or adds to the penalty of an attempt without question clocks) or marks it to be failed; otherwise nothing changes |
| `AttemptRecord.QuizAttempt.RequestPause` | src/submissions_checker/api/routes/student_quiz.py:1371-1483 | a pause opens only on a running, unpaused attempt during an alert, after expiries are settled |
| `AttemptRecord.QuizAttempt.SubmitQuiz` | src/submissions_checker/api/routes/student_quiz.py:1716-1804 | a whole-form submit records one row per question and finishes, late or not |
| `Scoring.PointsByQuestion` | src/submissions_checker/services/quiz_scoring.py:99-120 | the sum over the rows equals the sum over the drawn questions of what each earned |
| `Scoring.CreditMeans` | src/submissions_checker/services/quiz_scoring.py:48-96 | overrides give full points to exactly the overridden questions, leave all others as earned, and keep one row per question |
| `Scoring.CreditOneExactly` | src/submissions_checker/services/quiz_scoring.py:76-96 | an override makes the question's last row correct and worth full points, or adds such a row, and changes no other |
| `Scoring.CreditComposes` | src/submissions_checker/services/quiz_scoring.py:48-96 | crediting one set and then scoring with another is scoring with their union |
| `Scoring.CreditedMonotone` | src/submissions_checker/services/quiz_scoring.py:48-120 | more rulings never lower a score, which stays within 0 and the maximum |
| `Scoring.ScoreWithinMax` | src/submissions_checker/services/quiz_scoring.py:99-120 | rows with no question twice score between 0 and the maximum |
| `Scoring.VerdictMeans` | src/submissions_checker/services/quiz_scoring.py:112-120 | a score passes exactly when it reaches the threshold's share of a positive maximum; so a full score passes every threshold up to 1, and reaching it exactly is enough |
| `Scoring.FullCredit` | src/submissions_checker/services/quiz_scoring.py:99-113 | crediting every question gives the maximum |
| `Scoring.RulingsOrderFree` | src/submissions_checker/services/quiz_regrade.py:77-139 | after any rulings before and after finishing, repeated and in any order, the verdict is that of crediting all ruled questions at once; it never goes back to failed, no question has two rows and score <= maximum |
| `Scoring.StoredScoreExactly` | src/submissions_checker/services/quiz_regrade.py:93-139 | the stored score credits the rulings in order up to the one that passes the attempt; it equals the score with all credited at once if and only if every ruled question left out was not drawn or was earned in full, and always while the attempt has not passed |
| `Scoring.CheatingIsNotRegraded` | src/submissions_checker/services/quiz_regrade.py:93-110 | an attempt failed for violations is moved by no ruling |
| `Scoring.ScoreDependsOnOrder` | src/submissions_checker/services/quiz_regrade.py:93-139 | for an attempt a run of the clock leaves timed out without answers, the stored score after the same two rulings is 10 or 11, depending on their order |
| `Scoring.RunRowsWellFormed` | src/submissions_checker/api/routes/student_quiz.py:597-642 | the rows any run of the attempt clock leaves meet the conditions of the scoring results |
| `ScoreRecord.AttemptSheet.RowsByQuestion` | src/submissions_checker/services/quiz_scoring.py:71-75 | the dictionary maps each answered question to its last row and holds nothing else |
| `ScoreRecord.AttemptSheet.ApplyQuestionOverrides` | src/submissions_checker/services/quiz_scoring.py:48-96 | the loop over the draw, overwriting or appending rows, computes the recursive credit and counts the overridden questions |
| `ScoreRecord.AttemptSheet.ScoreAttempt` | src/submissions_checker/services/quiz_scoring.py:99-120 | stores the sum, the maximum and the verdict, never a pass under forced failure |
| `ScoreRecord.AttemptSheet.Finalize` | src/submissions_checker/api/routes/student_quiz.py:602-642 | applies the rulings known so far, scores, and sets the outcome |
| `ScoreRecord.RegradeQuestion` | src/submissions_checker/services/quiz_regrade.py:77-139 | every attempt of the cohort is regraded by the one-attempt rule, and exactly the attempts that became passed are reported |
| `OptionShuffle.SingleChoiceLaw` | src/submissions_checker/api/routes/student_quiz.py:398-404 | the shuffled key exists exactly for a key in range, and grading against it equals grading the un-permuted selection against the original |
| `OptionShuffle.MultipleChoiceLaw` | src/submissions_checker/api/routes/student_quiz.py:405-412 | for a key in range without duplicates every selection gets the same correctness and points as its un-permuted form |
| `OptionShuffle.UnsoundKeyBreaksLaw` | src/submissions_checker/api/routes/student_quiz.py:405-412 | for any other key some selection is graded differently |
| `OptionShuffle.RemapRoundTrip` | src/submissions_checker/api/routes/student_quiz.py:405-412 | un-permuting the remapped key gives the key back if and only if it is sound |
| `OptionShuffle.SortedEqual` | src/submissions_checker/api/routes/student_quiz.py:540-554 | comparing sorted lists compares multisets |
| `OptionShuffle.GradesMean` | src/submissions_checker/api/routes/student_quiz.py:533-554 | a single choice is correct exactly for the key, a multiple choice exactly for the key's entries in any order; correct earns all points and anything else none |
| `QuizDraw.SplitDraw` | src/submissions_checker/services/quiz_split.py:13-22 | the dealing loop fills the slices as specified, and fails exactly for fewer than one member |
| `QuizDraw.SplitPartitions` | src/submissions_checker/services/quiz_split.py:13-22 | each drawn id is in exactly one slice, once |
| `QuizDraw.SplitEven` | src/submissions_checker/services/quiz_split.py:13-22 | slice sizes differ by at most one, and so do the numbers of required questions |
| `QuizDraw.DrawMeans` | src/submissions_checker/api/routes/student_quiz.py:418-443 | a draw repeats nothing, holds only supported questions and every required one, and has the configured size as far as the questions allow |
| `QuizDraw.RetryDraw` | src/submissions_checker/api/routes/student_quiz.py:491-505 | a retry draw has exactly the size of the member's slice, repeats nothing and holds every required question of the slice |
| `Squads.StepKeeps` | src/submissions_checker/services/squads.py:292-574 | every squad step, and each point of the accepts, declines and cancellations in flight, keeps the invariant; no step but a delete by a loaded copy touches a locked squad or a row's squad, and only an accept's commit makes rows stray: exactly those its student had filed |
| `Squads.AnswerAloneIsTwoSteps` | src/submissions_checker/services/squads.py:491-514 | a decline or a cancellation that nothing interrupts is its load and its write in a row, with the same refusals |
| `SquadRuns.RunKeeps` | src/submissions_checker/services/squads.py:292-574 | over every run the invariant holds, rows and their draws stay as written, and a row only ever loses its squad by that squad's deletion |
| `SquadRuns.SquadRules` | src/submissions_checker/services/squads.py:130-147 | in every run, with all requests interleaving with accepts, declines and cancellations in flight, nobody is in two squads, no squad exceeds the maximum, a locked squad has no pending invite, and a row that names a squad was filed by a member of it, locked |
| `SquadRuns.RowRuleExactly` | src/submissions_checker/api/routes/student_portal.py:579-673 | every row filed by a member carries that squad, locked, at the end of a run if no accept in it committed for a student who had filed since it took its lock, and, in a run in which no squad was taken away by an earlier copy, only if |
| `SquadRuns.FilingIsSafeExactly` | src/submissions_checker/api/routes/student_portal.py:579-673 | the row of a student without a squad is never contradicted later, whatever follows, if and only if no accept of that student holds a squad row when it is filed |
| `SquadRuns.CrossingBreaks` | src/submissions_checker/services/squads.py:431-488 | if such an accept commits next, the filed row is one of a member and carries no squad |
| `SquadRuns.AStrayRowIsReachable` | src/submissions_checker/services/squads.py:431-488 | a run from the empty subject to a member whose filed row carries no squad |
| `SquadRuns.LockedForever` | src/submissions_checker/services/squads.py:572-574 | from any reachable state on, a locked squad that no stale decline or cancellation in flight threatens is never deleted, unlocked or changed and its rows keep naming it; rows and draws always stay as written |
| `SquadRuns.LockedSurvivesExactly` | src/submissions_checker/services/squads.py:339-356 | a locked squad is there unchanged after every run if and only if no decline or cancellation in flight has loaded it while it was unlocked with at most one member |
| `SquadRuns.ALockedSquadIsDeleted` | src/submissions_checker/services/squads.py:339-356 | a run in which a cancellation that loaded its invite before the accept deletes the full, locked squad |
| `SquadRuns.EveryMemberHasASlice` | src/submissions_checker/api/routes/student_quiz.py:470-489 | in every run, a row with a draw has the sorted members of the squad it names as its order and disjoint slices covering the draw, and every student whose quiz resolves to it is in that order, so the refusal of a changed squad is unreachable; it names no squad only after an answer has deleted a locked squad |
| `Squads.JoinEffect` | src/submissions_checker/services/squads.py:431-488 | a successful accept adds exactly the student, accepts the invite, leaves the student no other pending invite, and locks the squad exactly when it became full |
| `SquadLaws.EligibleExactly` | src/submissions_checker/services/squads.py:130-147 | eligible is: squads on, enrolled, no test student, in no squad, nothing handed in |
| `SquadLaws.CreateExactly` | src/submissions_checker/services/squads.py:370-396 | a squad is created exactly by someone who may join, for other students who all may, each once, at least one and no more than fit |
| `SquadLaws.CreateEffect` | src/submissions_checker/services/squads.py:396-413 | creating adds one open squad of the creator and one pending invite per student, and nothing else |
| `SquadLaws.SweepExactly` | src/submissions_checker/services/squads.py:292-336 | the sweep cancels exactly the student's pending invites but the excepted one, and deletes exactly the open squads of one member they leave without any |
| `SquadLaws.AssignExactly` | src/submissions_checker/services/squads.py:517-535 | a teacher's assignment is accepted exactly for two to the maximum of distinct students who all may join |
| `SquadLaws.AssignEffect` | src/submissions_checker/services/squads.py:535-569 | it forms one locked squad of exactly these students, leaves none of them on a pending invite, and touches no locked or larger squad |
| `SquadLaws.AnswersExactly` | src/submissions_checker/services/squads.py:416-514 | a pending invite is its student's to accept or decline and its squad's creator's to cancel |
| `SquadLaws.AnswerEffect` | src/submissions_checker/services/squads.py:491-514 | a decline or cancellation gives the invite its answer, and deletes the squad exactly if it is open, has one member at most and no other pending invite |
| `SquadLaws.JoinsExactly` | src/submissions_checker/services/squads.py:444-455 | an accept joins exactly when the student may still join and the squad is open with room |
| `SquadLaws.ReasonsAreTrue` | src/submissions_checker/services/squads.py:130-147 | every reason an accept is refused for is so, and none asked before it |
| `SquadLaws.CreateReasonsAreTrue` | src/submissions_checker/services/squads.py:370-396 | every reason a creation or an assignment is refused for is so |
| `SquadLaws.RefusedAccept` | src/submissions_checker/services/squads.py:448-451 | a refused accept cancels its own invite and changes nothing else |
| `SquadLaws.JoinLeavesOthers` | src/submissions_checker/services/squads.py:453-488 | beside the squad joined, an accept deletes exactly the squads the student's other invites leave empty and cancels exactly those invites |
| `SquadLaws.SubmitExactly` | src/submissions_checker/api/routes/student_portal.py:579-592 | a hand-in is refused for its squad exactly while an invite is pending from or to the student or of the student's squad |
| `SquadLaws.SubmitEffect` | src/submissions_checker/api/routes/student_portal.py:650-673 | filing adds one row of the student with the squad and locks that squad, and nothing else |
| `SquadLaws.OpenDealsEvenly` | src/submissions_checker/api/routes/student_quiz.py:470-489 | the first to open a squad's quiz deals it by the members' order in slices differing by at most one; later ones find it unchanged |
| `SquadLaws.WhoHasFiledIsSettled` | src/submissions_checker/api/routes/student_portal.py:579-592 | in every run, a student who has handed in anything is on neither end of a pending invite |
| `SquadRecords.AcceptAloneIsThreeSteps` | src/submissions_checker/services/squads.py:431-488 | an accept that meets no other is the sequence of its load, lock and commit steps |
| `SquadRecords.AcceptJoinsOrNot` | src/submissions_checker/services/squads.py:431-488 | a successful accept makes the student a member of the inviting squad; a refused one changes no squad and leaves the student's own invite no longer pending |
| `SquadRecords.SquadBoard.CancelRows` | src/submissions_checker/services/squads.py:292-336 | the loop cancels exactly the given invites but the excepted one and returns their squads |
| `SquadRecords.SquadBoard.DeleteIfEmpty` | src/submissions_checker/services/squads.py:339-356 | deletes the squad, with its invites, exactly when it is unlocked, has at most one member and no pending invite |
| `SquadRecords.SquadBoard.CancelPendingOf` | src/submissions_checker/services/squads.py:292-336 | cancels the student's pending invites but the excepted one and deletes the squads this empties |
| `SquadRecords.SquadBoard.CreateWithInvites` | src/submissions_checker/services/squads.py:370-413 | creates a one-member squad with one invite per chosen student, or refuses for the first reason in order and changes nothing |
| `SquadRecords.SquadBoard.AcceptInvite` | src/submissions_checker/services/squads.py:431-488 | computes the three steps in a row and answers the first reason for refusal in order |
| `SquadRecords.SquadBoard.DeclineInvite` | src/submissions_checker/services/squads.py:491-503 | declines a pending invite of one's own and deletes an emptied squad, or refuses and changes nothing |
| `SquadRecords.SquadBoard.CancelInvite` | src/submissions_checker/services/squads.py:506-514 | only the squad's creator cancels, and an emptied squad is deleted, or refuses and changes nothing |
| `SquadRecords.SquadBoard.TeacherAssign` | src/submissions_checker/services/squads.py:517-569 | forms a locked squad of distinct eligible students within the size limit and cancels all their invites, or refuses and changes nothing |
| `SquadRecords.SquadBoard.Submit` | src/submissions_checker/api/routes/student_portal.py:579-673 | refuses while an invite is pending; otherwise files the row under the filer's squad and locks that squad |
| `FinalisationRace.StepKeeps` | src/submissions_checker/api/routes/student_quiz.py:643-690 | each transaction step of anyone taking the quiz, enrolled or not, keeps the lock and visibility invariant |
| `FinalisationRace.RowsTellTheRun` | src/submissions_checker/api/routes/student_quiz.py:677-690 | in every run a member has passed exactly when a pass of theirs was committed, and is out of attempts exactly when a failure graded as the last one was committed with no grant since |
| `FinalisationRace.WhoMayStart` | src/submissions_checker/api/routes/student_quiz.py:782-836 | an idle member may start exactly at QUIZ_SENT with no committed pass and with attempts left, and may be granted an attempt exactly if enrolled and out of attempts |
| `FinalisationRace.GradedOnceForAll` | src/submissions_checker/api/routes/student_quiz.py:643-690 | a failing request writes FAILED exactly if it found QUIZ_SENT and was the last attempt, and takes the member's attempts exactly if it was the last, whatever happens before it commits |
| `FinalisationRace.PassGradedOnceForAll` | src/submissions_checker/api/routes/student_quiz.py:643-676 | a passing request goes for the lock exactly if it found QUIZ_SENT, and otherwise commits its pass without moving the submission |
| `FinalisationRace.NobodyStuck` | src/submissions_checker/api/routes/student_quiz.py:643-676 | while some member is finishing, some finishing member can go on: the row lock never makes them wait for each other |
| `FinalisationRace.MovedOnceAndOnlyWhenAllPassed` | src/submissions_checker/api/routes/student_quiz.py:643-676 | in every interleaving the submission is moved at most once, only after all enrolled members' passes are committed, and stays at its target if and only if no unenrolled member's exhausting failure commits for good |
| `FinalisationRace.AllPassedMeansMoved` | src/submissions_checker/services/squads.py:647-677 | once all enrolled members' passes are committed, the submission is at its target or the decision is about to commit, if and only if a decision followed the last enrolled pass committed without the lock and no unenrolled member has failed it for good |
| `FinalisationRace.LastPassMoves` | src/submissions_checker/api/routes/student_quiz.py:643-676 | if everyone taking the quiz is enrolled and every passing request found QUIZ_SENT, the submission has moved if and only if all have passed |
| `FinalisationRace.AStuckRunExists` | src/submissions_checker/api/routes/student_quiz.py:643-676 | a run in which both members have passed, the submission is still at QUIZ_SENT and no step is left |
| `FinalisationRace.AFailureOverwrites` | src/submissions_checker/api/routes/student_quiz.py:677-690 | a run in which the one enrolled member has moved the submission and the late commit of an unenrolled member's failure leaves it FAILED with no step left |
| `StateMachine.BuildTable` | src/submissions_checker/core/state_machine.py:10-85 | the module loop adds the requeue exit to the listed statuses and changes no other entry |
| `StateMachine.OneTargetPerEvent` | src/submissions_checker/core/state_machine.py:10-85 | the table read by event: each event leads to one status, from exactly its sources |
| `StateMachine.CompletedIsFinal` | src/submissions_checker/core/state_machine.py:10-104 | no sequence of events leaves COMPLETED |
| `StateMachine.CompletedIsReachable` | src/submissions_checker/core/state_machine.py:10-85 | from every status some events lead to COMPLETED |
| `Grants.AttemptsWithinCap` | src/submissions_checker/api/routes/student_quiz.py:782-836 | in every run each student has at most one running attempt and at most base + extra attempts |
| `Grants.GrantAtTheBound` | src/submissions_checker/services/quiz_grants.py:126-165 | a grant succeeds only when the bound is met with equality, when the student could not start, and then the student can |
| `Grants.GrantIsOneAttempt` | src/submissions_checker/services/quiz_grants.py:147-165 | whatever follows short of another grant, the student gets at most one more attempt, cannot start again once it is used, and is grantable again only after using it |
| `Grants.StartsExactly` | src/submissions_checker/api/routes/student_quiz.py:782-836 | in every run a student starts exactly when the quiz is out, nothing of theirs runs or has passed, and they have had fewer attempts than base + extra |
| `Grants.EndsExactly` | src/submissions_checker/api/routes/student_quiz.py:643-690 | ending an attempt sets its row; a submission at QUIZ_SENT goes on by a pass, or fails exactly when the failed attempt was the last one allowed |
| `Grants.GrantsExactly` | src/submissions_checker/services/quiz_grants.py:59-71 | an attempt is granted exactly to an enrolled student who has used up the cap without passing, while the submission is failed or open; it adds one to that student's cap and reopens the quiz |
| `Grants.FlipsExactly` | src/submissions_checker/services/quiz_regrade.py:93-139 | a ruling passes exactly the named attempts that are completed or timed out and unpassed |
| `Rendezvous.StepKeeps` | src/submissions_checker/api/routes/teacher_portal.py:2013-2070 | every request on a scored work keeps the relation of status, quiz, points and grades |
| `Rendezvous.LastHalfCompletes` | src/submissions_checker/api/routes/student_quiz.py:656-665 | in every run, unless failed, the work waits on the quiz exactly while it is incomplete, on the teacher exactly while only points are missing, and is COMPLETED exactly when both are in; COMPLETED always has both halves and one grade on all rows |
| `Rendezvous.LastHalfCompletesExactly` | src/submissions_checker/services/quiz_regrade.py:142-185 | the request that brings in the last half completes the work if and only if the work was not FAILED or the request is a ruling |
| `Rendezvous.FailedWithBothHalves` | src/submissions_checker/services/quiz_regrade.py:142-185 | a run that ends FAILED with both halves in |
| `Rendezvous.CompletedNeverLosesAScore` | src/submissions_checker/api/routes/teacher_portal.py:2013-2070 | from COMPLETED on, the work stays completed, keeps every required score and one grade on all rows |
| `Rendezvous.HalvesMean` | src/submissions_checker/services/squads.py:667-677 | the quiz is complete when every enrolled student has a passed attempt, the points when every required criterion has a value on the owner's row |
| `Rendezvous.FinalizeExactly` | src/submissions_checker/services/grading.py:181-220 | grading writes the formula's grade to every row when a quiz is passed and the points are in, and otherwise nothing |
| `Rendezvous.SavesExactly` | src/submissions_checker/api/routes/teacher_portal.py:2013-2035 | saving points is refused exactly when it would take a required one from a completed work |
| `Rendezvous.SavedExactly` | src/submissions_checker/api/routes/teacher_portal.py:2035-2070 | saving gives every row exactly these points and completes a waiting work with its quiz passed once the required ones are in |
| `Rendezvous.ApprovesExactly` | src/submissions_checker/api/routes/teacher_portal.py:1547-1600 | approval is accepted exactly for a waiting work with all required points, and completes it if its quiz is passed or else sends the quiz out |
| `Rendezvous.CompletedGradeIsCurrent` | src/submissions_checker/services/grading.py:133-229 | in every run in which no attempt ends on an already completed work, COMPLETED means that every row holds the grade of the present attempts and points |
| `Rendezvous.IdleStaysCurrent` | src/submissions_checker/api/routes/student_quiz.py:643-649 | a work completed with a current grade and no attempt running keeps a current grade whatever follows |
| `ScoredGrade.LoopIsSquadPct` | src/submissions_checker/services/grading.py:114-130 | what the dictionary loop returns for the attempts is the mean over the members' best passed attempts that the grade results use |
| `ScoredGrade.SoloStaysCurrent` | src/submissions_checker/services/grading.py:169-170 | with the first passed attempt as the quiz percentage, no request makes the grade of a completed solo work stale |
| `ScoredGrade.SoloGradeIsTheSum` | src/submissions_checker/services/teacher_scores.py:120-145 | in every run of a solo work, COMPLETED means that every row holds exactly minimum + quiz points of the first passed attempt + the teacher's points |
| `ScoredGrade.SquadCurrentExactly` | src/submissions_checker/api/routes/student_quiz.py:643-649 | a request makes the current grade of a completed squad work stale if and only if it ends an attempt that passed, beats its student's best so far, and gives a mean worth other quiz points, all read on the state before it |
| `ScoredGrade.SquadGradeIsTheSum` | src/submissions_checker/services/teacher_scores.py:120-145 | in every run of a squad work without such a request, COMPLETED means that every row holds exactly minimum + quiz points of the members' mean + the teacher's points |
| `ScoredGrade.AStaleGradeIsReachable` | src/submissions_checker/services/quiz_regrade.py:142-185 | a run of a squad of two, with 60 points for the quiz and 40 from the teacher, that ends COMPLETED with 88 on the rows where the attempts are worth 100 |
| `ScoredRecords.ScoredWork.Transition` | src/submissions_checker/core/state_machine.py:92-104 | assigns the table's target, or refuses and changes nothing |
| `ScoredRecords.ScoredWork.FinalizeGrade` | src/submissions_checker/services/grading.py:133-229 | writes nothing while a half is missing, otherwise one grade to all rows |
| `ScoredRecords.ScoredWork.FinishAttempt` | src/submissions_checker/api/routes/student_quiz.py:643-690 | a completing pass sends the work on by whether the points are in; an exhausting failure fails it; a work not at QUIZ_SENT is left where it is |
| `ScoredRecords.ScoredWork.AdvanceSubmission` | src/submissions_checker/services/quiz_regrade.py:142-185 | after a ruling flips an attempt: on from QUIZ_SENT or FAILED if the quiz is complete, a new grade if COMPLETED |
| `ScoredRecords.ScoredWork.AcceptRuling` | src/submissions_checker/services/quiz_regrade.py:188-280 | flips the named attempts and advances the work only if one was flipped |
| `ScoredRecords.ScoredWork.GrantAttempt` | src/submissions_checker/services/quiz_grants.py:147-165 | adds one extra attempt for that student and reopens the quiz, or refuses and changes nothing |
| `ScoredRecords.ScoredWork.SaveScores` | src/submissions_checker/api/routes/teacher_portal.py:1938-2070 | writes the points to all rows, completes a waiting work whose points are now complete, refreshes a completed one, and refuses to take a required score from it |
| `ScoredRecords.ScoredWork.Approve` | src/submissions_checker/api/routes/teacher_portal.py:1547-1600 | approves only a waiting work with complete points: to COMPLETED with a grade if the quiz is passed, else to the quiz |
| `TeacherScores.ValidateAssignment` | src/submissions_checker/services/teacher_scores.py:55-85 | accepts exactly the configs with a quiz, non-negative quiz points, valid distinct criteria with positive maxima, and a total equal to the grade range; each refusal has its cause |
| `TeacherScores.ParseForm` | src/submissions_checker/services/teacher_scores.py:88-101 | succeeds exactly when every field is empty or a number within its maximum, returns exactly the filled fields, and else names the first faulty one |
| `TeacherScores.KeysGrow` | src/submissions_checker/services/teacher_scores.py:55-85 | a key is made of lower-case letters, digits and underscores, at least one |
| `TeacherScores.CompleteExactly` | src/submissions_checker/services/teacher_scores.py:104-107 | points read from a form are complete exactly when every required field is filled |
| `TeacherScores.QuizPointsMean` | src/submissions_checker/services/teacher_scores.py:110-117 | quiz points are the percentage's share to the nearest whole point, or for squads the next one, up to a millionth; all of them at 100 and none at 0 |
| `TeacherScores.PointsAddUp` | src/submissions_checker/services/teacher_scores.py:120-145 | the criteria's total counts each criterion's points for exactly themselves |
| `TeacherScores.QuizPointsBound` | src/submissions_checker/services/teacher_scores.py:110-117 | a percentage in range gives between 0 and all of the quiz points, rounded up or half up |
| `TeacherScores.PointsBound` | src/submissions_checker/services/teacher_scores.py:120-145 | points within their maxima total between 0 and the sum of the maxima |
| `TeacherScores.ClampNeverActs` | src/submissions_checker/services/teacher_scores.py:120-145 | for a checked config, an accepted form and a percentage in range the grade is exactly minimum + quiz points + criteria, already in range |
| `Grading.BlendPercent` | src/submissions_checker/services/grading.py:48-58 | a blend of percentages is a percentage |
| `Grading.BlendRaised` | src/submissions_checker/services/grading.py:48-58 | a blend exists for the same components and never falls when present ones rise |
| `Grading.BlendScaled` | src/submissions_checker/services/grading.py:48-58 | scaling all weights of a blend leaves it unchanged |
| `Grading.BlendBalances` | src/submissions_checker/services/grading.py:48-58 | two present values balance about their blend by their weights |
| `Grading.BlendDrops` | src/submissions_checker/services/grading.py:48-58 | an absent component drops out and leaves the other value |
| `Grading.CodeBalances` | src/submissions_checker/services/grading.py:78-86 | with both present the code score balances the works' score by the weight of works against the mark by the weight of quality; with one it is that one |
| `Grading.GradeBalances` | src/submissions_checker/services/grading.py:85-90 | the percentage balances the code score by the weight of code against the quiz by its own, and is the one that is there, or 0 if none is |
| `Grading.WeightlessDrops` | src/submissions_checker/services/grading.py:48-58 | a weight of zero or less switches its component off |
| `Grading.GradeMeans` | src/submissions_checker/services/grading.py:88-105 | the grade is that percentage of the range above the minimum, to the nearest whole grade or for squads the next one |
| `Grading.PctMeans` | src/submissions_checker/services/grading.py:108-111 | a percentage exists for a positive maximum and is the score's share of it |
| `Rounding.RulesMean` | src/submissions_checker/services/grading.py:88-105 | the three rounding rules: nearest with ties to even, nearest with ties up, and least integer not below |
| `Grading.GradeInRange` | src/submissions_checker/services/grading.py:61-105 | the rounded grade is in range before the clamp, which changes nothing |
| `Grading.GradeMonotone` | src/submissions_checker/services/grading.py:61-105 | the grade never falls when present components rise |
| `Grading.GradeScaleFree` | src/submissions_checker/services/grading.py:61-105 | scaling the weights within each blend leaves the grade unchanged |
| `Grading.BestPerStudent` | src/submissions_checker/services/grading.py:114-126 | the dictionary holds exactly the students with a counting passed attempt, each with the best percentage |
| `Grading.SquadQuizPct` | src/submissions_checker/services/grading.py:114-130 | the mean over the members' best passed attempts, absent exactly when nobody passed, and a percentage |
| `Multipart.FindDelimiter` | docker/llm-judge/judgelib.py:146-153 | the search loop returns the first delimiter line, skipping matches that only start like one |
| `Multipart.FindDelimMeans` | docker/llm-judge/judgelib.py:146-153 | that result is the first position where the needle is followed by CRLF or two dashes, and only that |
| `Multipart.CopyChunks` | docker/llm-judge/judgelib.py:174-175 | the chunked copy equals the slice |
| `Multipart.SplitParts` | docker/llm-judge/judgelib.py:155-182 | the main loop, which always advances, computes the recursive split |
| `Multipart.SplitMultipart` | docker/llm-judge/judgelib.py:123-182 | the whole splitter, with its error cases, computes the specified split |
| `Multipart.RoundTrip` | docker/llm-judge/judgelib.py:123-182 | splitting any serialised list of valid parts, whatever follows it, stores every part in order with its bytes unchanged |
| `Multipart.FilesRoundTrip` | docker/llm-judge/judgelib.py:123-182 | the file parts come back in order, byte for byte |
| `Multipart.FieldsRoundTrip` | docker/llm-judge/judgelib.py:169-181 | splitting serialised parts is refused exactly when some text part is above the limit; else the fields are exactly the names of the text parts, each with the decoded content of its last part |
| `Multipart.ScanMeans` | docker/llm-judge/judgelib.py:155-168 | behind any delimiter: the close, or a part up to the first blank line within 16 KiB and the first delimiter line after it, or the error for whichever is missing |
| `Multipart.SplitMeans` | docker/llm-judge/judgelib.py:155-182 | for any body, the split collects the parts the scan finds one behind the other, or gives the scan's error where they stop |
| `Multipart.SplitRefuses` | docker/llm-judge/judgelib.py:123-156 | nothing is split without a boundary, a body and a first delimiter line |
| `Multipart.PlainContentOk` | docker/llm-judge/judgelib.py:146-153 | content without CRLF and the delimiter is valid, so the round trip covers it |
| `Rdp.FindWorst` | scripts/build_oblast_boundaries.py:79-83 | the inner loop finds the first worst point of a segment and its distance |
| `Rdp.MarkKept` | scripts/build_oblast_boundaries.py:70-88 | the explicit stack marks exactly the points the recursion keeps, and terminates by the sum of 2(hi - lo) - 1 over the stack |
| `Rdp.Simplify` | scripts/build_oblast_boundaries.py:70-88 | returns the kept points in order, and short lists unchanged |
| `Rdp.SelectInOrder` | scripts/build_oblast_boundaries.py:88 | the result is the points at the kept indices, each once, in ascending order |
| `Rdp.DroppedWithinEps` | scripts/build_oblast_boundaries.py:70-88 | both ends are kept, and a dropped point is within eps (within 0 for a negative eps) of the line through the kept points next to it |
| `Rdp.KeptForAReason` | scripts/build_oblast_boundaries.py:70-88 | every inner point kept is farther than eps from the line through two kept points around it, and no point between those two is farther |
| `RateLimit.SlidingWindowLimiter.IsBlocked` | src/submissions_checker/core/rate_limit.py:34-43 | with a non-decreasing clock, blocked exactly when the failures recorded since the key's last reset and later than now - window number at least the maximum, for any interleaving of keys and calls |
| `RateLimit.SlidingWindowLimiter.Prune` | src/submissions_checker/core/rate_limit.py:34-39 | drops exactly expired entries from the front and keeps the agreement with the full history |
| `RateLimit.SlidingWindowLimiter.RecordFailure` | src/submissions_checker/core/rate_limit.py:45-48 | adds one failure of that key to the history and keeps the agreement |
| `RateLimit.SlidingWindowLimiter.ResetKey` | src/submissions_checker/core/rate_limit.py:50-52 | forgets that key only |
| `RateLimit.PrunedLength` | src/submissions_checker/core/rate_limit.py:34-43 | the length of a pruned queue is the number of recorded failures inside the window |
| `RateLimit.CountsMean` | src/submissions_checker/core/rate_limit.py:34-43 | a time counts exactly if it is later than the cutoff |
| `RateLimit.FailuresMean` | src/submissions_checker/core/rate_limit.py:45-52 | a key's failures are those recorded since its own last reset, whatever happens to other keys |

## Left out

- Requests are atomic and at one instant, and requests on one attempt are serialised. The
  exceptions are squad finalisation (`FinalisationRace`) and answers to invites (`Squads`), which
  interleave with everything else under read committed.
- Squads: creating, assigning and filing are one step each, and so is an accept's commit with its
  sweep of other invites. A sweep that had to wait for an accept is modelled as the deletion, at any
  time, of any squad that is neither locked nor held; that it finds no lock is an assumption.
  Enrolment, the maximum size and the configuration are fixed within a run.
- FinalisationRace: enrolment does not change during the race.
- Rendezvous: the grade formula is a parameter; `ScoredGrade` puts the one of `TeacherScores` in
  its place, with the percentages of solo and squad attempts.
- Rendezvous: the work has nothing uploaded, and refusals of unapproved language-model drafts are
  not modelled.
- ScoredRecords.ScoredWork.AcceptRuling: which attempts a ruling flips is a parameter here; how
  rulings decide it is `Scoring`.
- Time limits are positive, points and penalties non-negative, timestamps and floats are reals,
  and rounding is modelled on reals, so float error is not.
- Random shuffles, correctness of a free-text answer, header parsing, text decoding and
  `perp_dist` are parameters; form fields arrive classified as empty, whole number or other, and
  digits outside ASCII are not modelled. A byte is any integer.
- QuizDraw: the fallback for rows drawn before squads existed and rows without a student are not modelled.
- Deadlock freedom of FAILED squads, absence of one-member squads and monotonicity of a
  completed solo grade are not claimed: the code does not ensure them.
- HTTP, templates, notifications, audit, metrics, migrations and ORM definitions: plumbing around the state kept here.
- The sandbox, object storage, Google sign-in and Classroom, the air-raid provider and
  cryptography: foreign calls; an active alert is an input.
- The outbox, the check and review workers, `plugin_cache.py` and `config_apply.py` are not part of this model.
- Gradebook aggregation, similarity, CSV and dashboards would only add easy members.
