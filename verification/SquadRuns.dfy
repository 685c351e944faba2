/** Runs of the squad protocol. */
module SquadRuns {
  // What every interleaving of requests keeps, exactly when locked squads and the rows of members
  // stay as they are, and runs that break them.

  import opened Wrappers
  import opened Squads
  import QuizDraw

  /** What no step ever undoes: a row stays, with its filer, and a draw once written stays as it is;
      a row only ever loses its squad by that squad's deletion. */
  ghost predicate RowsStay(w: World, v: World) {
    forall k :: k in w.submissions ==>
      k in v.submissions && v.submissions[k].student == w.submissions[k].student
      && (v.submissions[k].squad == w.submissions[k].squad || v.submissions[k].squad.None?)
      && (w.submissions[k].draw.Some? ==> v.submissions[k].draw == w.submissions[k].draw)
  }

  lemma {:induction false} RunKeeps(w: World, steps: seq<Step>, end: World)
    requires Inv(w) && IsRun(w, steps, end)
    ensures Inv(end) && RowsStay(w, end)
    decreases |steps|
  {
    if steps != [] {
      StepKeeps(w, steps[0]);
      RunKeeps(Do(w, steps[0]), steps[1..], end);
    }
  }

  // ---------------------------------------------------------------- main results

  /** Over any run, with requests of any kind between the points of an accept: no student is in
      two squads, no squad exceeds the maximum, a locked squad has no pending invite, and a row
      that names a squad was filed by one of its members, and that squad is locked. */
  lemma SquadRules(size: Option<int>, enrolled: set<Student>, testStudents: set<Student>,
                   steps: seq<Step>, w: World)
    requires IsRun(Empty(size, enrolled, testStudents), steps, w)
    ensures forall s, p, q :: IsMember(w, s, p) && IsMember(w, s, q) ==> p == q
    ensures forall q :: q in w.squads ==> w.size.Some? && 1 <= |w.squads[q].members| <= w.size.value
    ensures forall q :: q in w.squads && w.squads[q].locked ==> !SquadPending(w, q)
    ensures forall k :: k in w.submissions && w.submissions[k].squad.Some? ==>
              IsMember(w, w.submissions[k].student, w.submissions[k].squad.value)
              && w.squads[w.submissions[k].squad.value].locked
    ensures Inv(w)
  {
    RunKeeps(Empty(size, enrolled, testStudents), steps, w);
    forall q | q in w.squads ensures w.size.Some? && 1 <= |w.squads[q].members| <= w.size.value {
      assert SquadOk(w, q);
    }
    forall q | q in w.squads && w.squads[q].locked ensures !SquadPending(w, q) {
      assert forall i :: i in w.invites ==> InviteOk(w, i);
    }
    assert forall k :: k in w.submissions ==> SubmissionOk(w, k);
  }

  // ---------------------------------------------------------------- locked squads

  /** A decline or a cancellation in flight that saw the squad unlocked, with at most one member. */
  ghost predicate StaleAnswer(w: World, tx: TxId, q: SquadId) {
    IsAnswering(w, tx) && w.inFlight[tx].squad == q && w.inFlight[tx].small
  }

  ghost predicate Unthreatened(w: World, q: SquadId) {
    q in w.squads && w.squads[q].locked && forall tx :: !StaleAnswer(w, tx, q)
  }

  /** A step that is no point of a request in flight. */
  predicate AtOnce(step: Step) {
    step.Create? || step.Decline? || step.CancelOne? || step.Assign? || step.File? || step.DeleteLate? || step.Open?
  }

  /** Only the points of a request touch the requests in flight. */
  lemma InFlightStays(w: World, step: Step)
    requires Enabled(w, step)
    requires AtOnce(step)
    ensures Do(w, step).inFlight == w.inFlight
  {
    match step
    case Assign(ids) => CancelAllInFlight(Assigned(w, ids), ids);
    case _ =>
  }

  lemma {:induction false} CancelAllInFlight(w: World, ids: seq<Student>)
    ensures CancelAll(w, ids).inFlight == w.inFlight && CancelAll(w, ids).submissions == w.submissions
  {
    if ids != [] { CancelAllInFlight(w, ids[..|ids| - 1]); }
  }

  /** An answer comes to be in flight only by loading a pending invite, which a locked squad has not. */
  lemma NoNewThreat(w: World, step: Step, tx: TxId, q: SquadId)
    requires Inv(w) && Enabled(w, step) && Unthreatened(w, q)
    ensures !StaleAnswer(Do(w, step), tx, q)
  {
    assert !StaleAnswer(w, tx, q);
    if step.Load? && step.invite in w.invites { assert InviteOk(w, step.invite); }
    if AtOnce(step) {
      InFlightStays(w, step);
    }
  }

  lemma UnthreatenedStep(w: World, step: Step, q: SquadId)
    requires Inv(w) && Enabled(w, step) && Unthreatened(w, q)
    ensures Unthreatened(Do(w, step), q) && Do(w, step).squads[q] == w.squads[q]
  {
    StepKeeps(w, step);
    forall tx ensures !StaleAnswer(Do(w, step), tx, q) { NoNewThreat(w, step, tx, q); }
    if Drops(w, step) { assert !StaleAnswer(w, step.tx, q); }
  }

  /** A row of such a squad keeps naming it. */
  lemma {:induction false} UnthreatenedRun(w: World, steps: seq<Step>, end: World, q: SquadId)
    requires Inv(w) && Unthreatened(w, q) && IsRun(w, steps, end)
    ensures Unthreatened(end, q) && end.squads[q] == w.squads[q]
    ensures forall k :: k in w.submissions && w.submissions[k].squad == Some(q) ==>
              k in end.submissions && end.submissions[k].squad == Some(q)
    decreases |steps|
  {
    if steps != [] {
      StepKeeps(w, steps[0]);
      UnthreatenedStep(w, steps[0], q);
      if Drops(w, steps[0]) { assert !StaleAnswer(w, steps[0].tx, q); }
      UnthreatenedRun(Do(w, steps[0]), steps[1..], end, q);
    }
  }

  /** From any reachable world on: a locked squad that no stale answer threatens is never deleted,
      unlocked or changed, and its rows keep naming it; and in any case rows and draws stay, once
      written. */
  lemma LockedForever(size: Option<int>, enrolled: set<Student>, testStudents: set<Student>,
                      before: seq<Step>, mid: World, later: seq<Step>, end: World)
    requires IsRun(Empty(size, enrolled, testStudents), before, mid) && IsRun(mid, later, end)
    ensures forall q :: Unthreatened(mid, q) ==> q in end.squads && end.squads[q] == mid.squads[q]
    ensures forall k, q: SquadId ::
              Unthreatened(mid, q) && k in mid.submissions && mid.submissions[k].squad == Some(q) ==>
              k in end.submissions && end.submissions[k].squad == Some(q)
    ensures RowsStay(mid, end)
  {
    RunKeeps(Empty(size, enrolled, testStudents), before, mid);
    RunKeeps(mid, later, end);
    forall q | Unthreatened(mid, q)
      ensures q in end.squads && end.squads[q] == mid.squads[q]
      ensures forall k :: k in mid.submissions && mid.submissions[k].squad == Some(q) ==>
                k in end.submissions && end.submissions[k].squad == Some(q)
    {
      UnthreatenedRun(mid, later, end, q);
    }
  }

  lemma StaleAnswerDeletes(w: World, tx: TxId, q: SquadId)
    requires Inv(w) && q in w.squads && w.squads[q].locked && StaleAnswer(w, tx, q)
    ensures Enabled(w, Write(tx)) && q !in Do(w, Write(tx)).squads
  {
    assert forall i :: i in w.invites ==> InviteOk(w, i);
    assert HolderOk(w, tx);
    assert !Held(w, q) by { assert forall t :: t in w.inFlight ==> HolderOk(w, t); }
    assert !SquadPending(Answered(w, tx), q);
  }

  lemma OneStep(w: World, step: Step)
    requires Enabled(w, step)
    ensures IsRun(w, [step], Do(w, step))
  {
    assert [step][1..] == [];
  }

  /** The squad is there, unchanged, after every run. */
  ghost predicate Survives(w: World, q: SquadId)
    requires q in w.squads
  {
    forall steps, end :: IsRun(w, steps, end) ==> q in end.squads && end.squads[q] == w.squads[q]
  }

  /** Exactly when a locked squad survives whatever follows: when no decline or cancellation in
      flight has loaded it while it was unlocked with at most one member. */
  lemma LockedSurvivesExactly(w: World, q: SquadId)
    requires Inv(w) && q in w.squads && w.squads[q].locked
    ensures Survives(w, q) <==> forall tx :: !StaleAnswer(w, tx, q)
  {
    if tx :| StaleAnswer(w, tx, q) {
      StaleAnswerDeletes(w, tx, q);
      OneStep(w, Write(tx));
      var end := Do(w, Write(tx));
      assert IsRun(w, [Write(tx)], end) && q !in end.squads;
      assert !Survives(w, q);
    } else {
      forall steps, end | IsRun(w, steps, end) ensures q in end.squads && end.squads[q] == w.squads[q] {
        UnthreatenedRun(w, steps, end, q);
      }
    }
  }

  // ---------------------------------------------------------------- the shared draw

  /** The rows `latest_submission` looks through for a student: their locked squad's, or their own. */
  ghost predicate InScope(w: World, s: Student, k: SubmissionId) {
    k in w.submissions
    && ((w.submissions[k].student == s && forall q :: IsMember(w, s, q) ==> !w.squads[q].locked)
        || exists q :: IsMember(w, s, q) && IsMember(w, w.submissions[k].student, q) && w.squads[q].locked)
  }

  /** A row with a draw names a squad. */
  ghost predicate DrawsNamed(w: World) {
    forall k :: k in w.submissions && w.submissions[k].draw.Some? ==> w.submissions[k].squad.Some?
  }

  /** No answer in the run deletes a locked squad. */
  ghost predicate NoLockedDrop(w: World, steps: seq<Step>)
    decreases |steps|
  {
    steps == []
    || (Enabled(w, steps[0]) && NoLockedDrop(Do(w, steps[0]), steps[1..])
        && (Drops(w, steps[0]) ==>
              w.inFlight[steps[0].tx].squad in w.squads && !w.squads[w.inFlight[steps[0].tx].squad].locked))
  }

  lemma SubmissionsStay(w: World, step: Step)
    requires Enabled(w, step) && !step.File? && !step.Open? && !step.Write?
    ensures Do(w, step).submissions == w.submissions
  {
    match step
    case Assign(ids) => CancelAllInFlight(Assigned(w, ids), ids);
    case Commit(tx) => CommitSubmissions(w, tx);
    case _ =>
  }

  lemma CommitSubmissions(w: World, tx: TxId)
    requires HoldsRow(w, tx)
    ensures CommitAccept(w, tx).submissions == w.submissions
  {
    var a := w.inFlight[tx];
    if !InSquad(w, a.student) && a.squad in w.squads {
      JoinSubmissions(WithoutTx(w, tx), a.invite, a.student, a.squad);
    }
  }

  lemma JoinSubmissions(w: World, i: InviteId, s: Student, q: SquadId)
    requires q in w.squads
    ensures Join(w, i, s, q).submissions == w.submissions
  {
    var added := AddMember(w, s, q);
    SweepSubmissions(added, s, Some(i));
    var marked := MarkAccepted(CancelPendingOf(added, s, Some(i)), i);
    if q in marked.squads { LockSubmissions(marked, q); }
  }

  lemma SweepSubmissions(w: World, s: Student, except: Option<InviteId>)
    ensures CancelPendingOf(w, s, except).submissions == w.submissions
  {
  }

  lemma LockSubmissions(w: World, q: SquadId)
    requires q in w.squads
    ensures LockAndCancel(w, q).submissions == w.submissions
  {
  }

  lemma DrawsNamedStep(w: World, step: Step)
    requires Inv(w) && Enabled(w, step) && DrawsNamed(w)
    requires Drops(w, step) ==>
               w.inFlight[step.tx].squad in w.squads && !w.squads[w.inFlight[step.tx].squad].locked
    ensures DrawsNamed(Do(w, step))
  {
    if step.Write? {
      if Drops(w, step) { UnlockedHasNoRows(w, w.inFlight[step.tx].squad); }
    } else if !step.File? && !step.Open? {
      SubmissionsStay(w, step);
    }
  }

  lemma {:induction false} DrawsNamedRun(w: World, steps: seq<Step>, end: World)
    requires Inv(w) && DrawsNamed(w) && IsRun(w, steps, end) && NoLockedDrop(w, steps)
    ensures DrawsNamed(end)
    decreases |steps|
  {
    if steps != [] {
      StepKeeps(w, steps[0]);
      DrawsNamedStep(w, steps[0]);
      DrawsNamedRun(Do(w, steps[0]), steps[1..], end);
    }
  }

  /** In every run, once a row carries a draw, its member order is the sorted members of the squad
      it names and its slices are disjoint and cover the draw; every student whose quiz resolves to
      that row has a slice, so the "squad changed after the draw" refusal cannot be met. The row
      names no squad only after an answer has deleted a locked squad. */
  lemma EveryMemberHasASlice(size: Option<int>, enrolled: set<Student>, testStudents: set<Student>,
                             steps: seq<Step>, w: World, k: SubmissionId, s: Student)
    requires IsRun(Empty(size, enrolled, testStudents), steps, w)
    requires InScope(w, s, k) && w.submissions[k].draw.Some?
    ensures var sub := w.submissions[k];
            sub.squad.Some? ==>
              IsMember(w, s, sub.squad.value)
              && SortedMembers(sub.draw.value.memberOrder, w.squads[sub.squad.value].members)
              && |sub.draw.value.slices| == |sub.draw.value.memberOrder|
              && QuizDraw.Partition(sub.draw.value.cards, sub.draw.value.slices)
              && s in sub.draw.value.memberOrder
    ensures NoLockedDrop(Empty(size, enrolled, testStudents), steps) ==> w.submissions[k].squad.Some?
  {
    RunKeeps(Empty(size, enrolled, testStudents), steps, w);
    assert SubmissionOk(w, k);
    if NoLockedDrop(Empty(size, enrolled, testStudents), steps) {
      DrawsNamedRun(Empty(size, enrolled, testStudents), steps, w);
    }
  }

  // ---------------------------------------------------------------- rows of members

  /** Every row filed by a member carries that squad, which is locked. */
  ghost predicate RowRule(w: World) {
    forall k, q :: k in w.submissions && IsMember(w, w.submissions[k].student, q) ==>
      w.submissions[k].squad == Some(q) && w.squads[q].locked
  }

  lemma RowRuleMeans(w: World)
    requires Inv(w)
    ensures RowRule(w) <==> forall k :: !Stray(w, k)
  {
    assert forall k :: k in w.submissions ==> SubmissionOk(w, k);
    if forall k :: !Stray(w, k) {
      forall k, q | k in w.submissions && IsMember(w, w.submissions[k].student, q)
        ensures w.submissions[k].squad == Some(q) && w.squads[q].locked
      {
        assert InSquad(w, w.submissions[k].student);
        assert !Stray(w, k);
      }
    }
  }

  /** An accept that commits for a student who has filed since its lock was taken. */
  ghost predicate LateJoin(w: World, step: Step) {
    Joins(w, step) && HasSubmitted(w, w.inFlight[step.tx].student)
  }

  ghost predicate NoLateJoin(w: World, steps: seq<Step>)
    decreases |steps|
  {
    steps == []
    || (Enabled(w, steps[0]) && !LateJoin(w, steps[0]) && NoLateJoin(Do(w, steps[0]), steps[1..]))
  }

  /** The step takes a squad away by what was decided or loaded earlier. */
  ghost predicate Removes(w: World, step: Step) {
    step.DeleteLate? || Drops(w, step)
  }

  ghost predicate NoRemoval(w: World, steps: seq<Step>)
    decreases |steps|
  {
    steps == []
    || (Enabled(w, steps[0]) && !Removes(w, steps[0]) && NoRemoval(Do(w, steps[0]), steps[1..]))
  }

  lemma RowRuleStep(w: World, step: Step)
    requires Inv(w) && Enabled(w, step)
    ensures RowRule(w) && !LateJoin(w, step) ==> RowRule(Do(w, step))
    ensures RowRule(Do(w, step)) && !Removes(w, step) ==> RowRule(w) && !LateJoin(w, step)
  {
    StepKeeps(w, step);
    var v := Do(w, step);
    RowRuleMeans(w);
    RowRuleMeans(v);
    if LateJoin(w, step) {
      var k :| k in w.submissions && w.submissions[k].student == w.inFlight[step.tx].student;
      assert FiledBy(w, k, w.inFlight[step.tx].student);
      assert Stray(v, k);
    } else {
      assert forall k :: Stray(v, k) ==> Stray(w, k);
      assert !Removes(w, step) ==> forall k :: Stray(w, k) ==> Stray(v, k);
    }
  }

  lemma {:induction false} RowRuleRun(w: World, steps: seq<Step>, end: World)
    requires Inv(w) && IsRun(w, steps, end)
    ensures RowRule(w) && NoLateJoin(w, steps) ==> RowRule(end)
    ensures RowRule(end) && NoRemoval(w, steps) ==> RowRule(w) && NoLateJoin(w, steps)
    decreases |steps|
  {
    if steps != [] {
      StepKeeps(w, steps[0]);
      RowRuleStep(w, steps[0]);
      RowRuleRun(Do(w, steps[0]), steps[1..], end);
    }
  }

  /** The exact condition of the row rule over runs: it holds at the end of a run if, and in a run
      where no squad was taken away by an earlier copy only if, no accept in it committed for a
      student who had filed since the accept took its lock. */
  lemma RowRuleExactly(size: Option<int>, enrolled: set<Student>, testStudents: set<Student>,
                       steps: seq<Step>, w: World)
    requires IsRun(Empty(size, enrolled, testStudents), steps, w)
    ensures NoLateJoin(Empty(size, enrolled, testStudents), steps) ==> RowRule(w)
    ensures NoRemoval(Empty(size, enrolled, testStudents), steps) && RowRule(w) ==>
              NoLateJoin(Empty(size, enrolled, testStudents), steps)
  {
    RowRuleRun(Empty(size, enrolled, testStudents), steps, w);
  }

  ghost predicate HoldsFor(w: World, tx: TxId, s: Student) {
    HoldsRow(w, tx) && w.inFlight[tx].student == s
  }

  /** Only Lock creates a holder, and not for a student who has filed. */
  lemma HoldersOf(w: World, step: Step, tx: TxId, s: Student)
    requires Enabled(w, step) && HoldsFor(Do(w, step), tx, s)
    ensures HoldsFor(w, tx, s) || (step == Lock(tx) && !HasSubmitted(w, s))
  {
    if AtOnce(step) {
      InFlightStays(w, step);
    }
  }

  /** A row without a squad whose filer no accept is holding a place for. */
  ghost predicate Safe(w: World, k: SubmissionId, s: Student) {
    FiledBy(w, k, s) && w.submissions[k].squad.None? && !Stray(w, k) && forall tx :: !HoldsFor(w, tx, s)
  }

  lemma {:induction false} SafeForever(w: World, k: SubmissionId, s: Student, steps: seq<Step>, end: World)
    requires Inv(w) && Safe(w, k, s) && IsRun(w, steps, end)
    ensures Safe(end, k, s)
    decreases |steps|
  {
    if steps != [] {
      var v := Do(w, steps[0]);
      StepKeeps(w, steps[0]);
      assert HasSubmitted(w, s);
      forall tx ensures !HoldsFor(v, tx, s) {
        if HoldsFor(v, tx, s) { HoldersOf(w, steps[0], tx, s); }
      }
      if Joins(w, steps[0]) { assert !HoldsFor(w, steps[0].tx, s); }
      SafeForever(v, k, s, steps[1..], end);
    }
  }

  lemma SameSweep(w: World, v: World, s: Student, except: Option<InviteId>)
    requires v == w.(submissions := v.submissions, nextSubmission := v.nextSubmission)
    ensures Orphaned(v, s, except) == Orphaned(w, s, except)
  {
    var hit := PendingOf(w, s, except);
    assert PendingOf(v, s, except) == hit;
    assert forall q :: Emptied(CancelInvites(v, hit), q) <==> Emptied(CancelInvites(w, hit), q);
  }

  /** Filing while an accept of one's own holds a squad row: if that accept commits next, the row
      rule is broken. */
  lemma CrossingBreaks(w: World, s: Student, assignment: int, tx: TxId)
    requires Inv(w) && FoundSquad(w, s, None) && Submit(w, s, assignment, None).Ok?
    requires HoldsFor(w, tx, s) && Enabled(w, Commit(tx))
    ensures var v := Submit(w, s, assignment, None).value;
            Enabled(v, Commit(tx)) && Stray(Do(v, Commit(tx)), w.nextSubmission) && !RowRule(Do(v, Commit(tx)))
  {
    var v := Submit(w, s, assignment, None).value;
    SubmitKeeps(w, s, assignment, None);
    assert forall t, q :: IsMember(v, t, q) <==> IsMember(w, t, q);
    var a := w.inFlight[tx];
    if a.squad in w.squads {
      SameSweep(AddMember(WithoutTx(w, tx), s, a.squad), AddMember(WithoutTx(v, tx), s, a.squad), s, Some(a.invite));
    }
    StepKeeps(v, Commit(tx));
    assert FiledBy(v, w.nextSubmission, s);
    RowRuleMeans(Do(v, Commit(tx)));
  }

  /** The exact condition on filing, checkable before the request: the row of a student without a
      squad is never stray, whatever follows, if and only if no accept of that student holds a
      squad row at that moment. */
  lemma FilingIsSafeExactly(w: World, s: Student, assignment: int)
    requires Inv(w) && FoundSquad(w, s, None) && Submit(w, s, assignment, None).Ok?
    ensures var v := Submit(w, s, assignment, None).value;
            (forall steps, end :: IsRun(v, steps, end) ==> !Stray(end, w.nextSubmission))
            <==> forall tx :: !HoldsFor(w, tx, s)
  {
    if tx :| HoldsFor(w, tx, s) {
      CrossingRun(w, s, assignment, tx);
    } else {
      NoCrossingSafe(w, s, assignment);
    }
  }

  /** Everything but this request may break off. */
  lemma {:induction false} OthersAbort(w: World, tx: TxId) returns (steps: seq<Step>, end: World)
    requires tx in w.inFlight
    ensures IsRun(w, steps, end) && end == w.(inFlight := map[tx := w.inFlight[tx]])
    decreases |w.inFlight|
  {
    if t :| t in w.inFlight && t != tx {
      var v := WithoutTx(w, t);
      assert v.inFlight.Keys == w.inFlight.Keys - {t};
      assert |v.inFlight| == |v.inFlight.Keys| && |w.inFlight| == |w.inFlight.Keys|;
      var rest;
      rest, end := OthersAbort(v, tx);
      steps := [Abort(t)] + rest;
      assert steps[1..] == rest;
    } else {
      assert w.inFlight == map[tx := w.inFlight[tx]];
      steps, end := [], w;
    }
  }

  /** An accept that is alone in flight need not wait. */
  lemma AloneCommits(w: World, tx: TxId)
    requires w.inFlight.Keys == {tx} && HoldsRow(w, tx)
    ensures Enabled(w, Commit(tx))
  {
    var a := w.inFlight[tx];
    if a.squad in w.squads && !InSquad(w, a.student) {
      var added := AddMember(WithoutTx(w, tx), a.student, a.squad);
      assert forall t :: !HoldsRow(added, t);
    }
  }

  lemma CrossingRun(w: World, s: Student, assignment: int, tx: TxId)
    requires Inv(w) && FoundSquad(w, s, None) && Submit(w, s, assignment, None).Ok? && HoldsFor(w, tx, s)
    ensures exists steps, end :: IsRun(Submit(w, s, assignment, None).value, steps, end) && Stray(end, w.nextSubmission)
  {
    var v := Submit(w, s, assignment, None).value;
    SubmitKeeps(w, s, assignment, None);
    SameMembersStrays(w, v);
    HolderStrays(v, tx, s, w.nextSubmission);
  }

  /** The accept of a student who has filed can always come to commit, at the latest when every
      other request has broken off. */
  lemma HolderStrays(w: World, tx: TxId, s: Student, k: SubmissionId)
    requires Inv(w) && HoldsFor(w, tx, s) && !InSquad(w, s) && FiledBy(w, k, s)
    ensures exists steps, end :: IsRun(w, steps, end) && Stray(end, k)
  {
    var steps, u := OthersAbort(w, tx);
    RunKeeps(w, steps, u);
    AloneCommits(u, tx);
    SameMembersStrays(w, u);
    CommitStrays(u, tx, s, k);
    RunExtends(w, steps, u, Commit(tx));
  }

  lemma CommitStrays(w: World, tx: TxId, s: Student, k: SubmissionId)
    requires Inv(w) && HoldsFor(w, tx, s) && Enabled(w, Commit(tx)) && !InSquad(w, s) && FiledBy(w, k, s)
    ensures Stray(Do(w, Commit(tx)), k)
  {
    StepKeeps(w, Commit(tx));
  }

  lemma NoCrossingSafe(w: World, s: Student, assignment: int)
    requires Inv(w) && FoundSquad(w, s, None) && Submit(w, s, assignment, None).Ok?
    requires forall tx :: !HoldsFor(w, tx, s)
    ensures forall steps, end :: IsRun(Submit(w, s, assignment, None).value, steps, end) ==>
              !Stray(end, w.nextSubmission)
  {
    var v, k := Submit(w, s, assignment, None).value, w.nextSubmission;
    SubmitKeeps(w, s, assignment, None);
    assert !Stray(w, k) by { assert forall j :: j in w.submissions ==> SubmissionOk(w, j); }
    assert forall tx :: HoldsFor(v, tx, s) ==> HoldsFor(w, tx, s);
    forall steps, end | IsRun(v, steps, end) ensures !Stray(end, k) {
      SafeForever(v, k, s, steps, end);
    }
  }

  // ---------------------------------------------------------------- a run that breaks the row rule

  ghost predicate Reached(w: World) {
    exists steps :: IsRun(Empty(w.size, w.enrolled, w.testStudents), steps, w)
  }

  lemma {:induction false} RunExtends(w: World, steps: seq<Step>, mid: World, step: Step)
    requires IsRun(w, steps, mid) && Enabled(mid, step)
    ensures IsRun(w, steps + [step], Do(mid, step))
    decreases |steps|
  {
    var longer := steps + [step];
    if steps == [] {
      assert longer[1..] == [];
    } else {
      assert longer[1..] == steps[1..] + [step];
      RunExtends(Do(w, steps[0]), steps[1..], mid, step);
    }
  }

  lemma OneMore(mid: World, step: Step, next: World)
    requires Reached(mid) && Enabled(mid, step) && next == Do(mid, step)
    requires next.size == mid.size && next.enrolled == mid.enrolled && next.testStudents == mid.testStudents
    ensures Reached(next)
  {
    var steps :| IsRun(Empty(mid.size, mid.enrolled, mid.testStudents), steps, mid);
    RunExtends(Empty(mid.size, mid.enrolled, mid.testStudents), steps, mid, step);
  }

  /** Student 1's squad of up to three, with invites to 2 and 3. */
  function Trio(first: InviteStatus, inFlight: map<TxId, Request>): World {
    World(Some(3), {1, 2, 3}, {}, map[0 := Squad({1}, Some(1), false)],
          map[0 := Invite(0, 2, 1, first), 1 := Invite(0, 3, 1, Pending)], map[], inFlight, 1, 2, 0)
  }

  lemma TrioCreated()
    ensures Reached(Trio(Pending, map[]))
  {
    var w := Empty(Some(3), {1, 2, 3}, {});
    assert IsRun(w, [], w);
    var v := Created(w, 1, [2, 3]);
    assert FirstRefusal(w, [2, 3]).None? by { assert [2, 3][1..] == [3] && [3][1..] == []; }
    assert v.invites == map[0 := Invite(0, 2, 1, Pending), 1 := Invite(0, 3, 1, Pending)];
    OneMore(w, Create(1, [2, 3]), Trio(Pending, map[]));
  }

  /** 2 starts to accept and 1 cancels the invite. */
  lemma TrioCancelled()
    ensures Reached(Trio(Cancelled, map[7 := Loaded(0, 2, 0)]))
  {
    TrioCreated();
    var w1 := Trio(Pending, map[7 := Loaded(0, 2, 0)]);
    OneMore(Trio(Pending, map[]), Begin(7, 0, 2), w1);
    CancelInTrio(w1);
    OneMore(w1, CancelOne(0, 1), Trio(Cancelled, map[7 := Loaded(0, 2, 0)]));
  }

  lemma CancelInTrio(w: World)
    requires w == Trio(Pending, map[7 := Loaded(0, 2, 0)])
    ensures Enabled(w, CancelOne(0, 1)) && Do(w, CancelOne(0, 1)) == Trio(Cancelled, map[7 := Loaded(0, 2, 0)])
  {
    var v := Trio(Cancelled, map[7 := Loaded(0, 2, 0)]);
    assert CancelInvites(w, {0}).invites == v.invites;
    assert SquadPending(v, 0) by { assert 1 in v.invites && v.invites[1].squad == 0; }
  }

  /** 2's request goes on to lock the squad. */
  lemma TrioHeld()
    ensures Reached(Trio(Cancelled, map[7 := Holding(0, 2, 0)]))
  {
    TrioCancelled();
    var w := Trio(Cancelled, map[7 := Loaded(0, 2, 0)]);
    assert !InSquad(w, 2) && !HasSubmitted(w, 2) && Eligible(w, 2);
    OneMore(w, Lock(7), Trio(Cancelled, map[7 := Holding(0, 2, 0)]));
  }

  lemma TrioInv()
    ensures Inv(Trio(Cancelled, map[7 := Holding(0, 2, 0)]))
  {
    TrioHeld();
    var w := Trio(Cancelled, map[7 := Holding(0, 2, 0)]);
    var steps :| IsRun(Empty(w.size, w.enrolled, w.testStudents), steps, w);
    RunKeeps(Empty(w.size, w.enrolled, w.testStudents), steps, w);
  }

  /** 2 hands in work alone. */
  function Alone(): World {
    Trio(Cancelled, map[7 := Holding(0, 2, 0)])
      .(submissions := map[0 := Submission(2, 5, None, None)], nextSubmission := 1)
  }

  lemma FiledAlone()
    ensures var w := Trio(Cancelled, map[7 := Holding(0, 2, 0)]);
            Enabled(w, File(2, 5, None)) && FoundSquad(w, 2, None) && Submit(w, 2, 5, None) == Ok(Alone())
  {
    var w := Trio(Cancelled, map[7 := Holding(0, 2, 0)]);
    assert !OwnPending(w, 2) && !InSquad(w, 2);
  }

  /** A reachable world that breaks the row rule: 2's invite is cancelled while 2's accept is in
      flight, 2 hands in work alone, and the accept commits. */
  lemma AStrayRowIsReachable() returns (end: World)
    ensures Reached(end) && !RowRule(end)
    ensures IsMember(end, 2, 0) && end.submissions == map[0 := Submission(2, 5, None, None)]
  {
    TrioHeld();
    TrioInv();
    var w := Trio(Cancelled, map[7 := Holding(0, 2, 0)]);
    FiledAlone();
    NoSweep(w);
    CrossingBreaks(w, 2, 5, 7);
    OneMore(w, File(2, 5, None), Alone());
    end := Do(Alone(), Commit(7));
    JoinEnd(Alone());
    OneMore(Alone(), Commit(7), end);
  }

  lemma NoSweep(w: World)
    requires w == Trio(Cancelled, map[7 := Holding(0, 2, 0)])
    ensures CanSweep(w, 7)
  {
    var added := AddMember(WithoutTx(w, 7), 2, 0);
    assert PendingOf(added, 2, Some(0)) == {};
    assert SquadsOf(added, {}) == {};
  }

  lemma JoinEnd(v: World)
    requires v == Alone()
    ensures var end := CommitAccept(v, 7);
            end.submissions == v.submissions && IsMember(end, 2, 0)
            && end.size == v.size && end.enrolled == v.enrolled && end.testStudents == v.testStudents
  {
    assert !InSquad(v, 2);
    JoinEffect(WithoutTx(v, 7), 0, 2, 0);
  }

  // ---------------------------------------------------------------- a locked squad that is deleted

  /** Student 1's squad of up to two, with an invite to 2. */
  function Duet(squad: Squad, status: InviteStatus, inFlight: map<TxId, Request>): World {
    World(Some(2), {1, 2}, {}, map[0 := squad], map[0 := Invite(0, 2, 1, status)], map[], inFlight, 1, 1, 0)
  }

  const ALONE := Squad({1}, Some(1), false)
  const FULL := Squad({1, 2}, Some(1), true)
  const CANCELLING := Answering(0, 1, 0, false, true)

  lemma DuetLoaded()
    ensures Reached(Duet(ALONE, Pending, map[9 := CANCELLING]))
  {
    var w := Empty(Some(2), {1, 2}, {});
    assert IsRun(w, [], w);
    assert FirstRefusal(w, [2]).None? by { assert [2][1..] == []; }
    assert Created(w, 1, [2]).invites == map[0 := Invite(0, 2, 1, Pending)];
    OneMore(w, Create(1, [2]), Duet(ALONE, Pending, map[]));
    OneMore(Duet(ALONE, Pending, map[]), Load(9, 0, 1, false), Duet(ALONE, Pending, map[9 := CANCELLING]));
  }

  /** 1 has loaded the invite to cancel it; 2 accepts meanwhile. */
  lemma DuetHeld()
    ensures Reached(Duet(ALONE, Pending, map[9 := CANCELLING, 7 := Holding(0, 2, 0)]))
  {
    DuetLoaded();
    var w := Duet(ALONE, Pending, map[9 := CANCELLING]);
    var v := Duet(ALONE, Pending, map[9 := CANCELLING, 7 := Loaded(0, 2, 0)]);
    OneMore(w, Begin(7, 0, 2), v);
    assert !InSquad(v, 2) && !HasSubmitted(v, 2) && Eligible(v, 2);
    assert !Held(v, 0);
    OneMore(v, Lock(7), Duet(ALONE, Pending, map[9 := CANCELLING, 7 := Holding(0, 2, 0)]));
  }

  lemma DuetSweeps(rest: World)
    requires rest == Duet(ALONE, Pending, map[9 := CANCELLING])
    ensures var added := AddMember(rest, 2, 0);
            Orphaned(added, 2, Some(0)) == {}
            && CancelPendingOf(added, 2, Some(0)) == Duet(Squad({1, 2}, Some(1), false), Pending, map[9 := CANCELLING])
  {
    var added := AddMember(rest, 2, 0);
    assert {1} + {2} == {1, 2};
    assert added.squads == map[0 := Squad({1, 2}, Some(1), false)];
    assert PendingOf(added, 2, Some(0)) == {} && SquadsOf(added, {}) == {};
    assert Orphaned(added, 2, Some(0)) == {};
    var swept := CancelPendingOf(added, 2, Some(0));
    assert swept.squads == added.squads && swept.invites == added.invites;
  }

  lemma DuetJoin(rest: World)
    requires rest == Duet(ALONE, Pending, map[9 := CANCELLING])
    ensures Join(rest, 0, 2, 0) == Duet(FULL, Accepted, map[9 := CANCELLING])
  {
    DuetSweeps(rest);
    var swept := Duet(Squad({1, 2}, Some(1), false), Pending, map[9 := CANCELLING]);
    var marked := MarkAccepted(swept, 0);
    assert marked == Duet(Squad({1, 2}, Some(1), false), Accepted, map[9 := CANCELLING]);
    assert |{1, 2}| == 2;
    LockDuet(marked);
  }

  lemma DuetJoins(w: World)
    requires w == Duet(ALONE, Pending, map[9 := CANCELLING, 7 := Holding(0, 2, 0)])
    ensures Enabled(w, Commit(7)) && Do(w, Commit(7)) == Duet(FULL, Accepted, map[9 := CANCELLING])
  {
    var rest := WithoutTx(w, 7);
    assert rest == Duet(ALONE, Pending, map[9 := CANCELLING]);
    assert !InSquad(w, 2);
    DuetSweeps(rest);
    DuetJoin(rest);
  }

  lemma LockDuet(w: World)
    requires w == Duet(Squad({1, 2}, Some(1), false), Accepted, map[9 := CANCELLING])
    ensures LockAndCancel(w, 0) == Duet(FULL, Accepted, map[9 := CANCELLING])
  {
    assert LockAndCancel(w, 0).invites == w.invites;
  }

  lemma DuetFull()
    ensures Reached(Duet(FULL, Accepted, map[9 := CANCELLING]))
  {
    DuetHeld();
    var w := Duet(ALONE, Pending, map[9 := CANCELLING, 7 := Holding(0, 2, 0)]);
    DuetJoins(w);
    OneMore(w, Commit(7), Duet(FULL, Accepted, map[9 := CANCELLING]));
  }

  lemma ReachedInv(w: World)
    requires Reached(w)
    ensures Inv(w)
  {
    var steps :| IsRun(Empty(w.size, w.enrolled, w.testStudents), steps, w);
    RunKeeps(Empty(w.size, w.enrolled, w.testStudents), steps, w);
  }

  lemma WriteKeepsSetting(w: World, tx: TxId)
    requires Enabled(w, Write(tx))
    ensures var v := Do(w, Write(tx));
            v.size == w.size && v.enrolled == w.enrolled && v.testStudents == w.testStudents
  {
  }

  /** A full, locked squad is deleted by the cancellation that had loaded its invite before the
      accept: the copy it decides by has one member and no lock. */
  lemma ALockedSquadIsDeleted() returns (mid: World, end: World)
    ensures Reached(mid) && 0 in mid.squads && mid.squads[0] == FULL
    ensures Enabled(mid, Write(9)) && end == Do(mid, Write(9)) && Reached(end) && 0 !in end.squads
  {
    mid := Duet(FULL, Accepted, map[9 := CANCELLING]);
    DuetFull();
    ReachedInv(mid);
    assert StaleAnswer(mid, 9, 0);
    StaleAnswerDeletes(mid, 9, 0);
    end := Do(mid, Write(9));
    WriteKeepsSetting(mid, 9);
    OneMore(mid, Write(9), end);
  }
}
