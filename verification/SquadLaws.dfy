/** What each squad request asks for and what it does, in terms of the rows themselves. */
module SquadLaws {
  // Exactly when a request is refused, and exactly what it changes.

  import opened Wrappers
  import opened Squads
  import opened SquadRuns
  import QuizDraw

  // ---------------------------------------------------------------- who may join

  /** Enrolled, not a test student, in no squad, and without any submission, in a subject with squads. */
  ghost predicate MayJoin(w: World, s: Student) {
    w.size.Some? && s in w.enrolled && s !in w.testStudents
    && (forall q :: q in w.squads ==> s !in w.squads[q].members)
    && (forall k :: k in w.submissions ==> w.submissions[k].student != s)
  }

  lemma EligibleExactly(w: World, s: Student)
    ensures Eligible(w, s) <==> MayJoin(w, s)
  {
    if InSquad(w, s) {
      var q :| q in w.squads && IsMember(w, s, q);
      assert s in w.squads[q].members;
    }
    if !MayJoin(w, s) && w.size.Some? && s in w.enrolled && s !in w.testStudents {
      if q :| q in w.squads && s in w.squads[q].members { assert IsMember(w, s, q); }
    }
  }

  lemma {:induction false} AllMayJoin(w: World, ids: seq<Student>)
    ensures FirstRefusal(w, ids).None? <==> forall s :: s in ids ==> MayJoin(w, s)
  {
    if ids != [] {
      EligibleExactly(w, ids[0]);
      AllMayJoin(w, ids[1..]);
      assert ids == [ids[0]] + ids[1..];
    }
  }

  // ---------------------------------------------------------------- creating

  /** Exactly when a squad is created: squads are on, the invited are other students, each once, at
      least one and no more than fit beside the creator, and all of them and the creator may join. */
  lemma CreateExactly(w: World, creator: Student, ids: seq<Student>)
    ensures CreateWithInvites(w, creator, ids).Ok? <==>
              MayJoin(w, creator) && (forall s :: s in ids ==> MayJoin(w, s))
              && (forall i, j :: 0 <= i < j < |ids| ==> ids[i] != ids[j])
              && creator !in ids && 1 <= |ids| && |ids| + 1 <= w.size.value
  {
    EligibleExactly(w, creator);
    AllMayJoin(w, ids);
  }

  /** v is w with one new open squad of the creator alone, one pending invite to each id in order,
      and nothing else. */
  ghost predicate Adds(w: World, v: World, creator: Student, ids: seq<Student>) {
    w.nextSquad !in w.squads && v.squads == w.squads[w.nextSquad := Squad({creator}, Some(creator), false)]
    && (forall i :: i in w.invites ==> i in v.invites && v.invites[i] == w.invites[i])
    && (forall i :: i in v.invites ==>
          i in w.invites
          || (w.nextInvite <= i < w.nextInvite + |ids|
              && v.invites[i] == Invite(w.nextSquad, ids[i - w.nextInvite], creator, Pending)))
    && (forall i :: w.nextInvite <= i < w.nextInvite + |ids| ==> i in v.invites && i !in w.invites)
    && v == w.(squads := v.squads, invites := v.invites, nextSquad := w.nextSquad + 1,
               nextInvite := w.nextInvite + |ids|)
  }

  lemma CreatedAdds(w: World, creator: Student, ids: seq<Student>)
    requires Inv(w)
    ensures Adds(w, Created(w, creator, ids), creator, ids)
  {
    FreshSquad(w);
    forall i | i in w.invites ensures i < w.nextInvite { assert InviteOk(w, i); }
  }

  /** What creating does. */
  lemma CreateEffect(w: World, creator: Student, ids: seq<Student>)
    requires Inv(w) && CreateWithInvites(w, creator, ids).Ok?
    ensures Adds(w, CreateWithInvites(w, creator, ids).value, creator, ids)
  {
    CreatedAdds(w, creator, ids);
  }

  // ---------------------------------------------------------------- the sweep

  /** A pending invite with the student on either end, other than the excepted one. */
  ghost predicate Hit(w: World, i: InviteId, s: Student, except: Option<InviteId>) {
    i in w.invites && w.invites[i].status == Pending && (w.invites[i].invited == s || w.invites[i].inviter == s)
    && Some(i) != except
  }

  /** A squad the sweep leaves with nobody else and nothing open. */
  ghost predicate LeftEmpty(w: World, q: SquadId, s: Student, except: Option<InviteId>) {
    q in w.squads && |w.squads[q].members| <= 1 && !w.squads[q].locked
    && (exists i :: Hit(w, i, s, except) && w.invites[i].squad == q)
    && (forall i :: i in w.invites && w.invites[i].squad == q && w.invites[i].status == Pending ==>
          Hit(w, i, s, except))
    && !(except.Some? && except.value in w.invites && w.invites[except.value].squad == q)
  }

  lemma SweptSquads(w: World, s: Student, except: Option<InviteId>, q: SquadId)
    ensures q in Orphaned(w, s, except) <==> LeftEmpty(w, q, s, except)
  {
    var hit := PendingOf(w, s, except);
    assert forall i :: i in hit <==> Hit(w, i, s, except);
    var after := CancelInvites(w, hit);
    assert SquadPending(after, q) <==>
             exists i :: i in w.invites && w.invites[i].squad == q && w.invites[i].status == Pending && i !in hit by {
      if i :| i in w.invites && w.invites[i].squad == q && w.invites[i].status == Pending && i !in hit {
        assert after.invites[i] == w.invites[i];
      }
    }
    assert q in SquadsOf(w, hit) <==> exists i :: Hit(w, i, s, except) && w.invites[i].squad == q;
    if except.Some? {
      assert q in SquadsOf(w, {except.value}) <==> except.value in w.invites && w.invites[except.value].squad == q;
    }
  }

  /** What the sweep of a student's invites does: it cancels exactly those, deletes exactly the squads
      they leave empty, with their invites, and nothing else. */
  lemma SweepExactly(w: World, s: Student, except: Option<InviteId>)
    ensures var v := CancelPendingOf(w, s, except);
            (forall q :: q in v.squads <==> q in w.squads && !LeftEmpty(w, q, s, except))
            && (forall q :: q in v.squads ==> v.squads[q] == w.squads[q])
            && (forall i :: i in v.invites <==> i in w.invites && !LeftEmpty(w, w.invites[i].squad, s, except))
            && (forall i :: i in v.invites ==>
                  v.invites[i] == if Hit(w, i, s, except) then w.invites[i].(status := Cancelled) else w.invites[i])
            && v == w.(squads := v.squads, invites := v.invites)
  {
    var hit := PendingOf(w, s, except);
    assert forall i :: i in hit <==> Hit(w, i, s, except);
    forall q ensures q in Orphaned(w, s, except) <==> LeftEmpty(w, q, s, except) { SweptSquads(w, s, except, q); }
  }

  // ---------------------------------------------------------------- assigning

  /** Exactly when a teacher's assignment is accepted. */
  lemma AssignExactly(w: World, ids: seq<Student>)
    ensures TeacherAssign(w, ids).Ok? <==>
              w.size.Some? && 2 <= |ids| <= w.size.value && (forall s :: s in ids ==> MayJoin(w, s))
              && forall i, j :: 0 <= i < j < |ids| ==> ids[i] != ids[j]
  {
    AllMayJoin(w, ids);
  }

  /** v is w with some invites answered and some squads gone, but none locked or larger than one. */
  ghost predicate Swept(w: World, v: World) {
    (forall q :: q in v.squads ==> q in w.squads && v.squads[q] == w.squads[q])
    && (forall q :: q in w.squads && (w.squads[q].locked || |w.squads[q].members| > 1) ==> q in v.squads)
    && v == w.(squads := v.squads, invites := v.invites)
    && FewerPending(w, v)
  }

  /** No invite becomes pending, and none pending changes but by being answered. */
  ghost predicate FewerPending(w: World, v: World) {
    forall i :: i in v.invites && v.invites[i].status == Pending ==> i in w.invites && v.invites[i] == w.invites[i]
  }

  lemma SweptOnce(w: World, s: Student, except: Option<InviteId>)
    ensures Swept(w, CancelPendingOf(w, s, except))
    ensures except.None? ==> Uninvolved(CancelPendingOf(w, s, except), s)
  {
    SweepExactly(w, s, except);
  }

  lemma SweptTwice(w: World, u: World, v: World)
    requires Swept(w, u) && Swept(u, v)
    ensures Swept(w, v)
  {
  }

  ghost predicate Uninvolved(w: World, s: Student) {
    forall i :: i in w.invites ==> !Involves(w.invites[i], s)
  }

  lemma {:induction false} SweptAll(w: World, ids: seq<Student>)
    ensures Swept(w, CancelAll(w, ids))
    ensures forall s :: s in ids ==> Uninvolved(CancelAll(w, ids), s)
  {
    if ids != [] {
      var last := |ids| - 1;
      SweptAll(w, ids[..last]);
      var u, v := CancelAll(w, ids[..last]), CancelAll(w, ids);
      SweptOnce(u, ids[last], None);
      SweptTwice(w, u, v);
      forall s | s in ids ensures Uninvolved(v, s) {
        if s != ids[last] { assert s in ids[..last]; }
      }
    }
  }

  /** What an assignment does: one new locked squad of exactly these students, none of them left on a
      pending invite, and no locked or larger squad touched. */
  lemma AssignEffect(w: World, ids: seq<Student>)
    requires Inv(w) && TeacherAssign(w, ids).Ok?
    ensures var v := TeacherAssign(w, ids).value;
            w.nextSquad !in w.squads && w.nextSquad in v.squads && v.squads[w.nextSquad].locked
            && (forall s :: s in v.squads[w.nextSquad].members <==> s in ids)
            && (forall s :: s in ids ==> Uninvolved(v, s))
            && (forall q :: q in v.squads && q != w.nextSquad ==> q in w.squads && v.squads[q] == w.squads[q])
            && (forall q :: q in w.squads && (w.squads[q].locked || |w.squads[q].members| > 1) ==> q in v.squads)
            && v.submissions == w.submissions
  {
    FreshSquad(w);
    SweptAll(Assigned(w, ids), ids);
  }

  // ---------------------------------------------------------------- answering

  /** Whose pending invite it is to answer: the invited student's to accept or decline, the squad's
      creator's to cancel. */
  lemma AnswersExactly(w: World, i: InviteId, s: Student, tx: TxId)
    requires Inv(w) && tx !in w.inFlight
    ensures BeginAccept(w, tx, i, s).Ok? <==>
              i in w.invites && w.invites[i].status == Pending && w.invites[i].invited == s
    ensures DeclineInvite(w, i, s).Ok? <==>
              i in w.invites && w.invites[i].status == Pending && w.invites[i].invited == s
    ensures CancelInvite(w, i, s).Ok? <==>
              i in w.invites && w.invites[i].status == Pending && w.squads[w.invites[i].squad].creator == Some(s)
  {
    if i in w.invites { assert InviteOk(w, i); }
  }

  /** The squad is open, has one member at most, and no other pending invite than this one. */
  ghost predicate HangsOn(w: World, q: SquadId, i: InviteId) {
    q in w.squads && !w.squads[q].locked && |w.squads[q].members| <= 1
    && forall j :: j in w.invites && w.invites[j].squad == q && w.invites[j].status == Pending ==> j == i
  }

  /** w with that invite answered. */
  function WithAnswer(w: World, i: InviteId, status: InviteStatus): World
    requires i in w.invites
  {
    w.(invites := w.invites[i := w.invites[i].(status := status)])
  }

  lemma EmptiedExactly(w: World, i: InviteId, status: InviteStatus)
    requires i in w.invites && status != Pending
    ensures var q := w.invites[i].squad;
            Emptied(WithAnswer(w, i, status), q) <==> HangsOn(w, q, i)
  {
    var u, q := WithAnswer(w, i, status), w.invites[i].squad;
    if j :| j in w.invites && w.invites[j].squad == q && w.invites[j].status == Pending && j != i {
      assert u.invites[j] == w.invites[j];
      assert SquadPending(u, q);
    }
  }

  /** What a decline or a cancellation does: the invite gets its answer, and the squad goes, with its
      invites, exactly if it hangs on this one. */
  lemma AnswerEffect(w: World, i: InviteId, s: Student, decline: bool)
    requires if decline then DeclineInvite(w, i, s).Ok? else CancelInvite(w, i, s).Ok?
    ensures var v := if decline then DeclineInvite(w, i, s).value else CancelInvite(w, i, s).value;
            var u := WithAnswer(w, i, if decline then InviteStatus.Declined else Cancelled);
            var q := w.invites[i].squad;
            if !HangsOn(w, q, i) then v == u
            else q !in v.squads
                 && (forall p :: p in w.squads && p != q ==> p in v.squads && v.squads[p] == w.squads[p])
                 && (forall p :: p in v.squads ==> p in w.squads)
                 && (forall j :: j in v.invites <==> j in w.invites && w.invites[j].squad != q)
                 && (forall j :: j in v.invites ==> v.invites[j] == w.invites[j])
                 && v == w.(squads := v.squads, invites := v.invites)
  {
    EmptiedExactly(w, i, if decline then InviteStatus.Declined else Cancelled);
    if !decline { assert CancelInvites(w, {i}).invites == WithAnswer(w, i, Cancelled).invites; }
  }

  lemma AnswerFewer(w: World, i: InviteId, s: Student, decline: bool)
    requires if decline then DeclineInvite(w, i, s).Ok? else CancelInvite(w, i, s).Ok?
    ensures FewerPending(w, if decline then DeclineInvite(w, i, s).value else CancelInvite(w, i, s).value)
  {
    AnswerEffect(w, i, s, decline);
  }

  /** Exactly when an accept joins, once it has the squad row: the student may still join, and the
      squad is open and has room. */
  lemma JoinsExactly(w: World, s: Student, q: SquadId)
    requires q in w.squads
    ensures JoinRefusal(w, s, q).None? <==>
              MayJoin(w, s) && !w.squads[q].locked && |w.squads[q].members| < w.size.value
  {
    EligibleExactly(w, s);
  }

  lemma AddedLeftEmpty(w: World, i: InviteId, s: Student, q: SquadId, p: SquadId)
    requires q in w.squads && p != q
    ensures LeftEmpty(AddMember(w, s, q), p, s, Some(i)) <==> LeftEmpty(w, p, s, Some(i))
  {
    assert forall j :: Hit(AddMember(w, s, q), j, s, Some(i)) <==> Hit(w, j, s, Some(i));
  }

  /** Beside squad q, v differs from w only by the sweep of the student's other invites. */
  ghost predicate Beside(w: World, v: World, i: InviteId, s: Student, q: SquadId) {
    (forall p :: p != q ==> (p in v.squads <==> p in w.squads && !LeftEmpty(w, p, s, Some(i))))
    && (forall p :: p != q && p in v.squads ==> v.squads[p] == w.squads[p])
    && (forall j :: j in v.invites && v.invites[j].squad != q ==>
          j in w.invites
          && v.invites[j] == if Hit(w, j, s, Some(i)) then w.invites[j].(status := Cancelled) else w.invites[j])
    && v == w.(squads := v.squads, invites := v.invites)
  }

  /** v differs from u only in squad q and its invites. */
  ghost predicate OnlyAt(u: World, v: World, q: SquadId) {
    v.squads.Keys == u.squads.Keys && v.invites.Keys == u.invites.Keys
    && (forall p :: p in u.squads && p != q ==> v.squads[p] == u.squads[p])
    && (forall j :: j in u.invites ==>
          v.invites[j].squad == u.invites[j].squad && (u.invites[j].squad != q ==> v.invites[j] == u.invites[j]))
    && v == u.(squads := v.squads, invites := v.invites)
  }

  lemma SweptSquadBeside(w: World, i: InviteId, s: Student, q: SquadId, p: SquadId)
    requires q in w.squads && p != q
    ensures var v := CancelPendingOf(AddMember(w, s, q), s, Some(i));
            (p in v.squads <==> p in w.squads && !LeftEmpty(w, p, s, Some(i)))
            && (p in v.squads ==> v.squads[p] == w.squads[p])
  {
    SweptSquads(AddMember(w, s, q), s, Some(i), p);
    AddedLeftEmpty(w, i, s, q, p);
  }

  lemma SweptInvite(w: World, s: Student, except: Option<InviteId>, j: InviteId)
    ensures var v := CancelPendingOf(w, s, except);
            j in v.invites ==>
              j in w.invites && v.invites[j].squad == w.invites[j].squad
              && v.invites[j] == if Hit(w, j, s, except) then w.invites[j].(status := Cancelled) else w.invites[j]
  {
    assert j in PendingOf(w, s, except) <==> Hit(w, j, s, except);
  }

  lemma SweptBeside(w: World, i: InviteId, s: Student, q: SquadId)
    requires q in w.squads
    ensures Beside(w, CancelPendingOf(AddMember(w, s, q), s, Some(i)), i, s, q)
  {
    var added := AddMember(w, s, q);
    var v := CancelPendingOf(added, s, Some(i));
    forall p | p != q
      ensures p in v.squads <==> p in w.squads && !LeftEmpty(w, p, s, Some(i))
      ensures p in v.squads ==> v.squads[p] == w.squads[p]
    {
      SweptSquadBeside(w, i, s, q, p);
    }
    forall j | j in v.invites && v.invites[j].squad != q
      ensures j in w.invites
              && v.invites[j] == if Hit(w, j, s, Some(i)) then w.invites[j].(status := Cancelled) else w.invites[j]
    {
      SweptInvite(added, s, Some(i), j);
      assert Hit(added, j, s, Some(i)) <==> Hit(w, j, s, Some(i));
    }
  }

  lemma BesideThen(w: World, u: World, v: World, i: InviteId, s: Student, q: SquadId)
    requires Beside(w, u, i, s, q) && OnlyAt(u, v, q)
    ensures Beside(w, v, i, s, q)
  {
  }

  /** What a successful accept leaves alone: of the other squads it deletes exactly those the student's
      other invites leave empty, and of their invites it cancels exactly the student's own. */
  lemma JoinLeavesOthers(w: World, i: InviteId, s: Student, q: SquadId)
    requires q in w.squads && i in w.invites && w.invites[i].squad == q
    ensures Beside(w, Join(w, i, s, q), i, s, q)
  {
    SweptBeside(w, i, s, q);
    var swept := CancelPendingOf(AddMember(w, s, q), s, Some(i));
    SweptInvite(AddMember(w, s, q), s, Some(i), i);
    MarkedOnlyAt(swept, i, q);
    BesideThen(w, swept, MarkAccepted(swept, i), i, s, q);
    if q in swept.squads {
      LockedOnlyAt(MarkAccepted(swept, i), q);
      BesideThen(w, MarkAccepted(swept, i), LockAndCancel(MarkAccepted(swept, i), q), i, s, q);
    }
  }

  lemma MarkedOnlyAt(w: World, i: InviteId, q: SquadId)
    requires i in w.invites ==> w.invites[i].squad == q
    ensures OnlyAt(w, MarkAccepted(w, i), q)
  {
  }

  lemma LockedOnlyAt(w: World, q: SquadId)
    requires q in w.squads
    ensures OnlyAt(w, LockAndCancel(w, q), q)
  {
  }

  /** A refused accept cancels its own invite and changes nothing else. */
  lemma RefusedAccept(w: World, tx: TxId)
    requires tx in w.inFlight && w.inFlight[tx].Loaded? && w.inFlight[tx].squad in w.squads
    requires JoinRefusal(w, w.inFlight[tx].student, w.inFlight[tx].squad).Some?
    ensures var v, i := LockSquad(w, tx), w.inFlight[tx].invite;
            tx !in v.inFlight && v.squads == w.squads && v.submissions == w.submissions
            && v.invites.Keys == w.invites.Keys
            && forall j :: j in w.invites ==>
                 v.invites[j] == if j == i then w.invites[j].(status := Cancelled) else w.invites[j]
  {
  }

  /** Why a student may not join, truly: each reason names something that is so, and the ones asked
      before it are not. */
  lemma ReasonsAreTrue(w: World, s: Student, q: SquadId)
    requires q in w.squads && JoinRefusal(w, s, q).Some?
    ensures match JoinRefusal(w, s, q).value
            case Disabled => w.size.None?
            case NotEnrolled => w.size.Some? && s !in w.enrolled
            case TestStudent => s in w.enrolled && s in w.testStudents
            case AlreadyInSquad => exists p :: p in w.squads && s in w.squads[p].members
            case HasSubmissions => exists k :: k in w.submissions && w.submissions[k].student == s
            case SquadLocked => MayJoin(w, s) && w.squads[q].locked
            case SquadFull => MayJoin(w, s) && !w.squads[q].locked && |w.squads[q].members| >= w.size.value
            case _ => false
  {
    EligibleExactly(w, s);
    if JoinRefusal(w, s, q) == Some(AlreadyInSquad) {
      var p :| p in w.squads && IsMember(w, s, p);
      assert s in w.squads[p].members;
    }
  }

  /** The same of creating and of assigning. */
  lemma CreateReasonsAreTrue(w: World, creator: Student, ids: seq<Student>)
    ensures CreateWithInvites(w, creator, ids).Err? ==>
              match CreateWithInvites(w, creator, ids).error
              case Disabled => w.size.None?
              case Duplicate => exists i, j :: 0 <= i < j < |ids| && ids[i] == ids[j]
              case SelfInvite => creator in ids
              case TooFew => ids == []
              case TooMany => w.size.Some? && |ids| + 1 > w.size.value
              case _ => !MayJoin(w, creator) || exists s :: s in ids && !MayJoin(w, s)
    ensures TeacherAssign(w, ids).Err? ==>
              match TeacherAssign(w, ids).error
              case Disabled => w.size.None?
              case Duplicate => exists i, j :: 0 <= i < j < |ids| && ids[i] == ids[j]
              case TooFew => |ids| < 2
              case TooMany => w.size.Some? && |ids| > w.size.value
              case _ => exists s :: s in ids && !MayJoin(w, s)
  {
    EligibleExactly(w, creator);
    AllMayJoin(w, ids);
    NoOtherReason(w, ids);
  }

  lemma {:induction false} NoOtherReason(w: World, ids: seq<Student>)
    ensures w.size.Some? && FirstRefusal(w, ids).Some? ==>
              FirstRefusal(w, ids).value in {NotEnrolled, TestStudent, AlreadyInSquad, HasSubmissions}
  {
    if ids != [] { NoOtherReason(w, ids[1..]); }
  }

  // ---------------------------------------------------------------- filing

  /** A pending invite from or to the student, or of the student's squad. */
  ghost predicate Unsettled(w: World, i: InviteId, s: Student, q: Option<SquadId>) {
    i in w.invites && w.invites[i].status == Pending
    && (w.invites[i].invited == s || w.invites[i].inviter == s || q == Some(w.invites[i].squad))
  }

  /** Exactly when a hand-in is refused for its squad: an invite is still open on which the student is
      at either end, or one of the student's squad. */
  lemma SubmitExactly(w: World, s: Student, assignment: int, q: Option<SquadId>)
    requires FoundSquad(w, s, q)
    ensures Submit(w, s, assignment, q).Err? <==> w.size.Some? && exists i :: Unsettled(w, i, s, q)
  {
    if i :| Unsettled(w, i, s, q) {
      assert Involves(w.invites[i], s) || (q.Some? && SquadPending(w, q.value));
    }
    if OwnPending(w, s) {
      var i :| i in w.invites && Involves(w.invites[i], s);
      assert Unsettled(w, i, s, q);
    } else if q.Some? && SquadPending(w, q.value) {
      var i :| i in w.invites && w.invites[i].squad == q.value && w.invites[i].status == Pending;
      assert Unsettled(w, i, s, q);
    }
  }

  /** What filing does: one new row of the student, with the squad and without a draw, and a lock on
      that squad. */
  lemma SubmitEffect(w: World, s: Student, assignment: int, q: Option<SquadId>)
    requires Inv(w) && FoundSquad(w, s, q) && Submit(w, s, assignment, q).Ok?
    ensures var v := Submit(w, s, assignment, q).value;
            w.nextSubmission !in w.submissions
            && v.submissions == w.submissions[w.nextSubmission := Submission(s, assignment, q, None)]
            && v.squads.Keys == w.squads.Keys
            && (forall p :: p in w.squads ==>
                  v.squads[p] == if q == Some(p) then w.squads[p].(locked := true) else w.squads[p])
            && v == w.(squads := v.squads, submissions := v.submissions, nextSubmission := w.nextSubmission + 1)
  {
    assert forall k :: k in w.submissions ==> SubmissionOk(w, k);
    assert q.Some? ==> SquadOk(w, q.value);
  }

  // ---------------------------------------------------------------- opening the quiz

  /** The first member to open a squad's quiz deals it, evenly and by the members' order; later ones
      find the draw as it is. */
  lemma OpenDealsEvenly(w: World, k: SubmissionId, cards: seq<QuizDraw.Card>, order: seq<Student>)
    requires Inv(w) && MayOpen(w, k, cards, order) && w.submissions[k].squad.Some?
    ensures var v := OpenQuiz(w, k, cards, order);
            v.submissions[k].draw.Some? && (w.submissions[k].draw.Some? ==> v == w)
            && (w.submissions[k].draw.None? ==>
                  var draw := v.submissions[k].draw.value;
                  draw.cards == cards && draw.memberOrder == order && |draw.slices| == |order|
                  && QuizDraw.Partition(cards, draw.slices)
                  && (forall i, j :: 0 <= i < j < |order| ==>
                        |draw.slices[j]| <= |draw.slices[i]| <= |draw.slices[j]| + 1)
                  && v.submissions == w.submissions[k := w.submissions[k].(draw := Some(draw))]
                  && v == w.(submissions := v.submissions))
  {
    var q := w.submissions[k].squad.value;
    assert SquadOk(w, q);
    if order == [] { assert w.squads[q].members == {} by { NoMembers(order, w.squads[q].members); } }
    if w.submissions[k].draw.None? && order != [] {
      QuizDraw.SplitPartitions(cards, |order|);
      forall i, j | 0 <= i < j < |order|
        ensures var slices := QuizDraw.Split(cards, |order|); |slices[j]| <= |slices[i]| <= |slices[j]| + 1
      {
        QuizDraw.SplitEven(cards, |order|, i, j);
      }
    }
  }

  lemma NoMembers(order: seq<Student>, members: set<Student>)
    requires order == [] && SortedMembers(order, members)
    ensures members == {}
  {
    assert forall s :: s in members ==> s in order;
  }

  // ---------------------------------------------------------------- who has filed is settled

  /** Who has filed in w is at neither end of a pending invite. */
  ghost predicate FiledIsSettled(w: World) {
    forall k, i :: k in w.submissions && i in w.invites ==> !Involves(w.invites[i], w.submissions[k].student)
  }

  ghost predicate SameFilers(w: World, v: World) {
    forall k :: k in v.submissions ==> k in w.submissions && v.submissions[k].student == w.submissions[k].student
  }

  lemma FewerTwice(w: World, u: World, v: World)
    requires FewerPending(w, u) && FewerPending(u, v)
    ensures FewerPending(w, v)
  {
  }

  lemma MarkFewerPending(w: World, i: InviteId)
    ensures FewerPending(w, MarkAccepted(w, i))
  {
  }

  lemma JoinFewerPending(w: World, i: InviteId, s: Student, q: SquadId)
    requires q in w.squads
    ensures FewerPending(w, Join(w, i, s, q))
  {
    var added := AddMember(w, s, q);
    SweptOnce(added, s, Some(i));
    var swept := CancelPendingOf(added, s, Some(i));
    var marked := MarkAccepted(swept, i);
    FewerTwice(w, added, swept);
    MarkFewerPending(swept, i);
    FewerTwice(w, swept, marked);
    if q in marked.squads {
      LockFewerPending(marked, q);
      FewerTwice(w, marked, LockAndCancel(marked, q));
    }
  }

  lemma LockFewerPending(w: World, q: SquadId)
    requires q in w.squads
    ensures FewerPending(w, LockAndCancel(w, q))
  {
  }

  lemma QuietFewerPending(w: World, step: Step)
    requires Enabled(w, step) && (step.Begin? || step.Load? || step.Abort? || step.File? || step.Open?)
    ensures FewerPending(w, Do(w, step))
  {
    assert Do(w, step).invites == w.invites;
  }

  lemma LockStepFewerPending(w: World, tx: TxId)
    requires Enabled(w, Lock(tx))
    ensures FewerPending(w, LockSquad(w, tx))
  {
  }

  lemma WriteFewerPending(w: World, tx: TxId)
    requires Enabled(w, Write(tx))
    ensures FewerPending(w, WriteAnswer(w, tx))
  {
    assert FewerPending(w, Answered(w, tx));
  }

  lemma CommitFewerPending(w: World, tx: TxId)
    requires HoldsRow(w, tx)
    ensures FewerPending(w, CommitAccept(w, tx))
  {
    var a := w.inFlight[tx];
    if !InSquad(w, a.student) && a.squad in w.squads {
      JoinFewerPending(WithoutTx(w, tx), a.invite, a.student, a.squad);
    }
  }

  lemma StepFewerPending(w: World, step: Step)
    requires Inv(w) && Enabled(w, step) && !step.Create?
    ensures FewerPending(w, Do(w, step))
  {
    if step.Begin? || step.Load? || step.Abort? || step.File? || step.Open? {
      QuietFewerPending(w, step);
    } else {
      AnswerFewerPending(w, step);
    }
  }

  lemma AnswerFewerPending(w: World, step: Step)
    requires Inv(w) && Enabled(w, step)
    requires step.Lock? || step.Commit? || step.Decline? || step.CancelOne? || step.Assign? || step.Write?
             || step.DeleteLate?
    ensures FewerPending(w, Do(w, step))
  {
    match step
    case Lock(tx) => LockStepFewerPending(w, tx);
    case Commit(tx) => CommitFewerPending(w, tx);
    case Decline(i, s) => if DeclineInvite(w, i, s).Ok? { AnswerFewer(w, i, s, true); }
    case CancelOne(i, s) => if CancelInvite(w, i, s).Ok? { AnswerFewer(w, i, s, false); }
    case Assign(ids) => if TeacherAssign(w, ids).Ok? { SweptAll(Assigned(w, ids), ids); }
    case Write(tx) => WriteFewerPending(w, tx);
    case DeleteLate(q) =>
  }

  lemma StepSameFilers(w: World, step: Step)
    requires Enabled(w, step) && !step.File?
    ensures SameFilers(w, Do(w, step))
  {
    if !step.Open? && !step.Write? { SubmissionsStay(w, step); }
  }

  lemma SettledStep(w: World, step: Step)
    requires Inv(w) && Enabled(w, step) && FiledIsSettled(w)
    ensures FiledIsSettled(Do(w, step))
  {
    match step
    case Create(creator, ids) =>
      if CreateWithInvites(w, creator, ids).Ok? {
        CreateExactly(w, creator, ids);
        CreateEffect(w, creator, ids);
        CreatedSettled(w, creator, ids);
      }
    case File(s, a, q) =>
      if Submit(w, s, a, q).Ok? {
        SubmitExactly(w, s, a, q);
        SubmitEffect(w, s, a, q);
        FiledSettled(w, s, a, q);
      }
    case _ =>
      StepFewerPending(w, step);
      StepSameFilers(w, step);
  }

  lemma CreatedSettled(w: World, creator: Student, ids: seq<Student>)
    requires Inv(w) && FiledIsSettled(w) && CreateWithInvites(w, creator, ids).Ok?
    ensures FiledIsSettled(CreateWithInvites(w, creator, ids).value)
  {
    CreateExactly(w, creator, ids);
    CreateEffect(w, creator, ids);
    var v := CreateWithInvites(w, creator, ids).value;
    forall k, i | k in v.submissions && i in v.invites ensures !Involves(v.invites[i], v.submissions[k].student) {
      if i !in w.invites {
        var id := ids[i - w.nextInvite];
        assert v.invites[i] == Invite(w.nextSquad, id, creator, Pending);
        assert MayJoin(w, id) && MayJoin(w, creator);
      }
    }
  }

  lemma FiledSettled(w: World, s: Student, assignment: int, q: Option<SquadId>)
    requires Inv(w) && FiledIsSettled(w) && FoundSquad(w, s, q) && Submit(w, s, assignment, q).Ok?
    ensures FiledIsSettled(Submit(w, s, assignment, q).value)
  {
    SubmitExactly(w, s, assignment, q);
    SubmitEffect(w, s, assignment, q);
    var v := Submit(w, s, assignment, q).value;
    assert w.size.None? ==> w.invites == map[] by {
      forall i | i in w.invites ensures w.size.Some? { assert InviteOk(w, i) && SquadOk(w, w.invites[i].squad); }
    }
    forall k, i | k in v.submissions && i in v.invites ensures !Involves(v.invites[i], v.submissions[k].student) {
      assert k in w.submissions || v.submissions[k].student == s;
    }
  }

  /** In every run, a student who has handed in anything is on neither end of a pending invite. */
  lemma {:induction false} FiledIsSettledInEveryRun(w: World, steps: seq<Step>, end: World)
    requires Inv(w) && FiledIsSettled(w) && IsRun(w, steps, end)
    ensures FiledIsSettled(end)
    decreases |steps|
  {
    if steps != [] {
      SettledStep(w, steps[0]);
      StepKeeps(w, steps[0]);
      FiledIsSettledInEveryRun(Do(w, steps[0]), steps[1..], end);
    }
  }

  lemma WhoHasFiledIsSettled(size: Option<int>, enrolled: set<Student>, testStudents: set<Student>,
                             steps: seq<Step>, w: World)
    requires IsRun(Empty(size, enrolled, testStudents), steps, w)
    ensures forall k, i :: k in w.submissions && i in w.invites && w.invites[i].status == Pending ==>
              w.invites[i].invited != w.submissions[k].student && w.invites[i].inviter != w.submissions[k].student
  {
    FiledIsSettledInEveryRun(Empty(size, enrolled, testStudents), steps, w);
  }
}
