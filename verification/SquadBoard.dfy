/** Squad formation in the form the server runs it: rows updated in place, with loops over the
    invites a request touches. Every method is proved to compute the step of Squads it names.
 */
module SquadRecords {
  import opened Wrappers
  import opened Squads

  /** An accept that meets no other one: the three transaction steps in a row. */
  function AcceptAlone(w: World, i: InviteId, s: Student): World {
    if i !in w.invites || w.invites[i].status != Pending || w.invites[i].invited != s then w
    else
      var q := w.invites[i].squad;
      if q !in w.squads then w
      else if JoinRefusal(w, s, q).Some? then CancelInvites(w, {i})
      else Join(w, i, s, q)
  }

  /** What such an accept answers; None is success. */
  function AcceptRefusal(w: World, i: InviteId, s: Student): Option<Reason> {
    if i !in w.invites || w.invites[i].status != Pending then Some(NotPending)
    else if w.invites[i].invited != s then Some(NotYours)
    else if w.invites[i].squad !in w.squads then Some(NotPending)
    else JoinRefusal(w, s, w.invites[i].squad)
  }

  /** An accept that answers success makes the student a member of the inviting squad; one that
      is refused gives the student no squad, and a refused accept of the student's own pending
      invite leaves it cancelled. */
  lemma AcceptJoinsOrNot(w: World, i: InviteId, s: Student)
    requires Inv(w)
    ensures var v, refused := AcceptAlone(w, i, s), AcceptRefusal(w, i, s);
            (refused.None? ==> i in w.invites && IsMember(v, s, w.invites[i].squad))
            && (refused.Some? ==> v.squads == w.squads && v.submissions == w.submissions)
            && (refused.Some? && i in w.invites ==>
                  i in v.invites && (w.invites[i].invited == s ==> v.invites[i].status != Pending))
  {
    if AcceptRefusal(w, i, s).None? {
      var q := w.invites[i].squad;
      assert w.size.Some?;
      JoinEffect(w, i, s, q);
    } else if i in w.invites {
      assert InviteOk(w, i);
    }
  }

  lemma AcceptAloneIsThreeSteps(w: World, tx: TxId, i: InviteId, s: Student)
    requires w.inFlight == map[] && BeginAccept(w, tx, i, s).Ok?
    ensures var locked := LockSquad(BeginAccept(w, tx, i, s).value, tx);
            AcceptAlone(w, i, s) == if tx in locked.inFlight then CommitAccept(locked, tx) else locked
  {
    var begun := BeginAccept(w, tx, i, s).value;
    assert WithoutTx(begun, tx) == w;
    assert forall t, q :: IsMember(begun, t, q) <==> IsMember(w, t, q);
    assert InSquad(begun, s) <==> InSquad(w, s);
    assert HasSubmitted(begun, s) <==> HasSubmitted(w, s);
    var q := w.invites[i].squad;
    if q in w.squads {
      assert JoinRefusal(begun, s, q) == JoinRefusal(w, s, q);
      assert WithoutTx(CancelInvites(begun, {i}), tx) == CancelInvites(w, {i});
      var locked := LockSquad(begun, tx);
      if JoinRefusal(w, s, q).None? {
        assert WithoutTx(locked, tx) == w;
        assert forall t, p :: IsMember(locked, t, p) <==> IsMember(w, t, p);
        assert InSquad(locked, s) <==> InSquad(w, s);
      }
    }
  }

  lemma EmptiedIsLocal(w: World, dead: set<SquadId>, q: SquadId)
    requires q !in dead
    ensures Emptied(DeleteSquads(w, dead), q) <==> Emptied(w, q)
  {
    var v := DeleteSquads(w, dead);
    if SquadPending(w, q) {
      var i :| i in w.invites && w.invites[i].squad == q && w.invites[i].status == Pending;
      assert i in v.invites && v.invites[i] == w.invites[i];
    }
  }

  class SquadBoard {
    const size: Option<int>
    const enrolled: set<Student>
    const testStudents: set<Student>
    var squads: map<SquadId, Squad>
    var invites: map<InviteId, Invite>
    var submissions: map<SubmissionId, Submission>
    var nextSquad: nat
    var nextInvite: nat
    var nextSubmission: nat

    function Value(): World
      reads this
    {
      World(size, enrolled, testStudents, squads, invites, submissions, map[], nextSquad, nextInvite, nextSubmission)
    }

    constructor (size: Option<int>, enrolled: set<Student>, testStudents: set<Student>)
      ensures Value() == Empty(size, enrolled, testStudents)
    {
      this.size, this.enrolled, this.testStudents := size, enrolled, testStudents;
      squads, invites, submissions := map[], map[], map[];
      nextSquad, nextInvite, nextSubmission := 0, 0, 0;
    }

    /** Cancel the rows one by one; returns the squads they belong to. */
    method CancelRows(rows: set<InviteId>, except: Option<InviteId>) returns (affected: set<SquadId>)
      requires rows <= invites.Keys
      modifies this`invites
      ensures Value() == CancelInvites(old(Value()), Others(rows, except))
      ensures affected == SquadsOf(old(Value()), Others(rows, except))
    {
      affected := {};
      var todo := rows;
      ghost var done: set<InviteId> := {};
      while todo != {}
        invariant todo !! done && todo + done == rows
        invariant Value() == CancelInvites(old(Value()), Others(done, except))
        invariant affected == SquadsOf(old(Value()), Others(done, except))
        decreases todo
      {
        var i :| i in todo;
        ghost var hit := Others(done, except);
        todo, done := todo - {i}, done + {i};
        if Some(i) != except {
          invites := invites[i := invites[i].(status := Cancelled)];
          affected := affected + {invites[i].squad};
          assert Others(done, except) == hit + {i};
          CancelOneMore(old(Value()), hit, i);
        } else {
          assert Others(done, except) == hit;
        }
      }
      assert done == rows;
    }

    method DeleteIfEmpty(q: SquadId) returns (deleted: bool)
      modifies this`squads, this`invites
      ensures Value() == Squads.DeleteIfEmpty(old(Value()), q)
      ensures deleted == Emptied(old(Value()), q)
    {
      deleted := Emptied(Value(), q);
      if deleted {
        squads, invites := DeleteSquads(Value(), {q}).squads, DeleteSquads(Value(), {q}).invites;
      }
    }

    /** Delete the affected squads that were left empty, one after the other. */
    method SweepEmptied(affected: set<SquadId>, kept: set<SquadId>)
      modifies this`squads, this`invites
      ensures Value() == DeleteSquads(old(Value()), EmptiedAmong(old(Value()), affected, kept))
    {
      ghost var start := Value();
      var todo := affected;
      ghost var done: set<SquadId> := {};
      ghost var dead: set<SquadId> := {};
      assert DeleteSquads(start, {}) == start;
      while todo != {}
        invariant todo !! done && todo + done == affected
        invariant dead == EmptiedAmong(start, done, kept)
        invariant Value() == DeleteSquads(start, dead)
        decreases todo
      {
        var q :| q in todo;
        todo, done := todo - {q}, done + {q};
        if q !in kept {
          EmptiedIsLocal(start, dead, q);
          var deleted := DeleteIfEmpty(q);
          if deleted {
            DeleteOneMore(start, dead, q);
            dead := dead + {q};
          }
        }
      }
      assert done == affected;
    }

    method CancelPendingOf(s: Student, except: Option<InviteId>)
      modifies this`squads, this`invites
      ensures Value() == Squads.CancelPendingOf(old(Value()), s, except)
    {
      ghost var before := Value();
      var kept := if except.Some? then SquadsOf(Value(), {except.value}) else {};
      var affected := CancelRows(Concerning(Value(), s), except);
      assert Value() == CancelInvites(before, PendingOf(before, s, except));
      SweepEmptied(affected, kept);
    }

    /** One pending invite per id, in order. */
    method AddInvites(q: SquadId, creator: Student, ids: seq<Student>)
      modifies this`invites, this`nextInvite
      ensures invites == old(invites) + NewInvites(old(nextInvite), q, creator, ids)
      ensures nextInvite == old(nextInvite) + |ids|
    {
      var added: map<InviteId, Invite> := map[];
      for n := 0 to |ids|
        invariant nextInvite == old(nextInvite) + n && invites == old(invites)
        invariant added == NewInvites(old(nextInvite), q, creator, ids[..n])
      {
        assert ids[..n + 1][..n] == ids[..n];
        added := added[nextInvite := Invite(q, ids[n], creator, Pending)];
        nextInvite := nextInvite + 1;
      }
      assert ids[..|ids|] == ids;
      invites := invites + added;
    }

    method CreateWithInvites(creator: Student, ids: seq<Student>) returns (refused: Option<Reason>)
      modifies this
      ensures Squads.CreateWithInvites(old(Value()), creator, ids)
              == if refused.Some? then Err(refused.value) else Ok(Value())
      ensures refused.Some? ==> Value() == old(Value())
    {
      if size.None? { return Some(Disabled); }
      if !DistinctStudents(ids) { return Some(Duplicate); }
      if creator in ids { return Some(SelfInvite); }
      if ids == [] { return Some(TooFew); }
      if |ids| > size.value - 1 { return Some(TooMany); }
      if !Eligible(Value(), creator) { return Eligibility(Value(), creator); }
      refused := FirstRefusal(Value(), ids);
      if refused.Some? { return; }
      var q := nextSquad;
      squads := squads[q := Squad({creator}, Some(creator), false)];
      nextSquad := nextSquad + 1;
      AddInvites(q, creator, ids);
    }

    method AcceptInvite(i: InviteId, s: Student) returns (refused: Option<Reason>)
      modifies this
      ensures Value() == AcceptAlone(old(Value()), i, s)
      ensures refused == AcceptRefusal(old(Value()), i, s)
    {
      if i !in invites || invites[i].status != Pending { return Some(NotPending); }
      if invites[i].invited != s { return Some(NotYours); }
      var q := invites[i].squad;
      if q !in squads { return Some(NotPending); }
      refused := JoinRefusal(Value(), s, q);
      if refused.Some? {
        invites := invites[i := invites[i].(status := Cancelled)];
        assert Value() == CancelInvites(old(Value()), {i});
        return;
      }
      squads := squads[q := squads[q].(members := squads[q].members + {s})];
      assert Value() == AddMember(old(Value()), s, q);
      CancelPendingOf(s, Some(i));
      if i in invites { invites := invites[i := invites[i].(status := Accepted)]; }
      if q in squads && |squads[q].members| >= (if size.Some? then size.value else 0) {
        ghost var marked := Value();
        squads := squads[q := squads[q].(locked := true)];
        var open := set j | j in invites && invites[j].squad == q && invites[j].status == Pending;
        var _ := CancelRows(open, None);
        assert Others(open, None) == open;
        assert Value() == LockAndCancel(marked, q);
      }
    }

    method DeclineInvite(i: InviteId, s: Student) returns (refused: Option<Reason>)
      modifies this
      ensures Squads.DeclineInvite(old(Value()), i, s) == if refused.Some? then Err(refused.value) else Ok(Value())
      ensures refused.Some? ==> Value() == old(Value())
    {
      if i !in invites || invites[i].status != Pending { return Some(NotPending); }
      if invites[i].invited != s { return Some(NotYours); }
      var q := invites[i].squad;
      invites := invites[i := invites[i].(status := Declined)];
      var _ := DeleteIfEmpty(q);
      refused := None;
    }

    method CancelInvite(i: InviteId, s: Student) returns (refused: Option<Reason>)
      modifies this
      ensures Squads.CancelInvite(old(Value()), i, s) == if refused.Some? then Err(refused.value) else Ok(Value())
      ensures refused.Some? ==> Value() == old(Value())
    {
      if i !in invites || invites[i].status != Pending { return Some(NotPending); }
      var q := invites[i].squad;
      if q !in squads || squads[q].creator != Some(s) { return Some(NotYours); }
      invites := invites[i := invites[i].(status := Cancelled)];
      assert Value() == CancelInvites(old(Value()), {i});
      var _ := DeleteIfEmpty(q);
      refused := None;
    }

    method TeacherAssign(ids: seq<Student>) returns (refused: Option<Reason>)
      modifies this
      ensures Squads.TeacherAssign(old(Value()), ids) == if refused.Some? then Err(refused.value) else Ok(Value())
      ensures refused.Some? ==> Value() == old(Value())
    {
      if size.None? { return Some(Disabled); }
      if !DistinctStudents(ids) { return Some(Duplicate); }
      if |ids| < 2 { return Some(TooFew); }
      if |ids| > size.value { return Some(TooMany); }
      refused := FirstRefusal(Value(), ids);
      if refused.Some? { return; }
      squads := squads[nextSquad := Squad((set s | s in ids), None, true)];
      nextSquad := nextSquad + 1;
      ghost var formed := Value();
      for n := 0 to |ids|
        invariant Value() == CancelAll(formed, ids[..n])
      {
        assert ids[..n + 1][..n] == ids[..n];
        CancelPendingOf(ids[n], None);
      }
      assert ids[..|ids|] == ids;
    }

    /** The squad part of filing a submission, by upload or by opening the quiz. */
    method Submit(s: Student, assignment: int) returns (refused: Option<Reason>, ghost found: Option<SquadId>)
      modifies this
      ensures FoundSquad(old(Value()), s, found)
      ensures Squads.Submit(old(Value()), s, assignment, found)
              == if refused.Some? then Err(refused.value) else Ok(Value())
      ensures refused.Some? ==> Value() == old(Value())
    {
      var q: Option<SquadId> := None;
      if p :| p in squads && IsMember(Value(), s, p) { q := Some(p); }
      found := q;
      if size.Some? && (OwnPending(Value(), s) || (q.Some? && SquadPending(Value(), q.value))) {
        return Some(InvitePending), found;
      }
      submissions := submissions[nextSubmission := Submission(s, assignment, if size.Some? then q else None, None)];
      nextSubmission := nextSubmission + 1;
      if size.Some? && q.Some? {
        squads := squads[q.value := squads[q.value].(locked := true)];
      }
      refused := None;
    }
  }

  lemma DeleteOneMore(w: World, dead: set<SquadId>, q: SquadId)
    ensures DeleteSquads(DeleteSquads(w, dead), {q}) == DeleteSquads(w, dead + {q})
  {
  }

  lemma CancelOneMore(w: World, hit: set<InviteId>, i: InviteId)
    requires i in w.invites
    ensures var c := CancelInvites(w, hit);
            CancelInvites(w, hit + {i}) == c.(invites := c.invites[i := c.invites[i].(status := Cancelled)])
    ensures SquadsOf(w, hit + {i}) == SquadsOf(w, hit) + {w.invites[i].squad}
  {
    var c := CancelInvites(w, hit);
    assert CancelInvites(w, hit + {i}).invites == c.invites[i := c.invites[i].(status := Cancelled)];
  }
}
