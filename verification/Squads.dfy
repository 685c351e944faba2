/** Squad formation in one subject, the submissions filed, and the quiz draw a squad shares. */
module Squads {
  // One World is the committed database plus the accept transactions in flight.
  //
  // Every request is one atomic step, except answers to invites, between whose points all other
  // requests interleave. An accept loads the invite, takes the squad's row lock and reads
  // capacity, and commits. A decline or a cancellation loads the invite with its squad, and later
  // writes by that copy. A request that deletes or locks the very squad row an accept holds waits
  // for it; nothing else waits. Any request in flight may also break off.

  import opened Wrappers
  import QuizDraw

  type Student = int
  type SquadId = nat
  type InviteId = nat
  type SubmissionId = nat
  type TxId = nat

  datatype Squad = Squad(members: set<Student>, creator: Option<Student>, locked: bool)

  datatype InviteStatus = Pending | Accepted | Declined | Cancelled

  datatype Invite = Invite(squad: SquadId, invited: Student, inviter: Student, status: InviteStatus)

  /** `squad_quiz_draw`: the drawn questions, one slice per member, and whose slice is whose. */
  datatype Draw = Draw(cards: seq<QuizDraw.Card>, slices: seq<seq<int>>, memberOrder: seq<Student>)

  datatype Submission = Submission(student: Student, assignment: int, squad: Option<SquadId>, draw: Option<Draw>)

  /** A request in flight. An accept has loaded its invite, or has locked the squad row and decided
      to join. A decline or a cancellation has loaded its invite; `small` says that the squad was
      unlocked then, with at most one member. */
  datatype Request =
    | Loaded(invite: InviteId, student: Student, squad: SquadId)
    | Holding(invite: InviteId, student: Student, squad: SquadId)
    | Answering(invite: InviteId, student: Student, squad: SquadId, decline: bool, small: bool)

  datatype World = World(
    size: Option<int>,
    enrolled: set<Student>,
    testStudents: set<Student>,
    squads: map<SquadId, Squad>,
    invites: map<InviteId, Invite>,
    submissions: map<SubmissionId, Submission>,
    inFlight: map<TxId, Request>,
    nextSquad: nat,
    nextInvite: nat,
    nextSubmission: nat)

  datatype Reason =
    | Disabled | NotEnrolled | TestStudent | AlreadyInSquad | HasSubmissions
    | Duplicate | SelfInvite | TooFew | TooMany
    | NotPending | NotYours | SquadLocked | SquadFull | InvitePending

  // ---------------------------------------------------------------- queries

  predicate IsMember(w: World, s: Student, q: SquadId) {
    q in w.squads && s in w.squads[q].members
  }

  predicate InSquad(w: World, s: Student) {
    exists q :: q in w.squads && IsMember(w, s, q)
  }

  predicate HasSubmitted(w: World, s: Student) {
    exists k :: k in w.submissions && w.submissions[k].student == s
  }

  function Eligibility(w: World, s: Student): Option<Reason> {
    if w.size.None? then Some(Disabled)
    else if s !in w.enrolled then Some(NotEnrolled)
    else if s in w.testStudents then Some(TestStudent)
    else if InSquad(w, s) then Some(AlreadyInSquad)
    else if HasSubmitted(w, s) then Some(HasSubmissions)
    else None
  }

  predicate Eligible(w: World, s: Student) {
    Eligibility(w, s).None?
  }

  predicate SquadPending(w: World, q: SquadId) {
    exists i :: i in w.invites && w.invites[i].squad == q && w.invites[i].status == Pending
  }

  /** `has_pending_invites`: the student is on either end of a pending invite. */
  predicate OwnPending(w: World, s: Student) {
    exists i :: i in w.invites && Involves(w.invites[i], s)
  }

  predicate Involves(inv: Invite, s: Student) {
    inv.status == Pending && (inv.invited == s || inv.inviter == s)
  }

  function DistinctStudents(ids: seq<Student>): bool {
    forall i, j :: 0 <= i < j < |ids| ==> ids[i] != ids[j]
  }

  /** The reason the first ineligible student of a list is refused for. */
  function FirstRefusal(w: World, ids: seq<Student>): Option<Reason> {
    if ids == [] then None
    else if !Eligible(w, ids[0]) then Eligibility(w, ids[0])
    else FirstRefusal(w, ids[1..])
  }

  // ---------------------------------------------------------------- formation steps

  predicate Emptied(w: World, q: SquadId) {
    q in w.squads && |w.squads[q].members| <= 1 && !w.squads[q].locked && !SquadPending(w, q)
  }

  /** Delete squads; their members and invites go with them. */
  function DeleteSquads(w: World, dead: set<SquadId>): World {
    w.(squads := map q | q in w.squads && q !in dead :: w.squads[q],
       invites := map i | i in w.invites && w.invites[i].squad !in dead :: w.invites[i])
  }

  function DeleteIfEmpty(w: World, q: SquadId): World {
    if Emptied(w, q) then DeleteSquads(w, {q}) else w
  }

  function CancelInvites(w: World, ids: set<InviteId>): World {
    w.(invites := map i | i in w.invites ::
         if i in ids then w.invites[i].(status := Cancelled) else w.invites[i])
  }

  /** The pending invites a student is on either end of. */
  function Concerning(w: World, s: Student): set<InviteId> {
    set i | i in w.invites && Involves(w.invites[i], s)
  }

  function Others(rows: set<InviteId>, except: Option<InviteId>): set<InviteId> {
    set i | i in rows && Some(i) != except
  }

  function PendingOf(w: World, s: Student, except: Option<InviteId>): set<InviteId> {
    Others(Concerning(w, s), except)
  }

  function SquadsOf(w: World, ids: set<InviteId>): set<SquadId> {
    set i | i in ids && i in w.invites :: w.invites[i].squad
  }

  /** The squads `_cancel_pending_of` leaves empty and deletes. */
  function Orphaned(w: World, s: Student, except: Option<InviteId>): set<SquadId> {
    var hit := PendingOf(w, s, except);
    var kept := if except.Some? then SquadsOf(w, {except.value}) else {};
    var after := CancelInvites(w, hit);
    EmptiedAmong(after, SquadsOf(w, hit), kept)
  }

  function EmptiedAmong(w: World, affected: set<SquadId>, kept: set<SquadId>): set<SquadId> {
    set q | q in affected && q !in kept && Emptied(w, q)
  }

  function CancelPendingOf(w: World, s: Student, except: Option<InviteId>): World {
    DeleteSquads(CancelInvites(w, PendingOf(w, s, except)), Orphaned(w, s, except))
  }

  function CreateWithInvites(w: World, creator: Student, ids: seq<Student>): Result<World, Reason> {
    if w.size.None? then Err(Disabled)
    else if !DistinctStudents(ids) then Err(Duplicate)
    else if creator in ids then Err(SelfInvite)
    else if ids == [] then Err(TooFew)
    else if |ids| > w.size.value - 1 then Err(TooMany)
    else if !Eligible(w, creator) then Err(Eligibility(w, creator).value)
    else
      var refused := FirstRefusal(w, ids);
      if refused.Some? then Err(refused.value)
      else Ok(Created(w, creator, ids))
  }

  function NewInvites(from: nat, q: SquadId, creator: Student, ids: seq<Student>): (r: map<InviteId, Invite>)
    ensures forall i :: i in r <==> from <= i < from + |ids|
    ensures forall i :: i in r ==> r[i] == Invite(q, ids[i - from], creator, Pending)
  {
    if ids == [] then map[] else
    var last := |ids| - 1;
    NewInvites(from, q, creator, ids[..last])[from + last := Invite(q, ids[last], creator, Pending)]
  }

  function Created(w: World, creator: Student, ids: seq<Student>): World {
    var added := NewInvites(w.nextInvite, w.nextSquad, creator, ids);
    w.(squads := w.squads[w.nextSquad := Squad({creator}, Some(creator), false)],
       invites := w.invites + added,
       nextSquad := w.nextSquad + 1,
       nextInvite := w.nextInvite + |ids|)
  }

  /** `_load_invite` and the ownership check; nothing is written. */
  function BeginAccept(w: World, tx: TxId, i: InviteId, s: Student): Result<World, Reason>
    requires tx !in w.inFlight
  {
    if i !in w.invites || w.invites[i].status != Pending then Err(NotPending)
    else if w.invites[i].invited != s then Err(NotYours)
    else Ok(w.(inFlight := w.inFlight[tx := Loaded(i, s, w.invites[i].squad)]))
  }

  function WithoutTx(w: World, tx: TxId): World {
    w.(inFlight := map t | t in w.inFlight && t != tx :: w.inFlight[t])
  }

  /** Why an accept is refused once the squad row is locked and re-read. */
  function JoinRefusal(w: World, s: Student, q: SquadId): Option<Reason>
    requires q in w.squads
  {
    if !Eligible(w, s) then Eligibility(w, s)
    else if w.squads[q].locked then Some(SquadLocked)
    else if |w.squads[q].members| >= (if w.size.Some? then w.size.value else 0) then Some(SquadFull)
    else None
  }

  /** The refresh under lock. A refusal cancels the invite and commits; a vanished squad aborts. */
  function LockSquad(w: World, tx: TxId): World
    requires tx in w.inFlight && w.inFlight[tx].Loaded?
  {
    var a := w.inFlight[tx];
    if a.squad !in w.squads then WithoutTx(w, tx)
    else if JoinRefusal(w, a.student, a.squad).Some? then WithoutTx(CancelInvites(w, {a.invite}), tx)
    else w.(inFlight := w.inFlight[tx := Holding(a.invite, a.student, a.squad)])
  }

  function AddMember(w: World, s: Student, q: SquadId): World
    requires q in w.squads
  {
    w.(squads := w.squads[q := w.squads[q].(members := w.squads[q].members + {s})])
  }

  function MarkAccepted(w: World, i: InviteId): World {
    if i in w.invites then w.(invites := w.invites[i := w.invites[i].(status := Accepted)]) else w
  }

  /** Lock a squad; its invites still pending are cancelled. */
  function LockAndCancel(w: World, q: SquadId): World
    requires q in w.squads
  {
    var open := set i | i in w.invites && w.invites[i].squad == q && w.invites[i].status == Pending;
    CancelInvites(w.(squads := w.squads[q := w.squads[q].(locked := true)]), open)
  }

  /** The join itself, after the capacity check. */
  function Join(w: World, i: InviteId, s: Student, q: SquadId): World
    requires q in w.squads
  {
    var swept := CancelPendingOf(AddMember(w, s, q), s, Some(i));
    var marked := MarkAccepted(swept, i);
    if q in marked.squads && |marked.squads[q].members| >= (if w.size.Some? then w.size.value else 0)
    then LockAndCancel(marked, q) else marked
  }

  /** The commit. A unique constraint on (subject, student) rolls back a second membership. */
  function CommitAccept(w: World, tx: TxId): World
    requires tx in w.inFlight && w.inFlight[tx].Holding?
  {
    var a := w.inFlight[tx];
    var rest := WithoutTx(w, tx);
    if InSquad(w, a.student) || a.squad !in w.squads then rest else Join(rest, a.invite, a.student, a.squad)
  }

  function DeclineInvite(w: World, i: InviteId, s: Student): Result<World, Reason> {
    if i !in w.invites || w.invites[i].status != Pending then Err(NotPending)
    else if w.invites[i].invited != s then Err(NotYours)
    else
      Ok(DeleteIfEmpty(DeclinedIn(w, i), w.invites[i].squad))
  }

  function CancelInvite(w: World, i: InviteId, s: Student): Result<World, Reason> {
    if i !in w.invites || w.invites[i].status != Pending then Err(NotPending)
    else if w.invites[i].squad !in w.squads || w.squads[w.invites[i].squad].creator != Some(s) then Err(NotYours)
    else Ok(DeleteIfEmpty(CancelInvites(w, {i}), w.invites[i].squad))
  }

  /** Unlocked, with at most one member. */
  predicate Small(w: World, q: SquadId) {
    q in w.squads && |w.squads[q].members| <= 1 && !w.squads[q].locked
  }

  /** A decline or a cancellation loads its invite, with the squad as it is now. */
  function LoadAnswer(w: World, tx: TxId, i: InviteId, s: Student, decline: bool): Result<World, Reason>
    requires tx !in w.inFlight
  {
    if i !in w.invites || w.invites[i].status != Pending then Err(NotPending)
    else if decline && w.invites[i].invited != s then Err(NotYours)
    else if !decline && (w.invites[i].squad !in w.squads || w.squads[w.invites[i].squad].creator != Some(s))
      then Err(NotYours)
    else
      var q := w.invites[i].squad;
      Ok(w.(inFlight := w.inFlight[tx := Answering(i, s, q, decline, Small(w, q))]))
  }

  predicate IsAnswering(w: World, tx: TxId) {
    tx in w.inFlight && w.inFlight[tx].Answering?
  }

  /** The answer is written over whatever the invite has become; a deleted invite aborts. */
  function Answered(w: World, tx: TxId): World
    requires IsAnswering(w, tx)
  {
    var a := w.inFlight[tx];
    var rest := WithoutTx(w, tx);
    if a.invite !in w.invites then rest
    else
      var status := if a.decline then InviteStatus.Declined else Cancelled;
      rest.(invites := rest.invites[a.invite := rest.invites[a.invite].(status := status)])
  }

  /** The squad counts as emptied by the copy that was loaded and by the invites as they are now. */
  predicate AnswerDeletes(w: World, tx: TxId)
    requires IsAnswering(w, tx)
  {
    var a := w.inFlight[tx];
    a.invite in w.invites && a.small && a.squad in w.squads && !SquadPending(Answered(w, tx), a.squad)
  }

  /** Delete a squad; submissions that name it lose the name. */
  function DropSquad(w: World, q: SquadId): World {
    DeleteSquads(w, {q}).(submissions := map k | k in w.submissions ::
      if w.submissions[k].squad == Some(q) then w.submissions[k].(squad := None) else w.submissions[k])
  }

  function WriteAnswer(w: World, tx: TxId): World
    requires IsAnswering(w, tx)
  {
    if AnswerDeletes(w, tx) then DropSquad(Answered(w, tx), w.inFlight[tx].squad) else Answered(w, tx)
  }

  function CancelAll(w: World, ids: seq<Student>): World {
    if ids == [] then w else CancelPendingOf(CancelAll(w, ids[..|ids| - 1]), ids[|ids| - 1], None)
  }

  function TeacherAssign(w: World, ids: seq<Student>): Result<World, Reason> {
    if w.size.None? then Err(Disabled)
    else if !DistinctStudents(ids) then Err(Duplicate)
    else if |ids| < 2 then Err(TooFew)
    else if |ids| > w.size.value then Err(TooMany)
    else
      var refused := FirstRefusal(w, ids);
      if refused.Some? then Err(refused.value)
      else Ok(CancelAll(Assigned(w, ids), ids))
  }

  /** The squad part of `submit_assignment` and `open_quiz_submission`: refused while an invite
      is pending, else one row carrying the squad, which is locked. `q` is what `squad_of` found. */
  function Submit(w: World, s: Student, assignment: int, q: Option<SquadId>): Result<World, Reason>
    requires FoundSquad(w, s, q)
  {
    if w.size.Some? && (OwnPending(w, s) || (q.Some? && SquadPending(w, q.value))) then Err(InvitePending)
    else
      var row := Submission(s, assignment, if w.size.Some? then q else None, None);
      var filed := w.(submissions := w.submissions[w.nextSubmission := row], nextSubmission := w.nextSubmission + 1);
      Ok(if w.size.Some? && q.Some? then
           filed.(squads := filed.squads[q.value := filed.squads[q.value].(locked := true)])
         else filed)
  }

  predicate FoundSquad(w: World, s: Student, q: Option<SquadId>) {
    if q.Some? then IsMember(w, s, q.value) else !InSquad(w, s)
  }

  // ---------------------------------------------------------------- invariant

  ghost predicate MembersApart(w: World) {
    forall p, q, s :: IsMember(w, s, p) && IsMember(w, s, q) ==> p == q
  }

  ghost predicate SquadOk(w: World, q: SquadId)
    requires q in w.squads
  {
    q < w.nextSquad && w.size.Some? && 1 <= |w.squads[q].members| <= w.size.value
  }

  ghost predicate InviteOk(w: World, i: InviteId)
    requires i in w.invites
  {
    i < w.nextInvite && w.invites[i].squad in w.squads
    && (w.invites[i].status == Pending ==> !w.squads[w.invites[i].squad].locked)
  }

  ghost predicate DrawOk(w: World, k: SubmissionId)
    requires k in w.submissions
  {
    var sub := w.submissions[k];
    sub.draw.Some? && sub.squad.Some? ==>
      sub.squad.value in w.squads
      && SortedMembers(sub.draw.value.memberOrder, w.squads[sub.squad.value].members)
      && |sub.draw.value.slices| == |sub.draw.value.memberOrder|
      && QuizDraw.Partition(sub.draw.value.cards, sub.draw.value.slices)
  }

  /** A row that names a squad was filed by a member of it, and the squad is locked. A row that
      names none belongs to a student without a squad, or to one who joined others since. */
  ghost predicate SubmissionOk(w: World, k: SubmissionId)
    requires k in w.submissions
  {
    var sub := w.submissions[k];
    k < w.nextSubmission
    && (sub.squad.Some? ==>
          IsMember(w, sub.student, sub.squad.value) && w.squads[sub.squad.value].locked)
    && (sub.squad.None? ==> forall q :: IsMember(w, sub.student, q) ==> |w.squads[q].members| >= 2)
    && DrawOk(w, k)
  }

  /** A request in flight still finds its invite while the squad exists; a held squad row stays
      as the holder read it: open, with a free place. */
  ghost predicate HolderOk(w: World, tx: TxId)
    requires tx in w.inFlight
  {
    var a := w.inFlight[tx];
    a.squad < w.nextSquad
    && (a.squad in w.squads ==> a.invite in w.invites && w.invites[a.invite].squad == a.squad)
    && (a.Holding? ==>
          a.squad in w.squads && !w.squads[a.squad].locked
          && w.size.Some? && |w.squads[a.squad].members| < w.size.value)
  }

  ghost predicate Inv(w: World) {
    MembersApart(w)
    && (forall q :: q in w.squads ==> SquadOk(w, q))
    && (forall i :: i in w.invites ==> InviteOk(w, i))
    && (forall k :: k in w.submissions ==> SubmissionOk(w, k))
    && (forall tx :: tx in w.inFlight ==> HolderOk(w, tx))
    && (forall t, u :: HoldsRow(w, t) && HoldsRow(w, u) && w.inFlight[t].squad == w.inFlight[u].squad ==> t == u)
  }

  ghost predicate HoldsRow(w: World, tx: TxId) {
    tx in w.inFlight && w.inFlight[tx].Holding?
  }

  ghost predicate Held(w: World, q: SquadId) {
    exists tx :: HoldsRow(w, tx) && w.inFlight[tx].squad == q
  }

  /** The members in ascending order of their ids. */
  ghost predicate SortedMembers(order: seq<Student>, members: set<Student>) {
    (forall i, j :: 0 <= i < j < |order| ==> order[i] < order[j])
    && (forall s :: s in order <==> s in members)
  }

  /** Locked squads keep their members and their lock forever. */
  ghost predicate Frozen(w: World, v: World) {
    forall q :: q in w.squads && w.squads[q].locked ==> q in v.squads && v.squads[q] == w.squads[q]
  }

  /** Rows once filed keep their squad, and a draw once written stays as written. */
  ghost predicate RowsKept(w: World, v: World) {
    forall k :: k in w.submissions ==>
      k in v.submissions && v.submissions[k].student == w.submissions[k].student
      && v.submissions[k].squad == w.submissions[k].squad
      && (w.submissions[k].draw.Some? ==> v.submissions[k].draw == w.submissions[k].draw)
  }

  /** A row without a squad whose filer is in one. */
  ghost predicate Stray(w: World, k: SubmissionId) {
    k in w.submissions && w.submissions[k].squad.None? && InSquad(w, w.submissions[k].student)
  }

  /** The same rows are stray before and after. */
  ghost predicate StraysKept(w: World, v: World) {
    forall k :: Stray(v, k) <==> Stray(w, k)
  }

  /** What every step but a join does. */
  ghost predicate Kept(w: World, v: World) {
    Inv(v) && Frozen(w, v) && RowsKept(w, v) && StraysKept(w, v)
  }

  // ---------------------------------------------------------------- what the steps have in common

  /** w becomes v by answering invites and deleting squads that are neither locked nor held. */
  ghost predicate Deletes(w: World, v: World) {
    v == w.(squads := v.squads, invites := v.invites)
    && (forall q :: q in v.squads ==> q in w.squads && v.squads[q] == w.squads[q])
    && (forall q :: q in w.squads && q !in v.squads ==> !w.squads[q].locked && !Held(w, q))
    && (forall i :: i in v.invites ==>
          i in w.invites && v.invites[i].squad == w.invites[i].squad && v.invites[i].squad in v.squads
          && (v.invites[i].status == Pending ==> w.invites[i].status == Pending))
    && (forall i :: i in w.invites && w.invites[i].squad in v.squads ==> i in v.invites)
  }

  /** The same, deleting only squads of at most one member. */
  ghost predicate Trims(w: World, v: World) {
    Deletes(w, v) && forall q :: q in w.squads && q !in v.squads ==> |w.squads[q].members| <= 1
  }

  /** A deletion may take a stray row's squad away, but makes no row stray. */
  ghost predicate Loosened(w: World, v: World) {
    Inv(v) && Frozen(w, v) && RowsKept(w, v) && forall k :: Stray(v, k) ==> Stray(w, k)
  }

  lemma TrimKeeps(w: World, v: World)
    requires Inv(w) && Trims(w, v)
    ensures Kept(w, v)
  {
    DeleteKeeps(w, v);
    forall k | Stray(w, k) ensures Stray(v, k) {
      assert SubmissionOk(w, k);
      var q :| q in w.squads && IsMember(w, w.submissions[k].student, q);
      assert IsMember(v, w.submissions[k].student, q);
    }
  }

  lemma DeleteRows(w: World, v: World)
    requires Inv(w) && Deletes(w, v)
    ensures MembersApart(v) && (forall k :: Stray(v, k) ==> Stray(w, k))
    ensures forall k :: k in v.submissions ==> SubmissionOk(v, k)
  {
    forall s, q | IsMember(v, s, q) ensures IsMember(w, s, q) {}
    forall k | k in v.submissions ensures SubmissionOk(v, k) && (Stray(v, k) ==> Stray(w, k)) {
      assert SubmissionOk(w, k);
    }
  }

  lemma DeleteKeeps(w: World, v: World)
    requires Inv(w) && Deletes(w, v)
    ensures Loosened(w, v)
  {
    DeleteRows(w, v);
    forall i | i in v.invites ensures InviteOk(v, i) { assert InviteOk(w, i); }
    forall q | q in v.squads ensures SquadOk(v, q) { assert SquadOk(w, q); }
    forall tx | tx in v.inFlight ensures HolderOk(v, tx) {
      assert HolderOk(w, tx);
      if v.inFlight[tx].Holding? { assert HoldsRow(w, tx); }
    }
    forall t, u | HoldsRow(v, t) && HoldsRow(v, u) && v.inFlight[t].squad == v.inFlight[u].squad ensures t == u {
      assert HoldsRow(w, t) && HoldsRow(w, u);
    }
  }

  lemma CancelTrims(w: World, ids: set<InviteId>)
    requires Inv(w)
    ensures Trims(w, CancelInvites(w, ids))
  {
    forall i | i in w.invites ensures w.invites[i].squad in w.squads { assert InviteOk(w, i); }
  }

  lemma DeleteTrims(w: World, dead: set<SquadId>)
    requires Inv(w)
    requires forall q :: q in dead && q in w.squads ==> !w.squads[q].locked && |w.squads[q].members| <= 1 && !Held(w, q)
    ensures Trims(w, DeleteSquads(w, dead))
  {
    forall i | i in w.invites ensures w.invites[i].squad in w.squads { assert InviteOk(w, i); }
  }

  lemma LateDeleteKeeps(w: World, q: SquadId)
    requires Inv(w) && q in w.squads && !w.squads[q].locked && !Held(w, q)
    ensures Loosened(w, DeleteSquads(w, {q}))
  {
    forall i | i in w.invites ensures w.invites[i].squad in w.squads { assert InviteOk(w, i); }
    DeleteKeeps(w, DeleteSquads(w, {q}));
  }

  /** Only squads that are unlocked, and not held by an accept, are swept away. */
  lemma SweepKeeps(w: World, s: Student, except: Option<InviteId>)
    requires Inv(w)
    requires forall q :: q in Orphaned(w, s, except) ==> !Held(w, q)
    ensures var v := CancelPendingOf(w, s, except);
            Kept(w, v) && Trims(CancelInvites(w, PendingOf(w, s, except)), v)
            && v.inFlight == w.inFlight
  {
    var c := CancelInvites(w, PendingOf(w, s, except));
    CancelTrims(w, PendingOf(w, s, except));
    TrimKeeps(w, c);
    var dead := Orphaned(w, s, except);
    forall q | q in dead && q in c.squads ensures !c.squads[q].locked && |c.squads[q].members| <= 1 && !Held(c, q) {
      assert Emptied(c, q);
      assert !Held(w, q);
      assert forall tx :: HoldsRow(c, tx) ==> HoldsRow(w, tx);
    }
    DeleteTrims(c, dead);
    TrimKeeps(c, CancelPendingOf(w, s, except));
  }

  // ---------------------------------------------------------------- each step

  lemma FreshSquad(w: World)
    requires Inv(w)
    ensures w.nextSquad !in w.squads
  {
    assert forall q :: q in w.squads ==> SquadOk(w, q);
  }

  lemma CreateKeeps(w: World, creator: Student, ids: seq<Student>)
    requires Inv(w) && CreateWithInvites(w, creator, ids).Ok?
    ensures var v := CreateWithInvites(w, creator, ids).value;
            Kept(w, v)
  {
    var v := Created(w, creator, ids);
    FreshSquad(w);
    assert Eligible(w, creator) && !InSquad(w, creator) && !HasSubmitted(w, creator);
    NewMembersKeep(w, v, w.nextSquad, {creator});
    forall i | i in v.invites ensures InviteOk(v, i) {
      if i in w.invites { assert InviteOk(w, i); }
    }
    forall i | i in w.invites ensures v.invites[i] == w.invites[i] { assert InviteOk(w, i); }
    forall tx | tx in v.inFlight ensures HolderOk(v, tx) {
      assert HolderOk(w, tx);
    }
    HoldersApart(w, v);
  }

  lemma HoldersApart(w: World, v: World)
    requires Inv(w) && v.inFlight == w.inFlight
    ensures forall t, u :: HoldsRow(v, t) && HoldsRow(v, u) && v.inFlight[t].squad == v.inFlight[u].squad ==> t == u
  {
    forall t, u | HoldsRow(v, t) && HoldsRow(v, u) && v.inFlight[t].squad == v.inFlight[u].squad ensures t == u {
      assert HoldsRow(w, t) && HoldsRow(w, u);
    }
  }

  /** A new squad of students who are in none and have filed nothing. */
  lemma NewMembersKeep(w: World, v: World, q: SquadId, members: set<Student>)
    requires Inv(w) && q == w.nextSquad && q !in w.squads
    requires w.size.Some? && 1 <= |members| <= w.size.value && v.size == w.size
    requires v.squads.Keys == w.squads.Keys + {q} && v.squads[q].members == members && v.nextSquad == q + 1
    requires forall p :: p in w.squads ==> v.squads[p] == w.squads[p]
    requires v.submissions == w.submissions && v.nextSubmission == w.nextSubmission
    requires forall s :: s in members ==> !InSquad(w, s) && !HasSubmitted(w, s)
    ensures MembersApart(v) && Frozen(w, v) && RowsKept(w, v) && StraysKept(w, v)
    ensures forall p :: p in v.squads ==> SquadOk(v, p)
    ensures forall k :: k in v.submissions ==> SubmissionOk(v, k)
  {
    forall s, p | IsMember(v, s, p) ensures (if p == q then s in members else IsMember(w, s, p)) {}
    forall s, p | IsMember(w, s, p) ensures IsMember(v, s, p) {}
    forall p | p in v.squads ensures SquadOk(v, p) {
      if p != q { assert SquadOk(w, p); }
    }
    forall a, b, s | IsMember(v, s, a) && IsMember(v, s, b) ensures a == b {
      assert a != q ==> IsMember(w, s, a);
      assert b != q ==> IsMember(w, s, b);
    }
    forall k | k in v.submissions ensures SubmissionOk(v, k) {
      assert SubmissionOk(w, k);
      var sub := w.submissions[k];
      assert HasSubmitted(w, sub.student);
      assert sub.student !in members;
    }
  }

  /** The world a teacher's assignment starts its sweeps from. */
  function Assigned(w: World, ids: seq<Student>): World {
    w.(squads := w.squads[w.nextSquad := Squad((set s | s in ids), None, true)], nextSquad := w.nextSquad + 1)
  }

  /** None of the squads the sweeps would delete is held by an accept. */
  ghost predicate CanCancelAll(w: World, ids: seq<Student>) {
    ids != [] ==>
      var last := |ids| - 1;
      CanCancelAll(w, ids[..last])
      && forall q :: q in Orphaned(CancelAll(w, ids[..last]), ids[last], None) ==> !Held(w, q)
  }

  lemma AssignKeeps(w: World, ids: seq<Student>)
    requires Inv(w) && TeacherAssign(w, ids).Ok? && CanCancelAll(Assigned(w, ids), ids)
    ensures var v := TeacherAssign(w, ids).value;
            Kept(w, v)
  {
    AllEligible(w, ids);
    AtMost(ids);
    AtLeastOne(ids);
    LockedSquadKeeps(w, ids);
    CancelAllKeeps(Assigned(w, ids), ids);
    KeptTwice(w, Assigned(w, ids), TeacherAssign(w, ids).value);
  }

  lemma KeptTwice(w: World, u: World, v: World)
    requires Kept(w, u) && Kept(u, v)
    ensures Kept(w, v)
  {
  }

  lemma LockedSquadKeeps(w: World, ids: seq<Student>)
    requires Inv(w) && w.size.Some? && 1 <= |set s | s in ids| <= w.size.value
    requires forall s :: s in ids ==> Eligible(w, s)
    ensures Kept(w, Assigned(w, ids))
  {
    var v := Assigned(w, ids);
    FreshSquad(w);
    NewMembersKeep(w, v, w.nextSquad, (set s | s in ids));
    forall i | i in v.invites ensures InviteOk(v, i) { assert InviteOk(w, i); }
    forall tx | tx in v.inFlight ensures HolderOk(v, tx) { assert HolderOk(w, tx); }
    HoldersApart(w, v);
  }

  lemma {:induction false} AllEligible(w: World, ids: seq<Student>)
    requires FirstRefusal(w, ids).None?
    ensures forall s :: s in ids ==> Eligible(w, s)
  {
    if ids != [] { AllEligible(w, ids[1..]); }
  }

  lemma {:induction false} AtMost(ids: seq<Student>)
    ensures |set s | s in ids| <= |ids|
  {
    if ids != [] {
      AtMost(ids[1..]);
      assert (set s | s in ids) == {ids[0]} + (set s | s in ids[1..]);
    }
  }

  lemma {:induction false} CancelAllKeeps(w: World, ids: seq<Student>)
    requires Inv(w) && CanCancelAll(w, ids)
    ensures var v := CancelAll(w, ids);
            Kept(w, v) && v.inFlight == w.inFlight
  {
    if ids != [] {
      var last := |ids| - 1;
      CancelAllKeeps(w, ids[..last]);
      var u := CancelAll(w, ids[..last]);
      forall q | !Held(w, q) ensures !Held(u, q) { SameHeld(w, u, q); }
      SweepKeeps(u, ids[last], None);
      KeptTwice(w, u, CancelAll(w, ids));
    }
  }

  lemma AtLeastOne(ids: seq<Student>)
    requires ids != []
    ensures |set s | s in ids| >= 1
  {
    var all := set s | s in ids;
    assert all - {ids[0]} + {ids[0]} == all;
    assert |all| >= 1;
    assert all == (set s | s in ids);
  }

  lemma BeginKeeps(w: World, tx: TxId, i: InviteId, s: Student)
    requires Inv(w) && tx !in w.inFlight && BeginAccept(w, tx, i, s).Ok?
    ensures var v := BeginAccept(w, tx, i, s).value;
            Kept(w, v)
  {
    var v := BeginAccept(w, tx, i, s).value;
    SameRowsKeep(w, v);
    forall t | t in v.inFlight ensures HolderOk(v, t) {
      if t != tx { assert HolderOk(w, t); }
    }
    assert forall t :: HoldsRow(v, t) ==> HoldsRow(w, t) && v.inFlight[t] == w.inFlight[t];
  }

  /** A step that only touches the accepts in flight. */
  lemma SameRowsKeep(w: World, v: World)
    requires Inv(w) && v == w.(inFlight := v.inFlight)
    ensures MembersApart(v) && Frozen(w, v) && RowsKept(w, v) && StraysKept(w, v)
    ensures forall q :: q in v.squads ==> SquadOk(v, q)
    ensures forall i :: i in v.invites ==> InviteOk(v, i)
    ensures forall k :: k in v.submissions ==> SubmissionOk(v, k)
  {
    assert forall s, q :: IsMember(v, s, q) <==> IsMember(w, s, q);
    forall q | q in v.squads ensures SquadOk(v, q) { assert SquadOk(w, q); }
    forall i | i in v.invites ensures InviteOk(v, i) { assert InviteOk(w, i); }
    forall k | k in v.submissions ensures SubmissionOk(v, k) { assert SubmissionOk(w, k); }
  }

  lemma DropTxKeeps(w: World, tx: TxId)
    requires Inv(w)
    ensures var v := WithoutTx(w, tx);
            Kept(w, v)
  {
    var v := WithoutTx(w, tx);
    SameRowsKeep(w, v);
    forall t | t in v.inFlight ensures HolderOk(v, t) { assert HolderOk(w, t); }
    assert forall t :: HoldsRow(v, t) ==> HoldsRow(w, t) && v.inFlight[t] == w.inFlight[t];
  }

  lemma LockKeeps(w: World, tx: TxId)
    requires Inv(w) && tx in w.inFlight && w.inFlight[tx].Loaded?
    requires !Held(w, w.inFlight[tx].squad)
    ensures var v := LockSquad(w, tx);
            Kept(w, v)
  {
    var a := w.inFlight[tx];
    if a.squad !in w.squads {
      DropTxKeeps(w, tx);
    } else if JoinRefusal(w, a.student, a.squad).Some? {
      CancelTrims(w, {a.invite});
      TrimKeeps(w, CancelInvites(w, {a.invite}));
      DropTxKeeps(CancelInvites(w, {a.invite}), tx);
    } else {
      var v := LockSquad(w, tx);
      SameRowsKeep(w, v);
      forall t | t in v.inFlight ensures HolderOk(v, t) {
        if t != tx { assert HolderOk(w, t); }
      }
      forall t, u | HoldsRow(v, t) && HoldsRow(v, u) && v.inFlight[t].squad == v.inFlight[u].squad ensures t == u {
        assert t != tx ==> HoldsRow(w, t);
        assert u != tx ==> HoldsRow(w, u);
      }
    }
  }

  /** What a join does to the rows: those the student filed become stray, all others stay. */
  ghost predicate Joined(w: World, v: World, s: Student) {
    Inv(v) && Frozen(w, v) && RowsKept(w, v) && forall k :: Stray(v, k) <==> Stray(w, k) || FiledBy(w, k, s)
  }

  ghost predicate FiledBy(w: World, k: SubmissionId, s: Student) {
    k in w.submissions && w.submissions[k].student == s
  }

  lemma AddMemberKeeps(w: World, s: Student, q: SquadId)
    requires Inv(w) && q in w.squads && !w.squads[q].locked && !Held(w, q)
    requires w.size.Some? && |w.squads[q].members| < w.size.value && !InSquad(w, s)
    ensures Joined(w, AddMember(w, s, q), s)
  {
    var v := AddMember(w, s, q);
    AddMemberRows(w, s, q);
    forall p | p in v.squads ensures SquadOk(v, p) { assert SquadOk(w, p); }
    forall i | i in v.invites ensures InviteOk(v, i) { assert InviteOk(w, i); }
    forall tx | tx in v.inFlight ensures HolderOk(v, tx) {
      assert HolderOk(w, tx);
      assert HoldsRow(w, tx) ==> w.inFlight[tx].squad != q;
    }
    HoldersApart(w, v);
  }

  lemma AddMemberRows(w: World, s: Student, q: SquadId)
    requires Inv(w) && q in w.squads && !w.squads[q].locked && !InSquad(w, s)
    ensures var v := AddMember(w, s, q);
            MembersApart(v) && (forall k :: k in v.submissions ==> SubmissionOk(v, k))
            && forall k :: Stray(v, k) <==> Stray(w, k) || FiledBy(w, k, s)
  {
    var v := AddMember(w, s, q);
    assert SquadOk(w, q) && !IsMember(w, s, q);
    forall t, p ensures IsMember(v, t, p) <==> IsMember(w, t, p) || (t == s && p == q) {}
    assert forall t :: InSquad(v, t) <==> InSquad(w, t) || t == s by {
      assert IsMember(v, s, q);
      forall t | InSquad(w, t) ensures InSquad(v, t) {
        var p :| p in w.squads && IsMember(w, t, p);
        assert IsMember(v, t, p);
      }
    }
    forall k | k in v.submissions ensures SubmissionOk(v, k) { assert SubmissionOk(w, k); }
    forall k ensures Stray(v, k) <==> Stray(w, k) || FiledBy(w, k, s) {
      if FiledBy(w, k, s) { assert SubmissionOk(w, k); }
    }
  }

  lemma LockSquadKeeps(w: World, q: SquadId)
    requires Inv(w) && q in w.squads && !Held(w, q)
    ensures var v := LockAndCancel(w, q);
            Kept(w, v)
  {
    var v := LockAndCancel(w, q);
    forall s, p | IsMember(v, s, p) ensures IsMember(w, s, p) {}
    forall p | p in v.squads ensures SquadOk(v, p) { assert SquadOk(w, p); }
    forall i | i in v.invites ensures InviteOk(v, i) { assert InviteOk(w, i); }
    forall k | k in v.submissions ensures SubmissionOk(v, k) {
      assert SubmissionOk(w, k);
    }
    SameMembersStrays(w, v);
    forall tx | tx in v.inFlight ensures HolderOk(v, tx) {
      assert HolderOk(w, tx);
      assert HoldsRow(w, tx) ==> w.inFlight[tx].squad != q;
    }
    HoldersApart(w, v);
  }

  lemma SameMembersStrays(w: World, v: World)
    requires v.squads.Keys == w.squads.Keys && forall q :: q in w.squads ==> v.squads[q].members == w.squads[q].members
    ensures forall s :: InSquad(v, s) <==> InSquad(w, s)
    ensures v.submissions == w.submissions ==> StraysKept(w, v)
  {
    assert forall s, q :: IsMember(v, s, q) <==> IsMember(w, s, q);
  }

  lemma MarkTrims(w: World, i: InviteId)
    requires Inv(w)
    ensures Trims(w, MarkAccepted(w, i))
  {
    forall j | j in w.invites ensures w.invites[j].squad in w.squads { assert InviteOk(w, j); }
  }

  lemma CommitKeeps(w: World, tx: TxId)
    requires Inv(w) && HoldsRow(w, tx) && CanSweep(w, tx)
    ensures var v := CommitAccept(w, tx);
            if InSquad(w, w.inFlight[tx].student) then Kept(w, v) else Joined(w, v, w.inFlight[tx].student)
  {
    var a := w.inFlight[tx];
    var rest := WithoutTx(w, tx);
    DropTxKeeps(w, tx);
    assert HolderOk(w, tx);
    if !InSquad(w, a.student) {
      assert !Held(rest, a.squad) by {
        assert forall t :: HoldsRow(rest, t) ==> t != tx && HoldsRow(w, t) && rest.inFlight[t] == w.inFlight[t];
      }
      SameMembersStrays(w, rest);
      JoinKeeps(rest, a.invite, a.student, a.squad);
      ThenJoined(w, rest, CommitAccept(w, tx), a.student);
    }
  }

  lemma ThenJoined(w: World, u: World, v: World, s: Student)
    requires Kept(w, u) && Joined(u, v, s) && u.submissions == w.submissions
    ensures Joined(w, v, s)
  {
  }

  lemma JoinedThen(w: World, u: World, v: World, s: Student)
    requires Joined(w, u, s) && Kept(u, v)
    ensures Joined(w, v, s)
  {
  }

  lemma JoinKeeps(w: World, i: InviteId, s: Student, q: SquadId)
    requires Inv(w) && q in w.squads && !w.squads[q].locked && !Held(w, q)
    requires w.size.Some? && |w.squads[q].members| < w.size.value && !InSquad(w, s)
    requires forall p :: p in Orphaned(AddMember(w, s, q), s, Some(i)) ==> !Held(AddMember(w, s, q), p)
    ensures Joined(w, Join(w, i, s, q), s)
  {
    JoinSweepKeeps(w, i, s, q);
    var swept := CancelPendingOf(AddMember(w, s, q), s, Some(i));
    MarkTrims(swept, i);
    var marked := MarkAccepted(swept, i);
    TrimKeeps(swept, marked);
    JoinedThen(w, swept, marked, s);
    SameHeld(w, marked, q);
    if q in marked.squads {
      LockSquadKeeps(marked, q);
      JoinedThen(w, marked, LockAndCancel(marked, q), s);
    }
  }

  lemma JoinSweepKeeps(w: World, i: InviteId, s: Student, q: SquadId)
    requires Inv(w) && q in w.squads && !w.squads[q].locked && !Held(w, q)
    requires w.size.Some? && |w.squads[q].members| < w.size.value && !InSquad(w, s)
    requires forall p :: p in Orphaned(AddMember(w, s, q), s, Some(i)) ==> !Held(AddMember(w, s, q), p)
    ensures var v := CancelPendingOf(AddMember(w, s, q), s, Some(i));
            Joined(w, v, s) && v.inFlight == w.inFlight
  {
    AddMemberKeeps(w, s, q);
    SweepKeeps(AddMember(w, s, q), s, Some(i));
    JoinedThen(w, AddMember(w, s, q), CancelPendingOf(AddMember(w, s, q), s, Some(i)), s);
  }

  lemma SameHeld(w: World, v: World, q: SquadId)
    requires v.inFlight == w.inFlight && !Held(w, q)
    ensures !Held(v, q)
  {
    assert forall t :: HoldsRow(v, t) ==> HoldsRow(w, t);
  }

  /** The squads this commit would delete are not locked by another accept. */
  ghost predicate CanSweep(w: World, tx: TxId)
    requires HoldsRow(w, tx)
  {
    var a := w.inFlight[tx];
    a.squad in w.squads && !InSquad(w, a.student) ==>
      var added := AddMember(WithoutTx(w, tx), a.student, a.squad);
      forall q :: q in Orphaned(added, a.student, Some(a.invite)) ==> !Held(added, q)
  }

  /** Deleting a squad waits for an accept that holds its row. */
  ghost predicate CanDelete(w: World, q: SquadId) {
    Emptied(w, q) ==> !Held(w, q)
  }

  lemma AnswerKeeps(w: World, u: World, q: SquadId)
    requires Inv(w) && Trims(w, u) && CanDelete(u, q)
    ensures Kept(w, DeleteIfEmpty(u, q))
  {
    TrimKeeps(w, u);
    if Emptied(u, q) {
      DeleteTrims(u, {q});
      TrimKeeps(u, DeleteSquads(u, {q}));
      KeptTwice(w, u, DeleteSquads(u, {q}));
    }
  }

  function DeclinedIn(w: World, i: InviteId): World
    requires i in w.invites
  {
    w.(invites := w.invites[i := w.invites[i].(status := InviteStatus.Declined)])
  }

  lemma DeclineKeeps(w: World, i: InviteId, s: Student)
    requires Inv(w) && DeclineInvite(w, i, s).Ok? && CanDelete(DeclinedIn(w, i), w.invites[i].squad)
    ensures Kept(w, DeclineInvite(w, i, s).value)
  {
    forall j | j in w.invites ensures w.invites[j].squad in w.squads { assert InviteOk(w, j); }
    AnswerKeeps(w, DeclinedIn(w, i), w.invites[i].squad);
  }

  lemma CancelKeeps(w: World, i: InviteId, s: Student)
    requires Inv(w) && CancelInvite(w, i, s).Ok? && CanDelete(CancelInvites(w, {i}), w.invites[i].squad)
    ensures Kept(w, CancelInvite(w, i, s).value)
  {
    CancelTrims(w, {i});
    AnswerKeeps(w, CancelInvites(w, {i}), w.invites[i].squad);
  }

  lemma LoadAnswerKeeps(w: World, tx: TxId, i: InviteId, s: Student, decline: bool)
    requires Inv(w) && tx !in w.inFlight && LoadAnswer(w, tx, i, s, decline).Ok?
    ensures Kept(w, LoadAnswer(w, tx, i, s, decline).value)
  {
    var v := LoadAnswer(w, tx, i, s, decline).value;
    SameRowsKeep(w, v);
    forall t | t in v.inFlight ensures HolderOk(v, t) {
      if t != tx { assert HolderOk(w, t); }
    }
    assert forall t :: HoldsRow(v, t) ==> HoldsRow(w, t) && v.inFlight[t] == w.inFlight[t];
  }

  lemma AnsweredTrims(w: World, tx: TxId)
    requires Inv(w) && IsAnswering(w, tx)
    ensures Trims(WithoutTx(w, tx), Answered(w, tx))
  {
    forall i | i in w.invites ensures w.invites[i].squad in w.squads { assert InviteOk(w, i); }
  }

  lemma AnsweredKeeps(w: World, tx: TxId)
    requires Inv(w) && IsAnswering(w, tx)
    ensures Kept(w, Answered(w, tx))
  {
    DropTxKeeps(w, tx);
    AnsweredTrims(w, tx);
    TrimKeeps(WithoutTx(w, tx), Answered(w, tx));
    KeptTwice(w, WithoutTx(w, tx), Answered(w, tx));
  }

  lemma AnsweredHeld(w: World, tx: TxId, q: SquadId)
    requires IsAnswering(w, tx) && !Held(w, q)
    ensures !Held(Answered(w, tx), q)
  {
    var v := Answered(w, tx);
    assert forall t :: HoldsRow(v, t) ==> HoldsRow(w, t) && v.inFlight[t] == w.inFlight[t];
  }

  /** What deleting one squad does, locked or not: its rows lose it, no row becomes stray, and all
      other squads and rows are left as they were. */
  ghost predicate Dropped(w: World, v: World, q: SquadId) {
    Inv(v) && q !in v.squads
    && (forall p :: p in w.squads && w.squads[p].locked && p != q ==> p in v.squads && v.squads[p] == w.squads[p])
    && (forall k :: k in w.submissions ==>
          k in v.submissions && v.submissions[k].student == w.submissions[k].student
          && (v.submissions[k].squad == if w.submissions[k].squad == Some(q) then None else w.submissions[k].squad)
          && (w.submissions[k].draw.Some? ==> v.submissions[k].draw == w.submissions[k].draw))
    && forall k :: Stray(v, k) ==> Stray(w, k)
  }

  lemma DropRows(w: World, q: SquadId)
    requires Inv(w)
    ensures var v := DropSquad(w, q);
            MembersApart(v) && (forall k :: k in v.submissions ==> SubmissionOk(v, k))
            && forall k :: Stray(v, k) ==> Stray(w, k)
  {
    var v := DropSquad(w, q);
    forall s, p ensures IsMember(v, s, p) <==> IsMember(w, s, p) && p != q {}
    forall k | k in v.submissions ensures SubmissionOk(v, k) && (Stray(v, k) ==> Stray(w, k)) {
      assert SubmissionOk(w, k);
    }
  }

  lemma DropKeeps(w: World, q: SquadId)
    requires Inv(w) && !Held(w, q)
    ensures Dropped(w, DropSquad(w, q), q)
  {
    var v := DropSquad(w, q);
    DropRows(w, q);
    forall p | p in v.squads ensures SquadOk(v, p) { assert SquadOk(w, p); }
    forall i | i in v.invites ensures InviteOk(v, i) { assert InviteOk(w, i); }
    forall tx | tx in v.inFlight ensures HolderOk(v, tx) {
      assert HolderOk(w, tx);
      if HoldsRow(w, tx) { assert w.inFlight[tx].squad != q; }
    }
    HoldersApart(w, v);
  }

  lemma WriteAnswerKeeps(w: World, tx: TxId)
    requires Inv(w) && IsAnswering(w, tx) && (AnswerDeletes(w, tx) ==> !Held(w, w.inFlight[tx].squad))
    ensures if AnswerDeletes(w, tx) then Dropped(w, WriteAnswer(w, tx), w.inFlight[tx].squad)
            else Kept(w, WriteAnswer(w, tx))
  {
    AnsweredKeeps(w, tx);
    if AnswerDeletes(w, tx) {
      AnsweredHeld(w, tx, w.inFlight[tx].squad);
      DropKeeps(Answered(w, tx), w.inFlight[tx].squad);
      ThenDropped(w, Answered(w, tx), WriteAnswer(w, tx), w.inFlight[tx].squad);
    }
  }

  lemma ThenDropped(w: World, u: World, v: World, q: SquadId)
    requires Kept(w, u) && Dropped(u, v, q) && u.submissions == w.submissions
    ensures Dropped(w, v, q)
  {
  }

  lemma AnsweredAtOnce(w: World, tx: TxId, i: InviteId, s: Student, decline: bool)
    requires tx !in w.inFlight && LoadAnswer(w, tx, i, s, decline).Ok?
    ensures var u := LoadAnswer(w, tx, i, s, decline).value;
            IsAnswering(u, tx) && Answered(u, tx) == if decline then DeclinedIn(w, i) else CancelInvites(w, {i})
  {
    var u := LoadAnswer(w, tx, i, s, decline).value;
    assert WithoutTx(u, tx) == w;
    assert Answered(u, tx).invites == (if decline then DeclinedIn(w, i) else CancelInvites(w, {i})).invites;
  }

  lemma DropIsDelete(w: World, u: World, q: SquadId)
    requires Inv(w) && u == w.(invites := u.invites)
    ensures Emptied(u, q) ==> DropSquad(u, q) == DeleteSquads(u, {q})
  {
    if Emptied(u, q) {
      UnlockedHasNoRows(w, q);
      assert DropSquad(u, q).submissions == w.submissions;
    }
  }

  /** A decline or a cancellation that nothing interrupts is its load and its write in a row. */
  lemma AnswerAloneIsTwoSteps(w: World, tx: TxId, i: InviteId, s: Student, decline: bool)
    requires Inv(w) && tx !in w.inFlight
    ensures var atOnce := if decline then DeclineInvite(w, i, s) else CancelInvite(w, i, s);
            LoadAnswer(w, tx, i, s, decline).Err? <==> atOnce.Err?
    ensures var atOnce := if decline then DeclineInvite(w, i, s) else CancelInvite(w, i, s);
            atOnce.Ok? ==> WriteAnswer(LoadAnswer(w, tx, i, s, decline).value, tx) == atOnce.value
  {
    if LoadAnswer(w, tx, i, s, decline).Ok? {
      AnsweredAtOnce(w, tx, i, s, decline);
      assert InviteOk(w, i);
      DropIsDelete(w, if decline then DeclinedIn(w, i) else CancelInvites(w, {i}), w.invites[i].squad);
    }
  }

  lemma UnlockedHasNoRows(w: World, q: SquadId)
    requires Inv(w) && q in w.squads && !w.squads[q].locked
    ensures forall k :: k in w.submissions ==> w.submissions[k].squad != Some(q)
  {
    forall k | k in w.submissions ensures w.submissions[k].squad != Some(q) { assert SubmissionOk(w, k); }
  }

  /** Filing under a squad waits for an accept that holds its row. */
  ghost predicate CanFile(w: World, q: Option<SquadId>) {
    w.size.Some? && q.Some? ==> !Held(w, q.value)
  }

  lemma SubmitRows(w: World, s: Student, assignment: int, q: Option<SquadId>)
    requires Inv(w) && FoundSquad(w, s, q) && Submit(w, s, assignment, q).Ok?
    ensures var v := Submit(w, s, assignment, q).value;
            MembersApart(v) && RowsKept(w, v) && StraysKept(w, v)
            && forall k :: k in v.submissions ==> SubmissionOk(v, k)
  {
    var v := Submit(w, s, assignment, q).value;
    assert w.nextSubmission !in w.submissions by {
      assert forall k :: k in w.submissions ==> SubmissionOk(w, k);
    }
    assert q.Some? ==> SquadOk(w, q.value);
    SameMembersStrays(w, v);
    forall t, p ensures IsMember(v, t, p) <==> IsMember(w, t, p) {}
    forall k | k in v.submissions ensures SubmissionOk(v, k) {
      if k != w.nextSubmission { assert SubmissionOk(w, k); }
    }
  }

  lemma SubmitKeeps(w: World, s: Student, assignment: int, q: Option<SquadId>)
    requires Inv(w) && FoundSquad(w, s, q) && CanFile(w, q) && Submit(w, s, assignment, q).Ok?
    ensures Kept(w, Submit(w, s, assignment, q).value)
  {
    var v := Submit(w, s, assignment, q).value;
    SubmitRows(w, s, assignment, q);
    forall p | p in v.squads ensures SquadOk(v, p) { assert SquadOk(w, p); }
    forall i | i in v.invites ensures InviteOk(v, i) { assert InviteOk(w, i); }
    forall tx | tx in v.inFlight ensures HolderOk(v, tx) {
      assert HolderOk(w, tx);
      if HoldsRow(w, tx) && w.size.Some? && q.Some? { assert w.inFlight[tx].squad != q.value; }
    }
    HoldersApart(w, v);
  }

  // ---------------------------------------------------------------- the shared draw

  /** `_draw_for_member` under the submission's row lock: the first member to open the quiz
      writes the draw, split over the members in sorted order; later ones find it. */
  function OpenQuiz(w: World, k: SubmissionId, cards: seq<QuizDraw.Card>, order: seq<Student>): World {
    if k !in w.submissions || w.submissions[k].squad.None? || w.submissions[k].draw.Some? || order == [] then w
    else
      var draw := Draw(cards, QuizDraw.Split(cards, |order|), order);
      w.(submissions := w.submissions[k := w.submissions[k].(draw := Some(draw))])
  }

  ghost predicate MayOpen(w: World, k: SubmissionId, cards: seq<QuizDraw.Card>, order: seq<Student>) {
    QuizDraw.DistinctIds(cards) && k in w.submissions
    && (w.submissions[k].squad.Some? ==>
          w.submissions[k].squad.value in w.squads
          && SortedMembers(order, w.squads[w.submissions[k].squad.value].members))
  }

  lemma OpenKeeps(w: World, k: SubmissionId, cards: seq<QuizDraw.Card>, order: seq<Student>)
    requires Inv(w) && MayOpen(w, k, cards, order)
    ensures var v := OpenQuiz(w, k, cards, order);
            Kept(w, v)
  {
    var v := OpenQuiz(w, k, cards, order);
    if v != w {
      QuizDraw.SplitPartitions(cards, |order|);
      assert forall t, p :: IsMember(v, t, p) <==> IsMember(w, t, p);
      forall p | p in v.squads ensures SquadOk(v, p) { assert SquadOk(w, p); }
      forall i | i in v.invites ensures InviteOk(v, i) { assert InviteOk(w, i); }
      forall j | j in v.submissions ensures SubmissionOk(v, j) { assert SubmissionOk(w, j); }
      forall tx | tx in v.inFlight ensures HolderOk(v, tx) {
        assert HolderOk(w, tx);
      }
      HoldersApart(w, v);
    }
  }

  // ---------------------------------------------------------------- runs

  datatype Step =
    | Create(creator: Student, ids: seq<Student>)
    | Begin(tx: TxId, invite: InviteId, student: Student)
    | Lock(tx: TxId)
    | Commit(tx: TxId)
    | Decline(invite: InviteId, student: Student)
    | CancelOne(invite: InviteId, student: Student)
    | Assign(ids: seq<Student>)
    | File(student: Student, assignment: int, found: Option<SquadId>)
    | Load(tx: TxId, invite: InviteId, student: Student, decline: bool)
    | Write(tx: TxId)
    | Abort(tx: TxId)
    | DeleteLate(squad: SquadId)
    | Open(submission: SubmissionId, cards: seq<QuizDraw.Card>, order: seq<Student>)

  /** When a request can go on. DeleteLate is what is left of a sweep that had to wait for an
      accept: it may delete any squad that is neither locked nor held. */
  ghost predicate Enabled(w: World, step: Step) {
    match step
    case Create(_, _) => true
    case Begin(tx, _, _) => tx !in w.inFlight
    case Lock(tx) => tx in w.inFlight && w.inFlight[tx].Loaded? && !Held(w, w.inFlight[tx].squad)
    case Commit(tx) => HoldsRow(w, tx) && CanSweep(w, tx)
    case Decline(i, s) => DeclineInvite(w, i, s).Ok? ==> CanDelete(DeclinedIn(w, i), w.invites[i].squad)
    case CancelOne(i, s) => CancelInvite(w, i, s).Ok? ==> CanDelete(CancelInvites(w, {i}), w.invites[i].squad)
    case Assign(ids) => TeacherAssign(w, ids).Ok? ==> CanCancelAll(Assigned(w, ids), ids)
    case File(s, _, q) => FoundSquad(w, s, q) && CanFile(w, q)
    case Load(tx, _, _, _) => tx !in w.inFlight
    case Write(tx) => IsAnswering(w, tx) && (AnswerDeletes(w, tx) ==> !Held(w, w.inFlight[tx].squad))
    case Abort(tx) => tx in w.inFlight
    case DeleteLate(q) => q in w.squads && !w.squads[q].locked && !Held(w, q)
    case Open(k, cards, order) => MayOpen(w, k, cards, order)
  }

  function OrSame(w: World, r: Result<World, Reason>): World {
    if r.Ok? then r.value else w
  }

  /** A refused request changes nothing, except that a refused accept cancels its invite. */
  ghost function Do(w: World, step: Step): World
    requires Enabled(w, step)
  {
    match step
    case Create(c, ids) => OrSame(w, CreateWithInvites(w, c, ids))
    case Begin(tx, i, s) => OrSame(w, BeginAccept(w, tx, i, s))
    case Lock(tx) => LockSquad(w, tx)
    case Commit(tx) => CommitAccept(w, tx)
    case Decline(i, s) => OrSame(w, DeclineInvite(w, i, s))
    case CancelOne(i, s) => OrSame(w, CancelInvite(w, i, s))
    case Assign(ids) => OrSame(w, TeacherAssign(w, ids))
    case File(s, a, q) => OrSame(w, Submit(w, s, a, q))
    case Load(tx, i, s, decline) => OrSame(w, LoadAnswer(w, tx, i, s, decline))
    case Write(tx) => WriteAnswer(w, tx)
    case Abort(tx) => WithoutTx(w, tx)
    case DeleteLate(q) => DeleteSquads(w, {q})
    case Open(k, cards, order) => OpenQuiz(w, k, cards, order)
  }

  /** The step that makes a student a member by accepting. */
  ghost predicate Joins(w: World, step: Step) {
    step.Commit? && HoldsRow(w, step.tx) && !InSquad(w, w.inFlight[step.tx].student)
  }

  /** The step that deletes a squad by a loaded copy. */
  ghost predicate Drops(w: World, step: Step) {
    step.Write? && IsAnswering(w, step.tx) && AnswerDeletes(w, step.tx)
  }

  lemma StepKeeps(w: World, step: Step)
    requires Inv(w) && Enabled(w, step)
    ensures if Joins(w, step) then Joined(w, Do(w, step), w.inFlight[step.tx].student)
            else if Drops(w, step) then Dropped(w, Do(w, step), w.inFlight[step.tx].squad)
            else if step.DeleteLate? then Loosened(w, Do(w, step))
            else Kept(w, Do(w, step))
  {
    match step
    case Create(c, ids) => if CreateWithInvites(w, c, ids).Ok? { CreateKeeps(w, c, ids); }
    case Begin(tx, i, s) => if BeginAccept(w, tx, i, s).Ok? { BeginKeeps(w, tx, i, s); }
    case Lock(tx) => LockKeeps(w, tx);
    case Commit(tx) => CommitKeeps(w, tx);
    case Decline(i, s) => if DeclineInvite(w, i, s).Ok? { DeclineKeeps(w, i, s); }
    case CancelOne(i, s) => if CancelInvite(w, i, s).Ok? { CancelKeeps(w, i, s); }
    case Assign(ids) => if TeacherAssign(w, ids).Ok? { AssignKeeps(w, ids); }
    case File(s, a, q) => if Submit(w, s, a, q).Ok? { SubmitKeeps(w, s, a, q); }
    case Load(tx, i, s, decline) => if LoadAnswer(w, tx, i, s, decline).Ok? { LoadAnswerKeeps(w, tx, i, s, decline); }
    case Write(tx) => WriteAnswerKeeps(w, tx);
    case Abort(tx) => DropTxKeeps(w, tx);
    case DeleteLate(q) => LateDeleteKeeps(w, q);
    case Open(k, cards, order) => OpenKeeps(w, k, cards, order);
  }

  ghost predicate IsRun(w: World, steps: seq<Step>, end: World)
    decreases |steps|
  {
    if steps == [] then w == end
    else Enabled(w, steps[0]) && IsRun(Do(w, steps[0]), steps[1..], end)
  }

  function Empty(size: Option<int>, enrolled: set<Student>, testStudents: set<Student>): World {
    World(size, enrolled, testStudents, map[], map[], map[], map[], 0, 0, 0)
  }

  /** What a successful accept does: the student is in the squad and on no pending invite, and
      the squad is locked exactly when it became full. */
  lemma JoinEffect(w: World, i: InviteId, s: Student, q: SquadId)
    requires q in w.squads && !w.squads[q].locked && w.size.Some?
    requires i in w.invites && w.invites[i].squad == q && s !in w.squads[q].members
    ensures var v := Join(w, i, s, q);
            q in v.squads && v.squads[q].members == w.squads[q].members + {s}
            && (v.squads[q].locked <==> |w.squads[q].members| + 1 >= w.size.value)
            && i in v.invites && v.invites[i].status == Accepted && !OwnPending(v, s)
            && (v.squads[q].locked ==> !SquadPending(v, q))
  {
    SweepEffect(AddMember(w, s, q), i, s, q);
  }

  /** The sweep spares the squad being joined and its invite, and leaves no other pending invite
      of the student. */
  lemma SweepEffect(w: World, i: InviteId, s: Student, q: SquadId)
    requires i in w.invites && w.invites[i].squad == q && q in w.squads
    ensures var v := CancelPendingOf(w, s, Some(i));
            q in v.squads && v.squads[q] == w.squads[q] && i in v.invites && v.invites[i] == w.invites[i]
            && forall j :: j in v.invites && j != i ==> !Involves(v.invites[j], s)
  {
    var hit := PendingOf(w, s, Some(i));
    assert i !in hit;
    assert q in SquadsOf(w, {i});
    assert q !in Orphaned(w, s, Some(i));
    var v := CancelPendingOf(w, s, Some(i));
    forall j | j in v.invites && j != i ensures !Involves(v.invites[j], s) {
      assert j in Concerning(w, s) ==> j in hit;
    }
  }
}
