/**
 * Staged uploads under interleaving. A handler that holds a lock is represented by the
 * state of that lock: the session's transfer lock carries the progress of a reserve,
 * commit or abort, and an upload's mutex carries the progress of whoever holds it.
 * Between any two steps of one handler every other handler may step.
 */
module UploadProtocol {
  import opened MapSums
  import opened StorageLedger
  import opened Chunking

  datatype Who = Commit | Abort | Evict
  datatype Phase = Entered | Cleaning | Releasing | Finishing

  /** `UploadMeta.Mu`, with what its holder is doing. */
  datatype Mutex = Free | Writing(index: nat) | Holding(who: Who, phase: Phase)

  datatype Upload = Upload(
    owner: Owner, plan: Plan, registered: bool, closed: bool, mu: Mutex,
    chunks: map<nat, nat>, stored: map<nat, nat>)

  /** The session's transfer lock, with what its holder is doing. */
  datatype Transfer =
    | Idle
    | Checked(plan: Plan)               // request validated, pending count below the limit
    | ChargedFor(plan: Plan, id: LeaseId)
    | CountedFor(plan: Plan, id: LeaseId)
    | Undoing(id: LeaseId)              // a later check failed, the closure is being run
    | Built(id: LeaseId)                // upload exists, not yet in the session's map
    | Committing(id: LeaseId)
    | Aborting(id: LeaseId)

  datatype Retry = Waiting | Retrying(id: LeaseId, phase: Phase)

  datatype State = State(
    ledger: Ledger, nextId: LeaseId, others: set<LeaseId>,
    uploads: map<LeaseId, Upload>, transfers: map<Owner, Transfer>,
    pending: set<LeaseId>, retry: Retry)

  datatype Config = Config(chunkLimit: int, maxPending: nat)

  function TransferOf(s: State, o: Owner): Transfer {
    if o in s.transfers then s.transfers[o] else Idle
  }

  ghost function RegisteredIds(uploads: map<LeaseId, Upload>, o: Owner): set<LeaseId> {
    set id | id in uploads && uploads[id].registered && uploads[id].owner == o
  }

  // ------------------------------------------------------------------ actions

  datatype Action =
    | OtherReserve(o: Owner, size: int, probe: Probe, gone: set<string>)
    | OtherRelease(id: LeaseId)
    | ReserveBegin(o: Owner, plan: Plan)
    | ReserveBytes(o: Owner, probe: Probe, gone: set<string>)
    | ReserveChunks(o: Owner)
    | BuildFails(o: Owner)
    | Build(o: Owner)
    | UndoBytes(o: Owner)
    | UndoChunks(o: Owner)
    | Register(o: Owner)
    | ChunkBegin(id: LeaseId, index: int, size: int)
    | ChunkWrite(id: LeaseId, n: nat)
    | ChunkEnd(id: LeaseId, ok: bool)
    | CommitBegin(o: Owner, id: LeaseId)
    | AbortBegin(o: Owner, id: LeaseId)
    | Enter(id: LeaseId, who: Who)
    | Leave(id: LeaseId)
    | StartCleanup(id: LeaseId)
    | Shrink(id: LeaseId, left: map<nat, nat>)
    | CleanupOk(id: LeaseId)
    | CleanupFails(id: LeaseId)
    | RunBytes(id: LeaseId)
    | RunChunks(id: LeaseId)
    | Finish(id: LeaseId)
    | EvictForget(id: LeaseId)
    | RetryPick(id: LeaseId)
    | RetryOk
    | RetryFails
    | RetryDone
    | Sweep(id: LeaseId, left: map<nat, nat>)

  /** `left` keeps some of what was stored and adds nothing. */
  predicate Removes(left: map<nat, nat>, stored: map<nat, nat>) {
    forall i :: i in left ==> i in stored && left[i] <= stored[i]
  }

  predicate Held(s: State, id: LeaseId, phase: Phase) {
    id in s.uploads && s.uploads[id].mu.Holding? && s.uploads[id].mu.phase == phase
  }

  /** Whoever saw the chunks removed runs the release closure: a lock holder or the retry worker. */
  predicate MayRelease(s: State, id: LeaseId) {
    Held(s, id, Releasing) || s.retry == Retrying(id, Releasing)
  }

  ghost predicate Enabled(c: Config, s: State, a: Action) {
    match a
    case OtherReserve(o, size, probe, gone) => true
    case OtherRelease(id) => id in s.others
    case ReserveBegin(o, plan) =>
      TransferOf(s, o).Idle? && Accepted(plan, c.chunkLimit) && |RegisteredIds(s.uploads, o)| < c.maxPending
    case ReserveBytes(o, probe, gone) => TransferOf(s, o).Checked?
    case ReserveChunks(o) => TransferOf(s, o).ChargedFor?
    case BuildFails(o) => TransferOf(s, o).CountedFor?
    case Build(o) => TransferOf(s, o).CountedFor?
    case UndoBytes(o) => TransferOf(s, o).Undoing?
    case UndoChunks(o) => TransferOf(s, o).Undoing? && TransferOf(s, o).id !in s.ledger.live
    case Register(o) => TransferOf(s, o).Built?
    case ChunkBegin(id, index, size) =>
      id in s.uploads && s.uploads[id].mu.Free? && !s.uploads[id].closed
      && 0 <= index < s.uploads[id].plan.total && size == Expected(s.uploads[id].plan, index)
    case ChunkWrite(id, n) =>
      id in s.uploads && s.uploads[id].mu.Writing? && n <= Expected(s.uploads[id].plan, s.uploads[id].mu.index)
    case ChunkEnd(id, ok) =>
      id in s.uploads && s.uploads[id].mu.Writing?
      && (ok ==> var u := s.uploads[id]; u.mu.index in u.stored && u.stored[u.mu.index] == Expected(u.plan, u.mu.index))
    case CommitBegin(o, id) => TransferOf(s, o).Idle? && id in RegisteredIds(s.uploads, o)
    case AbortBegin(o, id) => TransferOf(s, o).Idle? && id in RegisteredIds(s.uploads, o)
    case Enter(id, who) =>
      id in s.uploads && s.uploads[id].mu.Free?
      && (who.Commit? ==> TransferOf(s, s.uploads[id].owner) == Committing(id))
      && (who.Abort? ==> TransferOf(s, s.uploads[id].owner) == Aborting(id))
    case Leave(id) => Held(s, id, Entered)
    case StartCleanup(id) =>
      Held(s, id, Entered) && (s.uploads[id].mu.who.Commit? ==> !s.uploads[id].closed)
    case Shrink(id, left) =>
      (Held(s, id, Cleaning) || (id in s.uploads && s.retry == Retrying(id, Cleaning)))
      && Removes(left, s.uploads[id].stored)
    case CleanupOk(id) => Held(s, id, Cleaning)
    case CleanupFails(id) => Held(s, id, Cleaning)
    case RunBytes(id) => MayRelease(s, id)
    case RunChunks(id) => MayRelease(s, id) && id !in s.ledger.live
    case Finish(id) =>
      Held(s, id, Finishing) || (Held(s, id, Releasing) && id !in s.ledger.live && id !in s.ledger.counted)
    case EvictForget(id) => id in s.uploads && s.uploads[id].closed
    case RetryPick(id) => s.retry.Waiting? && id in s.pending
    case RetryOk => s.retry.Retrying? && s.retry.phase.Cleaning? && s.retry.id in s.uploads
    case RetryFails => s.retry.Retrying? && s.retry.phase.Cleaning?
    case RetryDone =>
      s.retry.Retrying? && s.retry.phase.Releasing? && s.retry.id !in s.ledger.live && s.retry.id !in s.ledger.counted
    case Sweep(id, left) => id in s.uploads && Removes(left, s.uploads[id].stored)
  }

  function Set(s: State, id: LeaseId, u: Upload): State {
    s.(uploads := s.uploads[id := u])
  }

  function SetTransfer(s: State, o: Owner, t: Transfer): State {
    s.(transfers := s.transfers[o := t])
  }

  /** Leaving drops the upload's mutex and, for commit and abort, the transfer lock too. */
  function Unlocked(s: State, id: LeaseId): State
    requires id in s.uploads && s.uploads[id].mu.Holding?
  {
    var s' := Set(s, id, s.uploads[id].(mu := Free));
    if s.uploads[id].mu.who.Evict? then s' else SetTransfer(s', s.uploads[id].owner, Idle)
  }

  ghost function Apply(c: Config, s: State, a: Action): State
    requires Enabled(c, s, a)
  {
    match a
    case OtherReserve(o, size, probe, gone) =>
      var (l, ok) := Reserve(s.ledger, s.nextId, o, size, probe, gone);
      if ok then s.(ledger := l, others := s.others + {s.nextId}, nextId := s.nextId + 1) else s.(ledger := l)
    case OtherRelease(id) => s.(ledger := Release(s.ledger, id), others := s.others - {id})
    case ReserveBegin(o, plan) => SetTransfer(s, o, Checked(plan))
    case ReserveBytes(o, probe, gone) =>
      var plan := TransferOf(s, o).plan;
      var (l, ok) := Reserve(s.ledger, s.nextId, o, plan.size, probe, gone);
      if ok then SetTransfer(s.(ledger := l, nextId := s.nextId + 1), o, ChargedFor(plan, s.nextId))
      else SetTransfer(s.(ledger := l), o, Idle)
    case ReserveChunks(o) =>
      var t := TransferOf(s, o);
      if t.plan.total >= 0 && AdmitsChunks(s.ledger, t.plan.total)
      then SetTransfer(s.(ledger := CountChunks(s.ledger, t.id, t.plan.total)), o, CountedFor(t.plan, t.id))
      else SetTransfer(s, o, Undoing(t.id))
    case BuildFails(o) => SetTransfer(s, o, Undoing(TransferOf(s, o).id))
    case Build(o) =>
      var t := TransferOf(s, o);
      SetTransfer(Set(s, t.id, Upload(o, t.plan, false, false, Free, map[], map[])), o, Built(t.id))
    case UndoBytes(o) => s.(ledger := Release(s.ledger, TransferOf(s, o).id))
    case UndoChunks(o) => SetTransfer(s.(ledger := UncountChunks(s.ledger, TransferOf(s, o).id)), o, Idle)
    case Register(o) =>
      var id := TransferOf(s, o).id;
      SetTransfer(if id in s.uploads then Set(s, id, s.uploads[id].(registered := true)) else s, o, Idle)
    case ChunkBegin(id, index, size) => Set(s, id, s.uploads[id].(mu := Writing(index)))
    case ChunkWrite(id, n) => Set(s, id, s.uploads[id].(stored := s.uploads[id].stored[s.uploads[id].mu.index := n]))
    case ChunkEnd(id, ok) =>
      var u := s.uploads[id];
      Set(s, id, u.(mu := Free, chunks := if ok then u.chunks[u.mu.index := u.stored[u.mu.index]] else u.chunks))
    case CommitBegin(o, id) => SetTransfer(s, o, Committing(id))
    case AbortBegin(o, id) => SetTransfer(s, o, Aborting(id))
    case Enter(id, who) => Set(s, id, s.uploads[id].(mu := Holding(who, Entered)))
    case Leave(id) => Unlocked(s, id)
    case StartCleanup(id) =>
      var u := s.uploads[id];
      Set(s, id, u.(mu := Holding(u.mu.who, Cleaning), closed := u.closed || !u.mu.who.Abort?))
    case Shrink(id, left) => Set(s, id, s.uploads[id].(stored := left))
    case CleanupOk(id) =>
      var u := s.uploads[id];
      Set(s, id, u.(mu := Holding(u.mu.who, Releasing), closed := true, stored := map[]))
    case CleanupFails(id) =>
      var u := s.uploads[id];
      if u.mu.who.Abort? then Unlocked(s, id)
      else Set(s, id, u.(mu := Holding(u.mu.who, Finishing))).(pending := s.pending + {id})
    case RunBytes(id) => s.(ledger := Release(s.ledger, id))
    case RunChunks(id) => s.(ledger := UncountChunks(s.ledger, id))
    case Finish(id) =>
      var s' := Unlocked(s, id);
      if s.uploads[id].mu.who.Evict? then s' else Set(s', id, s'.uploads[id].(registered := false))
    case EvictForget(id) => Set(s, id, s.uploads[id].(registered := false))
    case RetryPick(id) => s.(retry := Retrying(id, Cleaning))
    case RetryOk =>
      var id := s.retry.id;
      Set(s, id, s.uploads[id].(stored := map[])).(retry := Retrying(id, Releasing))
    case RetryFails => s.(retry := Waiting)
    case RetryDone => s.(retry := Waiting, pending := s.pending - {s.retry.id})
    case Sweep(id, left) => Set(s, id, s.uploads[id].(stored := left))
  }

  /** Actions on an upload that is named by its id. */
  predicate OnOne(a: Action) {
    OnChunks(a) || OnLock(a)
  }

  predicate OnChunks(a: Action) {
    a.ChunkBegin? || a.ChunkWrite? || a.ChunkEnd? || a.Shrink? || a.Sweep? || a.EvictForget?
  }

  predicate OnLock(a: Action) {
    a.Enter? || a.Leave? || a.StartCleanup? || a.CleanupOk? || a.CleanupFails? || a.Finish?
  }

  // ---------------------------------------------------------------- invariant

  /** One upload against the ledger: what it may store, and that storing anything needs a live lease. */
  ghost predicate UploadOk(l: Ledger, id: LeaseId, u: Upload) {
    && Fits(u.plan)
    && Bounded(u.plan, u.stored)
    && (id in l.live ==> l.live[id] == Charge(u.owner, u.plan.size))
    && (id !in l.live ==> u.closed && u.stored == map[])
    && (u.mu.Writing? ==> !u.closed && u.mu.index < u.plan.total)
    && (u.mu.Holding? && u.mu.phase.Releasing? ==> u.closed && u.stored == map[])
    && (u.mu.Holding? && !u.mu.phase.Entered? && !u.mu.who.Abort? ==> u.closed)
  }

  /** The lease a reservation in progress answers for. */
  ghost predicate Claims(t: Transfer, id: LeaseId) {
    (t.ChargedFor? || t.CountedFor? || t.Undoing?) && t.id == id
  }

  ghost predicate TransferOk(s: State, o: Owner) {
    var t := TransferOf(s, o);
    && (t.Checked? || t.ChargedFor? || t.CountedFor? ==> Fits(t.plan))
    && (t.ChargedFor? || t.CountedFor? ==> t.id in s.ledger.live && s.ledger.live[t.id] == Charge(o, t.plan.size))
    && (t.ChargedFor? ==> t.id !in s.ledger.counted)
    && (t.ChargedFor? || t.CountedFor? || t.Undoing? ==> t.id < s.nextId && t.id !in s.uploads && t.id !in s.others)
    && (t.Built? ==> t.id in s.uploads && s.uploads[t.id].owner == o)
  }

  ghost predicate IdsOk(s: State) {
    && (forall id :: id in s.ledger.live ==> id < s.nextId)
    && (forall id :: id in s.ledger.counted ==> id < s.nextId)
    && (forall id :: id in s.others ==> id < s.nextId)
    && (forall id :: id in s.uploads ==> id < s.nextId && id !in s.others)
    && (forall o, o', id :: Claims(TransferOf(s, o), id) && Claims(TransferOf(s, o'), id) ==> o == o')
  }

  ghost predicate RetryOkay(s: State) {
    && (forall id :: id in s.pending ==> id in s.uploads && s.uploads[id].closed)
    && (s.retry.Retrying? ==>
          && s.retry.id in s.uploads && s.uploads[s.retry.id].closed
          && (s.retry.phase.Releasing? ==> s.uploads[s.retry.id].stored == map[]))
  }

  predicate HasSlot(t: Transfer) {
    t.Checked? || t.ChargedFor? || t.CountedFor? || t.Built?
  }

  /** A reserve keeps its slot below the limit from the check until it registers. */
  ghost predicate PendingOk(c: Config, s: State) {
    forall o ::
      |RegisteredIds(s.uploads, o)| + (if HasSlot(TransferOf(s, o)) then 1 else 0) <= c.maxPending
  }

  /** The protocol invariant without the pending limit. */
  ghost predicate ShapeButPending(s: State) {
    && IdsOk(s)
    && (forall id :: id in s.uploads ==> UploadOk(s.ledger, id, s.uploads[id]))
    && (forall o :: TransferOk(s, o))
    && RetryOkay(s)
  }

  /** How locks, leases and uploads fit together; soundness of the ledger's sums is apart. */
  ghost predicate Shape(c: Config, s: State) {
    ShapeButPending(s) && PendingOk(c, s)
  }

  // -------------------------------------------------------------- preservation

  lemma RegisteredShrink(a: map<LeaseId, Upload>, b: map<LeaseId, Upload>, o: Owner)
    requires RegisteredIds(a, o) <= RegisteredIds(b, o)
    ensures |RegisteredIds(a, o)| <= |RegisteredIds(b, o)|
  {
    var x, y := RegisteredIds(a, o), RegisteredIds(b, o);
    assert y == x + (y - x);
  }

  lemma RegisteredGrows(uploads: map<LeaseId, Upload>, id: LeaseId, o: Owner)
    requires id in uploads
    ensures |RegisteredIds(uploads[id := uploads[id].(registered := true)], o)|
              <= |RegisteredIds(uploads, o)| + (if o == uploads[id].owner then 1 else 0)
  {
    var before := RegisteredIds(uploads, o);
    var after := RegisteredIds(uploads[id := uploads[id].(registered := true)], o);
    if o == uploads[id].owner {
      assert after == before + {id};
    } else {
      assert after == before;
    }
  }

  lemma SetKeepsCore(s: State, id: LeaseId, u: Upload)
    requires ShapeButPending(s) && id in s.uploads
    requires u.owner == s.uploads[id].owner && (s.uploads[id].closed ==> u.closed)
    requires UploadOk(s.ledger, id, u)
    requires s.retry == Retrying(id, Releasing) ==> u.stored == map[]
    ensures ShapeButPending(Set(s, id, u))
  {
    var s' := Set(s, id, u);
    assert forall o :: TransferOf(s', o) == TransferOf(s, o);
    assert forall o :: TransferOk(s, o) ==> TransferOk(s', o);
  }

  /** Changing one upload in place, never reopening or re-registering it. */
  lemma SetKeeps(c: Config, s: State, id: LeaseId, u: Upload)
    requires Shape(c, s) && id in s.uploads
    requires u.owner == s.uploads[id].owner && (u.registered ==> s.uploads[id].registered)
    requires s.uploads[id].closed ==> u.closed
    requires UploadOk(s.ledger, id, u)
    requires s.retry == Retrying(id, Releasing) ==> u.stored == map[]
    ensures Shape(c, Set(s, id, u))
  {
    var s' := Set(s, id, u);
    forall o ensures |RegisteredIds(s'.uploads, o)| <= |RegisteredIds(s.uploads, o)| {
      RegisteredShrink(s'.uploads, s.uploads, o);
    }
    SetKeepsCore(s, id, u);
    assert forall o :: TransferOf(s', o) == TransferOf(s, o);
  }

  lemma TransferKeeps(c: Config, s: State, o: Owner, t: Transfer)
    requires Shape(c, s)
    requires TransferOk(SetTransfer(s, o, t), o)
    requires forall id, o' :: Claims(t, id) && Claims(TransferOf(s, o'), id) ==> o' == o
    requires HasSlot(t) ==> HasSlot(TransferOf(s, o)) || |RegisteredIds(s.uploads, o)| < c.maxPending
    ensures Shape(c, SetTransfer(s, o, t))
  {
    var s' := SetTransfer(s, o, t);
    assert TransferOf(s', o) == t;
    assert forall o' :: o' != o ==> TransferOf(s', o') == TransferOf(s, o');
    assert forall o' :: o' != o ==> TransferOk(s, o') ==> TransferOk(s', o');
  }

  lemma LedgerKeeps(c: Config, s: State, s': State)
    requires Shape(c, s)
    requires s' == s.(ledger := s'.ledger, nextId := s'.nextId, others := s'.others)
    requires IdsOk(s') && s'.nextId >= s.nextId
    requires forall id :: id in s.uploads ==> UploadOk(s'.ledger, id, s.uploads[id])
    requires forall o :: TransferOk(s', o)
    ensures Shape(c, s')
  {
    assert forall o :: TransferOf(s', o) == TransferOf(s, o);
  }

  /** A refused reservation may still refresh the counters. */
  lemma RefreshKeeps(c: Config, s: State, l: Ledger)
    requires Shape(c, s) && l.live == s.ledger.live && l.counted == s.ledger.counted
    ensures Shape(c, s.(ledger := l))
  {
    var s' := s.(ledger := l);
    assert forall o :: TransferOf(s', o) == TransferOf(s, o);
    assert forall o :: TransferOk(s, o) ==> TransferOk(s', o);
    LedgerKeeps(c, s, s');
  }

  /** A fresh charge disturbs nobody. */
  lemma ChargeKeeps(c: Config, s: State, l: Ledger, charge: Charge, others: set<LeaseId>)
    requires Shape(c, s)
    requires l.live == s.ledger.live[s.nextId := charge] && l.counted == s.ledger.counted
    requires s.others <= others <= s.others + {s.nextId}
    ensures Shape(c, s.(ledger := l, nextId := s.nextId + 1, others := others))
  {
    var s' := s.(ledger := l, nextId := s.nextId + 1, others := others);
    assert forall o :: TransferOf(s', o) == TransferOf(s, o);
    assert forall o :: TransferOk(s, o) ==> TransferOk(s', o);
    LedgerKeeps(c, s, s');
  }

  /** Running a byte closure is safe once nothing is stored under it and nobody reserves with it. */
  lemma ReleaseKeeps(c: Config, s: State, id: LeaseId, others: set<LeaseId>)
    requires Shape(c, s) && others <= s.others
    requires id in s.uploads ==> s.uploads[id].closed && s.uploads[id].stored == map[]
    requires forall o :: Claims(TransferOf(s, o), id) ==> TransferOf(s, o).Undoing?
    ensures Shape(c, s.(ledger := Release(s.ledger, id), others := others))
  {
    var s' := s.(ledger := Release(s.ledger, id), others := others);
    assert forall o :: TransferOf(s', o) == TransferOf(s, o);
    assert forall o :: TransferOk(s, o) ==> TransferOk(s', o);
    LedgerKeeps(c, s, s');
  }

  lemma UncountKeeps(c: Config, s: State, id: LeaseId)
    requires Shape(c, s)
    ensures Shape(c, s.(ledger := UncountChunks(s.ledger, id)))
  {
    var s' := s.(ledger := UncountChunks(s.ledger, id));
    assert forall o :: TransferOf(s', o) == TransferOf(s, o);
    assert forall o :: TransferOk(s, o) ==> TransferOk(s', o);
    LedgerKeeps(c, s, s');
  }

  lemma CountKeeps(c: Config, s: State, id: LeaseId, chunks: nat)
    requires Shape(c, s) && id < s.nextId && id !in s.ledger.counted && AdmitsChunks(s.ledger, chunks)
    requires forall o :: TransferOf(s, o).ChargedFor? ==> TransferOf(s, o).id != id
    ensures Shape(c, s.(ledger := CountChunks(s.ledger, id, chunks)))
  {
    var s' := s.(ledger := CountChunks(s.ledger, id, chunks));
    assert forall o :: TransferOf(s', o) == TransferOf(s, o);
    assert forall o :: TransferOk(s, o) ==> TransferOk(s', o);
    LedgerKeeps(c, s, s');
  }

  // Steps of handlers that only reserve, count or release.

  lemma OtherKeeps(c: Config, s: State, a: Action)
    requires Shape(c, s) && Enabled(c, s, a) && (a.OtherReserve? || a.OtherRelease?)
    ensures Shape(c, Apply(c, s, a))
  {
    match a
    case OtherReserve(o, size, probe, gone) =>
      ReserveShape(s.ledger, s.nextId, o, size, probe, gone);
      var (l, ok) := Reserve(s.ledger, s.nextId, o, size, probe, gone);
      if ok {
        ChargeKeeps(c, s, l, Charge(o, size), s.others + {s.nextId});
      } else {
        RefreshKeeps(c, s, l);
      }
    case OtherRelease(id) =>
      forall o ensures !Claims(TransferOf(s, o), id) {
        assert TransferOk(s, o);
      }
      ReleaseKeeps(c, s, id, s.others - {id});
  }

  lemma ReserveBytesKeeps(c: Config, s: State, o: Owner, probe: Probe, gone: set<string>)
    requires Shape(c, s) && TransferOf(s, o).Checked?
    ensures Shape(c, Apply(c, s, ReserveBytes(o, probe, gone)))
  {
    assert TransferOk(s, o);
    var plan := TransferOf(s, o).plan;
    ReserveShape(s.ledger, s.nextId, o, plan.size, probe, gone);
    var (l, ok) := Reserve(s.ledger, s.nextId, o, plan.size, probe, gone);
    if ok {
      ChargeKeeps(c, s, l, Charge(o, plan.size), s.others);
      StartCharge(c, s, l, o, plan);
    } else {
      RefreshKeeps(c, s, l);
      TransferKeeps(c, s.(ledger := l), o, Idle);
    }
  }

  lemma StartCharge(c: Config, s: State, l: Ledger, o: Owner, plan: Plan)
    requires Shape(c, s) && TransferOf(s, o) == Checked(plan) && plan.size >= 0
    requires l.live == s.ledger.live[s.nextId := Charge(o, plan.size)] && l.counted == s.ledger.counted
    requires Shape(c, s.(ledger := l, nextId := s.nextId + 1))
    ensures Shape(c, SetTransfer(s.(ledger := l, nextId := s.nextId + 1), o, ChargedFor(plan, s.nextId)))
  {
    var s' := s.(ledger := l, nextId := s.nextId + 1);
    assert TransferOf(s', o) == TransferOf(s, o);
    assert TransferOk(s, o);
    forall o' ensures !Claims(TransferOf(s', o'), s.nextId) {
      assert TransferOk(s, o');
      assert TransferOf(s', o') == TransferOf(s, o');
    }
    TransferKeeps(c, s', o, ChargedFor(plan, s.nextId));
  }

  lemma ReserveChunksKeeps(c: Config, s: State, o: Owner)
    requires Shape(c, s) && TransferOf(s, o).ChargedFor?
    ensures Shape(c, Apply(c, s, ReserveChunks(o)))
  {
    assert TransferOk(s, o);
    var t := TransferOf(s, o);
    if t.plan.total >= 0 && AdmitsChunks(s.ledger, t.plan.total) {
      TransferKeeps(c, s, o, CountedFor(t.plan, t.id));
      var s' := SetTransfer(s, o, CountedFor(t.plan, t.id));
      forall o' | TransferOf(s', o').ChargedFor? ensures TransferOf(s', o').id != t.id {
        assert o' != o && TransferOf(s', o') == TransferOf(s, o');
        assert Claims(t, t.id);
      }
      CountKeeps(c, s', t.id, t.plan.total);
    } else {
      TransferKeeps(c, s, o, Undoing(t.id));
    }
  }

  /** No session's transfer or registered uploads change but the builder's own transfer. */
  lemma BuildKeepsOthers(c: Config, s: State, o: Owner, o': Owner)
    requires Shape(c, s) && TransferOf(s, o).CountedFor?
    ensures TransferOk(Apply(c, s, Build(o)), o')
    ensures RegisteredIds(Apply(c, s, Build(o)).uploads, o') == RegisteredIds(s.uploads, o')
  {
    var t, s' := TransferOf(s, o), Apply(c, s, Build(o));
    assert TransferOk(s, o) && TransferOk(s, o');
    assert o' != o ==> TransferOf(s', o') == TransferOf(s, o');
    assert Claims(t, t.id);
    assert Claims(TransferOf(s, o'), t.id) ==> o' == o;
  }

  /** The upload comes to exist under the lease its reserve holds. */
  lemma BuildKeeps(c: Config, s: State, o: Owner)
    requires Shape(c, s) && TransferOf(s, o).CountedFor?
    ensures Shape(c, Apply(c, s, Build(o)))
  {
    var t := TransferOf(s, o);
    var s' := Apply(c, s, Build(o));
    assert TransferOk(s, o);
    assert forall o' :: o' != o ==> TransferOf(s', o') == TransferOf(s, o');
    forall o' ensures TransferOk(s', o') && RegisteredIds(s'.uploads, o') == RegisteredIds(s.uploads, o') {
      BuildKeepsOthers(c, s, o, o');
    }
    assert UploadOk(s.ledger, t.id, Upload(o, t.plan, false, false, Free, map[], map[]));
  }

  lemma UndoKeeps(c: Config, s: State, o: Owner)
    requires Shape(c, s) && TransferOf(s, o).Undoing?
    ensures Shape(c, Apply(c, s, UndoBytes(o)))
    ensures TransferOf(s, o).id !in s.ledger.live ==> Shape(c, Apply(c, s, UndoChunks(o)))
  {
    var id := TransferOf(s, o).id;
    assert TransferOk(s, o);
    forall o' | Claims(TransferOf(s, o'), id) ensures o' == o {
      assert Claims(TransferOf(s, o), id);
    }
    ReleaseKeeps(c, s, id, s.others);
    UncountKeeps(c, s, id);
    var s' := s.(ledger := UncountChunks(s.ledger, id));
    TransferKeeps(c, s', o, Idle);
  }

  lemma Publish(c: Config, s: State, id: LeaseId)
    requires Shape(c, s) && id in s.uploads
    requires |RegisteredIds(s.uploads, s.uploads[id].owner)| < c.maxPending
             && !HasSlot(TransferOf(s, s.uploads[id].owner))
    ensures Shape(c, Set(s, id, s.uploads[id].(registered := true)))
  {
    var u := s.uploads[id].(registered := true);
    assert UploadOk(s.ledger, id, s.uploads[id]);
    SetKeepsCore(s, id, u);
    assert forall o :: TransferOf(Set(s, id, u), o) == TransferOf(s, o);
    forall o
      ensures |RegisteredIds(s.uploads[id := u], o)|
                <= |RegisteredIds(s.uploads, o)| + (if o == u.owner then 1 else 0)
    {
      RegisteredGrows(s.uploads, id, o);
    }
  }

  /** Registering uses up the slot the reserve kept. */
  lemma RegisterKeeps(c: Config, s: State, o: Owner)
    requires Shape(c, s) && TransferOf(s, o).Built?
    ensures Shape(c, Apply(c, s, Register(o)))
  {
    assert TransferOk(s, o);
    TransferKeeps(c, s, o, Idle);
    var s' := SetTransfer(s, o, Idle);
    assert TransferOf(s', o) == Idle;
    Publish(c, s', TransferOf(s, o).id);
  }

  // Steps of whoever holds an upload's mutex.

  lemma ChunkBeginKeeps(c: Config, s: State, id: LeaseId, index: int, size: int)
    requires Shape(c, s) && Enabled(c, s, ChunkBegin(id, index, size))
    ensures Shape(c, Apply(c, s, ChunkBegin(id, index, size)))
  {
    assert UploadOk(s.ledger, id, s.uploads[id]);
    SetKeeps(c, s, id, s.uploads[id].(mu := Writing(index)));
  }

  lemma ChunkWriteKeeps(c: Config, s: State, id: LeaseId, n: nat)
    requires Shape(c, s) && Enabled(c, s, ChunkWrite(id, n))
    ensures Shape(c, Apply(c, s, ChunkWrite(id, n)))
  {
    var u := s.uploads[id];
    assert UploadOk(s.ledger, id, u);
    SetKeeps(c, s, id, u.(stored := u.stored[u.mu.index := n]));
  }

  lemma ChunkEndKeeps(c: Config, s: State, id: LeaseId, ok: bool)
    requires Shape(c, s) && Enabled(c, s, ChunkEnd(id, ok))
    ensures Shape(c, Apply(c, s, ChunkEnd(id, ok)))
  {
    assert UploadOk(s.ledger, id, s.uploads[id]);
    SetKeeps(c, s, id, Apply(c, s, ChunkEnd(id, ok)).uploads[id]);
  }

  lemma UnlockedKeeps(c: Config, s: State, id: LeaseId)
    requires Shape(c, s) && id in s.uploads && s.uploads[id].mu.Holding?
    ensures Shape(c, Unlocked(s, id))
  {
    assert UploadOk(s.ledger, id, s.uploads[id]);
    SetKeeps(c, s, id, s.uploads[id].(mu := Free));
    TransferKeeps(c, Set(s, id, s.uploads[id].(mu := Free)), s.uploads[id].owner, Idle);
  }

  /** One upload changed in place by whoever may change it. */
  lemma InPlaceKeeps(c: Config, s: State, id: LeaseId, u: Upload)
    requires Shape(c, s) && id in s.uploads && u.owner == s.uploads[id].owner && u.plan == s.uploads[id].plan
    requires (s.uploads[id].closed ==> u.closed) && (u.registered ==> s.uploads[id].registered)
    requires u.stored == s.uploads[id].stored || Removes(u.stored, s.uploads[id].stored)
    requires u.mu.Writing? ==> u.mu == s.uploads[id].mu && u.closed == s.uploads[id].closed
    requires u.mu.Holding? && u.mu.phase.Releasing? ==>
               u.closed && (u.stored == map[] || u.mu == s.uploads[id].mu)
    requires u.mu.Holding? && !u.mu.phase.Entered? && !u.mu.who.Abort? ==> u.closed
    ensures Shape(c, Set(s, id, u))
  {
    assert UploadOk(s.ledger, id, s.uploads[id]);
    assert UploadOk(s.ledger, id, u);
    SetKeeps(c, s, id, u);
  }

  lemma EnterKeeps(c: Config, s: State, id: LeaseId, who: Who)
    requires Shape(c, s) && Enabled(c, s, Enter(id, who))
    ensures Shape(c, Apply(c, s, Enter(id, who)))
  {
    InPlaceKeeps(c, s, id, s.uploads[id].(mu := Holding(who, Entered)));
  }

  lemma StartCleanupKeeps(c: Config, s: State, id: LeaseId)
    requires Shape(c, s) && Enabled(c, s, StartCleanup(id))
    ensures Shape(c, Apply(c, s, StartCleanup(id)))
  {
    InPlaceKeeps(c, s, id, Apply(c, s, StartCleanup(id)).uploads[id]);
  }

  lemma ShrinkKeeps(c: Config, s: State, id: LeaseId, left: map<nat, nat>)
    requires Shape(c, s) && id in s.uploads && Removes(left, s.uploads[id].stored)
    ensures Shape(c, Set(s, id, s.uploads[id].(stored := left)))
  {
    assert UploadOk(s.ledger, id, s.uploads[id]);
    assert s.uploads[id].stored == map[] ==> left == map[];
    InPlaceKeeps(c, s, id, s.uploads[id].(stored := left));
  }

  lemma CleanupOkKeeps(c: Config, s: State, id: LeaseId)
    requires Shape(c, s) && Enabled(c, s, CleanupOk(id))
    ensures Shape(c, Apply(c, s, CleanupOk(id)))
  {
    InPlaceKeeps(c, s, id, Apply(c, s, CleanupOk(id)).uploads[id]);
  }

  lemma EvictForgetKeeps(c: Config, s: State, id: LeaseId)
    requires Shape(c, s) && Enabled(c, s, EvictForget(id))
    ensures Shape(c, Apply(c, s, EvictForget(id)))
  {
    InPlaceKeeps(c, s, id, s.uploads[id].(registered := false));
  }

  /** The worker's own record, and the list it works from. */
  lemma WorkKeeps(c: Config, s: State, retry: Retry, pending: set<LeaseId>)
    requires Shape(c, s) && RetryOkay(s.(retry := retry, pending := pending))
    ensures Shape(c, s.(retry := retry, pending := pending))
  {
    var s' := s.(retry := retry, pending := pending);
    assert forall o :: TransferOf(s', o) == TransferOf(s, o);
    assert forall o :: TransferOk(s, o) ==> TransferOk(s', o);
  }

  lemma CleanupFailsKeeps(c: Config, s: State, id: LeaseId)
    requires Shape(c, s) && Held(s, id, Cleaning)
    ensures Shape(c, Apply(c, s, CleanupFails(id)))
  {
    var u := s.uploads[id];
    assert UploadOk(s.ledger, id, u);
    if u.mu.who.Abort? {
      UnlockedKeeps(c, s, id);
    } else {
      var after := u.(mu := Holding(u.mu.who, Finishing));
      InPlaceKeeps(c, s, id, after);
      WorkKeeps(c, Set(s, id, after), s.retry, s.pending + {id});
    }
  }

  lemma FinishKeeps(c: Config, s: State, id: LeaseId)
    requires Shape(c, s) && Enabled(c, s, Finish(id))
    ensures Shape(c, Apply(c, s, Finish(id)))
  {
    UnlockedKeeps(c, s, id);
    var s' := Unlocked(s, id);
    assert UploadOk(s'.ledger, id, s'.uploads[id]);
    SetKeeps(c, s', id, s'.uploads[id].(registered := false));
  }

  lemma ClosureKeeps(c: Config, s: State, a: Action)
    requires Shape(c, s) && Enabled(c, s, a) && (a.RunBytes? || a.RunChunks?)
    ensures Shape(c, Apply(c, s, a))
  {
    assert UploadOk(s.ledger, a.id, s.uploads[a.id]);
    forall o ensures !Claims(TransferOf(s, o), a.id) {
      assert TransferOk(s, o);
    }
    if a.RunBytes? {
      ReleaseKeeps(c, s, a.id, s.others);
    } else {
      UncountKeeps(c, s, a.id);
    }
  }

  lemma RetryPickKeeps(c: Config, s: State, id: LeaseId)
    requires Shape(c, s) && Enabled(c, s, RetryPick(id))
    ensures Shape(c, Apply(c, s, RetryPick(id)))
  {
    WorkKeeps(c, s, Retrying(id, Cleaning), s.pending);
  }

  lemma RetryOkKeeps(c: Config, s: State)
    requires Shape(c, s) && Enabled(c, s, RetryOk)
    ensures Shape(c, Apply(c, s, RetryOk))
  {
    var id := s.retry.id;
    ShrinkKeeps(c, s, id, map[]);
    WorkKeeps(c, Set(s, id, s.uploads[id].(stored := map[])), Retrying(id, Releasing), s.pending);
  }

  lemma RetryRestKeeps(c: Config, s: State, a: Action)
    requires Shape(c, s) && Enabled(c, s, a) && (a.RetryFails? || a.RetryDone?)
    ensures Shape(c, Apply(c, s, a))
  {
    WorkKeeps(c, s, Waiting, Apply(c, s, a).pending);
  }

  lemma ReserveBeginKeeps(c: Config, s: State, o: Owner, plan: Plan)
    requires Shape(c, s) && Enabled(c, s, ReserveBegin(o, plan))
    ensures Shape(c, Apply(c, s, ReserveBegin(o, plan)))
  {
    assert TransferOk(s, o);
    TransferKeeps(c, s, o, Checked(plan));
  }

  lemma BuildFailsKeeps(c: Config, s: State, o: Owner)
    requires Shape(c, s) && Enabled(c, s, BuildFails(o))
    ensures Shape(c, Apply(c, s, BuildFails(o)))
  {
    assert TransferOk(s, o);
    TransferKeeps(c, s, o, Undoing(TransferOf(s, o).id));
  }

  lemma CommitBeginKeeps(c: Config, s: State, o: Owner, id: LeaseId)
    requires Shape(c, s) && TransferOf(s, o).Idle?
    ensures Shape(c, SetTransfer(s, o, Committing(id))) && Shape(c, SetTransfer(s, o, Aborting(id)))
  {
    TransferKeeps(c, s, o, Committing(id));
    TransferKeeps(c, s, o, Aborting(id));
  }

  lemma TransferStepKeeps(c: Config, s: State, a: Action)
    requires Shape(c, s) && Enabled(c, s, a)
    requires a.ReserveBegin? || a.BuildFails? || a.CommitBegin? || a.AbortBegin?
    ensures Shape(c, Apply(c, s, a))
  {
    if a.ReserveBegin? {
      ReserveBeginKeeps(c, s, a.o, a.plan);
    } else if a.BuildFails? {
      BuildFailsKeeps(c, s, a.o);
    } else {
      CommitBeginKeeps(c, s, a.o, a.id);
    }
  }

  lemma ReserveStepKeeps(c: Config, s: State, a: Action)
    requires Shape(c, s) && Enabled(c, s, a)
    requires a.ReserveBytes? || a.ReserveChunks? || a.Build? || a.UndoBytes? || a.UndoChunks? || a.Register?
    ensures Shape(c, Apply(c, s, a))
  {
    if a.ReserveBytes? {
      ReserveBytesKeeps(c, s, a.o, a.probe, a.gone);
    } else if a.ReserveChunks? {
      ReserveChunksKeeps(c, s, a.o);
    } else if a.Build? {
      BuildKeeps(c, s, a.o);
    } else if a.Register? {
      RegisterKeeps(c, s, a.o);
    } else {
      UndoKeeps(c, s, a.o);
    }
  }

  lemma ChunkStepKeeps(c: Config, s: State, a: Action)
    requires Shape(c, s) && Enabled(c, s, a)
    requires OnChunks(a)
    ensures Shape(c, Apply(c, s, a))
  {
    if a.ChunkBegin? {
      ChunkBeginKeeps(c, s, a.id, a.index, a.size);
    } else if a.ChunkWrite? {
      ChunkWriteKeeps(c, s, a.id, a.n);
    } else if a.ChunkEnd? {
      ChunkEndKeeps(c, s, a.id, a.ok);
    } else if a.EvictForget? {
      EvictForgetKeeps(c, s, a.id);
    } else {
      ShrinkKeeps(c, s, a.id, a.left);
    }
  }

  lemma HolderStepKeeps(c: Config, s: State, a: Action)
    requires Shape(c, s) && Enabled(c, s, a)
    requires OnLock(a)
    ensures Shape(c, Apply(c, s, a))
  {
    if a.Enter? {
      EnterKeeps(c, s, a.id, a.who);
    } else if a.Leave? {
      UnlockedKeeps(c, s, a.id);
    } else if a.StartCleanup? {
      StartCleanupKeeps(c, s, a.id);
    } else if a.CleanupOk? {
      CleanupOkKeeps(c, s, a.id);
    } else if a.CleanupFails? {
      CleanupFailsKeeps(c, s, a.id);
    } else {
      FinishKeeps(c, s, a.id);
    }
  }

  lemma StepKeepsShape(c: Config, s: State, a: Action)
    requires Shape(c, s) && Enabled(c, s, a)
    ensures Shape(c, Apply(c, s, a))
  {
    if a.OtherReserve? || a.OtherRelease? {
      OtherKeeps(c, s, a);
    } else if a.ReserveBegin? || a.BuildFails? || a.CommitBegin? || a.AbortBegin? {
      TransferStepKeeps(c, s, a);
    } else if a.ReserveBytes? || a.ReserveChunks? || a.Build? || a.UndoBytes? || a.UndoChunks? || a.Register? {
      ReserveStepKeeps(c, s, a);
    } else if OnChunks(a) {
      ChunkStepKeeps(c, s, a);
    } else if a.RunBytes? || a.RunChunks? {
      ClosureKeeps(c, s, a);
    } else if a.RetryPick? {
      RetryPickKeeps(c, s, a.id);
    } else if a.RetryOk? {
      RetryOkKeeps(c, s);
    } else if a.RetryFails? || a.RetryDone? {
      RetryRestKeeps(c, s, a);
    } else {
      HolderStepKeeps(c, s, a);
    }
  }

  /** The ledger moves only by reserving, releasing and counting. */
  lemma StepKeepsSound(c: Config, s: State, a: Action)
    requires Sound(s.ledger) && Enabled(c, s, a)
    requires s.nextId !in s.ledger.live
    requires a.ReserveChunks? ==> TransferOf(s, a.o).id !in s.ledger.counted
    ensures Sound(Apply(c, s, a).ledger)
  {
    if a.OtherReserve? {
      ReserveKeepsSound(s.ledger, s.nextId, a.o, a.size, a.probe, a.gone);
    } else if a.ReserveBytes? {
      ReserveKeepsSound(s.ledger, s.nextId, a.o, TransferOf(s, a.o).plan.size, a.probe, a.gone);
    } else if a.OtherRelease? || a.RunBytes? {
      ReleaseKeepsSound(s.ledger, a.id);
    } else if a.UndoBytes? {
      ReleaseKeepsSound(s.ledger, TransferOf(s, a.o).id);
    } else if a.RunChunks? {
      ChunksKeepSound(s.ledger, a.id, 0);
    } else if a.UndoChunks? {
      ChunksKeepSound(s.ledger, TransferOf(s, a.o).id, 0);
    } else if a.ReserveChunks? && TransferOf(s, a.o).plan.total >= 0 {
      ChunksKeepSound(s.ledger, TransferOf(s, a.o).id, TransferOf(s, a.o).plan.total);
    } else {
      assert Apply(c, s, a).ledger == s.ledger;
    }
  }

  // --------------------------------------------------------------------- runs

  ghost predicate Inv(c: Config, s: State) {
    Shape(c, s) && Sound(s.ledger)
  }

  ghost predicate Initially(c: Config, s: State) {
    && Sound(s.ledger) && s.ledger.live == map[] && s.ledger.counted == map[]
    && s.others == {} && s.uploads == map[] && s.transfers == map[] && s.pending == {} && s.retry == Waiting
  }

  /** The state after a run, or nothing when some step of it is not enabled where it comes. */
  ghost predicate Reaches(c: Config, s: State, run: seq<Action>, s': State)
    decreases |run|
  {
    if run == [] then s' == s
    else Enabled(c, s, run[0]) && Reaches(c, Apply(c, s, run[0]), run[1..], s')
  }

  lemma {:induction false} RunKeeps(c: Config, s: State, run: seq<Action>, s': State)
    requires Inv(c, s) && Reaches(c, s, run, s')
    ensures Inv(c, s')
    decreases |run|
  {
    if run != [] {
      StepKeepsShape(c, s, run[0]);
      assert run[0].ReserveChunks? ==> TransferOk(s, run[0].o);
      StepKeepsSound(c, s, run[0]);
      RunKeeps(c, Apply(c, s, run[0]), run[1..], s');
    }
  }

  lemma InitiallyInv(c: Config, s: State)
    requires Initially(c, s)
    ensures Inv(c, s)
  {
    assert forall o :: RegisteredIds(s.uploads, o) == {};
  }

  // ------------------------------------------------------------------ results

  /** Bytes staged by each upload. */
  ghost function Staged(uploads: map<LeaseId, Upload>): map<LeaseId, nat> {
    map id | id in uploads :: Sum(uploads[id].stored)
  }

  ghost function StagedBy(uploads: map<LeaseId, Upload>, o: Owner): map<LeaseId, nat> {
    map id | id in uploads && uploads[id].owner == o :: Sum(uploads[id].stored)
  }

  lemma StoredNeedsLease(c: Config, s: State, id: LeaseId)
    requires Inv(c, s) && id in s.uploads
    ensures Sum(s.uploads[id].stored) <= s.uploads[id].plan.size
    ensures s.uploads[id].stored != map[] ==>
              id in s.ledger.live && s.ledger.live[id] == Charge(s.uploads[id].owner, s.uploads[id].plan.size)
  {
    assert UploadOk(s.ledger, id, s.uploads[id]);
    BoundedTotal(s.uploads[id].plan, s.uploads[id].stored);
  }

  /** Staging stays within the live leases, in all and by owner, and so within both caps. */
  lemma StagedWithinCaps(c: Config, s: State, o: Owner)
    requires Inv(c, s)
    ensures Sum(Staged(s.uploads)) <= Sum(Sizes(s.ledger.live)) <= s.ledger.max
    ensures Sum(StagedBy(s.uploads, o)) <= Sum(SizesOf(s.ledger.live, o)) <= s.ledger.perSession
  {
    forall id | id in s.uploads
      ensures Sum(s.uploads[id].stored) <= s.uploads[id].plan.size
      ensures s.uploads[id].stored == map[] ==> Sum(s.uploads[id].stored) == 0
      ensures s.uploads[id].stored != map[] ==>
                id in s.ledger.live && s.ledger.live[id] == Charge(s.uploads[id].owner, s.uploads[id].plan.size)
    {
      StoredNeedsLease(c, s, id);
    }
    SumBelow(Staged(s.uploads), Sizes(s.ledger.live));
    SumBelow(StagedBy(s.uploads, o), SizesOf(s.ledger.live, o));
  }

  /**
   * Whatever the interleaving: an upload that has bytes staged holds a live lease for its
   * whole size and stages no more than that, so staging stays within the global cap, within
   * each owner's cap, and no session has more uploads registered than the configured limit.
   */
  lemma EveryRunStaysWithinCaps(c: Config, s: State, run: seq<Action>, s': State, o: Owner)
    requires Initially(c, s) && Reaches(c, s, run, s')
    ensures forall id :: id in s'.uploads && s'.uploads[id].stored != map[] ==>
              && id in s'.ledger.live && s'.ledger.live[id].owner == s'.uploads[id].owner
              && s'.ledger.live[id].size == s'.uploads[id].plan.size
              && Sum(s'.uploads[id].stored) <= s'.uploads[id].plan.size
    ensures Sum(Staged(s'.uploads)) <= Sum(Sizes(s'.ledger.live)) <= s'.ledger.max
    ensures Sum(StagedBy(s'.uploads, o)) <= Sum(SizesOf(s'.ledger.live, o)) <= s'.ledger.perSession
    ensures |RegisteredIds(s'.uploads, o)| <= c.maxPending
  {
    InitiallyInv(c, s);
    RunKeeps(c, s, run, s');
    forall id | id in s'.uploads && s'.uploads[id].stored != map[]
      ensures Sum(s'.uploads[id].stored) <= s'.uploads[id].plan.size
      ensures id in s'.ledger.live
      ensures s'.ledger.live[id] == Charge(s'.uploads[id].owner, s'.uploads[id].plan.size)
    {
      StoredNeedsLease(c, s', id);
    }
    StagedWithinCaps(c, s', o);
  }

  /** The upload an action works on, where it works on one. */
  ghost predicate WorksOn(s: State, a: Action, id: LeaseId) {
    || (OnOne(a) && a.id == id)
    || (a.RetryOk? && s.retry.Retrying? && s.retry.id == id)
    || (a.Build? && TransferOf(s, a.o).CountedFor? && TransferOf(s, a.o).id == id)
    || (a.Register? && TransferOf(s, a.o).Built? && TransferOf(s, a.o).id == id)
  }

  lemma OneLeavesOthersAlone(c: Config, s: State, a: Action, id: LeaseId)
    requires Enabled(c, s, a) && id in s.uploads && OnOne(a) && a.id != id
    ensures id in Apply(c, s, a).uploads && Apply(c, s, a).uploads[id] == s.uploads[id]
  {
    if OnLock(a) {
      LockLeavesOthersAlone(c, s, a, id);
    }
  }

  lemma LockLeavesOthersAlone(c: Config, s: State, a: Action, id: LeaseId)
    requires Enabled(c, s, a) && id in s.uploads && OnLock(a) && a.id != id
    ensures id in Apply(c, s, a).uploads && Apply(c, s, a).uploads[id] == s.uploads[id]
  {
  }

  lemma ElsewhereLeavesItAlone(c: Config, s: State, a: Action, id: LeaseId)
    requires Enabled(c, s, a) && id in s.uploads && !WorksOn(s, a, id)
    ensures id in Apply(c, s, a).uploads && Apply(c, s, a).uploads[id] == s.uploads[id]
  {
    if OnOne(a) {
      OneLeavesOthersAlone(c, s, a, id);
    }
  }

  lemma OthersLeaveItAlone(c: Config, s: State, a: Action, id: LeaseId)
    requires Enabled(c, s, a)
    requires Held(s, id, Entered) && s.uploads[id].mu.who.Commit? && !s.uploads[id].closed
    requires !(a == Leave(id) || a == StartCleanup(id) || a.Sweep?)
    requires a.Build? ==> TransferOf(s, a.o).id !in s.uploads
    requires s.retry.Retrying? ==> s.retry.id != id
    ensures id in Apply(c, s, a).uploads
    ensures Apply(c, s, a).uploads[id] == s.uploads[id].(registered := Apply(c, s, a).uploads[id].registered)
  {
    if WorksOn(s, a, id) {
      assert a.Register?;
    } else {
      ElsewhereLeavesItAlone(c, s, a, id);
    }
  }

  /**
   * While a commit holds an open upload's mutex, no step of another handler touches what
   * the commit is reading; only the age-guarded sweeper could.
   */
  lemma CommitReadsUndisturbed(c: Config, s: State, a: Action, id: LeaseId)
    requires Inv(c, s) && Enabled(c, s, a)
    requires Held(s, id, Entered) && s.uploads[id].mu.who.Commit? && !s.uploads[id].closed
    requires !(a == Leave(id) || a == StartCleanup(id) || a.Sweep?)
    ensures id in Apply(c, s, a).uploads
    ensures Apply(c, s, a).uploads[id].stored == s.uploads[id].stored
    ensures Apply(c, s, a).uploads[id].mu == s.uploads[id].mu
    ensures Apply(c, s, a).uploads[id].chunks == s.uploads[id].chunks
  {
    if a.Build? {
      assert TransferOk(s, a.o);
    }
    OthersLeaveItAlone(c, s, a, id);
  }
}
