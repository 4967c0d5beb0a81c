/**
 * What answers for a charge. A lease or a chunk count of an upload is never orphaned: over
 * every run somebody is left who will run its closure.
 */
module UploadLeases {
  import opened MapSums
  import opened StorageLedger
  import opened UploadProtocol
  import opened Chunking

  /** Its holder will release it, or put it on the retry worker's list. */
  predicate Tidying(u: Upload) {
    u.mu.Holding? && (u.mu.phase.Releasing? || (u.mu.phase.Cleaning? && !u.mu.who.Abort?))
  }

  ghost predicate BeingBuilt(s: State, id: LeaseId) {
    exists o :: TransferOf(s, o) == Built(id)
  }

  /** An open upload is in its session's list, or about to be; a closed one is being tidied or waits for the worker. */
  ghost predicate Watched(s: State, id: LeaseId) {
    && id in s.uploads
    && (if s.uploads[id].closed then id in s.pending || Tidying(s.uploads[id])
        else s.uploads[id].registered || BeingBuilt(s, id))
  }

  ghost predicate Reserving(s: State, id: LeaseId) {
    exists o :: Claims(TransferOf(s, o), id)
  }

  /** Somebody answers for it. */
  ghost predicate Covered(s: State, id: LeaseId) {
    id in s.others || Reserving(s, id) || Watched(s, id)
  }

  ghost predicate Owed(l: Ledger, id: LeaseId) {
    id in l.live || id in l.counted
  }

  /** A commit or an abort that holds an upload's mutex holds its session's transfer lock for that upload. */
  ghost predicate LockOk(s: State, id: LeaseId) {
    id in s.uploads && s.uploads[id].mu.Holding? ==>
      match s.uploads[id].mu.who
      case Commit => TransferOf(s, s.uploads[id].owner) == Committing(id)
      case Abort => TransferOf(s, s.uploads[id].owner) == Aborting(id) && !s.uploads[id].mu.phase.Finishing?
      case Evict => true
  }

  ghost predicate NoLeak(s: State) {
    && (forall id :: Owed(s.ledger, id) ==> Covered(s, id))
    && (forall id :: id in s.others ==> id !in s.ledger.counted)
    && (forall id :: LockOk(s, id))
  }

  // ------------------------------------------------------------- small facts

  /** An upload that exists is no other component's, and no reservation still answers for it. */
  lemma UploadIsWatched(c: Config, s: State, id: LeaseId)
    requires Shape(c, s) && NoLeak(s) && id in s.uploads && Owed(s.ledger, id)
    ensures Watched(s, id)
  {
    assert Covered(s, id);
    forall o ensures !Claims(TransferOf(s, o), id) {
      assert TransferOk(s, o);
    }
  }

  /** One upload changes and nothing else. */
  lemma SetCovers(s: State, id: LeaseId, u: Upload)
    requires NoLeak(s) && id in s.uploads && LockOk(Set(s, id, u), id)
    requires u.owner == s.uploads[id].owner
    requires Owed(s.ledger, id) ==> Watched(Set(s, id, u), id)
    ensures NoLeak(Set(s, id, u))
  {
    var s' := Set(s, id, u);
    assert forall o :: TransferOf(s', o) == TransferOf(s, o);
    forall x ensures LockOk(s', x) {
      assert LockOk(s, x);
    }
    forall x | Owed(s.ledger, x) ensures Covered(s', x) {
      assert Covered(s, x);
      KeptBut(s, s', x);
    }
  }

  /** Elsewhere nothing changes for `x`. */
  lemma KeptBut(s: State, s': State, x: LeaseId)
    requires Covered(s, x) && (x in s.others ==> x in s'.others) && (Watched(s, x) ==> Watched(s', x))
    requires forall o :: Claims(TransferOf(s, o), x) ==> Claims(TransferOf(s', o), x)
    ensures Covered(s', x)
  {
  }

  /** The ledger gives up what it owes on `id`, or nothing. */
  lemma LessOwed(s: State, l: Ledger)
    requires NoLeak(s)
    requires forall x :: Owed(l, x) ==> Owed(s.ledger, x)
    requires forall x :: x in l.counted ==> x in s.ledger.counted
    ensures NoLeak(s.(ledger := l))
  {
    var s' := s.(ledger := l);
    assert forall o :: TransferOf(s', o) == TransferOf(s, o);
    forall x ensures LockOk(s', x) {
      assert LockOk(s, x);
    }
    forall x | Owed(l, x) ensures Covered(s', x) {
      assert Covered(s, x);
      assert Watched(s, x) ==> Watched(s', x);
      KeptBut(s, s', x);
    }
  }

  lemma ReleasedOwes(l: Ledger, id: LeaseId)
    ensures forall x :: Owed(Release(l, id), x) ==> Owed(l, x)
    ensures forall x :: Owed(UncountChunks(l, id), x) ==> Owed(l, x)
    ensures Release(l, id).counted == l.counted && UncountChunks(l, id).live == l.live
  {
  }

  /** A session's transfer lock moves on, answering for whatever it answered for. */
  lemma TransferCovers(s: State, o: Owner, t: Transfer)
    requires NoLeak(s) && forall x :: LockOk(SetTransfer(s, o, t), x)
    requires forall id :: Claims(TransferOf(s, o), id) ==> Claims(t, id) || !Owed(s.ledger, id)
    requires forall id :: TransferOf(s, o) == Built(id) && id in s.uploads && !s.uploads[id].closed ==>
               s.uploads[id].registered || t == Built(id)
    ensures NoLeak(SetTransfer(s, o, t))
  {
    var s' := SetTransfer(s, o, t);
    assert forall p :: TransferOf(s', p) == if p == o then t else TransferOf(s, p);
    forall x | Owed(s.ledger, x) ensures Covered(s', x) {
      assert Covered(s, x);
      if Reserving(s, x) {
        var p :| Claims(TransferOf(s, p), x);
        assert Claims(TransferOf(s', p), x);
      } else if Watched(s, x) {
        WatchedOn(s, s', x, o, t);
      }
    }
  }

  lemma WatchedOn(s: State, s': State, x: LeaseId, o: Owner, t: Transfer)
    requires Watched(s, x) && s'.uploads == s.uploads && s'.pending == s.pending
    requires forall p :: TransferOf(s', p) == if p == o then t else TransferOf(s, p)
    requires TransferOf(s, o) == Built(x) && !s.uploads[x].closed ==> s.uploads[x].registered || t == Built(x)
    ensures Watched(s', x)
  {
    if BeingBuilt(s, x) && !s.uploads[x].closed && !s.uploads[x].registered {
      var p :| TransferOf(s, p) == Built(x);
      assert TransferOf(s', p) == Built(x);
    }
  }

  // ------------------------------------------------------------- the actions

  lemma OtherReserveCovers(c: Config, s: State, a: Action)
    requires Shape(c, s) && NoLeak(s) && a.OtherReserve?
    ensures NoLeak(Apply(c, s, a))
  {
    var s' := Apply(c, s, a);
    ReserveShape(s.ledger, s.nextId, a.o, a.size, a.probe, a.gone);
    assert forall o :: TransferOf(s', o) == TransferOf(s, o);
    forall x ensures LockOk(s', x) {
      assert LockOk(s, x);
    }
    forall x | Owed(s'.ledger, x) ensures Covered(s', x) {
      if x !in s'.others {
        assert Covered(s, x);
        assert Watched(s, x) ==> Watched(s', x);
        KeptBut(s, s', x);
      }
    }
  }

  lemma OtherReleaseCovers(c: Config, s: State, id: LeaseId)
    requires Shape(c, s) && NoLeak(s) && id in s.others
    ensures NoLeak(Apply(c, s, OtherRelease(id)))
  {
    var s' := Apply(c, s, OtherRelease(id));
    assert forall o :: TransferOf(s', o) == TransferOf(s, o);
    forall x ensures LockOk(s', x) {
      assert LockOk(s, x);
    }
    forall x | Owed(s'.ledger, x) ensures Covered(s', x) {
      assert x != id && Covered(s, x);
      assert Watched(s, x) ==> Watched(s', x);
      KeptBut(s, s', x);
    }
  }

  lemma ReserveBytesCovers(c: Config, s: State, a: Action)
    requires Shape(c, s) && NoLeak(s) && Enabled(c, s, a) && a.ReserveBytes?
    ensures NoLeak(Apply(c, s, a))
  {
    var s' := Apply(c, s, a);
    ReserveShape(s.ledger, s.nextId, a.o, TransferOf(s, a.o).plan.size, a.probe, a.gone);
    forall x ensures LockOk(s', x) {
      assert LockOk(s, x);
    }
    forall x | Owed(s'.ledger, x) ensures Covered(s', x) {
      if Owed(s.ledger, x) {
        assert Covered(s, x);
        ElsewhereCovered(s, s', a.o, x);
      } else {
        assert x == s.nextId && Claims(TransferOf(s', a.o), x);
      }
    }
  }

  /** Another session's lock answers for what it did. */
  lemma ElsewhereCovered(s: State, s': State, o: Owner, x: LeaseId)
    requires Covered(s, x) && s'.uploads == s.uploads && s'.pending == s.pending && s'.others == s.others
    requires forall p :: p != o ==> TransferOf(s', p) == TransferOf(s, p)
    requires forall id :: Claims(TransferOf(s, o), id) ==> Claims(TransferOf(s', o), id)
    requires !TransferOf(s, o).Built?
    ensures Covered(s', x)
  {
    if Reserving(s, x) {
      var p :| Claims(TransferOf(s, p), x);
      assert Claims(TransferOf(s', p), x);
    } else if Watched(s, x) {
      WatchedOn(s, s', x, o, TransferOf(s', o));
    }
  }

  lemma ReserveChunksCovers(c: Config, s: State, a: Action)
    requires Shape(c, s) && NoLeak(s) && Enabled(c, s, a) && a.ReserveChunks?
    ensures NoLeak(Apply(c, s, a))
  {
    var s', t := Apply(c, s, a), TransferOf(s, a.o);
    assert TransferOk(s, a.o);
    forall x ensures LockOk(s', x) {
      assert LockOk(s, x);
    }
    forall x | Owed(s'.ledger, x) ensures Covered(s', x) {
      if x == t.id {
        assert Claims(TransferOf(s', a.o), x);
      } else {
        assert Covered(s, x);
        ElsewhereCovered(s, s', a.o, x);
      }
    }
  }

  lemma BuildCovers(c: Config, s: State, a: Action)
    requires Shape(c, s) && NoLeak(s) && Enabled(c, s, a) && a.Build?
    ensures NoLeak(Apply(c, s, a))
  {
    var s', t := Apply(c, s, a), TransferOf(s, a.o);
    assert TransferOk(s, a.o);
    assert TransferOf(s', a.o) == Built(t.id);
    forall x ensures LockOk(s', x) {
      assert LockOk(s, x);
    }
    forall x | Owed(s'.ledger, x) ensures Covered(s', x) {
      if x == t.id {
        assert BeingBuilt(s', x) && Watched(s', x);
      } else {
        assert Covered(s, x);
        BuiltElsewhere(s, s', a.o, x);
      }
    }
  }

  lemma BuiltElsewhere(s: State, s': State, o: Owner, x: LeaseId)
    requires Covered(s, x) && s'.pending == s.pending && s'.others == s.others
    requires x in s.uploads ==> x in s'.uploads && s'.uploads[x] == s.uploads[x]
    requires forall p :: p != o ==> TransferOf(s', p) == TransferOf(s, p)
    requires !Claims(TransferOf(s, o), x) && !TransferOf(s, o).Built?
    ensures Covered(s', x)
  {
    if Reserving(s, x) {
      var p :| Claims(TransferOf(s, p), x);
      assert Claims(TransferOf(s', p), x);
    } else if Watched(s, x) && BeingBuilt(s, x) {
      var p :| TransferOf(s, p) == Built(x);
      assert TransferOf(s', p) == Built(x);
    }
  }

  lemma RegisterCovers(c: Config, s: State, o: Owner)
    requires Shape(c, s) && NoLeak(s) && TransferOf(s, o).Built?
    ensures NoLeak(Apply(c, s, Register(o)))
  {
    var id := TransferOf(s, o).id;
    assert TransferOk(s, o);
    var u := s.uploads[id].(registered := true);
    assert LockOk(s, id);
    if Owed(s.ledger, id) {
      UploadIsWatched(c, s, id);
    }
    SetCovers(s, id, u);
    var mid := Set(s, id, u);
    assert forall p :: TransferOf(mid, p) == TransferOf(s, p);
    NoHolder(mid, o, Idle);
    TransferCovers(mid, o, Idle);
  }

  /** A session whose lock is with no commit and no abort has no upload held by one. */
  lemma NoHolder(s: State, o: Owner, t: Transfer)
    requires NoLeak(s) && !TransferOf(s, o).Committing? && !TransferOf(s, o).Aborting?
    ensures forall x :: LockOk(SetTransfer(s, o, t), x)
  {
    forall x ensures LockOk(SetTransfer(s, o, t), x) {
      assert LockOk(s, x);
    }
  }

  /** Beginning a reservation, a commit or an abort, or giving a reservation up. */
  lemma TransferStepCovers(c: Config, s: State, a: Action)
    requires Shape(c, s) && NoLeak(s) && Enabled(c, s, a)
    requires a.ReserveBegin? || a.BuildFails? || a.CommitBegin? || a.AbortBegin?
    ensures NoLeak(Apply(c, s, a))
  {
    var t := TransferOf(Apply(c, s, a), a.o);
    NoHolder(s, a.o, t);
    TransferCovers(s, a.o, t);
  }

  lemma UndoCovers(c: Config, s: State, a: Action)
    requires Shape(c, s) && NoLeak(s) && Enabled(c, s, a) && (a.UndoBytes? || a.UndoChunks?)
    ensures NoLeak(Apply(c, s, a))
  {
    var id := TransferOf(s, a.o).id;
    ReleasedOwes(s.ledger, id);
    if a.UndoBytes? {
      LessOwed(s, Release(s.ledger, id));
    } else {
      var mid := s.(ledger := UncountChunks(s.ledger, id));
      LessOwed(s, mid.ledger);
      assert forall p :: TransferOf(mid, p) == TransferOf(s, p);
      NoHolder(mid, a.o, Idle);
      TransferCovers(mid, a.o, Idle);
    }
  }

  lemma ClosureCovers(c: Config, s: State, a: Action)
    requires NoLeak(s) && Enabled(c, s, a) && (a.RunBytes? || a.RunChunks?)
    ensures NoLeak(Apply(c, s, a))
  {
    ReleasedOwes(s.ledger, a.id);
    LessOwed(s, Apply(c, s, a).ledger);
  }

  lemma ChunksCover(c: Config, s: State, a: Action)
    requires Shape(c, s) && NoLeak(s) && Enabled(c, s, a) && OnChunks(a)
    ensures NoLeak(Apply(c, s, a))
  {
    if a.ChunkBegin? || a.ChunkWrite? || a.ChunkEnd? {
      WritingCovers(c, s, a);
    } else {
      var u := Apply(c, s, a).uploads[a.id];
      assert LockOk(s, a.id);
      assert forall o :: TransferOf(Set(s, a.id, u), o) == TransferOf(s, o);
      if Owed(s.ledger, a.id) {
        UploadIsWatched(c, s, a.id);
      }
      SetCovers(s, a.id, u);
    }
  }

  lemma WritingCovers(c: Config, s: State, a: Action)
    requires Shape(c, s) && NoLeak(s) && Enabled(c, s, a) && (a.ChunkBegin? || a.ChunkWrite? || a.ChunkEnd?)
    ensures NoLeak(Apply(c, s, a))
  {
    var u := Apply(c, s, a).uploads[a.id];
    assert LockOk(s, a.id) && UploadOk(s.ledger, a.id, s.uploads[a.id]);
    assert forall o :: TransferOf(Set(s, a.id, u), o) == TransferOf(s, o);
    if Owed(s.ledger, a.id) {
      UploadIsWatched(c, s, a.id);
    }
    SetCovers(s, a.id, u);
  }

  /** Leaving the mutex, and with it the transfer lock. */
  lemma UnlockedCovers(c: Config, s: State, id: LeaseId)
    requires Shape(c, s) && NoLeak(s) && id in s.uploads && s.uploads[id].mu.Holding?
    requires Owed(s.ledger, id) ==> (s.uploads[id].closed ==> id in s.pending)
    ensures NoLeak(Unlocked(s, id))
  {
    var u := s.uploads[id];
    var free := u.(mu := Free);
    var mid := Set(s, id, free);
    assert LockOk(s, id);
    assert forall o :: TransferOf(mid, o) == TransferOf(s, o);
    if Owed(s.ledger, id) {
      UploadIsWatched(c, s, id);
    }
    SetCovers(s, id, free);
    if !u.mu.who.Evict? {
      forall x ensures LockOk(SetTransfer(mid, u.owner, Idle), x) {
        assert LockOk(s, x);
      }
      TransferCovers(mid, u.owner, Idle);
    }
  }

  lemma EnterCovers(c: Config, s: State, a: Action)
    requires Shape(c, s) && NoLeak(s) && Enabled(c, s, a) && (a.Enter? || a.StartCleanup? || a.CleanupOk?)
    ensures NoLeak(Apply(c, s, a))
  {
    var u := Apply(c, s, a).uploads[a.id];
    assert LockOk(s, a.id) && UploadOk(s.ledger, a.id, s.uploads[a.id]);
    assert forall o :: TransferOf(Set(s, a.id, u), o) == TransferOf(s, o);
    if Owed(s.ledger, a.id) {
      UploadIsWatched(c, s, a.id);
    }
    SetCovers(s, a.id, u);
  }

  lemma LeaveCovers(c: Config, s: State, id: LeaseId)
    requires Shape(c, s) && NoLeak(s) && Held(s, id, Entered)
    ensures NoLeak(Unlocked(s, id))
  {
    if Owed(s.ledger, id) {
      UploadIsWatched(c, s, id);
    }
    UnlockedCovers(c, s, id);
  }

  lemma CleanupFailsCovers(c: Config, s: State, id: LeaseId)
    requires Shape(c, s) && NoLeak(s) && Held(s, id, Cleaning)
    ensures NoLeak(Apply(c, s, CleanupFails(id)))
  {
    var u := s.uploads[id];
    if Owed(s.ledger, id) {
      UploadIsWatched(c, s, id);
    }
    if u.mu.who.Abort? {
      UnlockedCovers(c, s, id);
    } else {
      var mid := s.(pending := s.pending + {id});
      PendingCovers(s, mid.pending, s.retry);
      var after := u.(mu := Holding(u.mu.who, Finishing));
      assert forall o :: TransferOf(Set(mid, id, after), o) == TransferOf(mid, o) == TransferOf(s, o);
      assert LockOk(s, id) && UploadOk(s.ledger, id, u);
      SetCovers(mid, id, after);
    }
  }

  /** The worker's own steps; what leaves its list has nothing charged any more. */
  lemma PendingCovers(s: State, pending: set<LeaseId>, retry: Retry)
    requires NoLeak(s) && forall id :: id in s.pending && id !in pending ==> !Owed(s.ledger, id)
    ensures NoLeak(s.(pending := pending, retry := retry))
  {
    var s' := s.(pending := pending, retry := retry);
    assert forall o :: TransferOf(s', o) == TransferOf(s, o);
    forall x ensures LockOk(s', x) {
      assert LockOk(s, x);
    }
    forall x | Owed(s.ledger, x) ensures Covered(s', x) {
      assert Covered(s, x);
      if Watched(s, x) && !s.uploads[x].closed && !s.uploads[x].registered {
        var p :| TransferOf(s, p) == Built(x);
        assert TransferOf(s', p) == Built(x);
      }
      KeptBut(s, s', x);
    }
  }

  lemma FinishIsSettled(c: Config, s: State, id: LeaseId)
    requires Shape(c, s) && NoLeak(s) && Enabled(c, s, Finish(id))
    ensures Owed(s.ledger, id) ==> id in s.pending
    ensures !s.uploads[id].mu.who.Evict? ==> s.uploads[id].closed
  {
    assert UploadOk(s.ledger, id, s.uploads[id]) && LockOk(s, id);
    if Owed(s.ledger, id) {
      UploadIsWatched(c, s, id);
    }
  }

  lemma FinishCovers(c: Config, s: State, id: LeaseId)
    requires Shape(c, s) && NoLeak(s) && Enabled(c, s, Finish(id))
    ensures NoLeak(Apply(c, s, Finish(id)))
  {
    FinishIsSettled(c, s, id);
    UnlockedCovers(c, s, id);
    if !s.uploads[id].mu.who.Evict? {
      ForgottenCovers(Unlocked(s, id), id);
    }
  }

  /** A closed upload may leave its session's list. */
  lemma ForgottenCovers(s: State, id: LeaseId)
    requires NoLeak(s) && id in s.uploads && s.uploads[id].closed && s.uploads[id].mu.Free?
    requires Owed(s.ledger, id) ==> id in s.pending
    ensures NoLeak(Set(s, id, s.uploads[id].(registered := false)))
  {
    var u := s.uploads[id].(registered := false);
    assert forall o :: TransferOf(Set(s, id, u), o) == TransferOf(s, o);
    SetCovers(s, id, u);
  }

  lemma RetryOkCovers(c: Config, s: State)
    requires Shape(c, s) && NoLeak(s) && Enabled(c, s, RetryOk)
    ensures NoLeak(Apply(c, s, RetryOk))
  {
    var id := s.retry.id;
    var u := s.uploads[id].(stored := map[]);
    assert LockOk(s, id);
    assert forall o :: TransferOf(Set(s, id, u), o) == TransferOf(s, o);
    if Owed(s.ledger, id) {
      UploadIsWatched(c, s, id);
    }
    SetCovers(s, id, u);
    PendingCovers(Set(s, id, u), s.pending, Retrying(id, Releasing));
  }

  lemma RetryRestCovers(c: Config, s: State, a: Action)
    requires NoLeak(s) && Enabled(c, s, a) && (a.RetryPick? || a.RetryFails? || a.RetryDone?)
    ensures NoLeak(Apply(c, s, a))
  {
    PendingCovers(s, Apply(c, s, a).pending, Apply(c, s, a).retry);
  }

  // --------------------------------------------------------------------- runs

  lemma LockStepCovers(c: Config, s: State, a: Action)
    requires Shape(c, s) && NoLeak(s) && Enabled(c, s, a) && OnLock(a)
    ensures NoLeak(Apply(c, s, a))
  {
    if a.Leave? {
      LeaveCovers(c, s, a.id);
    } else if a.CleanupFails? {
      CleanupFailsCovers(c, s, a.id);
    } else if a.Finish? {
      FinishCovers(c, s, a.id);
    } else {
      EnterCovers(c, s, a);
    }
  }

  lemma ReserveStepCovers(c: Config, s: State, a: Action)
    requires Shape(c, s) && NoLeak(s) && Enabled(c, s, a)
    requires a.ReserveBytes? || a.ReserveChunks? || a.Build? || a.UndoBytes? || a.UndoChunks? || a.Register?
    ensures NoLeak(Apply(c, s, a))
  {
    if a.ReserveBytes? {
      ReserveBytesCovers(c, s, a);
    } else if a.ReserveChunks? {
      ReserveChunksCovers(c, s, a);
    } else if a.Build? {
      BuildCovers(c, s, a);
    } else if a.Register? {
      RegisterCovers(c, s, a.o);
    } else {
      UndoCovers(c, s, a);
    }
  }

  lemma StepCovers(c: Config, s: State, a: Action)
    requires Shape(c, s) && NoLeak(s) && Enabled(c, s, a)
    ensures NoLeak(Apply(c, s, a))
  {
    if a.OtherReserve? {
      OtherReserveCovers(c, s, a);
    } else if a.OtherRelease? {
      OtherReleaseCovers(c, s, a.id);
    } else if a.ReserveBegin? || a.BuildFails? || a.CommitBegin? || a.AbortBegin? {
      TransferStepCovers(c, s, a);
    } else if a.ReserveBytes? || a.ReserveChunks? || a.Build? || a.UndoBytes? || a.UndoChunks? || a.Register? {
      ReserveStepCovers(c, s, a);
    } else if OnChunks(a) {
      ChunksCover(c, s, a);
    } else if a.RunBytes? || a.RunChunks? {
      ClosureCovers(c, s, a);
    } else if a.RetryPick? || a.RetryOk? || a.RetryFails? || a.RetryDone? {
      if a.RetryOk? {
        RetryOkCovers(c, s);
      } else {
        RetryRestCovers(c, s, a);
      }
    } else {
      LockStepCovers(c, s, a);
    }
  }

  lemma {:induction false} RunCovers(c: Config, s: State, run: seq<Action>, s': State)
    requires Inv(c, s) && NoLeak(s) && Reaches(c, s, run, s')
    ensures Inv(c, s') && NoLeak(s')
    decreases |run|
  {
    if run != [] {
      StepCovers(c, s, run[0]);
      StepKeepsInv(c, s, run[0]);
      RunCovers(c, Apply(c, s, run[0]), run[1..], s');
    }
  }

  /** Nothing of an upload is in progress, waits for the worker, or is in a session's list. */
  ghost predicate Quiet(s: State) {
    && (forall o :: TransferOf(s, o).Idle?) && s.pending == {}
    && forall id :: id in s.uploads ==> s.uploads[id].mu.Free? && !s.uploads[id].registered
  }

  /**
   * Over every run, whatever fails and however handlers interleave, no charge is lost: each is
   * another component's, a reservation's in progress, that of an open upload the session still
   * lists, of one whose files are just being removed, or of one on the retry worker's list. So
   * once all is quiet no chunk is counted and no byte is charged but by other components.
   */
  lemma NothingLeaks(c: Config, s: State, run: seq<Action>, s': State)
    requires Initially(c, s) && Reaches(c, s, run, s')
    ensures forall id :: id in s'.ledger.live || id in s'.ledger.counted ==> Covered(s', id)
    ensures Quiet(s') ==> s'.ledger.live.Keys <= s'.others && s'.ledger.reservedChunks == 0
  {
    InitiallyInv(c, s);
    RunCovers(c, s, run, s');
    if Quiet(s') {
      QuietOwesNothing(s');
    }
  }

  lemma QuietOwesNothing(s: State)
    requires NoLeak(s) && Conserved(s.ledger) && Quiet(s)
    ensures s.ledger.live.Keys <= s.others && s.ledger.reservedChunks == 0
  {
    forall id | Owed(s.ledger, id) ensures id in s.others {
      assert Covered(s, id);
    }
    assert s.ledger.counted == map[];
  }

  // ------------------------------------------------ every charge can be given back

  lemma OneStep(c: Config, s: State, a: Action)
    requires Enabled(c, s, a)
    ensures Reaches(c, s, [a], Apply(c, s, a))
  {
    assert [a][1..] == [];
    assert Reaches(c, Apply(c, s, a), [], Apply(c, s, a));
  }

  lemma {:induction false} Onward(c: Config, s: State, a: seq<Action>, mid: State, b: seq<Action>, s': State)
    requires Reaches(c, s, a, mid) && Reaches(c, mid, b, s')
    ensures Reaches(c, s, a + b, s')
    decreases |a|
  {
    if a == [] {
      assert a + b == b;
    } else {
      Onward(c, Apply(c, s, a[0]), a[1..], mid, b, s');
      assert (a + b)[1..] == a[1..] + b;
    }
  }

  /** From one state on to another, by some run. */
  ghost predicate Leads(c: Config, s: State, s': State) {
    exists run :: Reaches(c, s, run, s')
  }

  lemma LeadsBy(c: Config, s: State, a: Action)
    requires Enabled(c, s, a)
    ensures Leads(c, s, Apply(c, s, a))
  {
    OneStep(c, s, a);
  }

  lemma LeadsOn(c: Config, s: State, mid: State, s': State)
    requires Leads(c, s, mid) && Leads(c, mid, s')
    ensures Leads(c, s, s')
  {
    var a :| Reaches(c, s, a, mid);
    var b :| Reaches(c, mid, b, s');
    Onward(c, s, a, mid, b, s');
  }

  /** Nothing is charged or stored for the upload, and it is closed. */
  ghost predicate GivenBack(s: State, id: LeaseId) {
    id in s.uploads && !Owed(s.ledger, id) && s.uploads[id].stored == map[] && s.uploads[id].closed
  }

  /** Both closures, run by whoever saw the files gone. */
  lemma ClosuresRun(c: Config, s: State, id: LeaseId) returns (s': State)
    requires MayRelease(s, id)
    ensures Leads(c, s, s') && s' == s.(ledger := s'.ledger) && !Owed(s'.ledger, id)
  {
    var mid := Apply(c, s, RunBytes(id));
    s' := Apply(c, mid, RunChunks(id));
    LeadsBy(c, s, RunBytes(id));
    LeadsBy(c, mid, RunChunks(id));
    LeadsOn(c, s, mid, s');
  }

  /** A holder that saw the files gone can run them and leave. */
  lemma ReleasingEnds(c: Config, s: State, id: LeaseId) returns (s': State)
    requires Inv(c, s) && Held(s, id, Releasing)
    ensures Leads(c, s, s') && GivenBack(s', id) && s'.uploads[id].mu.Free?
    ensures !s.uploads[id].mu.who.Evict? ==> !s'.uploads[id].registered && TransferOf(s', s.uploads[id].owner).Idle?
    ensures s.uploads[id].mu.who.Evict? ==> s'.transfers == s.transfers
  {
    assert UploadOk(s.ledger, id, s.uploads[id]);
    var mid := ClosuresRun(c, s, id);
    s' := Apply(c, mid, Finish(id));
    LeadsBy(c, mid, Finish(id));
    LeadsOn(c, s, mid, s');
  }

  lemma StepKeepsInv(c: Config, s: State, a: Action)
    requires Inv(c, s) && Enabled(c, s, a)
    ensures Inv(c, Apply(c, s, a))
  {
    StepKeepsShape(c, s, a);
    assert a.ReserveChunks? ==> TransferOk(s, a.o);
    StepKeepsSound(c, s, a);
  }

  lemma InvLeadsBy(c: Config, s: State, mid: State, a: Action)
    requires Inv(c, mid) && Leads(c, s, mid) && Enabled(c, mid, a)
    ensures Inv(c, Apply(c, mid, a)) && Leads(c, s, Apply(c, mid, a))
  {
    StepKeepsInv(c, mid, a);
    LeadsBy(c, mid, a);
    LeadsOn(c, s, mid, Apply(c, mid, a));
  }

  /** A commit or an abort takes the session's lock first. */
  lemma LockTaken(c: Config, s: State, id: LeaseId, who: Who) returns (s': State)
    requires Inv(c, s) && id in s.uploads && s.uploads[id].registered
    requires TransferOf(s, s.uploads[id].owner).Idle?
    ensures Inv(c, s') && Leads(c, s, s') && s'.uploads == s.uploads
    ensures TransferOf(s', s.uploads[id].owner)
            == match who case Commit => Committing(id) case Abort => Aborting(id) case Evict => Idle
  {
    var o := s.uploads[id].owner;
    if who.Evict? {
      assert Reaches(c, s, [], s);
      return s;
    }
    var begin := if who.Commit? then CommitBegin(o, id) else AbortBegin(o, id);
    LeadsBy(c, s, begin);
    StepKeepsInv(c, s, begin);
    s' := Apply(c, s, begin);
  }

  /** A commit, an abort or an eviction gets hold of an upload nobody holds. */
  lemma HolderEnters(c: Config, s: State, id: LeaseId, who: Who) returns (s': State)
    requires Inv(c, s) && id in s.uploads && s.uploads[id].registered && s.uploads[id].mu.Free?
    requires TransferOf(s, s.uploads[id].owner).Idle?
    ensures Inv(c, s') && Leads(c, s, s') && Held(s', id, Entered)
    ensures s'.uploads[id] == s.uploads[id].(mu := Holding(who, Entered))
    ensures who.Evict? ==> TransferOf(s', s.uploads[id].owner).Idle?
  {
    var mid := LockTaken(c, s, id, who);
    InvLeadsBy(c, s, mid, Enter(id, who));
    s' := Apply(c, mid, Enter(id, who));
  }

  /** And removes its files. */
  lemma HolderCleans(c: Config, s: State, id: LeaseId) returns (s': State)
    requires Inv(c, s) && Held(s, id, Entered) && (s.uploads[id].mu.who.Commit? ==> !s.uploads[id].closed)
    ensures Inv(c, s') && Leads(c, s, s') && Held(s', id, Releasing) && s'.uploads[id].mu.who == s.uploads[id].mu.who
    ensures s'.uploads[id].owner == s.uploads[id].owner && s'.transfers == s.transfers
  {
    LeadsBy(c, s, StartCleanup(id));
    StepKeepsInv(c, s, StartCleanup(id));
    var mid := Apply(c, s, StartCleanup(id));
    InvLeadsBy(c, s, mid, CleanupOk(id));
    s' := Apply(c, mid, CleanupOk(id));
  }

  /**
   * Wherever a run has come to, a session whose lock is free can commit an open upload in its
   * list that no handler holds, and abort or evict any: a run leads from there to a state in
   * which nothing is charged or stored for it, the lock is free again and, but for an eviction,
   * the upload is forgotten.
   */
  lemma HolderGivesBack(c: Config, s: State, id: LeaseId, who: Who) returns (s': State)
    requires Inv(c, s) && id in s.uploads && s.uploads[id].registered && s.uploads[id].mu.Free?
    requires TransferOf(s, s.uploads[id].owner).Idle? && (who.Commit? ==> !s.uploads[id].closed)
    ensures Leads(c, s, s') && GivenBack(s', id) && s'.uploads[id].mu.Free?
    ensures !who.Evict? ==> !s'.uploads[id].registered
    ensures TransferOf(s', s.uploads[id].owner).Idle?
  {
    var held := HolderEnters(c, s, id, who);
    var clean := HolderCleans(c, held, id);
    LeadsOn(c, s, held, clean);
    s' := ReleasingEnds(c, clean, id);
    LeadsOn(c, s, clean, s');
  }

  lemma FinishLeads(c: Config, s: State, id: LeaseId) returns (s': State)
    requires Held(s, id, Finishing)
    ensures Leads(c, s, s') && id in s'.uploads && s'.uploads[id].mu.Free?
    ensures s'.uploads[id].stored == s.uploads[id].stored && s'.uploads[id].closed == s.uploads[id].closed
    ensures s'.ledger == s.ledger && s'.pending == s.pending
  {
    s' := Apply(c, s, Finish(id));
    LeadsBy(c, s, Finish(id));
  }

  lemma AbortFails(c: Config, s: State, id: LeaseId) returns (s': State)
    requires Held(s, id, Cleaning) && s.uploads[id].mu.who.Abort?
    ensures Leads(c, s, s') && id in s'.uploads && s'.uploads[id] == s.uploads[id].(mu := Free)
    ensures s'.ledger == s.ledger && s'.pending == s.pending
  {
    s' := Apply(c, s, CleanupFails(id));
    LeadsBy(c, s, CleanupFails(id));
  }

  /**
   * A holder whose cleanup fails leaves too: after an abort the upload is as open as before, and
   * otherwise it waits for the worker.
   */
  lemma FailedCleanupEnds(c: Config, s: State, id: LeaseId) returns (s': State)
    requires Held(s, id, Cleaning)
    ensures Leads(c, s, s') && id in s'.uploads && s'.uploads[id].mu.Free?
    ensures s'.uploads[id].stored == s.uploads[id].stored && s'.uploads[id].closed == s.uploads[id].closed
    ensures s'.ledger == s.ledger
    ensures s'.pending == if s.uploads[id].mu.who.Abort? then s.pending else s.pending + {id}
  {
    if s.uploads[id].mu.who.Abort? {
      s' := AbortFails(c, s, id);
    } else {
      var mid := Apply(c, s, CleanupFails(id));
      LeadsBy(c, s, CleanupFails(id));
      s' := FinishLeads(c, mid, id);
      LeadsOn(c, s, mid, s');
    }
  }

  /** And the worker, once it is free, can clear any entry of its list. */
  lemma WorkerGivesBack(c: Config, s: State, id: LeaseId) returns (s': State)
    requires Inv(c, s) && id in s.pending && s.retry.Waiting?
    ensures Leads(c, s, s') && GivenBack(s', id) && s'.pending == s.pending - {id} && s'.retry.Waiting?
  {
    var clean := WorkerCleans(c, s, id);
    var paid := ClosuresRun(c, clean, id);
    LeadsOn(c, s, clean, paid);
    s' := Apply(c, paid, RetryDone);
    LeadsBy(c, paid, RetryDone);
    LeadsOn(c, s, paid, s');
  }

  lemma WorkerCleans(c: Config, s: State, id: LeaseId) returns (s': State)
    requires Inv(c, s) && id in s.pending && s.retry.Waiting?
    ensures Leads(c, s, s') && s'.retry == Retrying(id, Releasing) && s'.pending == s.pending
    ensures id in s'.uploads && s'.uploads[id] == s.uploads[id].(stored := map[]) && s.uploads[id].closed
  {
    var mid := Apply(c, s, RetryPick(id));
    LeadsBy(c, s, RetryPick(id));
    s' := Apply(c, mid, RetryOk);
    LeadsBy(c, mid, RetryOk);
    LeadsOn(c, s, mid, s');
  }

  // ------------------------------------------------ and an upload can be begun

  /** The byte lease. */
  lemma BytesAreCharged(c: Config, s: State, o: Owner, plan: Plan, probe: Probe, gone: set<string>)
    returns (s': State)
    requires TransferOf(s, o).Idle? && Accepted(plan, c.chunkLimit)
    requires |RegisteredIds(s.uploads, o)| < c.maxPending
    requires Reserve(s.ledger, s.nextId, o, plan.size, probe, gone).1
    ensures Leads(c, s, s') && TransferOf(s', o) == ChargedFor(plan, s.nextId)
    ensures s'.ledger == Reserve(s.ledger, s.nextId, o, plan.size, probe, gone).0
  {
    var mid := Apply(c, s, ReserveBegin(o, plan));
    LeadsBy(c, s, ReserveBegin(o, plan));
    s' := Apply(c, mid, ReserveBytes(o, probe, gone));
    LeadsBy(c, mid, ReserveBytes(o, probe, gone));
    LeadsOn(c, s, mid, s');
  }

  /** The chunk count, and the upload. */
  lemma UploadIsBuilt(c: Config, s: State, o: Owner, plan: Plan, id: LeaseId) returns (s': State)
    requires TransferOf(s, o) == ChargedFor(plan, id) && plan.total >= 0 && AdmitsChunks(s.ledger, plan.total)
    ensures Leads(c, s, s') && TransferOf(s', o) == Built(id) && id in s'.uploads
    ensures s'.uploads[id] == Upload(o, plan, false, false, Free, map[], map[])
    ensures s'.ledger == CountChunks(s.ledger, id, plan.total)
  {
    var mid := Apply(c, s, ReserveChunks(o));
    LeadsBy(c, s, ReserveChunks(o));
    s' := Apply(c, mid, Build(o));
    LeadsBy(c, mid, Build(o));
    LeadsOn(c, s, mid, s');
  }

  /**
   * Wherever a run has come to, a session whose lock is free, that may have one more upload and
   * whose plan is accepted can begin it if bytes and chunks are granted, and is charged for both.
   */
  lemma UploadCanBegin(c: Config, s: State, o: Owner, plan: Plan, probe: Probe, gone: set<string>)
    returns (s': State)
    requires TransferOf(s, o).Idle? && Accepted(plan, c.chunkLimit)
    requires |RegisteredIds(s.uploads, o)| < c.maxPending
    requires Reserve(s.ledger, s.nextId, o, plan.size, probe, gone).1 && AdmitsChunks(s.ledger, plan.total)
    ensures Leads(c, s, s') && TransferOf(s', o).Idle? && s.nextId in s'.uploads
    ensures s'.uploads[s.nextId] == Upload(o, plan, true, false, Free, map[], map[])
    ensures s'.ledger.live == s.ledger.live[s.nextId := Charge(o, plan.size)]
    ensures s'.ledger.counted == s.ledger.counted[s.nextId := plan.total]
  {
    ReserveShape(s.ledger, s.nextId, o, plan.size, probe, gone);
    var paid := BytesAreCharged(c, s, o, plan, probe, gone);
    var built := UploadIsBuilt(c, paid, o, plan, s.nextId);
    LeadsOn(c, s, paid, built);
    s' := Apply(c, built, Register(o));
    LeadsBy(c, built, Register(o));
    LeadsOn(c, s, built, s');
  }

  /** Any chunk of an open upload that nobody holds can be stored in full and recorded. */
  lemma ChunkCanBeStored(c: Config, s: State, id: LeaseId, index: nat) returns (s': State)
    requires id in s.uploads && s.uploads[id].mu.Free? && !s.uploads[id].closed && Fits(s.uploads[id].plan)
    requires index < s.uploads[id].plan.total
    ensures Leads(c, s, s') && id in s'.uploads
    ensures (var u := s.uploads[id]; var n: nat := Expected(u.plan, index);
      s'.uploads[id] == u.(stored := u.stored[index := n], chunks := u.chunks[index := n]))
  {
    var u := s.uploads[id];
    LastChunk(u.plan);
    var n: nat := Expected(u.plan, index);
    var begun := Apply(c, s, ChunkBegin(id, index, n));
    LeadsBy(c, s, ChunkBegin(id, index, n));
    var written := Apply(c, begun, ChunkWrite(id, n));
    LeadsBy(c, begun, ChunkWrite(id, n));
    LeadsOn(c, s, begun, written);
    s' := Apply(c, written, ChunkEnd(id, true));
    LeadsBy(c, written, ChunkEnd(id, true));
    LeadsOn(c, s, written, s');
  }
}
