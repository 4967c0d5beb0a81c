/**
 * The budget as the program keeps it: counters changed in place and release closures
 * as objects with a `done` latch. Every method is proved equal to the matching
 * function of module `StorageLedger` and leaves the latches in step with it.
 */
module ResourceBudget {
  import opened Chunking
  import opened MapSums
  import opened StorageLedger

  /** A one-shot release closure for bytes. */
  class Lease {
    const id: LeaseId
    const owner: Owner
    const size: nat
    var done: bool

    constructor (id: LeaseId, owner: Owner, size: nat)
      ensures this.id == id && this.owner == owner && this.size == size && !done
    {
      this.id, this.owner, this.size, this.done := id, owner, size, false;
    }
  }

  /** The closure of a reserved upload: the byte closure plus its share of the chunk count. */
  class UploadLease {
    const bytes: Lease
    const chunks: nat
    var done: bool

    constructor (bytes: Lease, chunks: nat)
      ensures this.bytes == bytes && this.chunks == chunks && !done
    {
      this.bytes, this.chunks, this.done := bytes, chunks, false;
    }
  }

  class Budget {
    const max: nat
    const perSession: nat
    var used: int
    var owners: map<Owner, int>
    var orphans: map<string, nat>
    var remoteBytes: nat
    var reservedChunks: int
    var scanFailed: bool
    var nextId: nat
    ghost var live: map<LeaseId, Charge>
    ghost var counted: map<LeaseId, nat>

    ghost function View(): Ledger
      reads this
    {
      Ledger.Ledger(max, perSession, used, owners, orphans, remoteBytes, reservedChunks, scanFailed, live, counted)
    }

    /** Lease names are never reused. */
    ghost predicate Valid()
      reads this
    {
      (forall id :: id in live ==> id < nextId) && (forall id :: id in counted ==> id < nextId)
    }

    /** A byte closure is charged in the ledger exactly until its latch falls. */
    ghost predicate Tracks(lease: Lease)
      reads this, lease
    {
      && lease.id < nextId
      && (lease.id in live <==> !lease.done)
      && (lease.id in live ==> live[lease.id] == Charge(lease.owner, lease.size))
    }

    /** Likewise for the chunk share of an upload's closure. */
    ghost predicate TracksUpload(lease: UploadLease)
      reads this, lease, lease.bytes
    {
      && Tracks(lease.bytes)
      && (lease.bytes.id in counted <==> !lease.done)
      && (lease.bytes.id in counted ==> counted[lease.bytes.id] == lease.chunks)
    }

    constructor (max: nat, perSession: nat, orphans: map<string, nat>, used: nat, scanFailed: bool)
      ensures Valid() && View() == Initial(max, perSession, orphans, used, scanFailed)
    {
      this.max, this.perSession, this.orphans := max, perSession, orphans;
      this.used, this.scanFailed := used, scanFailed;
      owners, remoteBytes, reservedChunks, nextId := map[], 0, 0, 0;
      live, counted := map[], map[];
      new;
      assert View() == Initial(max, perSession, orphans, used, scanFailed);
    }

    /** Looking at one more orphan either drops it or leaves it. */
    static lemma OneMore(before: map<string, nat>, gone: set<string>, todo: set<string>, p: string)
      requires p in todo && todo <= before.Keys
      ensures Sum(Seen(before, gone, todo - {p})) == Sum(Seen(before, gone, todo)) + if p in gone then before[p] else 0
      ensures (Seen(before, gone, todo - {p})).Keys
              == (Seen(before, gone, todo)).Keys + if p in gone then {p} else {}
    {
      var dropped := Seen(before, gone, todo);
      if p in gone {
        assert Seen(before, gone, todo - {p}) == dropped[p := before[p]];
        SumInsert(dropped, p, before[p]);
      } else {
        assert Seen(before, gone, todo - {p}) == dropped;
      }
    }

    /** The orphans found gone before `todo` is looked at. */
    static ghost function Seen(before: map<string, nat>, gone: set<string>, todo: set<string>): map<string, nat> {
      map p | p in before && p in gone && p !in todo :: before[p]
    }

    /** Stops charging orphans whose directory no longer exists. */
    method DropOrphans(gone: set<string>)
      modifies this`used, this`orphans
      ensures View() == Reclaimed(old(View()), gone)
    {
      ghost var before, start := orphans, used;
      var todo := orphans.Keys;
      while todo != {}
        invariant todo <= orphans.Keys
        invariant orphans == before - Seen(before, gone, todo).Keys
        invariant used == start - Sum(Seen(before, gone, todo))
        decreases todo
      {
        var p :| p in todo;
        OneMore(before, gone, todo, p);
        todo := todo - {p};
        if p in gone {
          used := used - orphans[p];
          orphans := orphans - {p};
        }
      }
      assert before - Seen(before, gone, {}).Keys == before - gone;
      assert Seen(before, gone, {}) == map p | p in before && p in gone :: before[p];
    }

    method Reserve(owner: Owner, size: int, probe: Probe, gone: set<string>) returns (lease: Lease?)
      requires Valid()
      modifies this`used, this`orphans, this`owners, this`remoteBytes, this`nextId, this`live
      ensures Valid()
      ensures (View(), lease != null) == StorageLedger.Reserve(old(View()), old(nextId), owner, size, probe, gone)
      ensures if lease == null then nextId == old(nextId) else nextId == old(nextId) + 1
      ensures lease != null ==> fresh(lease) && lease.id == old(nextId) && Tracks(lease)
    {
      lease := null;
      if probe.Unavailable? {
        return;
      }
      ghost var l0 := View();
      Refresh(probe);
      DropOrphans(gone);
      ghost var l1 := View();
      assert l1 == Reclaimed(Refreshed(l0, probe), gone);
      var balance := if owner in owners then owners[owner] else 0;
      if scanFailed || size < 0 || size > max - used || size > perSession - balance {
        return;
      }
      lease := Grant(owner, size);
    }

    /** Takes over the bucket's inventory when one was read. */
    method Refresh(probe: Probe)
      modifies this`used, this`remoteBytes
      ensures View() == Refreshed(old(View()), probe)
    {
      if probe.Inventory? {
        used := used + (probe.bytes - remoteBytes);
        remoteBytes := probe.bytes;
      }
    }

    /** Charges the owner and hands out the closure that will undo it. */
    method Grant(owner: Owner, size: nat) returns (lease: Lease)
      requires Valid()
      modifies this`used, this`owners, this`nextId, this`live
      ensures Valid() && View() == Charged(old(View()), old(nextId), owner, size)
      ensures nextId == old(nextId) + 1
      ensures fresh(lease) && lease.id == old(nextId) && Tracks(lease)
    {
      used := used + size;
      owners := owners[owner := (if owner in owners then owners[owner] else 0) + size];
      lease := new Lease(nextId, owner, size);
      live := live[nextId := Charge(owner, size)];
      nextId := nextId + 1;
    }

    /** Running a byte closure; the latch makes a second run a no-op. */
    method Release(lease: Lease)
      requires Valid() && Tracks(lease)
      modifies this`used, this`owners, this`live, lease`done
      ensures Valid() && Tracks(lease) && lease.done
      ensures View() == StorageLedger.Release(old(View()), lease.id)
    {
      if !lease.done {
        lease.done := true;
        live := live - {lease.id};
        used := used - lease.size;
        var rest := (if lease.owner in owners then owners[lease.owner] else 0) - lease.size;
        owners := if rest == 0 then owners - {lease.owner} else owners[lease.owner := rest];
      }
    }

    method ReserveUpload(owner: Owner, size: int, chunks: nat, probe: Probe, gone: set<string>)
      returns (lease: UploadLease?)
      requires Valid()
      modifies this`used, this`orphans, this`owners, this`remoteBytes, this`nextId, this`live,
               this`reservedChunks, this`counted
      ensures Valid()
      ensures var (l, ok) := StorageLedger.Reserve(old(View()), old(nextId), owner, size, probe, gone);
              if !ok then lease == null && View() == l
              else if !AdmitsChunks(l, chunks) then lease == null && View() == StorageLedger.Release(l, old(nextId))
              else lease != null && View() == CountChunks(l, old(nextId), chunks)
      ensures lease != null ==>
                fresh(lease) && fresh(lease.bytes) && lease.bytes.id == old(nextId) && TracksUpload(lease)
    {
      lease := null;
      var bytes := Reserve(owner, size, probe, gone);
      if bytes == null {
        return;
      }
      if chunks > MAX_TOTAL_CHUNKS - reservedChunks {
        Release(bytes);
        return;
      }
      reservedChunks := reservedChunks + chunks;
      counted := counted[bytes.id := chunks];
      lease := new UploadLease(bytes, chunks);
    }

    method ReleaseUpload(lease: UploadLease)
      requires Valid() && TracksUpload(lease)
      modifies this`used, this`owners, this`live, this`reservedChunks, this`counted,
               lease.bytes`done, lease`done
      ensures Valid() && TracksUpload(lease) && lease.done
      ensures View() == if old(lease.done) then old(View())
                        else UncountChunks(StorageLedger.Release(old(View()), lease.bytes.id), lease.bytes.id)
    {
      if !lease.done {
        Release(lease.bytes);
        lease.done := true;
        counted := counted - {lease.bytes.id};
        reservedChunks := reservedChunks - lease.chunks;
      }
    }
  }
}
