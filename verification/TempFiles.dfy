/** Temporary files whose every write is charged to the budget before it reaches the disk. */
module TempFiles {
  import opened Limits
  import opened StorageLedger
  import opened ResourceBudget

  ghost function Charges(leases: seq<Lease>): nat {
    if leases == [] then 0 else Charges(leases[..|leases| - 1]) + leases[|leases| - 1].size
  }

  ghost function Ids(leases: seq<Lease>): set<LeaseId> {
    set l | l in leases :: l.id
  }

  /** Closures in step with the ledger: charged exactly until their latch falls. */
  ghost predicate Held(live: map<LeaseId, Charge>, next: LeaseId, leases: seq<Lease>, owner: Owner)
    reads leases
  {
    && (forall i, j :: 0 <= i < j < |leases| ==> leases[i].id != leases[j].id)
    && (forall l :: l in leases ==>
          && l.id < next && l.owner == owner && (l.id in live <==> !l.done)
          && (l.id in live ==> live[l.id] == Charge(owner, l.size)))
  }

  ghost predicate AllLive(live: map<LeaseId, Charge>, leases: seq<Lease>) {
    forall l :: l in leases ==> l.id in live
  }

  lemma HeldLater(live: map<LeaseId, Charge>, next: LeaseId, leases: seq<Lease>, owner: Owner, c: Charge)
    requires Held(live, next, leases, owner)
    ensures Held(live[next := c], next + 1, leases, owner)
    ensures AllLive(live, leases) ==> AllLive(live[next := c], leases)
  {
  }

  lemma HeldMore(live: map<LeaseId, Charge>, next: LeaseId, leases: seq<Lease>, owner: Owner, lease: Lease)
    requires Held(live, next, leases, owner)
    requires forall l :: l in leases ==> l.id != lease.id
    requires lease.id < next && lease.owner == owner && !lease.done && lease.id in live
    requires live[lease.id] == Charge(owner, lease.size)
    ensures Held(live, next, leases + [lease], owner)
    ensures AllLive(live, leases) ==> AllLive(live, leases + [lease])
    ensures Charges(leases + [lease]) == Charges(leases) + lease.size
  {
    assert (leases + [lease])[..|leases|] == leases;
  }

  class QuotaTemp {
    const owner: Owner
    var leases: seq<Lease>
    var written: nat
    var present: bool
    /** Whether no write or removal fails for a reason of its own and no request is cancelled. */
    const steady: bool

    constructor (owner: Owner, steady: bool)
      ensures this.owner == owner && this.steady == steady && leases == [] && written == 0 && present
    {
      this.owner, this.steady, leases, written, present := owner, steady, [], 0, true;
    }

    /** What is on disk is covered by charges of the file's owner, live for as long as the file is there. */
    ghost predicate Valid(b: Budget)
      reads this, b, leases
    {
      && written <= 512 * 1024 * 1024 && written <= Charges(leases)
      && Held(b.live, b.nextId, leases, owner) && (present ==> AllLive(b.live, leases))
    }

    /** One more charge, held by this file from now on. */
    method Charge(b: Budget, n: nat, probe: Probe, gone: set<string>) returns (ok: bool)
      requires b.Valid() && Valid(b) && present
      modifies this`leases, b`used, b`orphans, b`owners, b`remoteBytes, b`nextId, b`live
      ensures b.Valid() && Valid(b)
      ensures b.live == if ok then old(b.live)[old(b.nextId) := StorageLedger.Charge(owner, n)] else old(b.live)
      ensures Charges(leases) == Charges(old(leases)) + if ok then n else 0
      ensures ok == StorageLedger.Reserve(old(b.View()), old(b.nextId), owner, n, probe, gone).1
    {
      var lease := ReserveBytes(b, n, probe, gone);
      ok := lease != null;
      if ok {
        Keep(b, lease);
      }
    }

    /** The file holds one more closure. */
    method Keep(b: Budget, lease: Lease)
      requires Valid(b) && lease.id < b.nextId && lease.owner == owner && !lease.done
      requires lease.id in b.live && b.live[lease.id] == StorageLedger.Charge(owner, lease.size)
      requires forall l :: l in leases ==> l.id != lease.id
      modifies this`leases
      ensures Valid(b) && leases == old(leases) + [lease]
      ensures Charges(leases) == Charges(old(leases)) + lease.size
    {
      HeldMore(b.live, b.nextId, leases, owner, lease);
      leases := leases + [lease];
    }

    /** The budget's answer; the leases already held stay as they are. */
    method ReserveBytes(b: Budget, n: nat, probe: Probe, gone: set<string>) returns (lease: Lease?)
      requires b.Valid() && Valid(b) && present
      modifies b`used, b`orphans, b`owners, b`remoteBytes, b`nextId, b`live
      ensures b.Valid() && Valid(b)
      ensures lease == null ==> b.live == old(b.live)
      ensures (lease != null) == StorageLedger.Reserve(old(b.View()), old(b.nextId), owner, n, probe, gone).1
      ensures lease != null ==>
                && fresh(lease) && !lease.done && lease.owner == owner && lease.size == n
                && lease.id == old(b.nextId) < b.nextId
                && (forall l :: l in leases ==> l.id != lease.id)
                && b.live == old(b.live)[lease.id := StorageLedger.Charge(owner, n)]
    {
      ReserveShape(b.View(), b.nextId, owner, n, probe, gone);
      HeldLater(b.live, b.nextId, leases, owner, StorageLedger.Charge(owner, n));
      lease := b.Reserve(owner, n, probe, gone);
    }

    /** Charges the whole write first; refused, nothing is written, and a short write stays fully charged. */
    method Write(b: Budget, n: nat, probe: Probe, gone: set<string>) returns (ok: bool, wrote: nat)
      requires b.Valid() && Valid(b) && present
      modifies this`leases, this`written, b`used, b`orphans, b`owners, b`remoteBytes, b`nextId, b`live
      ensures b.Valid() && Valid(b)
      ensures written == old(written) + wrote && wrote <= n && (ok ==> wrote == n)
      ensures b.live == old(b.live) || b.live == old(b.live)[old(b.nextId) := StorageLedger.Charge(owner, n)]
      ensures wrote > 0 ==> b.live == old(b.live)[old(b.nextId) := StorageLedger.Charge(owner, n)]
      ensures old(written) + n > 512 * 1024 * 1024 ==> !ok && b.live == old(b.live)
      ensures steady ==>
                (ok <==> old(written) + n <= 512 * 1024 * 1024
                         && StorageLedger.Reserve(old(b.View()), old(b.nextId), owner, n, probe, gone).1)
    {
      var going: bool := *;
      if (!going && !steady) || n > MAX_BYTES - written {
        return false, 0;
      }
      var charged := Charge(b, n, probe, gone);
      if !charged {
        return false, 0;
      }
      wrote :| 0 <= wrote <= n && (steady ==> wrote == n);
      written := written + wrote;
      ok := *;
      ok := (ok || steady) && wrote == n;
    }

    /** Runs one of the file's closures. */
    method RunClosure(b: Budget, i: nat)
      requires b.Valid() && i < |leases| && Held(b.live, b.nextId, leases, owner)
      modifies b`used, b`owners, b`live, leases[i]
      ensures b.Valid() && Held(b.live, b.nextId, leases, owner)
      ensures b.live == old(b.live) - {leases[i].id} && leases[i].done
    {
      var lease := leases[i];
      assert forall j :: 0 <= j < |leases| && j != i ==> leases[j].id != lease.id;
      assert b.Tracks(lease);
      b.Release(lease);
      assert b.live == old(b.live) - {lease.id};
    }

    /**
     * Removes the file and then runs every closure. If the file cannot be removed its
     * charges stay, and no other charge is touched either way.
     */
    method Dispose(b: Budget) returns (removed: bool)
      requires b.Valid() && Valid(b)
      modifies this`present, b`used, b`owners, b`live, leases
      ensures b.Valid() && Valid(b)
      ensures !removed ==> b.live == old(b.live) && present == old(present)
      ensures removed ==> !present && b.live == old(b.live) - Ids(leases)
      ensures removed ==> forall l :: l in leases ==> l.done
      ensures steady ==> removed
    {
      var fails: bool := *;
      if fails && !steady {
        return false;
      }
      removed, present := true, false;
      ghost var before := b.live;
      for i := 0 to |leases|
        invariant b.Valid() && leases == old(leases) && !present && written == old(written)
        invariant Held(b.live, b.nextId, leases, owner)
        invariant forall j :: 0 <= j < i ==> leases[j].done
        invariant b.live == before - Ids(leases[..i])
      {
        assert Ids(leases[..i + 1]) == Ids(leases[..i]) + {leases[i].id} by {
          assert leases[..i + 1] == leases[..i] + [leases[i]];
        }
        RunClosure(b, i);
      }
      assert leases[..|leases|] == leases;
    }
  }
}
