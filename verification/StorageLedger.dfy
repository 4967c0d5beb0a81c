/**
 * The global storage budget: bytes charged per owner, orphaned directories found at
 * start-up, the bucket inventory, and the count of reserved chunks. A lease is a
 * one-shot release closure; `live` and `counted` are the closures that have not run.
 */
module StorageLedger {
  import opened Chunking
  import opened MapSums
  import opened Limits

  type Owner = string
  type LeaseId = nat

  datatype Charge = Charge(owner: Owner, size: nat)

  datatype Ledger = Ledger(
    max: int, perSession: int, used: int,
    owners: map<Owner, int>, orphans: map<string, nat>,
    remoteBytes: nat, reservedChunks: int, scanFailed: bool,
    live: map<LeaseId, Charge>, counted: map<LeaseId, nat>)

  /** What the bucket answers when its inventory is due, and what it means that it is not. */
  datatype Probe = NotDue | Unavailable | Inventory(bytes: nat)

  function Balance(l: Ledger, o: Owner): int {
    if o in l.owners then l.owners[o] else 0
  }

  ghost function Sizes(live: map<LeaseId, Charge>): map<LeaseId, nat> {
    map id | id in live :: live[id].size
  }

  ghost function SizesOf(live: map<LeaseId, Charge>, o: Owner): map<LeaseId, nat> {
    map id | id in live && live[id].owner == o :: live[id].size
  }

  /** Conservation: every counter equals what the live closures, orphans and bucket account for. */
  ghost predicate Conserved(l: Ledger) {
    && l.used == Sum(Sizes(l.live)) + Sum(l.orphans) + l.remoteBytes
    && (forall o :: Balance(l, o) == Sum(SizesOf(l.live, o)))
    && l.reservedChunks == Sum(l.counted)
  }

  /** The caps hold for what is leased, whatever orphans and the bucket add to `used`. */
  ghost predicate WithinCaps(l: Ledger) {
    && Sum(Sizes(l.live)) <= l.max
    && (forall o :: Sum(SizesOf(l.live, o)) <= l.perSession)
    && Sum(l.counted) <= 100_000
  }

  ghost predicate Sound(l: Ledger) {
    Conserved(l) && WithinCaps(l)
  }

  function Initial(max: nat, perSession: nat, orphans: map<string, nat>, used: nat, scanFailed: bool): Ledger {
    Ledger(max, perSession, used, map[], orphans, 0, 0, scanFailed, map[], map[])
  }

  lemma InitialIsSound(max: nat, perSession: nat, orphans: map<string, nat>, used: nat, scanFailed: bool)
    requires used == Sum(orphans)
    ensures Sound(Initial(max, perSession, orphans, used, scanFailed))
  {
    var l := Initial(max, perSession, orphans, used, scanFailed);
    assert Sizes(l.live) == map[];
    forall o ensures SizesOf(l.live, o) == map[] {}
  }

  // ---------------------------------------------------------------- reserve

  function Refreshed(l: Ledger, probe: Probe): Ledger {
    if probe.Inventory? then
      l.(used := l.used + (probe.bytes - l.remoteBytes), remoteBytes := probe.bytes)
    else l
  }

  /** Orphans whose directory is gone stop being charged. */
  ghost function Reclaimed(l: Ledger, gone: set<string>): Ledger {
    l.(used := l.used - Sum(map p | p in l.orphans && p in gone :: l.orphans[p]),
       orphans := l.orphans - gone)
  }

  predicate Admits(l: Ledger, owner: Owner, size: int) {
    !l.scanFailed && 0 <= size <= l.max - l.used && size <= l.perSession - Balance(l, owner)
  }

  function Charged(l: Ledger, id: LeaseId, owner: Owner, size: nat): Ledger {
    l.(used := l.used + size,
       owners := l.owners[owner := Balance(l, owner) + size],
       live := l.live[id := Charge(owner, size)])
  }

  ghost function Reserve(l: Ledger, id: LeaseId, owner: Owner, size: int, probe: Probe, gone: set<string>)
    : (Ledger, bool)
  {
    if probe.Unavailable? then (l, false)
    else
      var l' := Reclaimed(Refreshed(l, probe), gone);
      if Admits(l', owner, size) then (Charged(l', id, owner, size), true) else (l', false)
  }

  /** Reserving adds one charge when it succeeds and none when it refuses. */
  lemma ReserveShape(l: Ledger, id: LeaseId, owner: Owner, size: int, probe: Probe, gone: set<string>)
    ensures var (l', ok) := Reserve(l, id, owner, size, probe, gone);
            && l'.counted == l.counted
            && (ok ==> size >= 0 && l'.live == l.live[id := Charge(owner, size)])
            && (!ok ==> l'.live == l.live)
  {
  }

  lemma SizesSplit(live: map<LeaseId, Charge>, id: LeaseId, c: Charge)
    requires id !in live
    ensures Sum(Sizes(live[id := c])) == Sum(Sizes(live)) + c.size
    ensures Sum(SizesOf(live[id := c], c.owner)) == Sum(SizesOf(live, c.owner)) + c.size
    ensures forall o :: o != c.owner ==> SizesOf(live[id := c], o) == SizesOf(live, o)
  {
    assert Sizes(live[id := c]) == Sizes(live)[id := c.size];
    SumInsert(Sizes(live), id, c.size);
    OwnSizesSplit(live, id, c);
  }

  lemma OwnSizesSplit(live: map<LeaseId, Charge>, id: LeaseId, c: Charge)
    requires id !in live
    ensures Sum(SizesOf(live[id := c], c.owner)) == Sum(SizesOf(live, c.owner)) + c.size
    ensures forall o :: o != c.owner ==> SizesOf(live[id := c], o) == SizesOf(live, o)
  {
    assert SizesOf(live[id := c], c.owner) == SizesOf(live, c.owner)[id := c.size];
    SumInsert(SizesOf(live, c.owner), id, c.size);
  }

  lemma ReclaimedIsSound(l: Ledger, probe: Probe, gone: set<string>)
    requires Sound(l)
    ensures Sound(Reclaimed(Refreshed(l, probe), gone))
  {
    SumSplit(l.orphans, gone);
    var l' := Reclaimed(Refreshed(l, probe), gone);
    assert forall o :: Balance(l', o) == Balance(l, o);
  }

  lemma ChargedIsSound(l: Ledger, id: LeaseId, owner: Owner, size: nat)
    requires Sound(l) && id !in l.live && Admits(l, owner, size)
    ensures Sound(Charged(l, id, owner, size))
  {
    var l' := Charged(l, id, owner, size);
    SizesSplit(l.live, id, Charge(owner, size));
    forall o ensures Balance(l', o) == Sum(SizesOf(l'.live, o)) <= l'.perSession {
      if o != owner {
        assert Balance(l', o) == Balance(l, o);
      }
    }
  }

  /** Reserving keeps every counter exact and every cap, also when it refuses. */
  lemma ReserveKeepsSound(l: Ledger, id: LeaseId, owner: Owner, size: int, probe: Probe, gone: set<string>)
    requires Sound(l) && id !in l.live
    ensures Sound(Reserve(l, id, owner, size, probe, gone).0)
  {
    ReclaimedIsSound(l, probe, gone);
    var l1 := Reclaimed(Refreshed(l, probe), gone);
    if !probe.Unavailable? && Admits(l1, owner, size) {
      ChargedIsSound(l1, id, owner, size);
    }
  }

  /** What the orphans weigh whose directory is still there. */
  ghost function Remaining(orphans: map<string, nat>, gone: set<string>): map<string, nat> {
    map p | p in orphans && p !in gone :: orphans[p]
  }

  /**
   * When a reservation is granted, by what is leased, orphaned and stored alone: the bucket
   * answered, the start-up scan did not fail, and with the new charge all of it stays within
   * the global cap and the owner's own live charges within the owner's.
   */
  lemma GrantedIff(l: Ledger, id: LeaseId, owner: Owner, size: int, probe: Probe, gone: set<string>)
    requires Sound(l)
    ensures Reserve(l, id, owner, size, probe, gone).1 <==>
              && probe != Unavailable && !l.scanFailed && size >= 0
              && Sum(Sizes(l.live)) + Sum(Remaining(l.orphans, gone))
                 + (if probe.Inventory? then probe.bytes else l.remoteBytes) + size <= l.max
              && Sum(SizesOf(l.live, owner)) + size <= l.perSession
  {
    SumSplit(l.orphans, gone);
    assert l.orphans - gone == Remaining(l.orphans, gone);
  }

  /** What an attempt leaves: gone orphans forgotten, a new inventory noted, the charge added if granted. */
  lemma ReserveLeaves(l: Ledger, id: LeaseId, owner: Owner, size: int, probe: Probe, gone: set<string>)
    ensures (var (after, ok) := Reserve(l, id, owner, size, probe, gone);
      && (probe == Unavailable ==> after == l)
      && (probe != Unavailable ==>
            && after.orphans == Remaining(l.orphans, gone)
            && after.remoteBytes == (if probe.Inventory? then probe.bytes else l.remoteBytes))
      && after.max == l.max && after.perSession == l.perSession && after.scanFailed == l.scanFailed
      && after.reservedChunks == l.reservedChunks)
  {
    assert l.orphans - gone == Remaining(l.orphans, gone);
  }

  // ---------------------------------------------------------------- release

  /** Running a byte closure; a second run finds it gone and changes nothing. */
  function Release(l: Ledger, id: LeaseId): Ledger {
    if id !in l.live then l
    else
      var c := l.live[id];
      var rest := Balance(l, c.owner) - c.size;
      l.(used := l.used - c.size,
         owners := if rest == 0 then l.owners - {c.owner} else l.owners[c.owner := rest],
         live := l.live - {id})
  }

  /** Exactly the one charge goes, if it is still live. */
  lemma ReleaseLeaves(l: Ledger, id: LeaseId)
    ensures (var after := Release(l, id);
      && after.live.Keys == l.live.Keys - {id} && (forall x :: x in after.live ==> after.live[x] == l.live[x])
      && after.orphans == l.orphans && after.remoteBytes == l.remoteBytes && after.counted == l.counted
      && after.max == l.max && after.perSession == l.perSession && after.scanFailed == l.scanFailed)
  {
  }

  lemma ReleaseKeepsSound(l: Ledger, id: LeaseId)
    requires Sound(l)
    ensures Sound(Release(l, id))
  {
    if id in l.live {
      var c := l.live[id];
      var rest := l.live - {id};
      var l' := Release(l, id);
      assert rest[id := c] == l.live;
      SizesSplit(rest, id, c);
      forall o ensures Balance(l', o) == Sum(SizesOf(l'.live, o)) <= l'.perSession {
        if o != c.owner {
          assert Balance(l', o) == Balance(l, o);
        }
      }
    }
  }

  // ----------------------------------------------------------------- chunks

  predicate AdmitsChunks(l: Ledger, chunks: nat) {
    chunks <= MAX_TOTAL_CHUNKS - l.reservedChunks
  }

  function CountChunks(l: Ledger, id: LeaseId, chunks: nat): Ledger {
    l.(reservedChunks := l.reservedChunks + chunks, counted := l.counted[id := chunks])
  }

  function UncountChunks(l: Ledger, id: LeaseId): Ledger {
    if id !in l.counted then l
    else l.(reservedChunks := l.reservedChunks - l.counted[id], counted := l.counted - {id})
  }

  /** Chunks are granted exactly while all that are counted stay within 100 000. */
  lemma ChunksGrantedIff(l: Ledger, chunks: nat)
    requires Sound(l)
    ensures AdmitsChunks(l, chunks) <==> Sum(l.counted) + chunks <= 100_000
  {
  }

  /** Counting adds the one share and uncounting takes it away, if it is still counted; nothing else moves. */
  lemma ChunksLeave(l: Ledger, id: LeaseId, chunks: nat)
    ensures CountChunks(l, id, chunks).counted == l.counted[id := chunks]
    ensures (var after := UncountChunks(l, id);
      && after.counted.Keys == l.counted.Keys - {id}
      && forall x :: x in after.counted ==> after.counted[x] == l.counted[x])
    ensures forall after :: after in {CountChunks(l, id, chunks), UncountChunks(l, id)} ==>
              && after.max == l.max && after.perSession == l.perSession && after.used == l.used
              && after.owners == l.owners && after.orphans == l.orphans && after.remoteBytes == l.remoteBytes
              && after.scanFailed == l.scanFailed && after.live == l.live
  {
  }

  lemma ChunksKeepSound(l: Ledger, id: LeaseId, chunks: nat)
    requires Sound(l)
    ensures id !in l.counted && AdmitsChunks(l, chunks) ==> Sound(CountChunks(l, id, chunks))
    ensures Sound(UncountChunks(l, id))
  {
    if id !in l.counted {
      SumInsert(l.counted, id, chunks);
      assert forall o :: Balance(CountChunks(l, id, chunks), o) == Balance(l, o);
    } else {
      SumPick(l.counted, id);
      assert forall o :: Balance(UncountChunks(l, id), o) == Balance(l, o);
    }
  }

  // ------------------------------------------------------------- consequences

  /** Reserving and then releasing restores every counter of the refreshed ledger. */
  lemma ReserveThenRelease(l: Ledger, id: LeaseId, owner: Owner, size: int, probe: Probe, gone: set<string>)
    requires Sound(l) && id !in l.live && Reserve(l, id, owner, size, probe, gone).1
    ensures var l' := Reclaimed(Refreshed(l, probe), gone);
            var l'' := Release(Reserve(l, id, owner, size, probe, gone).0, id);
            && l''.used == l'.used && l''.live == l'.live && l''.orphans == l'.orphans
            && forall o :: Balance(l'', o) == Balance(l', o)
  {
    var l' := Reclaimed(Refreshed(l, probe), gone);
    assert l'.live[id := Charge(owner, size)] - {id} == l'.live;
  }

  /**
   * The refresh is the one addition the caps do not bound: it fits 64 bits if and only if
   * live leases, orphans and the bucket's new total together do.
   */
  lemma RefreshFitsIff(l: Ledger, bytes: nat)
    requires Sound(l) && l.remoteBytes < TWO63 && bytes < TWO63
    ensures -TWO63 <= bytes - l.remoteBytes < TWO63
    ensures Refreshed(l, Inventory(bytes)).used < TWO63
            <==> Sum(Sizes(l.live)) + Sum(l.orphans) + bytes < TWO63
    ensures 0 <= Refreshed(l, Inventory(bytes)).used
  {
  }

  /**
   * 64-bit safety of a reservation: while the caps, the orphans and the bucket, before and
   * after its refresh, stay below 2^63 together, so do the refreshed counter, the counter
   * without the orphans that are gone, both differences of the admission test, and what
   * the reservation leaves.
   */
  lemma CountersFit(l: Ledger, id: LeaseId, owner: Owner, size: int, probe: Probe, gone: set<string>)
    requires Sound(l) && id !in l.live && 0 <= l.perSession < TWO63
    requires l.max + Sum(l.orphans) + l.remoteBytes < TWO63
    requires probe.Inventory? ==> l.max + Sum(l.orphans) + probe.bytes < TWO63
    ensures 0 <= l.used < TWO63 && 0 <= Refreshed(l, probe).used < TWO63
    ensures (var r := Reclaimed(Refreshed(l, probe), gone);
      && 0 <= r.used <= Refreshed(l, probe).used
      && -TWO63 <= r.max - r.used < TWO63 && 0 <= r.perSession - Balance(r, owner) < TWO63)
    ensures (var after := Reserve(l, id, owner, size, probe, gone).0;
      0 <= after.used < TWO63 && 0 <= Balance(after, owner) < TWO63)
  {
    ReclaimedIsSound(l, probe, gone);
    var r := Reclaimed(Refreshed(l, probe), gone);
    assert Conserved(r) && WithinCaps(r);
    SumSplit(l.orphans, gone);
  }
}
