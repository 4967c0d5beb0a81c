/** The browser's half: cutting a file into chunks, and what the server ends up holding. */
module Slicing {
  import opened Chunking
  import opened RemoteTree
  import opened ChunkFiles
  import opened Options
  import opened RemoteUpload
  import opened UploadHandlers

  /** The byte range of slice `i`. */
  ghost predicate IsSlice(file: seq<Byte>, chunkSize: nat, i: nat, part: seq<Byte>)
  {
    var start := i * chunkSize;
    var end := if start + chunkSize < |file| then start + chunkSize else |file|;
    0 <= start <= end && part == file[start..end]
  }

  lemma CeilFits(size: nat, chunkSize: nat)
    requires size > 0 && chunkSize > 0
    ensures Fits(Plan((size + chunkSize - 1) / chunkSize, chunkSize, size))
  {
    var q, r := (size - 1) / chunkSize, (size - 1) % chunkSize;
    assert size + chunkSize - 1 == chunkSize * (q + 1) + r;
    DivUnique(size + chunkSize - 1, chunkSize, q + 1, r);
  }

  lemma DivUnique(n: nat, d: nat, q: nat, r: nat)
    requires d > 0 && r < d && n == d * q + r
    ensures n / d == q
  {
    var q', r' := n / d, n % d;
    assert n == d * q' + r';
    assert q' < q ==> d * (q' + 1) <= d * q;
    assert q < q' ==> d * (q + 1) <= d * q';
  }

  lemma Scaled(i: nat, k: nat, j: nat, c: nat)
    requires i + k <= j
    ensures 0 <= i * c && i * c + k * c <= j * c
  {
    assert j * c == i * c + k * c + (j - i - k) * c;
  }

  /** Where slice `i` starts, strictly inside the file. */
  lemma StartInside(p: Plan, i: nat)
    requires Fits(p) && i < p.total
    ensures 0 <= i * p.chunkSize < p.size
    ensures i < p.total - 1 ==> i * p.chunkSize + p.chunkSize < p.size
    ensures i == p.total - 1 ==> p.size <= i * p.chunkSize + p.chunkSize
  {
    LastChunk(p);
    if i < p.total - 1 {
      Scaled(i, 1, p.total - 1, p.chunkSize);
    }
  }

  /** The plan the client asks for: as many chunks as the last byte needs. */
  function PlanOf(file: seq<Byte>, chunkSize: nat): Plan
    requires chunkSize > 0
  {
    Plan((|file| + chunkSize - 1) / chunkSize, chunkSize, |file|)
  }

  /** The client's loop. Every slice has the length the server will demand for its index. */
  method Slices(file: seq<Byte>, chunkSize: nat) returns (plan: Plan, slices: seq<seq<Byte>>)
    requires file != [] && chunkSize > 0
    ensures Fits(plan) && plan == PlanOf(file, chunkSize) && plan.chunkSize == chunkSize && plan.size == |file|
    ensures |slices| == plan.total
    ensures forall i :: 0 <= i < |slices| ==> IsSlice(file, chunkSize, i, slices[i]) && |slices[i]| == Expected(plan, i)
  {
    plan, slices := PlanOf(file, chunkSize), [];
    CeilFits(|file|, chunkSize);
    LastChunk(plan);
    for i := 0 to plan.total
      invariant |slices| == i
      invariant forall k :: 0 <= k < i ==> IsSlice(file, chunkSize, k, slices[k]) && |slices[k]| == Expected(plan, k)
    {
      StartInside(plan, i);
      var start := i * chunkSize;
      var end := if start + chunkSize < |file| then start + chunkSize else |file|;
      slices := slices + [file[start..end]];
    }
  }

  /** The reservation the client makes is accepted exactly within the two configured limits. */
  lemma ReservationAcceptedIff(p: Plan, limit: int)
    requires Fits(p)
    ensures Accepted(p, limit) <==> p.chunkSize <= limit && p.total <= 100_000
  {
    LastChunk(p);
  }

  // -------------------------------------------------------------- deliveries

  /** One attempt to send a slice: stored whole, cut short after some bytes, or never created. */
  datatype Outcome = Stored | CutShort(n: nat) | NotCreated
  datatype Delivery = Delivery(index: nat, outcome: Outcome)

  /** What one attempt makes of the staging directory. */
  function Delivered(slices: seq<seq<Byte>>, before: Files, d: Delivery): Files {
    if d.index >= |slices| then before
    else match d.outcome
      case Stored => before[d.index := slices[d.index]]
      case CutShort(n) => before[d.index := if n <= |slices[d.index]| then slices[d.index][..n] else slices[d.index]]
      case NotCreated => before
  }

  /** What the staging directory holds after the attempts, oldest first. */
  function After(slices: seq<seq<Byte>>, ds: seq<Delivery>): Files {
    if ds == [] then map[] else Delivered(slices, After(slices, ds[..|ds| - 1]), ds[|ds| - 1])
  }

  /** The attempt at `i` that came last among those that touched its file went through. */
  predicate LastWriteOk(ds: seq<Delivery>, i: nat) {
    if ds == [] then false
    else
      var d := ds[|ds| - 1];
      if d.index == i && !d.outcome.NotCreated? then d.outcome.Stored?
      else LastWriteOk(ds[..|ds| - 1], i)
  }

  lemma {:induction false} LastWriteWins(slices: seq<seq<Byte>>, ds: seq<Delivery>, i: nat)
    requires i < |slices| && LastWriteOk(ds, i)
    ensures i in After(slices, ds) && After(slices, ds)[i] == slices[i]
    decreases |ds|
  {
    var d := ds[|ds| - 1];
    if !(d.index == i && !d.outcome.NotCreated?) {
      LastWriteWins(slices, ds[..|ds| - 1], i);
    }
  }

  /** Slice `i` starts inside the file, and only the last one reaches its end. */
  ghost predicate StartsInside(p: Plan, i: nat) {
    && 0 <= i * p.chunkSize < p.size
    && (i < p.total - 1 ==> i * p.chunkSize + p.chunkSize < p.size)
    && (i == p.total - 1 ==> p.size <= i * p.chunkSize + p.chunkSize)
  }

  lemma {:induction false} PlaysBack(file: seq<Byte>, p: Plan, files: Files, k: nat)
    requires p.chunkSize > 0 && p.size == |file| && k < p.total
    requires forall i: nat :: i < p.total ==> StartsInside(p, i)
    requires forall i: nat :: i < p.total ==> i in files && IsSlice(file, p.chunkSize, i, files[i])
    ensures 0 <= k * p.chunkSize <= |file| && Concat(files, k, p.total) == file[k * p.chunkSize..]
    decreases p.total - k
  {
    assert StartsInside(p, k) && IsSlice(file, p.chunkSize, k, files[k]);
    var start := k * p.chunkSize;
    var end := if start + p.chunkSize < |file| then start + p.chunkSize else |file|;
    if k + 1 < p.total {
      PlaysBack(file, p, files, k + 1);
      OneMoreChunk(k, p.chunkSize);
    } else {
      assert Concat(files, k + 1, p.total) == [] == file[|file|..];
    }
    PlaysOne(file, files, k, p.total, start, end);
  }

  lemma FilePlaysBack(file: seq<Byte>, p: Plan, files: Files)
    requires Fits(p) && p.size == |file|
    requires forall i: nat :: i < p.total ==> i in files && IsSlice(file, p.chunkSize, i, files[i])
    ensures p.total > 0 && Concat(files, 0, p.total) == file
  {
    LastChunk(p);
    forall i: nat | i < p.total ensures StartsInside(p, i) {
      StartInside(p, i);
    }
    PlaysBack(file, p, files, 0);
    assert 0 * p.chunkSize == 0 && file[0..] == file;
  }

  /** The slice from `start` to `end`, and then what plays back from `end`. */
  lemma PlaysOne(file: seq<Byte>, files: Files, k: nat, total: nat, start: nat, end: nat)
    requires k < total && k in files && start <= end <= |file| && files[k] == file[start..end]
    requires Concat(files, k + 1, total) == file[end..]
    ensures Concat(files, k, total) == file[start..]
  {
    assert file[start..] == file[start..end] + file[end..];
  }

  /**
   * Sent in any order and any number of times, with failures in between, as long as the
   * last write of every index went through: the staged chunks play back the file itself.
   */
  lemma RoundTrip(file: seq<Byte>, p: Plan, slices: seq<seq<Byte>>, ds: seq<Delivery>)
    requires Fits(p) && p.size == |file| && |slices| == p.total
    requires forall i: nat :: i < |slices| ==> IsSlice(file, p.chunkSize, i, slices[i])
    requires forall i: nat :: i < p.total ==> LastWriteOk(ds, i)
    ensures p.total > 0 && Concat(After(slices, ds), 0, p.total) == file
  {
    LastChunk(p);
    forall i: nat | i < p.total ensures i in After(slices, ds) && IsSlice(file, p.chunkSize, i, After(slices, ds)[i]) {
      LastWriteWins(slices, ds, i);
    }
    FilePlaysBack(file, p, After(slices, ds));
  }

  /** Every chunk file is a beginning of its slice, whatever was sent. */
  lemma {:induction false} OnlyBeginnings(slices: seq<seq<Byte>>, ds: seq<Delivery>, i: nat)
    requires i in After(slices, ds)
    ensures i < |slices| && After(slices, ds)[i] <= slices[i]
    decreases |ds|
  {
    var before, d := ds[..|ds| - 1], ds[|ds| - 1];
    if i != d.index || d.index >= |slices| || d.outcome.NotCreated? {
      OnlyBeginnings(slices, before, i);
    }
  }

  /** So chunk files of full length are the slices, without asking how the sends went. */
  lemma FullLengthsPlayBack(file: seq<Byte>, p: Plan, slices: seq<seq<Byte>>, ds: seq<Delivery>)
    requires Fits(p) && p.size == |file| && |slices| == p.total
    requires forall i: nat :: i < |slices| ==> IsSlice(file, p.chunkSize, i, slices[i]) && |slices[i]| == Expected(p, i)
    requires forall i: nat :: i < p.total ==> i in After(slices, ds) && |After(slices, ds)[i]| == Expected(p, i)
    ensures p.total > 0 && Concat(After(slices, ds), 0, p.total) == file
  {
    LastChunk(p);
    forall i: nat | i < p.total ensures i in After(slices, ds) && IsSlice(file, p.chunkSize, i, After(slices, ds)[i]) {
      OnlyBeginnings(slices, ds, i);
      assert After(slices, ds)[i] == slices[i];
    }
    FilePlaysBack(file, p, After(slices, ds));
  }

  lemma AfterSnoc(slices: seq<seq<Byte>>, ds: seq<Delivery>, d: Delivery)
    ensures After(slices, ds + [d]) == Delivered(slices, After(slices, ds), d)
  {
    assert (ds + [d])[..|ds|] == ds;
  }

  /** Some attempt at `i` went through. */
  ghost predicate StoredOnce(ds: seq<Delivery>, i: int) {
    exists k :: 0 <= k < |ds| && ds[k].index == i && ds[k].outcome.Stored?
  }

  lemma StoredOnceSnoc(ds: seq<Delivery>, d: Delivery)
    ensures forall i :: StoredOnce(ds + [d], i) <==> StoredOnce(ds, i) || (i == d.index && d.outcome.Stored?)
  {
    var all := ds + [d];
    assert all[|ds|] == d;
    forall i | StoredOnce(ds, i) ensures StoredOnce(all, i) {
      var k :| 0 <= k < |ds| && ds[k].index == i && ds[k].outcome.Stored?;
      assert all[k] == ds[k];
    }
  }

  /** Where every attempt goes through, an index that was tried at all ends up stored. */
  lemma {:induction false} TriedIsStored(ds: seq<Delivery>, i: nat)
    requires forall k :: 0 <= k < |ds| ==> ds[k].outcome.Stored?
    requires exists k :: 0 <= k < |ds| && ds[k].index == i
    ensures LastWriteOk(ds, i)
    decreases |ds|
  {
    var front := ds[..|ds| - 1];
    if ds[|ds| - 1].index != i {
      var k :| 0 <= k < |ds| && ds[k].index == i;
      assert front[k] == ds[k];
      TriedIsStored(front, i);
    }
  }

  /** One slice through the chunk handler, and what became of it. */
  method SendOne(meta: UploadMeta, store: ChunkStore, slices: seq<seq<Byte>>, i: nat)
    returns (r: Reply, ghost d: Delivery)
    requires meta.Valid(store) && !meta.closed && |slices| == meta.plan.total && i < |slices|
    requires |slices[i]| == Expected(meta.plan, i)
    modifies meta`chunks, store
    ensures meta.Valid(store) && d.index == i && store.files == Delivered(slices, old(store.files), d)
    ensures r.Succeeded? <==> d.outcome.Stored?
    ensures forall j :: j in meta.chunks <==> j in old(meta.chunks) || (j == i && d.outcome.Stored?)
    ensures store.steady ==> d.outcome.Stored?
  {
    r := UploadChunk(meta, store, i, slices[i]);
    d := Delivery(i, Stored);
    if !r.Succeeded? {
      d := Delivery(i, NotCreated);
      if store.files != old(store.files) {
        ghost var n: nat :| n <= |slices[i]| && store.files == old(store.files)[i := slices[i][..n]];
        d := Delivery(i, CutShort(n));
      }
    }
  }

  /**
   * Sends the slices through the chunk handler in the given order, repeats and failures
   * included. What the handler did is recorded, and what is staged is what the record says.
   */
  method SendSlices(meta: UploadMeta, store: ChunkStore, slices: seq<seq<Byte>>, order: seq<nat>)
    returns (replies: seq<Reply>, ghost ds: seq<Delivery>)
    requires meta.Valid(store) && !meta.closed && store.files == map[] && |slices| == meta.plan.total
    requires forall i :: 0 <= i < |slices| ==> |slices[i]| == Expected(meta.plan, i)
    requires forall k :: 0 <= k < |order| ==> order[k] < |slices|
    modifies meta`chunks, store
    ensures meta.Valid(store) && store.files == After(slices, ds)
    ensures |replies| == |ds| == |order| && forall k :: 0 <= k < |order| ==> ds[k].index == order[k]
    ensures forall k :: 0 <= k < |order| ==> (replies[k].Succeeded? <==> ds[k].outcome.Stored?)
    ensures forall i :: i in meta.chunks <==> i in old(meta.chunks) || StoredOnce(ds, i)
    ensures store.steady ==> forall k :: 0 <= k < |order| ==> ds[k].outcome.Stored?
  {
    replies, ds := [], [];
    for k := 0 to |order|
      invariant meta.Valid(store) && store.files == After(slices, ds)
      invariant |replies| == |ds| == k && forall j :: 0 <= j < k ==> ds[j].index == order[j]
      invariant forall j :: 0 <= j < k ==> (replies[j].Succeeded? <==> ds[j].outcome.Stored?)
      invariant forall i :: i in meta.chunks <==> i in old(meta.chunks) || StoredOnce(ds, i)
      invariant store.steady ==> forall j :: 0 <= j < k ==> ds[j].outcome.Stored?
    {
      var r, d := SendOne(meta, store, slices, order[k]);
      AfterSnoc(slices, ds, d);
      StoredOnceSnoc(ds, d);
      replies, ds := replies + [r], ds + [d];
    }
  }

  /** What a whole upload asks for: both limits, every slice sent at least once, and a free place. */
  ghost predicate Uploads(file: seq<Byte>, chunkSize: nat, limit: int, order: seq<nat>, t: Tree, destination: Path,
                          rename: Option<Path>, trailingSlash: bool, overwrite: bool)
    requires chunkSize > 0
  {
    && chunkSize <= limit && PlanOf(file, chunkSize).total <= 100_000
    && AllSent(order, PlanOf(file, chunkSize).total)
    && RenamesTo(destination, rename) && TargetOf(destination, rename) != []
    && Receivable(t, TargetOf(destination, rename), trailingSlash, overwrite)
  }

  ghost predicate AllSent(order: seq<nat>, total: int) {
    forall i: nat :: i < total ==> i in order
  }

  /** Only what the order names can have been stored. */
  lemma StoredWasSent(order: seq<nat>, ds: seq<Delivery>, total: int)
    requires |ds| == |order| && forall k :: 0 <= k < |order| ==> ds[k].index == order[k]
    requires forall i: nat :: i < total ==> StoredOnce(ds, i)
    ensures AllSent(order, total)
  {
    forall i: nat | i < total ensures i in order {
      assert StoredOnce(ds, i);
      var k :| 0 <= k < |ds| && ds[k].index == i && ds[k].outcome.Stored?;
      assert order[k] == i;
    }
  }

  /** And where every send goes through, whatever it names is. */
  lemma SentIsStored(order: seq<nat>, ds: seq<Delivery>, total: int)
    requires |ds| == |order| && forall k :: 0 <= k < |order| ==> ds[k].index == order[k] && ds[k].outcome.Stored?
    requires AllSent(order, total)
    ensures forall i: nat :: i < total ==> LastWriteOk(ds, i)
  {
    forall i: nat | i < total ensures LastWriteOk(ds, i) {
      assert i in order;
      var k :| 0 <= k < |order| && order[k] == i;
      assert ds[k].index == i;
      TriedIsStored(ds, i);
    }
  }

  lemma {:induction false} LastOkIsStored(ds: seq<Delivery>, i: nat)
    requires LastWriteOk(ds, i)
    ensures StoredOnce(ds, i)
    decreases |ds|
  {
    var d := ds[|ds| - 1];
    if !(d.index == i && !d.outcome.NotCreated?) {
      LastOkIsStored(ds[..|ds| - 1], i);
      StoredOnceSnoc(ds[..|ds| - 1], d);
      assert ds == ds[..|ds| - 1] + [d];
    }
  }

  /** Good last writes are all a commit needs: every chunk is on record, and the stream is the file. */
  lemma GoodWritesSuffice(file: seq<Byte>, p: Plan, slices: seq<seq<Byte>>, ds: seq<Delivery>)
    requires Fits(p) && p.size == |file| && |slices| == p.total
    requires forall i: nat :: i < |slices| ==> IsSlice(file, p.chunkSize, i, slices[i])
    requires forall i: nat :: i < p.total ==> LastWriteOk(ds, i)
    ensures forall i: nat :: i < p.total ==> StoredOnce(ds, i)
    ensures p.total > 0 && Concat(After(slices, ds), 0, p.total) == file
  {
    RoundTrip(file, p, slices, ds);
    forall i: nat | i < p.total ensures StoredOnce(ds, i) {
      LastOkIsStored(ds, i);
    }
  }

  /** Cuts the file and sends every slice the order names; a stream of the reserved size can only be the file. */
  method StageFile(file: seq<Byte>, chunkSize: nat, order: seq<nat>, steady: bool, destination: Path, overwrite: bool)
    returns (meta: UploadMeta, store: ChunkStore)
    requires file != [] && chunkSize > 0 && destination != []
    requires forall k :: 0 <= k < |order| ==> order[k] * chunkSize < |file|
    ensures fresh(meta) && fresh(store) && meta.Valid(store) && !meta.closed && store.steady == steady
    ensures meta.plan == PlanOf(file, chunkSize) && meta.destination == destination && meta.overwrite == overwrite
    ensures forall s :: ExactStream(meta.plan, store.files, s) ==> s == file
    ensures AllRecorded(meta) ==> AllSent(order, meta.plan.total)
    ensures steady && AllSent(order, meta.plan.total) ==> AllRecorded(meta) && StreamOf(meta, store.files)
  {
    var plan, slices := Slices(file, chunkSize);
    forall k | 0 <= k < |order| ensures order[k] < |slices| {
      IndexInside(plan, order[k]);
    }
    meta := new UploadMeta(plan, destination, overwrite);
    store := new ChunkStore(steady);
    var replies, ds := SendSlices(meta, store, slices, order);
    if forall i: nat :: i < plan.total ==> StoredOnce(ds, i) {
      StoredWasSent(order, ds, plan.total);
    }
    if steady && AllSent(order, plan.total) {
      SentIsStored(order, ds, plan.total);
      GoodWritesSuffice(file, plan, slices, ds);
    }
    forall s | ExactStream(plan, store.files, s) ensures s == file {
      FullLengthsPlayBack(file, plan, slices, ds);
    }
  }

  /**
   * End to end: reserve, slice, send through the chunk handler in any order with any
   * repeats, commit. Whatever failed on the way, what reaches the server is the file, and a
   * commit that succeeds leaves exactly the file at the destination. Where no call fails for
   * a reason of its own, it succeeds exactly when the plan is accepted, every slice was sent
   * and the destination can receive it.
   */
  method UploadFile(file: seq<Byte>, chunkSize: nat, limit: int, order: seq<nat>, remote: Remote, sftp: bool,
                    steady: bool, buffer: nat, destination: Path, overwrite: bool, rename: Option<Path>,
                    trailingSlash: bool, consent: Option<bool>)
    returns (r: Reply, ghost sent: Option<seq<Byte>>, ghost target: Path)
    requires file != [] && chunkSize > 0 && buffer > 0 && destination != [] && WellFormed(remote.tree)
    requires forall k :: 0 <= k < |order| ==> order[k] * chunkSize < |file|
    modifies remote
    ensures WellFormed(remote.tree)
    ensures sent.Some? ==> sent.value == file
    ensures r.Succeeded? ==> target in remote.tree && remote.tree[target] == File(file)
    ensures !Consents(overwrite, consent) ==> Keeps(old(remote.tree), remote.tree)
    ensures forall q :: q in old(remote.tree) && q != target ==>
              q in remote.tree && remote.tree[q] == old(remote.tree)[q]
    ensures HoldsBeginning(old(remote.tree), remote.tree, target, Some(file))
    ensures RenamesTo(destination, rename) ==> target == TargetOf(destination, rename)
    ensures r.Succeeded? ==>
              Uploads(file, chunkSize, limit, order, old(remote.tree), destination, rename, trailingSlash,
                      Consents(overwrite, consent))
    ensures steady && remote.readable && remote.writable ==>
              (r.Succeeded? <==>
                Uploads(file, chunkSize, limit, order, old(remote.tree), destination, rename, trailingSlash,
                        Consents(overwrite, consent)))
  {
    sent, target := None, if RenamesTo(destination, rename) then TargetOf(destination, rename) else destination;
    CeilFits(|file|, chunkSize);
    ReservationAcceptedIff(PlanOf(file, chunkSize), limit);
    if !Accepted(PlanOf(file, chunkSize), limit) {
      return BadRequest, sent, target;
    }
    var meta, store := StageFile(file, chunkSize, order, steady, destination, overwrite);
    ghost var files := store.files;
    r, sent, target := UploadCommit(meta, store, remote, sftp, buffer, rename, trailingSlash, consent);
    if sent.Some? {
      assert ExactStream(meta.plan, files, sent.value);
    }
  }

  /** An index whose slice would start inside the file is one of the plan's. */
  lemma IndexInside(p: Plan, i: nat)
    requires Fits(p) && i * p.chunkSize < p.size
    ensures i < p.total
  {
    if i >= p.total {
      StartInside(p, p.total - 1);
      LastChunk(p);
      assert (p.total - 1) * p.chunkSize + p.chunkSize == p.total * p.chunkSize;
      Scaled(p.total, 0, i, p.chunkSize);
    }
  }
}
