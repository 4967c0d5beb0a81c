/** The chunk and commit handlers, run while the upload's mutex is held. */
module UploadHandlers {
  import opened MapSums
  import opened Options
  import opened Chunking
  import opened RemoteTree
  import opened RemoteUpload
  import opened ChunkFiles
  import RecursiveDelete

  datatype Reply = Succeeded | NotActive | BadRequest | FileExists | StorageFailure | RemoteFailure | TransferIncomplete

  ghost function Lens(files: Files): map<nat, nat> {
    map i | i in files :: |files[i]|
  }

  class UploadMeta {
    const plan: Plan
    const destination: Path
    const overwrite: bool
    var closed: bool
    var chunks: map<int, int>

    constructor (plan: Plan, destination: Path, overwrite: bool)
      requires Fits(plan) && destination != []
      ensures this.plan == plan && this.destination == destination && this.overwrite == overwrite
      ensures !closed && chunks == map[]
    {
      this.plan, this.destination, this.overwrite := plan, destination, overwrite;
      closed, chunks := false, map[];
    }

    /** No file is longer than its slot, and recorded sizes are the expected ones (not the stored ones). */
    ghost predicate Valid(store: ChunkStore)
      reads this, store
    {
      && Fits(plan) && destination != []
      && Bounded(plan, Lens(store.files))
      && (forall i :: i in chunks ==> 0 <= i < plan.total && chunks[i] == Expected(plan, i))
    }
  }

  /** Rejects a size that cannot belong to the reservation. */
  predicate ChunkSizeFits(p: Plan, index: int, size: int) {
    p.chunkSize <= 0 || size < 0 || !(size > p.chunkSize || (size < p.chunkSize && index != p.total - 1))
  }

  lemma WriteKeepsBounds(p: Plan, files: Files, index: nat, part: seq<Byte>)
    requires Fits(p) && Bounded(p, Lens(files)) && index < p.total && |part| <= Expected(p, index)
    ensures Bounded(p, Lens(files[index := part]))
  {
    var after := Lens(files[index := part]);
    forall i | i in after ensures i < p.total && after[i] <= Expected(p, i) {
      if i != index {
        assert after[i] == Lens(files)[i];
      }
    }
  }

  /** The handler takes exactly a chunk of the demanded length for an index in range. */
  predicate Takes(p: Plan, index: int, body: seq<Byte>) {
    0 <= index < p.total && |body| == Expected(p, index)
  }

  /** The attempt to write chunk `index` left everything, or a beginning of the body in its place. */
  ghost predicate CutShort(before: Files, after: Files, index: nat, body: seq<Byte>) {
    after == before || exists n: nat :: n <= |body| && after == before[index := body[..n]]
  }

  /** A failed write may leave the old size recorded over a short file; validity allows for it. */
  method UploadChunk(meta: UploadMeta, store: ChunkStore, index: int, body: seq<Byte>) returns (r: Reply)
    requires meta.Valid(store)
    modifies meta`chunks, store
    ensures meta.Valid(store)
    ensures r.NotActive? <==> meta.closed
    ensures r.BadRequest? <==> !meta.closed && !Takes(meta.plan, index, body)
    ensures r.NotActive? || r.BadRequest? || r.StorageFailure? || r.Succeeded?
    ensures r.NotActive? || r.BadRequest? ==> store.files == old(store.files)
    ensures store.steady ==> !r.StorageFailure?
    ensures r.StorageFailure? ==> CutShort(old(store.files), store.files, index, body)
    ensures r.Succeeded? ==> store.files == old(store.files)[index := body]
    ensures meta.chunks == if r.Succeeded? then old(meta.chunks)[index := |body|] else old(meta.chunks)
  {
    if meta.closed {
      return NotActive;
    }
    if index < 0 || index >= meta.plan.total {
      return BadRequest;
    }
    LastChunk(meta.plan);
    var expected := meta.plan.chunkSize;
    if index == meta.plan.total - 1 {
      expected := meta.plan.size - index * meta.plan.chunkSize;
    }
    assert expected == Expected(meta.plan, index);
    if |body| != expected {
      return BadRequest;
    }
    if !ChunkSizeFits(meta.plan, index, |body|) {
      return BadRequest;
    }
    forall n: nat | n <= |body| ensures Bounded(meta.plan, Lens(store.files[index := body[..n]])) {
      WriteKeepsBounds(meta.plan, store.files, index, body[..n]);
    }
    assert body[..|body|] == body;
    var ok := store.WriteChunk(index, body);
    if !ok {
      return StorageFailure;
    }
    meta.chunks := meta.chunks[index := |body|];
    return Succeeded;
  }

  lemma {:induction false} ConcatLength(files: Files, from: nat, total: nat)
    requires forall i :: i in files ==> i < total
    requires from <= total
    ensures |Concat(files, from, total)| == Sum(Lens(map i | i in files && i >= from :: files[i]))
    decreases total - from
  {
    var here := map i | i in files && i >= from :: files[i];
    if from == total {
      assert Lens(here) == map[];
    } else {
      var next := map i | i in files && i >= from + 1 :: files[i];
      ConcatLength(files, from + 1, total);
      if from in files {
        assert Lens(here) == Lens(next)[from := |files[from]|];
        SumInsert(Lens(next), from, |files[from]|);
      } else {
        assert here == next;
      }
    }
  }

  lemma ConcatIsTotal(p: Plan, files: Files)
    requires p.total >= 0 && Bounded(p, Lens(files))
    ensures |Concat(files, 0, p.total)| == Sum(Lens(files))
  {
    forall i | i in files ensures i < p.total {
      assert i in Lens(files);
    }
    ConcatLength(files, 0, p.total);
    assert (map i | i in files && i >= 0 :: files[i]) == files;
  }

  /** Bounded chunk files whose total is the reserved size are all present and all of the expected length. */
  lemma VerifiedTotal(p: Plan, files: Files)
    requires Fits(p) && Bounded(p, Lens(files))
    ensures |Concat(files, 0, p.total)| <= p.size
    ensures |Concat(files, 0, p.total)| == p.size ==>
              forall i: nat :: i < p.total ==> i in files && |files[i]| == Expected(p, i)
  {
    LastChunk(p);
    ConcatIsTotal(p, files);
    BoundedTotal(p, Lens(files));
    if Sum(Lens(files)) == p.size {
      forall i: nat | i < p.total ensures i in files && |files[i]| == Expected(p, i) {
        ExactTotalForcesLengths(p, Lens(files), i);
      }
    }
  }

  /** Closes the upload and discards its files; the lease is released only if they are all gone. */
  method CleanupUpload(meta: UploadMeta, store: ChunkStore) returns (released: bool)
    modifies meta`closed, store
    ensures meta.closed && (released ==> store.files == map[])
    ensures store.steady ==> released
    ensures forall i :: i in store.files ==> i in old(store.files) && store.files[i] == old(store.files)[i]
  {
    meta.closed := true;
    var works: bool := *;
    if works || store.steady {
      store.files := map[];
      released := true;
    } else {
      var gone: set<nat> := *;
      store.files := store.files - gone;
      released := false;
    }
  }

  /** Adds up the recorded sizes, or reports a missing chunk; a complete record always adds up. */
  method RecordedTotal(meta: UploadMeta, store: ChunkStore) returns (complete: bool, actual: int)
    requires meta.Valid(store)
    ensures complete <==> forall i :: 0 <= i < meta.plan.total ==> i in meta.chunks
    ensures complete ==> actual == meta.plan.size
  {
    LastChunk(meta.plan);
    ghost var want := Lengths(meta.plan, meta.plan.total);
    forall i | i in meta.chunks ensures i in want && want[i] == meta.chunks[i] {
      ExpectedPositive(meta.plan, i);
    }
    complete, actual := AddUp(meta.plan.total, meta.chunks, want);
    ExpectedTotal(meta.plan);
  }

  /** The loop over the indexes. */
  method AddUp(total: nat, chunks: map<int, int>, ghost want: map<nat, nat>) returns (complete: bool, actual: int)
    requires forall i: nat :: i in want <==> i < total
    requires forall i :: i in chunks ==> 0 <= i < total && chunks[i] == want[i]
    ensures complete <==> forall i :: 0 <= i < total ==> i in chunks
    ensures complete ==> actual == Sum(want)
  {
    complete, actual := true, 0;
    assert First(want, 0) == map[];
    for index := 0 to total
      invariant forall i :: 0 <= i < index ==> i in chunks
      invariant actual == Sum(First(want, index))
    {
      if index !in chunks {
        return false, actual;
      }
      FirstGrows(want, index);
      actual := actual + chunks[index];
    }
    assert First(want, total) == want;
  }

  ghost predicate NoneMissing(meta: UploadMeta, files: Files) {
    forall i: nat :: i < meta.plan.total ==> i in files
  }

  /** Reads everything once to learn the real total before anything reaches the server. */
  method StoredSizeMatches(meta: UploadMeta, store: ChunkStore, buffer: nat) returns (matches: bool, found: bool)
    requires meta.Valid(store) && buffer > 0
    ensures meta.plan.total >= 0
    ensures matches ==> found && |Concat(store.files, 0, meta.plan.total)| == meta.plan.size
    ensures store.steady && |Concat(store.files, 0, meta.plan.total)| == meta.plan.size ==> matches
    ensures store.steady ==> (found <==> NoneMissing(meta, store.files))
  {
    LastChunk(meta.plan);
    VerifiedTotal(meta.plan, store.files);
    var r := AssembleReader(store, meta.plan.total);
    if r == null {
      return false, false;
    }
    assert r.Rest() == Concat(store.files, 0, meta.plan.total);
    ghost var all := r.Rest();
    var read, ok := r.Drain(meta.plan.size + 1, buffer);
    assert all == read + r.Rest();
    var closes := r.Close();
    return ok && closes && |read| == meta.plan.size, true;
  }

  /** The bytes commit hands to the server are exactly the reserved ones. */
  ghost predicate ExactStream(p: Plan, files: Files, stream: seq<Byte>) {
    && p.total >= 0 && stream == Concat(files, 0, p.total) && |stream| == p.size
    && forall i: nat :: i < p.total ==> i in files && |files[i]| == Expected(p, i)
  }

  /**
   * The part of commit that acts: parents, upload, cleanup, and the removal of a piece this
   * very call left where nothing had been. `sent` is the stream given to the server.
   */
  method Publish(meta: UploadMeta, store: ChunkStore, remote: Remote, sftp: bool, buffer: nat, p: Path,
                 trailingSlash: bool, createdHere: bool, reader: SequentialReader)
    returns (r: Reply, ghost sent: Option<seq<Byte>>)
    requires WellFormed(remote.tree) && buffer > 0 && p != []
    requires reader.Valid() && !reader.closed && reader.store == store
    requires createdHere ==> p !in remote.tree
    modifies meta`closed, store, remote, reader
    ensures WellFormed(remote.tree) && meta.closed
    ensures sent.Some? ==> sent.value == old(reader.Rest())
    ensures r.Succeeded? ==> sent.Some? && p in remote.tree && remote.tree[p] == File(sent.value)
    ensures r.Succeeded? ==> remote.tree == WithDirs(old(remote.tree), Parent(p))[p := File(sent.value)]
    ensures r.Succeeded? ==> Receivable(old(remote.tree), p, trailingSlash, true)
    ensures (Working(store, remote) && old(reader.Sure()) && Receivable(old(remote.tree), p, trailingSlash, true)) ==>
              r.Succeeded?
    ensures r.Succeeded? || r.RemoteFailure? || r.TransferIncomplete?
    ensures createdHere ==> Keeps(old(remote.tree), remote.tree)
    ensures createdHere && !trailingSlash && !r.Succeeded? && Candid(remote) ==> p !in remote.tree
    ensures store.steady ==> store.files == map[]
    ensures !createdHere && p in old(remote.tree) ==> p in remote.tree
    ensures HoldsBeginning(old(remote.tree), remote.tree, p, sent)
    ensures forall q :: q in old(remote.tree) && q != p ==> q in remote.tree && remote.tree[q] == old(remote.tree)[q]
  {
    sent := None;
    ghost var before, stream := remote.tree, reader.Rest();
    var dir := DirOf(p, trailingSlash);
    var ready, _ := EnsureDirAllCreated(remote, dir);
    ghost var mid := remote.tree;
    SendTouches(before, mid, mid, dir, p);
    if !ready {
      var _ := CleanupUpload(meta, store);
      return RemoteFailure, sent;
    }
    ReceivableIff(before, p, trailingSlash);
    sent := Some(stream);
    var uploaded := SendFrom(reader, buffer, remote, p);
    SendTouches(before, mid, remote.tree, dir, p);
    var _ := CleanupUpload(meta, store);
    if uploaded.Uploaded? {
      return Succeeded, sent;
    }
    if createdHere && uploaded.Incomplete? {
      RemoveLitter(remote, sftp, p, before);
      return TransferIncomplete, sent;
    }
    return RemoteFailure, sent;
  }

  /** A server that says what is there and does what it is asked. */
  predicate Candid(remote: Remote) {
    remote.truthful && remote.readable && remote.writable
  }

  /** Deletes what this call left where nothing had been; nothing older can go with it. */
  method RemoveLitter(remote: Remote, sftp: bool, p: Path, ghost before: Tree)
    requires WellFormed(before) && WellFormed(remote.tree) && Keeps(before, remote.tree) && p != [] && p !in before
    modifies remote
    ensures WellFormed(remote.tree) && Keeps(before, remote.tree) && RemovesUnder(old(remote.tree), remote.tree, p)
    ensures Candid(remote) && !IsDir(old(remote.tree), p) ==> p !in remote.tree
  {
    LitterIsOurs(before, p);
    RecursiveDelete.TopCost(remote.tree, p, 0, !sftp);
    var _ := RecursiveDelete.Delete(remote, p, sftp);
    DeletingLitter(before, old(remote.tree), remote.tree, p);
    PrefixRefl(p);
  }

  /** The chunk files, end to end, have the reserved size. */
  ghost predicate StreamOf(meta: UploadMeta, files: Files) {
    meta.plan.total >= 0 && |Concat(files, 0, meta.plan.total)| == meta.plan.size
  }

  /** Neither the disk nor the server fails for a reason of its own. */
  predicate Working(store: ChunkStore, remote: Remote) {
    store.steady && remote.readable && remote.writable
  }

  /** The new name, if one is given, stays in the destination's directory. */
  predicate RenamesTo(destination: Path, rename: Option<Path>) {
    rename.Some? ==> rename.value != [] && destination != [] && Parent(rename.value) == Parent(destination)
  }

  function TargetOf(destination: Path, rename: Option<Path>): Path {
    if rename.Some? then rename.value else destination
  }

  /** What a commit asks for: an open upload whose chunks are all recorded and add up, and a free place. */
  ghost predicate Committable(meta: UploadMeta, files: Files, t: Tree, rename: Option<Path>, trailingSlash: bool,
                              consent: Option<bool>)
    reads meta
  {
    && !meta.closed && RenamesTo(meta.destination, rename) && TargetOf(meta.destination, rename) != []
    && AllRecorded(meta) && StreamOf(meta, files)
    && Receivable(t, TargetOf(meta.destination, rename), trailingSlash, Consents(meta.overwrite, consent))
  }

  /** What a working system answers before anything is published, if it refuses. */
  ghost function Refusal(meta: UploadMeta, files: Files, t: Tree, rename: Option<Path>, consent: Option<bool>)
    : Option<Reply>
    reads meta
  {
    if meta.closed then Some(NotActive)
    else if !RenamesTo(meta.destination, rename) then Some(BadRequest)
    else if !Consents(meta.overwrite, consent) && TargetOf(meta.destination, rename) in t then Some(FileExists)
    else if !AllRecorded(meta) then Some(BadRequest)
    else if StreamOf(meta, files) then None
    else Some(if NoneMissing(meta, files) then BadRequest else StorageFailure)
  }

  /** Consent given with the commit wins over the one recorded at reserve time. */
  predicate Consents(overwrite: bool, consent: Option<bool>) {
    if consent.Some? then consent.value else overwrite
  }

  /** Where the upload is to go, refused without consent where something is or may be. */
  method PickDestination(meta: UploadMeta, remote: Remote, rename: Option<Path>, consent: Option<bool>)
    returns (refusal: Option<Reply>, p: Path)
    requires meta.destination != []
    modifies remote`log
    ensures p != [] && (p == meta.destination || (rename == Some(p) && Parent(p) == Parent(meta.destination)))
    ensures RenamesTo(meta.destination, rename) ==> p == TargetOf(meta.destination, rename)
    ensures refusal.None? ==>
              RenamesTo(meta.destination, rename) && (Consents(meta.overwrite, consent) || p !in remote.tree)
    ensures remote.readable && RenamesTo(meta.destination, rename) ==>
              (Consents(meta.overwrite, consent) || p !in remote.tree ==> refusal.None?)
    ensures refusal.Some? ==> refusal.value in {BadRequest, RemoteFailure, FileExists}
    ensures refusal == Some(FileExists) ==> !Consents(meta.overwrite, consent) && p in remote.tree
    ensures !RenamesTo(meta.destination, rename) ==> refusal == Some(BadRequest)
    ensures refusal == Some(BadRequest) ==> !RenamesTo(meta.destination, rename)
    ensures remote.readable ==> refusal != Some(RemoteFailure)
  {
    refusal, p := None, meta.destination;
    if rename.Some? {
      if rename.value == [] || Parent(rename.value) != Parent(p) {
        return Some(BadRequest), p;
      }
      p := rename.value;
    }
    if !Consents(meta.overwrite, consent) {
      var taken, failed := DestinationTaken(remote, p);
      if failed {
        return Some(RemoteFailure), p;
      }
      if taken {
        return Some(FileExists), p;
      }
    }
  }

  ghost predicate AllRecorded(meta: UploadMeta)
    reads meta
  {
    forall i :: 0 <= i < meta.plan.total ==> i in meta.chunks
  }

  /** The record and then the files are checked; what is handed out is the exact stream. */
  method ReadyReader(meta: UploadMeta, store: ChunkStore, buffer: nat)
    returns (refusal: Option<Reply>, reader: SequentialReader?)
    requires meta.Valid(store) && buffer > 0
    ensures refusal.Some? ==> refusal.value in {BadRequest, StorageFailure}
    ensures refusal.None? ==> AllRecorded(meta) && reader != null && fresh(reader) && reader.store == store
    ensures refusal.None? ==> reader.Valid() && !reader.closed && (store.steady ==> reader.Sure())
    ensures refusal.None? ==> ExactStream(meta.plan, store.files, reader.Rest())
    ensures store.steady && AllRecorded(meta) && StreamOf(meta, store.files) ==> refusal.None?
    ensures !AllRecorded(meta) ==> refusal == Some(BadRequest)
    ensures store.steady && AllRecorded(meta) && !StreamOf(meta, store.files) ==>
              refusal == Some(if NoneMissing(meta, store.files) then BadRequest else StorageFailure)
  {
    refusal, reader := None, null;
    var complete, actual := RecordedTotal(meta, store);
    if !complete || actual != meta.plan.size {
      return Some(BadRequest), null;
    }
    var matches, found := StoredSizeMatches(meta, store, buffer);
    if !matches {
      return Some(if found then BadRequest else StorageFailure), null;
    }
    StreamIsExact(meta.plan, store.files);
    reader := AssembleReader(store, meta.plan.total);
    if reader == null {
      return Some(StorageFailure), null;
    }
    assert reader.Rest() == Concat(store.files, 0, meta.plan.total);
  }

  /**
   * Commit. A refusal before anything is published leaves the staged chunks and the record
   * alone, so the client can commit again; from then on the upload is closed whatever
   * happens. Whatever reaches the server is exactly the reserved bytes, and without
   * overwrite consent nothing that existed on the server changes on any outcome. Where no
   * call fails for a reason of its own, it succeeds exactly when what it asks for is there.
   */
  method UploadCommit(meta: UploadMeta, store: ChunkStore, remote: Remote, sftp: bool, buffer: nat,
                      rename: Option<Path>, trailingSlash: bool, consent: Option<bool>)
    returns (r: Reply, ghost sent: Option<seq<Byte>>, ghost target: Path)
    requires meta.Valid(store) && WellFormed(remote.tree) && buffer > 0
    modifies meta`closed, store, remote
    ensures WellFormed(remote.tree)
    ensures target != []
            && (target == meta.destination || (rename == Some(target) && Parent(target) == Parent(meta.destination)))
    ensures sent.Some? ==> ExactStream(meta.plan, old(store.files), sent.value)
    ensures r.Succeeded? ==> sent.Some? && target in remote.tree && remote.tree[target] == File(sent.value)
    ensures !Consents(meta.overwrite, consent) ==> Keeps(old(remote.tree), remote.tree)
    ensures target in old(remote.tree) ==> target in remote.tree
    ensures HoldsBeginning(old(remote.tree), remote.tree, target, sent)
    ensures !Consents(meta.overwrite, consent) && target in old(remote.tree) ==> !r.Succeeded? && sent.None?
    ensures forall q :: q in old(remote.tree) && q != target ==>
              q in remote.tree && remote.tree[q] == old(remote.tree)[q]
    ensures r == FileExists || r == BadRequest || r == NotActive || r == StorageFailure ==>
              meta.closed == old(meta.closed) && store.files == old(store.files) && remote.tree == old(remote.tree)
    ensures sent.Some? ==> meta.closed && !old(meta.closed)
    ensures r.NotActive? <==> old(meta.closed)
    ensures r.FileExists? ==> !Consents(meta.overwrite, consent) && target in remote.tree
    ensures RenamesTo(meta.destination, rename) ==> target == TargetOf(meta.destination, rename)
    ensures r.Succeeded? ==> remote.tree == WithDirs(old(remote.tree), Parent(target))[target := File(sent.value)]
    ensures sent.Some? && store.steady ==> store.files == map[]
    ensures !Consents(meta.overwrite, consent) && sent.Some? && !r.Succeeded? && !trailingSlash && Candid(remote) ==>
              target !in remote.tree
    ensures Working(store, remote) ==>
              match old(Refusal(meta, store.files, remote.tree, rename, consent))
              case Some(reply) => r == reply && sent.None?
              case None => r.Succeeded? || r.RemoteFailure? || r.TransferIncomplete?
    ensures r.Succeeded? ==> old(Committable(meta, store.files, remote.tree, rename, trailingSlash, consent))
    ensures Working(store, remote) ==>
              (old(Committable(meta, store.files, remote.tree, rename, trailingSlash, consent)) ==> r.Succeeded?)
  {
    sent, target := None, TargetOf(meta.destination, rename);
    if meta.closed {
      target := if RenamesTo(meta.destination, rename) then target else meta.destination;
      return NotActive, sent, target;
    }
    var refusal, p := PickDestination(meta, remote, rename, consent);
    target := p;
    if refusal.Some? {
      return refusal.value, sent, target;
    }
    var unready, reader := ReadyReader(meta, store, buffer);
    if unready.Some? {
      return unready.value, sent, target;
    }
    r, sent := Publish(meta, store, remote, sftp, buffer, p, trailingSlash, !Consents(meta.overwrite, consent), reader);
  }

  lemma StreamIsExact(p: Plan, files: Files)
    requires Fits(p) && Bounded(p, Lens(files)) && p.total >= 0 && |Concat(files, 0, p.total)| == p.size
    ensures ExactStream(p, files, Concat(files, 0, p.total))
  {
    VerifiedTotal(p, files);
  }

  /** Nothing below a destination that did not exist was there before. */
  lemma LitterIsOurs(before: Tree, p: Path)
    requires WellFormed(before) && p !in before
    ensures forall q :: q in before ==> !Prefix(p, q)
  {
    forall q | q in before ensures !Prefix(p, q) {
      if Prefix(p, q) && p != q {
        NothingBelow(before, p, q);
      }
    }
  }

  lemma DeletingLitter(before: Tree, partial: Tree, after: Tree, p: Path)
    requires Keeps(before, partial) && RemovesUnder(partial, after, p)
    requires forall q :: q in before ==> !Prefix(p, q)
    ensures Keeps(before, after)
  {
  }
}
