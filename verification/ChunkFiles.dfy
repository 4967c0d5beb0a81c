/** One upload's staged chunk files, and the reader that plays them back in order. */
module ChunkFiles {
  import opened RemoteTree

  type Files = map<nat, seq<Byte>>

  /** Chunks `from..to` end to end; a missing one contributes nothing. */
  function Concat(files: Files, from: nat, to: nat): seq<Byte>
    decreases to - from
  {
    if from >= to then []
    else (if from in files then files[from] else []) + Concat(files, from + 1, to)
  }

  lemma CutFront(data: seq<Byte>, pos: nat, k: nat, rest: seq<Byte>)
    requires pos + k <= |data|
    ensures data[pos..pos + k] + (data[pos + k..] + rest) == data[pos..] + rest
  {
    assert data[pos..] == data[pos..pos + k] + data[pos + k..];
  }

  datatype Status = Ok | Eof | Failed

  class ChunkStore {
    var files: Files
    /** Whether no call on the staging directory fails for a reason of its own. */
    const steady: bool

    constructor (steady: bool)
      ensures files == map[] && this.steady == steady
    {
      files, this.steady := map[], steady;
    }

    /** Creating truncates; a write that fails half-way leaves a short file behind. */
    method WriteChunk(index: nat, body: seq<Byte>) returns (ok: bool)
      modifies this
      ensures ok ==> files == old(files)[index := body]
      ensures !ok ==> files == old(files) || exists n: nat :: n <= |body| && files == old(files)[index := body[..n]]
      ensures steady ==> ok
    {
      ok := false;
      if steady {
        files := files[index := body];
        ok := true;
      } else if * {
        var n: nat :| n <= |body|;
        files := files[index := body[..n]];
        if n == |body| {
          assert body[..n] == body;
          ok := *;
        }
      }
    }
  }

  class SequentialReader {
    const store: ChunkStore
    const total: nat
    var index: nat
    var open: bool
    var data: seq<Byte>
    var pos: nat
    var closed: bool

    constructor (store: ChunkStore, total: nat)
      ensures this.store == store && this.total == total && Fresh() && Valid()
    {
      this.store, this.total := store, total;
      index, open, data, pos, closed := 0, false, [], 0, false;
    }

    ghost predicate Fresh()
      reads this
    {
      index == 0 && !open && !closed
    }

    ghost predicate Valid()
      reads this
    {
      open ==> pos <= |data|
    }

    /** What is still to be delivered. */
    ghost function Rest(): seq<Byte>
      reads this, store
      requires Valid()
    {
      (if open then data[pos..] else []) + Concat(store.files, index, total)
    }

    /** Nothing that is still to be opened is missing, and the disk will not fail. */
    ghost predicate Sure()
      reads this, store
    {
      store.steady && forall i :: index <= i < total ==> i in store.files
    }

    ghost predicate AtEnd()
      reads this
    {
      closed || (!open && index >= total)
    }

    method OpenNext() returns (ok: bool)
      requires Valid() && !open && index < total
      modifies this`index, this`open, this`data, this`pos
      ensures Valid() && Rest() == old(Rest())
      ensures if ok then open && index == old(index) + 1 else !open && index == old(index)
      ensures old(Sure()) ==> ok && Sure()
    {
      ok := *;
      if index !in store.files || (!ok && !store.steady) {
        return false;
      }
      ok := true;
      data, pos, open := store.files[index], 0, true;
      index := index + 1;
      assert data[0..] == data;
    }

    /** One read of the open file: some of what it has left, and its end with or after the last byte. */
    method ReadOpen(n: nat) returns (out: seq<Byte>, eof: bool, failed: bool)
      requires Valid() && open
      modifies this`pos
      ensures Valid() && out + Rest() == old(Rest())
      ensures |out| <= n
      ensures eof ==> pos == |data| && !failed
      ensures n > 0 && out == [] ==> eof || failed
      ensures store.steady ==> !failed
    {
      var k: nat :| k <= n && k <= |data| - pos && (n > 0 && pos < |data| ==> k > 0);
      out := data[pos..pos + k];
      CutFront(data, pos, k, Concat(store.files, index, total));
      pos := pos + k;
      eof := *;
      eof := pos == |data| && (eof || (k == 0 && n > 0));
      failed := *;
      failed := failed && !eof && !store.steady;
    }

    /**
     * Reads at most `n` bytes. Opening, reading and closing may each fail. Whatever
     * happens, what is delivered comes off the front of what was left.
     */
    method Read(n: nat) returns (out: seq<Byte>, status: Status)
      requires Valid()
      modifies this
      ensures Valid() && closed == old(closed)
      ensures !closed ==> out + Rest() == old(Rest())
      ensures |out| <= n
      ensures status.Eof? ==> out == [] && AtEnd()
      ensures status.Ok? && n > 0 ==> out != []
      ensures closed ==> status.Eof? && out == []
      ensures old(Sure()) ==> Sure() && !status.Failed?
    {
      while !closed
        invariant Valid() && closed == old(closed) && (old(Sure()) ==> Sure())
        invariant Rest() == old(Rest())
        decreases total - index, open
      {
        if !open {
          if index >= total {
            return [], Eof;
          }
          var available := OpenNext();
          if !available {
            return [], Failed;
          }
        }
        var eof, failed;
        out, eof, failed := ReadOpen(n);
        if !eof {
          return out, if failed then Failed else Ok;
        }
        assert data[pos..] == [];
        open := false;
        var closes: bool := *;
        if !closes && !store.steady {
          return out, Failed;
        }
        if |out| > 0 {
          return out, Ok;
        }
      }
      return [], Eof;
    }

    method Close() returns (ok: bool)
      modifies this`closed
      ensures closed && (store.steady ==> ok)
    {
      closed := true;
      ok := *;
      ok := ok || store.steady;
    }

    /** Reading to the end, or to `limit` bytes, through a buffer of at most `buffer` bytes. */
    method Drain(limit: nat, buffer: nat) returns (all: seq<Byte>, ok: bool)
      requires Valid() && !closed && buffer > 0
      modifies this
      ensures Valid() && !closed && |all| <= limit
      ensures all + Rest() == old(Rest())
      ensures ok ==> |all| == limit || Rest() == []
      ensures old(Sure()) ==> ok
    {
      all, ok := [], true;
      ghost var rest := Rest();
      while |all| < limit
        invariant Valid() && !closed && |all| <= limit && ok && (old(Sure()) ==> Sure())
        invariant all + Rest() == rest
        decreases limit - |all|
      {
        var want := if limit - |all| < buffer then limit - |all| else buffer;
        var out, status := Read(want);
        all := all + out;
        if status.Failed? {
          ok := false;
          return;
        }
        if status.Eof? {
          return;
        }
      }
    }
  }

  /** Handing the reader to an upload: the server gets what was read, and all of it only if nothing failed. */
  method SendFrom(r: SequentialReader, buffer: nat, remote: Remote, p: Path) returns (sent: UploadResult)
    requires r.Valid() && !r.closed && buffer > 0 && WellFormed(remote.tree)
    modifies r, remote
    ensures WellFormed(remote.tree) && OnlyFileAt(old(remote.tree), remote.tree, p)
    ensures OnlyBeginning(old(remote.tree), remote.tree, p, old(r.Rest()))
    ensures sent.Uploaded? ==> remote.tree == old(remote.tree)[p := File(old(r.Rest()))] && CanHold(old(remote.tree), p)
    ensures old(r.Sure()) && remote.writable && CanHold(old(remote.tree), p) ==> sent.Uploaded?
    ensures remote.writable && CanHold(old(remote.tree), p) ==> sent.Uploaded? || sent.Incomplete?
  {
    var all: seq<Byte>, more := [], true;
    while more
      invariant r.Valid() && !r.closed && all + r.Rest() == old(r.Rest())
      invariant remote.tree == old(remote.tree) && (!more ==> r.Rest() == []) && (old(r.Sure()) ==> r.Sure())
      decreases more, |r.Rest()|
    {
      ghost var rest := r.Rest();
      var out, status := r.Read(buffer);
      assert rest == out + r.Rest();
      all := all + out;
      if status.Failed? {
        sent := remote.Upload(p, all);
        BeginningOfPart(old(remote.tree), remote.tree, p, all, old(r.Rest()));
        return Incomplete;
      }
      more := status.Ok?;
    }
    assert all == old(r.Rest());
    sent := remote.Upload(p, all);
  }

  /** Every chunk is looked for before any is opened. */
  method AssembleReader(store: ChunkStore, total: nat) returns (r: SequentialReader?)
    ensures r != null ==> fresh(r) && r.store == store && r.total == total && r.Fresh() && r.Valid()
    ensures r != null ==> forall i :: 0 <= i < total ==> i in store.files
    ensures store.steady ==> (r != null <==> forall i :: 0 <= i < total ==> i in store.files)
  {
    for i := 0 to total
      invariant forall j :: 0 <= j < i ==> j in store.files
    {
      var stats: bool := *;
      if i !in store.files || (!stats && !store.steady) {
        return null;
      }
    }
    r := new SequentialReader(store, total);
  }
}
