/** How a reserved size is cut into chunks, and why per-chunk bounds pin every length. */
module Chunking {
  import opened MapSums

  datatype Plan = Plan(total: int, chunkSize: int, size: int)

  const MAX_TOTAL_CHUNKS: nat := 100_000

  /** The shape checks of a reservation request, in the order the handler makes them. */
  predicate Accepted(p: Plan, limit: int) {
    && 1 <= p.total <= MAX_TOTAL_CHUNKS
    && p.chunkSize > 0
    && p.size >= 0
    && !(p.size == 0 || p.chunkSize > limit || (p.size - 1) / p.chunkSize + 1 != p.total)
  }

  /** Acceptance, without division: the chunks before the last leave at least one byte for it and no more than fits. */
  lemma AcceptedIff(p: Plan, limit: int)
    ensures Accepted(p, limit) <==>
              && 1 <= p.total <= 100_000 && 0 < p.chunkSize <= limit
              && (p.total - 1) * p.chunkSize < p.size <= p.total * p.chunkSize
  {
    if p.chunkSize > 0 && p.size > 0 {
      CeilIs(p.size - 1, p.chunkSize, p.total - 1);
      OneMoreChunk(p.total - 1, p.chunkSize);
    } else if p.chunkSize > 0 && p.total >= 1 {
      NoBytes(p.total - 1, p.chunkSize);
    }
  }

  lemma CeilIs(n: nat, d: int, q: int)
    requires d > 0
    ensures n / d == q <==> q * d <= n < q * d + d
  {
    var r := n / d;
    assert n == d * r + n % d;
    if q < r {
      MoreChunks(q + 1, r, d);
      OneMoreChunk(q, d);
    } else if r < q {
      MoreChunks(r + 1, q, d);
      OneMoreChunk(r, d);
    }
  }

  lemma MoreChunks(a: int, b: int, d: int)
    requires a <= b && d > 0
    ensures a * d <= b * d
  {
  }

  lemma NoBytes(q: int, d: int)
    requires q >= 0 && d > 0
    ensures q * d >= 0
  {
  }

  /** What acceptance leaves behind: at least one byte, cut by ceil-division. */
  ghost predicate Fits(p: Plan) {
    p.chunkSize > 0 && p.size > 0 && (p.size - 1) / p.chunkSize + 1 == p.total
  }

  /** The length chunk `i` must have: full, except the last one. */
  function Expected(p: Plan, i: int): int {
    if i == p.total - 1 then Tail(p) else p.chunkSize
  }

  /** The length of the last chunk. */
  function Tail(p: Plan): int {
    p.size - (p.total - 1) * p.chunkSize
  }

  lemma LastChunk(p: Plan)
    requires Fits(p)
    ensures p.total >= 1
    ensures 0 < Tail(p) <= p.chunkSize
  {
    var q := (p.size - 1) / p.chunkSize;
    assert p.size - 1 == q * p.chunkSize + (p.size - 1) % p.chunkSize;
  }

  /** The lengths of the first `k` chunks. */
  ghost function Lengths(p: Plan, k: nat): map<nat, nat> {
    map i: nat | i < k :: if Expected(p, i) < 0 then 0 else Expected(p, i)
  }

  lemma LengthsStep(p: Plan, k: nat)
    requires Expected(p, k) >= 0
    ensures Sum(Lengths(p, k + 1)) == Sum(Lengths(p, k)) + Expected(p, k)
  {
    SumInsert(Lengths(p, k), k, Expected(p, k));
    assert Lengths(p, k + 1) == Lengths(p, k)[k := Expected(p, k)];
  }

  lemma ExpectedPositive(p: Plan, i: int)
    requires Fits(p) && 0 <= i < p.total
    ensures 0 < Expected(p, i) <= p.chunkSize
  {
    LastChunk(p);
  }

  /** The entries of `m` below `k`. */
  ghost function First(m: map<nat, nat>, k: nat): map<nat, nat> {
    map i | i in m && i < k :: m[i]
  }

  lemma FirstGrows(m: map<nat, nat>, k: nat)
    requires k in m
    ensures Sum(First(m, k + 1)) == Sum(First(m, k)) + m[k]
  {
    SumInsert(First(m, k), k, m[k]);
    assert First(m, k + 1) == First(m, k)[k := m[k]];
  }

  lemma {:induction false} FullChunksTotal(p: Plan, k: nat)
    requires p.chunkSize > 0 && k < p.total
    ensures Sum(Lengths(p, k)) == k * p.chunkSize
  {
    if k == 0 {
      assert Lengths(p, 0) == map[];
    } else {
      FullChunksTotal(p, k - 1);
      LengthsStep(p, k - 1);
      OneMoreChunk(k - 1, p.chunkSize);
    }
  }

  lemma OneMoreChunk(k: int, size: int)
    ensures (k + 1) * size == k * size + size
  {
  }

  /** Ceil-division wastes nothing: the expected lengths add up to the reserved size. */
  lemma ExpectedTotal(p: Plan)
    requires Fits(p)
    ensures Sum(Lengths(p, p.total)) == p.size
  {
    LastChunk(p);
    FullChunksTotal(p, p.total - 1);
    LengthsStep(p, p.total - 1);
  }

  /** Stored lengths, chunk by chunk no longer than expected. */
  ghost predicate Bounded(p: Plan, stored: map<nat, nat>) {
    forall i :: i in stored ==> i < p.total && stored[i] <= Expected(p, i)
  }

  lemma BoundedTotal(p: Plan, stored: map<nat, nat>)
    requires Fits(p) && Bounded(p, stored)
    ensures Sum(stored) <= p.size
  {
    ExpectedTotal(p);
    SumBelow(stored, Lengths(p, p.total));
  }

  /**
   * Per-chunk upper bounds plus an exact total force every length: a stale or short
   * chunk anywhere makes the total come out short, never masked by another chunk.
   */
  lemma ExactTotalForcesLengths(p: Plan, stored: map<nat, nat>, i: nat)
    requires Fits(p) && Bounded(p, stored) && Sum(stored) == p.size && i < p.total
    ensures i in stored && stored[i] == Expected(p, i)
  {
    LastChunk(p);
    ExpectedTotal(p);
    var full := Lengths(p, p.total);
    SumPick(full, i);
    assert i !in stored ==> stored - {i} == stored;
    SumBelow(stored - {i}, full - {i});
    if i in stored {
      SumPick(stored, i);
    }
  }
}
