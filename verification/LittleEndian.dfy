/** Unsigned little-endian fields, as encoding/binary reads them. */
module LittleEndian {
  import opened RemoteTree
  import opened Limits

  /** The bytes from `at` up to `end`, the first one counting least. */
  function Little(f: seq<Byte>, at: nat, end: nat): nat
    requires at <= end <= |f|
    decreases end - at
  {
    if at == end then 0 else f[at] as int + 256 * Little(f, at + 1, end)
  }

  function U16(f: seq<Byte>, at: nat): (v: nat)
    requires at + 2 <= |f|
    ensures v < TWO16
  {
    Split16(f, at);
    Little(f, at, at + 2)
  }

  function U32(f: seq<Byte>, at: nat): (v: nat)
    requires at + 4 <= |f|
    ensures v < TWO32
  {
    Split32(f, at);
    Little(f, at, at + 4)
  }

  function U64(f: seq<Byte>, at: nat): (v: nat)
    requires at + 8 <= |f|
    ensures v < TWO64
  {
    Split64(f, at);
    Little(f, at, at + 8)
  }

  lemma Split16(f: seq<Byte>, at: nat)
    requires at + 2 <= |f|
    ensures Little(f, at, at + 2) == f[at] as int + 256 * f[at + 1] as int
  {
    assert Little(f, at + 1, at + 2) == f[at + 1] as int + 256 * Little(f, at + 2, at + 2);
  }

  lemma Split32(f: seq<Byte>, at: nat)
    requires at + 4 <= |f|
    ensures Little(f, at, at + 4) == Little(f, at, at + 2) + TWO16 * Little(f, at + 2, at + 4)
    ensures Little(f, at, at + 2) < TWO16 && Little(f, at + 2, at + 4) < TWO16
  {
    Split16(f, at);
    Split16(f, at + 2);
    assert Little(f, at + 1, at + 4) == f[at + 1] as int + 256 * Little(f, at + 2, at + 4);
  }

  lemma Split64(f: seq<Byte>, at: nat)
    requires at + 8 <= |f|
    ensures Little(f, at, at + 8) == Little(f, at, at + 4) + TWO32 * Little(f, at + 4, at + 8)
    ensures Little(f, at, at + 4) < TWO32 && Little(f, at + 4, at + 8) < TWO32
  {
    Split32(f, at);
    Split32(f, at + 4);
    Split16(f, at);
    Split16(f, at + 2);
    assert Little(f, at + 1, at + 8) == f[at + 1] as int + 256 * Little(f, at + 2, at + 8);
    assert Little(f, at + 2, at + 8) == f[at + 2] as int + 256 * Little(f, at + 3, at + 8);
    assert Little(f, at + 3, at + 8) == f[at + 3] as int + 256 * Little(f, at + 4, at + 8);
  }

  lemma {:induction false} SameLittle(f: seq<Byte>, lo: nat, hi: nat, at: nat, end: nat)
    requires lo <= hi <= |f| && at <= end <= hi - lo
    ensures Little(f[lo..hi], at, end) == Little(f, lo + at, lo + end)
    decreases end - at
  {
    if at < end {
      SameLittle(f, lo, hi, at + 1, end);
    }
  }

  /** A field reads the same in a part of the file as at its place in the whole. */
  lemma SameFields(f: seq<Byte>, lo: nat, hi: nat)
    requires lo <= hi <= |f|
    ensures forall at: nat :: at + 2 <= hi - lo ==> U16(f[lo..hi], at) == U16(f, lo + at)
    ensures forall at: nat :: at + 4 <= hi - lo ==> U32(f[lo..hi], at) == U32(f, lo + at)
    ensures forall at: nat :: at + 8 <= hi - lo ==> U64(f[lo..hi], at) == U64(f, lo + at)
  {
    forall at: nat, end: nat | at <= end <= hi - lo
      ensures Little(f[lo..hi], at, end) == Little(f, lo + at, lo + end)
    {
      SameLittle(f, lo, hi, at, end);
    }
  }

  function E16(n: nat): (s: seq<Byte>)
    requires n < TWO16
    ensures |s| == 2
  {
    [n % 256, n / 256]
  }

  function E32(n: nat): (s: seq<Byte>)
    requires n < TWO32
    ensures |s| == 4
  {
    E16(n % TWO16) + E16(n / TWO16)
  }

  function E64(n: nat): (s: seq<Byte>)
    requires n < TWO64
    ensures |s| == 8
  {
    E32(n % TWO32) + E32(n / TWO32)
  }

  lemma Read16(f: seq<Byte>, at: nat, n: nat)
    requires n < TWO16 && at + 2 <= |f| && f[at..at + 2] == E16(n)
    ensures U16(f, at) == n
  {
    assert f[at] == f[at..at + 2][0] && f[at + 1] == f[at..at + 2][1];
    Split16(f, at);
  }

  lemma Read32(f: seq<Byte>, at: nat, n: nat)
    requires n < TWO32 && at + 4 <= |f| && f[at..at + 4] == E32(n)
    ensures U32(f, at) == n
  {
    assert f[at..at + 2] == E32(n)[..2] == E16(n % TWO16);
    assert f[at + 2..at + 2 + 2] == E32(n)[2..] == E16(n / TWO16);
    Read16(f, at, n % TWO16);
    Read16(f, at + 2, n / TWO16);
    Split32(f, at);
  }

  lemma Read64(f: seq<Byte>, at: nat, n: nat)
    requires n < TWO64 && at + 8 <= |f| && f[at..at + 8] == E64(n)
    ensures U64(f, at) == n
  {
    assert f[at..at + 4] == E64(n)[..4] == E32(n % TWO32);
    assert f[at + 4..at + 4 + 4] == E64(n)[4..] == E32(n / TWO32);
    Read32(f, at, n % TWO32);
    Read32(f, at + 4, n / TWO32);
    Split64(f, at);
  }

  lemma Back16(f: seq<Byte>, at: nat)
    requires at + 2 <= |f|
    ensures f[at..at + 2] == E16(U16(f, at))
  {
    var n := U16(f, at);
    Split16(f, at);
    assert n == f[at + 1] as int * 256 + f[at] as int;
    assert n % 256 == f[at] as int && n / 256 == f[at + 1] as int;
  }

  lemma HighLow(low: nat, high: nat, size: nat)
    requires low < size
    ensures (low + size * high) % size == low && (low + size * high) / size == high
  {
    var n := low + size * high;
    assert n == size * high + low;
    DivModUnique(n, size, high, low);
  }

  lemma DivModUnique(n: nat, d: nat, q: nat, r: nat)
    requires d > 0 && r < d && n == d * q + r
    ensures n / d == q && n % d == r
  {
    var q', r' := n / d, n % d;
    assert n == d * q' + r';
    assert q' < q ==> d * (q' + 1) <= d * q;
    assert q < q' ==> d * (q + 1) <= d * q';
  }

  lemma Back32(f: seq<Byte>, at: nat)
    requires at + 4 <= |f|
    ensures f[at..at + 4] == E32(U32(f, at))
  {
    Split32(f, at);
    HighLow(U16(f, at), U16(f, at + 2), TWO16);
    Back16(f, at);
    Back16(f, at + 2);
    assert f[at..at + 4] == f[at..at + 2] + f[at + 2..at + 4];
  }

  lemma Back64(f: seq<Byte>, at: nat)
    requires at + 8 <= |f|
    ensures f[at..at + 8] == E64(U64(f, at))
  {
    Split64(f, at);
    HighLow(U32(f, at), U32(f, at + 4), TWO32);
    Back32(f, at);
    Back32(f, at + 4);
    assert f[at..at + 8] == f[at..at + 4] + f[at + 4..at + 8];
  }

  lemma SliceOfSlice(f: seq<Byte>, lo: nat, hi: nat, a: nat, b: nat)
    requires lo <= hi <= |f| && a <= b && lo + b <= hi
    ensures f[lo..hi][a..b] == f[lo + a..lo + b]
  {
    var x, y := f[lo..hi][a..b], f[lo + a..lo + b];
    assert |x| == |y| == b - a;
    assert forall k :: 0 <= k < b - a ==> x[k] == f[lo + a + k] == y[k];
  }

  lemma Front(f: seq<Byte>, at: nat, a: seq<Byte>, b: seq<Byte>)
    requires at + |a| + |b| <= |f| && f[at..at + (|a| + |b|)] == a + b
    ensures f[at..at + |a|] == a && f[at + |a|..at + |a| + |b|] == b
  {
    SliceOfSlice(f, at, at + (|a| + |b|), 0, |a|);
    SliceOfSlice(f, at, at + (|a| + |b|), |a|, |a| + |b|);
    assert (a + b)[0..|a|] == a && (a + b)[|a|..|a| + |b|] == b;
  }

  /** Fields and raw bytes one after another, as a writer lays them out. */
  datatype Layout =
    | End
    | Two(n: nat, rest: Layout)
    | Four(n: nat, rest: Layout)
    | Eight(n: nat, rest: Layout)
    | Raw(bytes: seq<Byte>, rest: Layout)

  predicate Fits(l: Layout) {
    match l
    case End => true
    case Two(n, rest) => n < TWO16 && Fits(rest)
    case Four(n, rest) => n < TWO32 && Fits(rest)
    case Eight(n, rest) => n < TWO64 && Fits(rest)
    case Raw(_, rest) => Fits(rest)
  }

  function Size(l: Layout): nat {
    match l
    case End => 0
    case Two(_, rest) => 2 + Size(rest)
    case Four(_, rest) => 4 + Size(rest)
    case Eight(_, rest) => 8 + Size(rest)
    case Raw(bytes, rest) => |bytes| + Size(rest)
  }

  function Put16(n: nat, rest: Layout): (l: Layout)
    requires n < TWO16 && Fits(rest)
    ensures Fits(l) && Size(l) == 2 + Size(rest)
  {
    Two(n, rest)
  }

  function Put32(n: nat, rest: Layout): (l: Layout)
    requires n < TWO32 && Fits(rest)
    ensures Fits(l) && Size(l) == 4 + Size(rest)
  {
    Four(n, rest)
  }

  function Put64(n: nat, rest: Layout): (l: Layout)
    requires n < TWO64 && Fits(rest)
    ensures Fits(l) && Size(l) == 8 + Size(rest)
  {
    Eight(n, rest)
  }

  function PutRaw(bytes: seq<Byte>, rest: Layout): (l: Layout)
    requires Fits(rest)
    ensures Fits(l) && Size(l) == |bytes| + Size(rest)
  {
    Raw(bytes, rest)
  }

  function Bytes(l: Layout): (s: seq<Byte>)
    requires Fits(l)
    ensures |s| == Size(l)
  {
    match l
    case End => []
    case Two(n, rest) => E16(n) + Bytes(rest)
    case Four(n, rest) => E32(n) + Bytes(rest)
    case Eight(n, rest) => E64(n) + Bytes(rest)
    case Raw(bytes, rest) => bytes + Bytes(rest)
  }

  /** Each field of the layout reads back its value at its place in the file. */
  predicate Holds(f: seq<Byte>, at: nat, l: Layout)
    decreases l
  {
    match l
    case End => true
    case Two(n, rest) => at + 2 <= |f| && U16(f, at) == n && Holds(f, at + 2, rest)
    case Four(n, rest) => at + 4 <= |f| && U32(f, at) == n && Holds(f, at + 4, rest)
    case Eight(n, rest) => at + 8 <= |f| && U64(f, at) == n && Holds(f, at + 8, rest)
    case Raw(bytes, rest) =>
      at + |bytes| <= |f| && f[at..at + |bytes|] == bytes && Holds(f, at + |bytes|, rest)
  }

  predicate Written(f: seq<Byte>, at: nat, l: Layout)
    requires Fits(l)
  {
    at + Size(l) <= |f| && f[at..at + Size(l)] == Bytes(l)
  }

  lemma TwoWritten(f: seq<Byte>, at: nat, n: nat, rest: Layout)
    requires n < TWO16 && Fits(rest) && Written(f, at, Two(n, rest))
    ensures U16(f, at) == n && Written(f, at + 2, rest)
  {
    Front(f, at, E16(n), Bytes(rest));
    Read16(f, at, n);
  }

  lemma FourWritten(f: seq<Byte>, at: nat, n: nat, rest: Layout)
    requires n < TWO32 && Fits(rest) && Written(f, at, Four(n, rest))
    ensures U32(f, at) == n && Written(f, at + 4, rest)
  {
    Front(f, at, E32(n), Bytes(rest));
    Read32(f, at, n);
  }

  lemma EightWritten(f: seq<Byte>, at: nat, n: nat, rest: Layout)
    requires n < TWO64 && Fits(rest) && Written(f, at, Eight(n, rest))
    ensures U64(f, at) == n && Written(f, at + 8, rest)
  {
    Front(f, at, E64(n), Bytes(rest));
    Read64(f, at, n);
  }

  lemma {:induction false} WrittenHolds(f: seq<Byte>, at: nat, l: Layout)
    requires Fits(l) && Written(f, at, l)
    ensures Holds(f, at, l)
    decreases l
  {
    match l
    case End =>
    case Two(n, rest) =>
      TwoWritten(f, at, n, rest);
      WrittenHolds(f, at + 2, rest);
    case Four(n, rest) =>
      FourWritten(f, at, n, rest);
      WrittenHolds(f, at + 4, rest);
    case Eight(n, rest) =>
      EightWritten(f, at, n, rest);
      WrittenHolds(f, at + 8, rest);
    case Raw(bytes, rest) =>
      Front(f, at, bytes, Bytes(rest));
      WrittenHolds(f, at + |bytes|, rest);
  }

  lemma Behind(f: seq<Byte>, at: nat, a: seq<Byte>, rest: Layout)
    requires Fits(rest) && at + |a| <= |f| && f[at..at + |a|] == a && at <= |f| && Written(f, at + |a|, rest)
    ensures at + |a| + Size(rest) <= |f| && f[at..at + |a| + Size(rest)] == a + Bytes(rest)
  {
    assert f[at..at + |a| + Size(rest)] == f[at..at + |a|] + f[at + |a|..at + |a| + Size(rest)];
  }

  lemma TwoHeld(f: seq<Byte>, at: nat, n: nat, rest: Layout)
    requires n < TWO16 && Fits(rest) && at + 2 <= |f| && U16(f, at) == n && Written(f, at + 2, rest)
    ensures Written(f, at, Two(n, rest))
  {
    Back16(f, at);
    Behind(f, at, E16(n), rest);
  }

  lemma FourHeld(f: seq<Byte>, at: nat, n: nat, rest: Layout)
    requires n < TWO32 && Fits(rest) && at + 4 <= |f| && U32(f, at) == n && Written(f, at + 4, rest)
    ensures Written(f, at, Four(n, rest))
  {
    Back32(f, at);
    Behind(f, at, E32(n), rest);
  }

  lemma EightHeld(f: seq<Byte>, at: nat, n: nat, rest: Layout)
    requires n < TWO64 && Fits(rest) && at + 8 <= |f| && U64(f, at) == n && Written(f, at + 8, rest)
    ensures Written(f, at, Eight(n, rest))
  {
    Back64(f, at);
    Behind(f, at, E64(n), rest);
  }

  /** And what reads back everywhere was written so: fields leave no choice of bytes. */
  lemma {:induction false} HoldsWritten(f: seq<Byte>, at: nat, l: Layout)
    requires Fits(l) && at <= |f| && Holds(f, at, l)
    ensures Written(f, at, l)
    decreases l
  {
    match l
    case End =>
    case Two(n, rest) =>
      HoldsWritten(f, at + 2, rest);
      TwoHeld(f, at, n, rest);
    case Four(n, rest) =>
      HoldsWritten(f, at + 4, rest);
      FourHeld(f, at, n, rest);
    case Eight(n, rest) =>
      HoldsWritten(f, at + 8, rest);
      EightHeld(f, at, n, rest);
    case Raw(bytes, rest) =>
      HoldsWritten(f, at + |bytes|, rest);
      Behind(f, at, bytes, rest);
  }
}
