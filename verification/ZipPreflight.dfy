/**
 * The ZIP directory check that runs before the archive library allocates an entry per
 * header. A file is accepted exactly when its last end record describes a directory that
 * central headers tile without gap or overlap.
 */
module ZipPreflight {
  import opened Options
  import opened RemoteTree
  import opened Limits
  import opened LittleEndian

  const MAX_METADATA := 0x40_0000
  const TAIL := 65557

  const END_SIGNATURE := 0x0605_4b50
  const LOCATOR_SIGNATURE := 0x0706_4b50
  const RECORD_SIGNATURE := 0x0606_4b50
  const HEADER_SIGNATURE := 0x0201_4b50

  /** The four records begin with "PK" and the two bytes that APPNOTE.TXT gives them. */
  lemma SignatureBytes(f: seq<Byte>, i: nat)
    requires i + 4 <= |f|
    ensures U32(f, i) == END_SIGNATURE <==> f[i..i + 4] == [80, 75, 5, 6]
    ensures U32(f, i) == LOCATOR_SIGNATURE <==> f[i..i + 4] == [80, 75, 6, 7]
    ensures U32(f, i) == RECORD_SIGNATURE <==> f[i..i + 4] == [80, 75, 6, 6]
    ensures U32(f, i) == HEADER_SIGNATURE <==> f[i..i + 4] == [80, 75, 1, 2]
  {
    Split32(f, i);
    Split16(f, i);
    Split16(f, i + 2);
    assert f[i..i + 4] == [f[i], f[i + 1], f[i + 2], f[i + 3]];
  }

  // ----------------------------------------------------------- what is accepted

  /** APPNOTE.TXT section 4.3.16: a record whose comment reaches the end of the file. */
  predicate EndRecordAt(f: seq<Byte>, i: nat) {
    i + 22 <= |f| && U32(f, i) == END_SIGNATURE && i + 22 + U16(f, i + 20) == |f|
  }

  ghost predicate LastEndRecord(f: seq<Byte>, i: nat) {
    EndRecordAt(f, i) && forall j :: i < j ==> !EndRecordAt(f, j)
  }

  datatype Directory = Directory(count: nat, bytes: nat, start: nat, end: nat)

  predicate SingleDisk(f: seq<Byte>, i: nat)
    requires i + 22 <= |f|
  {
    U16(f, i + 4) == 0 && U16(f, i + 6) == 0 && U16(f, i + 8) == U16(f, i + 10)
  }

  /** The directory an end record gives itself; section 4.3.16. */
  function Classic(f: seq<Byte>, i: nat): Directory
    requires i + 22 <= |f|
  {
    Directory(U16(f, i + 10), U32(f, i + 12), U32(f, i + 16), i)
  }

  predicate NeedsZip64(d: Directory) {
    d.count == 65535 || d.bytes == 0xffff_ffff || d.start == 0xffff_ffff
  }

  /** Section 4.3.15: the locator just before the end record, pointing back at its record. */
  predicate LocatorAt(f: seq<Byte>, i: nat) {
    && i + 20 <= |f|
    && U32(f, i) == LOCATOR_SIGNATURE && U32(f, i + 4) == 0 && U32(f, i + 16) == 1
    && U64(f, i + 8) + 56 <= i
  }

  /** Section 4.3.14: the ZIP64 record, which must end where the locator starts. */
  predicate RecordAt(f: seq<Byte>, z: nat, locator: nat) {
    && z + 56 <= locator <= |f|
    && U32(f, z) == RECORD_SIGNATURE
    && 44 <= U64(f, z + 4) <= MAX_METADATA && z + 12 + U64(f, z + 4) == locator
    && U32(f, z + 16) == 0 && U32(f, z + 20) == 0
    && U64(f, z + 24) == U64(f, z + 32)
  }

  function Zip64(f: seq<Byte>, z: nat): Directory
    requires z + 56 <= |f|
  {
    Directory(U64(f, z + 32), U64(f, z + 40), U64(f, z + 48), z)
  }

  /** The directory of the ZIP64 record, if locator and record are in order. */
  function LongDirectory(f: seq<Byte>, i: nat): Option<Directory>
    requires i + 22 <= |f|
  {
    if i >= 20 && LocatorAt(f, i - 20) && RecordAt(f, U64(f, i - 12), i - 20) then Some(Zip64(f, U64(f, i - 12)))
    else None
  }

  function Described(f: seq<Byte>, i: nat): Option<Directory>
    requires i + 22 <= |f|
  {
    if !SingleDisk(f, i) then None
    else if NeedsZip64(Classic(f, i)) then LongDirectory(f, i)
    else Some(Classic(f, i))
  }

  ghost predicate Describes(f: seq<Byte>, i: nat, d: Directory) {
    i + 22 <= |f| && Described(f, i) == Some(d)
  }

  /** Section 4.3.12: a central header with its name, extra field and comment inside the directory. */
  predicate HeaderAt(f: seq<Byte>, i: nat, end: nat) {
    && i + 46 <= end <= |f|
    && U32(f, i) == HEADER_SIGNATURE && U16(f, i + 34) == 0
    && i + HeaderLength(f, i) <= end
  }

  function HeaderLength(f: seq<Byte>, i: nat): (n: nat)
    requires i + 46 <= |f|
    ensures n >= 46
  {
    46 + U16(f, i + 28) + U16(f, i + 30) + U16(f, i + 32)
  }

  /** Every header of `at` starts where the one before it ends. */
  ghost predicate Steps(f: seq<Byte>, end: nat, at: seq<nat>) {
    forall k :: 0 <= k < |at| - 1 ==> HeaderAt(f, at[k], end) && at[k + 1] == at[k] + HeaderLength(f, at[k])
  }

  ghost predicate Tiling(f: seq<Byte>, start: nat, end: nat, count: nat, at: seq<nat>) {
    |at| == count + 1 && at[0] == start && at[count] == end && Steps(f, end, at)
  }

  ghost predicate Tiles(f: seq<Byte>, start: nat, end: nat, count: nat) {
    exists at :: Tiling(f, start, end, count, at)
  }

  ghost predicate DirectoryOk(f: seq<Byte>, d: Directory) {
    && d.count <= 10_000 && d.bytes <= 0x40_0000 && d.end <= |f|
    && d.start + d.bytes == d.end && Tiles(f, d.start, d.end, d.count)
  }

  ghost predicate Accepts(f: seq<Byte>) {
    exists i, d :: LastEndRecord(f, i) && Describes(f, i, d) && DirectoryOk(f, d)
  }

  lemma OneLast(f: seq<Byte>, i: nat, j: nat)
    requires LastEndRecord(f, i) && LastEndRecord(f, j)
    ensures i == j
  {
    assert i < j || j < i || i == j;
  }

  /** Headers leave no choice: two walks from the same start agree as far as both go. */
  lemma {:induction false} WalksAgree(f: seq<Byte>, end: nat, a: seq<nat>, b: seq<nat>, k: nat)
    requires |a| > k && |b| > k && a[0] == b[0] && Steps(f, end, a) && Steps(f, end, b)
    ensures a[k] == b[k]
  {
    if k > 0 {
      WalksAgree(f, end, a, b, k - 1);
      assert a[k] == a[k - 1] + HeaderLength(f, a[k - 1]);
      assert b[k] == b[k - 1] + HeaderLength(f, b[k - 1]);
    }
  }

  // ------------------------------------------------------------------ the check

  /** Looking only at the tail misses no end record: a comment has at most 65535 bytes. */
  method FindEndRecord(f: seq<Byte>) returns (found: int)
    requires 22 <= |f| < TWO63
    ensures found < 0 ==> forall j :: !EndRecordAt(f, j)
    ensures found >= 0 ==> LastEndRecord(f, found)
  {
    var tailSize := if TAIL > |f| then |f| else TAIL;
    var tail := f[|f| - tailSize..];
    SameFields(f, |f| - tailSize, |f|);
    var i := |tail| - 22;
    while i >= 0
      invariant -1 <= i <= |tail| - 22
      invariant forall j :: |f| - tailSize + i < j ==> !EndRecordAt(f, j)
    {
      assert tail == f[|f| - tailSize..|f|];
      if U32(tail, i) == END_SIGNATURE && i + 22 + U16(tail, i + 20) == |tail| {
        return |f| - tailSize + i;
      }
      assert !EndRecordAt(f, |f| - tailSize + i);
      i := i - 1;
    }
    forall j: nat ensures !EndRecordAt(f, j) {
      assert j + 22 <= |f| ==> U16(f, j + 20) < 65536;
    }
    return -1;
  }

  /** The ZIP64 record that the locator just before the end record points to. */
  method ReadZip64(f: seq<Byte>, at: nat) returns (ok: bool, d: Directory)
    requires at + 22 <= |f| < TWO63
    ensures LongDirectory(f, at) == if ok then Some(d) else None
  {
    d := Directory(0, 0, 0, 0);
    if at < 20 {
      return false, d;
    }
    var locator := f[at - 20..at];
    SameFields(f, at - 20, at);
    if U32(locator, 0) != LOCATOR_SIGNATURE || U32(locator, 4) != 0 || U32(locator, 16) != 1 {
      return false, d;
    }
    var zoff := U64(locator, 8);
    if zoff > at - 20 || at - 20 - zoff < 56 {
      return false, d;
    }
    ok, d := ReadRecord(f, zoff, at - 20);
  }

  /** Unsigned 64-bit arithmetic. */
  function Wrap64(n: nat): nat {
    n % TWO64
  }

  lemma NoWrap(n: nat)
    requires n < TWO64
    ensures Wrap64(n) == n
  {
  }

  method ReadRecord(f: seq<Byte>, zoff: nat, end: nat) returns (ok: bool, d: Directory)
    requires zoff + 56 <= end <= |f| < TWO63
    ensures ok <==> RecordAt(f, zoff, end)
    ensures ok ==> d == Zip64(f, zoff)
  {
    var z := f[zoff..zoff + 56];
    SameFields(f, zoff, zoff + 56);
    d := Directory(0, 0, 0, 0);
    var recordSize := U64(z, 4);
    if U32(z, 0) != RECORD_SIGNATURE || recordSize < 44 || recordSize > MAX_METADATA {
      return false, d;
    }
    NoWrap(zoff + 12 + recordSize);
    if Wrap64(zoff + 12 + recordSize) != end {
      return false, d;
    }
    if U32(z, 16) != 0 || U32(z, 20) != 0 {
      return false, d;
    }
    if U64(z, 32) != U64(z, 24) {
      return false, d;
    }
    return true, Directory(U64(z, 32), U64(z, 40), U64(z, 48), zoff);
  }

  /** The directory the end record describes, through its ZIP64 record if it has one. */
  method ReadDirectory(f: seq<Byte>, at: nat) returns (ok: bool, d: Directory)
    requires at + 22 <= |f| < TWO63
    ensures Described(f, at) == if ok then Some(d) else None
  {
    var e := f[at..];
    assert e == f[at..|f|];
    SameFields(f, at, |f|);
    d := Directory(U16(e, 10), U32(e, 12), U32(e, 16), at);
    assert d == Classic(f, at);
    if U16(e, 4) != 0 || U16(e, 6) != 0 || U16(e, 8) != U16(e, 10) {
      return false, d;
    }
    if d.count == 65535 || d.bytes == 0xffff_ffff || d.start == 0xffff_ffff {
      ok, d := ReadZip64(f, at);
    } else {
      ok := true;
    }
  }

  /** One header, its variable part skipped, from a section reader over the directory. */
  method NextHeader(f: seq<Byte>, d: Directory, pos: nat) returns (ok: bool, next: nat)
    requires d.start <= d.end <= |f| && d.start + pos <= d.end
    ensures ok <==> HeaderAt(f, d.start + pos, d.end)
    ensures ok ==> next == pos + HeaderLength(f, d.start + pos)
  {
    var section := f[d.start..d.end];
    if |section| - pos < 46 {
      return false, pos;
    }
    var header := section[pos..pos + 46];
    SliceOfSlice(f, d.start, d.end, pos, pos + 46);
    SameFields(f, d.start + pos, d.start + pos + 46);
    if U32(header, 0) != HEADER_SIGNATURE {
      return false, pos;
    }
    if U16(header, 34) != 0 {
      return false, pos;
    }
    var extra := U16(header, 28) + U16(header, 30) + U16(header, 32);
    if |section| - (pos + 46) < extra {
      return false, pos;
    }
    return true, pos + 46 + extra;
  }

  /** Reads `d.count` headers, after which the directory must be used up. */
  method WalkHeaders(f: seq<Byte>, d: Directory) returns (ok: bool)
    requires d.start <= d.end <= |f| && d.bytes == d.end - d.start
    ensures ok <==> Tiles(f, d.start, d.end, d.count)
  {
    var pos := 0;
    ghost var at: seq<nat> := [d.start];
    for k := 0 to d.count
      invariant 0 <= pos <= d.bytes
      invariant |at| == k + 1 && at[0] == d.start && at[k] == d.start + pos && Steps(f, d.end, at)
    {
      var read, next := NextHeader(f, d, pos);
      if !read {
        Stuck(f, d, at, k);
        return false;
      }
      pos := next;
      ghost var longer: seq<nat> := at + [d.start + pos];
      assert forall j :: 0 <= j <= k ==> longer[j] == at[j];
      at := longer;
    }
    ok := pos == d.bytes;
    if ok {
      assert Tiling(f, d.start, d.end, d.count, at);
    } else {
      forall other | Tiling(f, d.start, d.end, d.count, other) ensures false {
        WalksAgree(f, d.end, at, other, d.count);
      }
    }
  }

  /** A walk that meets no header before the last entry cannot be completed in any other way. */
  lemma Stuck(f: seq<Byte>, d: Directory, at: seq<nat>, k: nat)
    requires |at| == k + 1 && k < d.count && at[0] == d.start && Steps(f, d.end, at)
    requires !HeaderAt(f, at[k], d.end)
    ensures !Tiles(f, d.start, d.end, d.count)
  {
    forall other | Tiling(f, d.start, d.end, d.count, other) ensures false {
      WalksAgree(f, d.end, at, other, k);
    }
  }

  method PreflightZip(f: seq<Byte>) returns (ok: bool)
    requires |f| < TWO63
    ensures ok <==> Accepts(f)
  {
    if |f| < 22 {
      return false;
    }
    var at := FindEndRecord(f);
    if at < 0 {
      return false;
    }
    var read, d := ReadDirectory(f, at);
    forall i | LastEndRecord(f, i) ensures i == at {
      OneLast(f, i, at);
    }
    if !read {
      return false;
    }
    if d.count > MAX_ENTRIES || d.bytes > MAX_METADATA || d.start > d.end || d.bytes != d.end - d.start {
      return false;
    }
    ok := WalkHeaders(f, d);
    if ok {
      assert DirectoryOk(f, d);
    }
  }

  // ------------------------------------------------- what a ZIP writer produces

  /** `fixed` and `attributes` are the header fields the check does not look at. */
  datatype Entry = Entry(fixed: seq<Byte>, attributes: seq<Byte>, name: seq<Byte>, extra: seq<Byte>, comment: seq<Byte>)

  predicate ValidEntry(e: Entry) {
    |e.fixed| == 24 && |e.attributes| == 10 && |e.name| < 0x1_0000 && |e.extra| < 0x1_0000 && |e.comment| < 0x1_0000
  }

  function Header(e: Entry): (l: Layout)
    requires ValidEntry(e)
    ensures Fits(l) && Size(l) == 46
  {
    var lengths := Put16(|e.name|, Put16(|e.extra|, Put16(|e.comment|, Put16(0, PutRaw(e.attributes, End)))));
    Put32(HEADER_SIGNATURE, PutRaw(e.fixed, lengths))
  }

  function Variable(e: Entry): seq<Byte> {
    e.name + e.extra + e.comment
  }

  function Headers(entries: seq<Entry>): seq<Byte>
    requires forall e :: e in entries ==> ValidEntry(e)
  {
    if entries == [] then []
    else Bytes(Header(entries[0])) + Variable(entries[0]) + Headers(entries[1..])
  }

  function EndRecord(d: Directory, comment: seq<Byte>): (l: Layout)
    requires d.count < TWO16 && d.bytes < TWO32 && d.start < TWO32 && |comment| < TWO16
    ensures Fits(l) && Size(l) == 22 + |comment|
  {
    var place := Put32(d.bytes, Put32(d.start, Put16(|comment|, PutRaw(comment, End))));
    Put32(END_SIGNATURE, Put16(0, Put16(0, Put16(d.count, Put16(d.count, place)))))
  }

  /** `versions` and `more` are what the check does not look at: two versions, and data of any kind at the end. */
  function Record(d: Directory, versions: seq<Byte>, more: seq<Byte>): (l: Layout)
    requires |versions| == 4 && |more| + 44 < TWO64 && d.count < TWO64 && d.bytes < TWO64 && d.start < TWO64
    ensures Fits(l) && Size(l) == 56 + |more|
  {
    var place := Put64(d.bytes, Put64(d.start, PutRaw(more, End)));
    var counts := Put64(d.count, Put64(d.count, place));
    Put32(RECORD_SIGNATURE, Put64(44 + |more|, PutRaw(versions, Put32(0, Put32(0, counts)))))
  }

  function Locator(z: nat): (l: Layout)
    requires z < TWO64
    ensures Fits(l) && Size(l) == 20
  {
    Put32(LOCATOR_SIGNATURE, Put32(0, Put64(z, Put32(1, End))))
  }

  /** A ZIP64 file's end record gives at least one of its three fields as the all-ones sentinel. */
  datatype Form = Short | Long(versions: seq<Byte>, more: seq<Byte>, stated: Directory)

  predicate ValidForm(form: Form, before: nat) {
    if form.Short? then before < 0xffff_ffff
    else
      && before < TWO64 && |form.versions| == 4 && 44 + |form.more| <= 0x40_0000
      && (form.stated.count == 65535 || form.stated.bytes == 0xffff_ffff || form.stated.start == 0xffff_ffff)
      && form.stated.count < TWO16 && form.stated.bytes < TWO32 && form.stated.start < TWO32
  }

  /** The end records after a directory. */
  function Trailer(d: Directory, form: Form, comment: seq<Byte>): seq<Byte>
    requires ValidForm(form, d.start) && d.count <= 10_000 && d.bytes <= 0x40_0000 && d.end < TWO64
    requires |comment| < TWO16
  {
    match form
    case Short => Bytes(EndRecord(d, comment))
    case Long(versions, more, stated) =>
      Bytes(Record(d, versions, more)) + Bytes(Locator(d.end)) + Bytes(EndRecord(stated, comment))
  }

  function DirectoryOf(before: seq<Byte>, entries: seq<Entry>): Directory
    requires forall e :: e in entries ==> ValidEntry(e)
  {
    Directory(|entries|, |Headers(entries)|, |before|, |before| + |Headers(entries)|)
  }

  /** What a writer may be given: anything before the directory, its entries, a form and a comment. */
  datatype Parts = Parts(before: seq<Byte>, entries: seq<Entry>, form: Form, comment: seq<Byte>)

  predicate ValidParts(p: Parts) {
    && (forall e :: e in p.entries ==> ValidEntry(e))
    && |p.entries| <= 10_000 && |Headers(p.entries)| <= 0x40_0000
    && ValidForm(p.form, |p.before|) && |p.before| + |Headers(p.entries)| < TWO64 && |p.comment| < TWO16
  }

  function Zip(p: Parts): seq<Byte>
    requires ValidParts(p)
  {
    p.before + Headers(p.entries) + Trailer(DirectoryOf(p.before, p.entries), p.form, p.comment)
  }

  lemma HeaderFound(f: seq<Byte>, at: nat, e: Entry)
    requires ValidEntry(e) && at + 46 <= |f| && f[at..at + 46] == Bytes(Header(e))
    ensures U32(f, at) == HEADER_SIGNATURE && U16(f, at + 34) == 0
    ensures HeaderLength(f, at) == 46 + |Variable(e)|
  {
    var l := Header(e);
    WrittenHolds(f, at, l);
    assert Holds(f, at + 4, l.rest);
    assert Holds(f, at + 28, l.rest.rest);
    assert Holds(f, at + 30, l.rest.rest.rest);
    assert Holds(f, at + 32, l.rest.rest.rest.rest);
    assert Holds(f, at + 34, l.rest.rest.rest.rest.rest);
  }

  lemma EntryFront(f: seq<Byte>, start: nat, end: nat, header: seq<Byte>, variable: seq<Byte>, rest: seq<Byte>)
    requires start <= end <= |f| && f[start..end] == header + variable + rest
    ensures start + |header| + |variable| <= end
    ensures f[start..start + |header|] == header
    ensures f[start + |header| + |variable|..end] == rest
  {
    SliceOfSlice(f, start, end, 0, |header|);
    SliceOfSlice(f, start, end, |header| + |variable|, end - start);
    assert (header + variable + rest)[0..|header|] == header;
    assert (header + variable + rest)[|header| + |variable|..end - start] == rest;
    assert start + (end - start) == end;
  }

  lemma {:induction false} HeadersTile(f: seq<Byte>, start: nat, end: nat, entries: seq<Entry>)
    requires forall e :: e in entries ==> ValidEntry(e)
    requires start <= end <= |f| && f[start..end] == Headers(entries)
    ensures Tiles(f, start, end, |entries|)
    decreases |entries|
  {
    if entries == [] {
      assert Tiling(f, start, end, 0, [start]);
    } else {
      var e := entries[0];
      var next := start + 46 + |Variable(e)|;
      EntryFront(f, start, end, Bytes(Header(e)), Variable(e), Headers(entries[1..]));
      HeaderFound(f, start, e);
      HeadersTile(f, next, end, entries[1..]);
      TilesFront(f, start, end, |entries| - 1);
    }
  }

  lemma TilesFront(f: seq<Byte>, start: nat, end: nat, count: nat)
    requires HeaderAt(f, start, end) && Tiles(f, start + HeaderLength(f, start), end, count)
    ensures Tiles(f, start, end, count + 1)
  {
    var at: seq<nat> :| Tiling(f, start + HeaderLength(f, start), end, count, at);
    var longer: seq<nat> := [start] + at;
    assert forall k :: 0 < k < |longer| ==> longer[k] == at[k - 1];
    assert Tiling(f, start, end, count + 1, longer);
  }

  lemma EndRecordFound(f: seq<Byte>, i: nat, d: Directory, comment: seq<Byte>)
    requires d.count < TWO16 && d.bytes < TWO32 && d.start < TWO32 && |comment| < TWO16
    requires i + 22 + |comment| == |f| && f[i..] == Bytes(EndRecord(d, comment))
    ensures EndRecordAt(f, i) && SingleDisk(f, i) && Classic(f, i) == d.(end := i)
  {
    var l := EndRecord(d, comment);
    assert f[i..] == f[i..i + Size(l)];
    WrittenHolds(f, i, l);
    var l3 := l.rest.rest.rest;
    assert Holds(f, i + 4, l.rest);
    assert Holds(f, i + 6, l.rest.rest);
    assert Holds(f, i + 8, l3);
    assert Holds(f, i + 10, l3.rest);
    assert Holds(f, i + 12, l3.rest.rest);
    assert Holds(f, i + 16, l3.rest.rest.rest);
    assert Holds(f, i + 20, l3.rest.rest.rest.rest);
  }

  lemma LocatorFound(f: seq<Byte>, i: nat, z: nat)
    requires z < TWO64 && z + 56 <= i && i + 20 <= |f| && f[i..i + 20] == Bytes(Locator(z))
    ensures LocatorAt(f, i) && U64(f, i + 8) == z
  {
    var l := Locator(z);
    WrittenHolds(f, i, l);
    assert Holds(f, i + 4, l.rest);
    assert Holds(f, i + 8, l.rest.rest);
    assert Holds(f, i + 16, l.rest.rest.rest);
  }

  lemma RecordFound(f: seq<Byte>, z: nat, d: Directory, versions: seq<Byte>, more: seq<Byte>)
    requires |versions| == 4 && 44 + |more| <= 0x40_0000
    requires d.count < TWO64 && d.bytes < TWO64 && d.start < TWO64
    requires z + 56 + |more| <= |f| && f[z..z + 56 + |more|] == Bytes(Record(d, versions, more))
    ensures RecordAt(f, z, z + 56 + |more|) && Zip64(f, z) == d.(end := z)
  {
    var l := Record(d, versions, more);
    WrittenHolds(f, z, l);
    var l3 := l.rest.rest.rest;
    assert Holds(f, z + 4, l.rest);
    assert Holds(f, z + 12, l.rest.rest);
    assert Holds(f, z + 16, l3);
    assert Holds(f, z + 20, l3.rest);
    assert Holds(f, z + 24, l3.rest.rest);
    assert Holds(f, z + 32, l3.rest.rest.rest);
    assert Holds(f, z + 40, l3.rest.rest.rest.rest);
    assert Holds(f, z + 48, l3.rest.rest.rest.rest.rest);
  }

  lemma LongParts(f: seq<Byte>, z: nat, record: seq<Byte>, locator: seq<Byte>, end: seq<Byte>)
    requires |locator| == 20 && z <= |f| && f[z..] == record + locator + end
    ensures |f| == z + |record| + 20 + |end| && f[z..z + |record|] == record
    ensures f[z + |record|..z + |record| + 20] == locator && f[z + |record| + 20..] == end
  {
    var n := |record|;
    assert f[z..] == f[z..|f|];
    SliceOfSlice(f, z, |f|, 0, n);
    SliceOfSlice(f, z, |f|, n, n + 20);
    SliceOfSlice(f, z, |f|, n + 20, n + 20 + |end|);
    assert (record + locator + end)[0..n] == record && (record + locator + end)[n..n + 20] == locator;
    assert (record + locator + end)[n + 20..n + 20 + |end|] == end;
    assert f[z + n + 20..] == f[z + n + 20..|f|];
  }

  lemma ShortDescribes(f: seq<Byte>, d: Directory, comment: seq<Byte>)
    requires d.start < 0xffff_ffff && d.count <= 10_000 && d.bytes <= 0x40_0000 && |comment| < TWO16
    requires d.end <= |f| && f[d.end..] == Bytes(EndRecord(d, comment))
    ensures |f| == d.end + 22 + |comment| && EndRecordAt(f, d.end) && Describes(f, d.end, d)
  {
    EndRecordFound(f, d.end, d, comment);
  }

  /** The three records of a ZIP64 trailer at their places. */
  ghost predicate LongAt(f: seq<Byte>, d: Directory, form: Form, comment: seq<Byte>)
    requires form.Long? && ValidForm(form, d.start) && d.count <= 10_000 && d.bytes <= 0x40_0000
    requires d.end < TWO64 && |comment| < TWO16
  {
    var n := 56 + |form.more|;
    && |f| == d.end + n + 42 + |comment|
    && f[d.end..d.end + n] == Bytes(Record(d, form.versions, form.more))
    && f[d.end + n..d.end + n + 20] == Bytes(Locator(d.end))
    && f[d.end + n + 20..] == Bytes(EndRecord(form.stated, comment))
  }

  lemma LongDescribes(f: seq<Byte>, d: Directory, form: Form, comment: seq<Byte>)
    requires form.Long? && ValidForm(form, d.start) && d.count <= 10_000 && d.bytes <= 0x40_0000
    requires d.end < TWO64 && |comment| < TWO16 && LongAt(f, d, form, comment)
    ensures EndRecordAt(f, d.end + 76 + |form.more|) && Describes(f, d.end + 76 + |form.more|, d)
  {
    var locator := d.end + 56 + |form.more|;
    RecordFound(f, d.end, d, form.versions, form.more);
    LocatorFound(f, locator, d.end);
    EndRecordFound(f, locator + 20, form.stated, comment);
    ThroughRecord(f, locator + 20, d.end, d);
  }

  lemma ThroughRecord(f: seq<Byte>, i: nat, z: nat, d: Directory)
    requires 20 <= i && i + 22 <= |f| && U64(f, i - 12) == z
    requires LocatorAt(f, i - 20) && RecordAt(f, z, i - 20) && Zip64(f, z) == d
    ensures LongDirectory(f, i) == Some(d)
  {
  }

  lemma LongCut(f: seq<Byte>, d: Directory, form: Form, comment: seq<Byte>)
    requires form.Long? && ValidForm(form, d.start) && d.count <= 10_000 && d.bytes <= 0x40_0000
    requires d.end < TWO64 && |comment| < TWO16 && d.end <= |f| && f[d.end..] == Trailer(d, form, comment)
    ensures LongAt(f, d, form, comment)
  {
    LongParts(f, d.end, Bytes(Record(d, form.versions, form.more)), Bytes(Locator(d.end)),
              Bytes(EndRecord(form.stated, comment)));
  }

  lemma Middle(a: seq<Byte>, b: seq<Byte>, c: seq<Byte>)
    ensures (a + b + c)[..|a|] == a && (a + b + c)[|a|..|a| + |b|] == b && (a + b + c)[|a| + |b|..] == c
  {
  }

  /** No end record starts inside the comment, which would be taken for the file's own. */
  ghost predicate CommentIsPlain(f: seq<Byte>, comment: nat) {
    forall j: nat :: j > |f| - 22 - comment ==> !EndRecordAt(f, j)
  }

  lemma ZipParts(p: Parts)
    requires ValidParts(p)
    ensures (var f, d := Zip(p), DirectoryOf(p.before, p.entries);
      && d.end <= |f| && f[d.start..d.end] == Headers(p.entries)
      && f[d.end..] == Trailer(d, p.form, p.comment))
  {
    Middle(p.before, Headers(p.entries), Trailer(DirectoryOf(p.before, p.entries), p.form, p.comment));
  }

  /** A directory that is in order, followed by a written trailer, makes the file acceptable. */
  lemma SealedShort(f: seq<Byte>, d: Directory, comment: seq<Byte>)
    requires d.start < 0xffff_ffff && |comment| < TWO16 && DirectoryOk(f, d) && CommentIsPlain(f, |comment|)
    requires f[d.end..] == Bytes(EndRecord(d, comment))
    ensures Accepts(f)
  {
    ShortDescribes(f, d, comment);
    OneIsEnough(f, d.end, d, |comment|);
  }

  lemma SealedLong(f: seq<Byte>, d: Directory, form: Form, comment: seq<Byte>)
    requires form.Long? && ValidForm(form, d.start) && d.end < TWO64 && |comment| < TWO16
    requires DirectoryOk(f, d) && CommentIsPlain(f, |comment|) && LongAt(f, d, form, comment)
    ensures Accepts(f)
  {
    LongDescribes(f, d, form, comment);
    OneIsEnough(f, d.end + 76 + |form.more|, d, |comment|);
  }

  /** Everything a writer can be given within the bounds is accepted once written. */
  lemma WrittenIsAccepted(p: Parts)
    requires ValidParts(p) && CommentIsPlain(Zip(p), |p.comment|)
    ensures Accepts(Zip(p))
  {
    var f, d := Zip(p), DirectoryOf(p.before, p.entries);
    ZipParts(p);
    HeadersTile(f, d.start, d.end, p.entries);
    if p.form.Short? {
      SealedShort(f, d, p.comment);
    } else {
      LongCut(f, d, p.form, p.comment);
      SealedLong(f, d, p.form, p.comment);
    }
  }

  lemma OneIsEnough(f: seq<Byte>, i: nat, d: Directory, comment: nat)
    requires EndRecordAt(f, i) && i + 22 + comment == |f| && CommentIsPlain(f, comment)
    requires Describes(f, i, d) && DirectoryOk(f, d)
    ensures Accepts(f)
  {
    assert LastEndRecord(f, i);
  }

  lemma EmptyCommentIsPlain(f: seq<Byte>)
    ensures CommentIsPlain(f, 0)
  {
  }

  // ---------------------------------------------- and that nothing else is accepted

  /** The entry a header describes. */
  function EntryAt(f: seq<Byte>, i: nat): Entry
    requires i + 46 <= |f| && i + HeaderLength(f, i) <= |f|
  {
    var n, x := i + 46 + U16(f, i + 28), i + 46 + U16(f, i + 28) + U16(f, i + 30);
    Entry.Entry(f[i + 4..i + 28], f[i + 36..i + 46], f[i + 46..n], f[n..x], f[x..i + HeaderLength(f, i)])
  }

  lemma HeaderWritten(f: seq<Byte>, i: nat, end: nat)
    requires HeaderAt(f, i, end)
    ensures ValidEntry(EntryAt(f, i))
    ensures f[i..i + HeaderLength(f, i)] == Bytes(Header(EntryAt(f, i))) + Variable(EntryAt(f, i))
  {
    var e := EntryAt(f, i);
    var l := Header(e);
    var l2 := l.rest.rest;
    assert Holds(f, i + 36, l2.rest.rest.rest.rest);
    assert Holds(f, i + 34, l2.rest.rest.rest);
    assert Holds(f, i + 32, l2.rest.rest);
    assert Holds(f, i + 30, l2.rest);
    assert Holds(f, i + 28, l2);
    assert Holds(f, i + 4, l.rest);
    assert Holds(f, i, l);
    HoldsWritten(f, i, l);
    VariableWritten(f, i);
    assert f[i..i + HeaderLength(f, i)] == f[i..i + 46] + f[i + 46..i + HeaderLength(f, i)];
  }

  lemma VariableWritten(f: seq<Byte>, i: nat)
    requires i + 46 <= |f| && i + HeaderLength(f, i) <= |f|
    ensures f[i + 46..i + HeaderLength(f, i)] == Variable(EntryAt(f, i))
  {
    var e := EntryAt(f, i);
    var n, x, y := i + 46 + |e.name|, i + 46 + |e.name| + |e.extra|, i + HeaderLength(f, i);
    assert f[i + 46..y] == f[i + 46..n] + f[n..x] + f[x..y];
  }

  /** A tiled stretch of the file is the headers of some entries. */
  lemma {:induction false} TilesWritten(f: seq<Byte>, start: nat, end: nat, count: nat, at: seq<nat>)
    returns (entries: seq<Entry>)
    requires Tiling(f, start, end, count, at) && end <= |f|
    ensures start <= end && |entries| == count && forall e :: e in entries ==> ValidEntry(e)
    ensures f[start..end] == Headers(entries)
    decreases count
  {
    if count == 0 {
      return [];
    }
    assert HeaderAt(f, at[0], end) && at[1] == at[0] + HeaderLength(f, at[0]);
    assert Tiling(f, at[1], end, count - 1, at[1..]);
    var rest := TilesWritten(f, at[1], end, count - 1, at[1..]);
    HeaderWritten(f, start, end);
    entries := [EntryAt(f, start)] + rest;
    HeadersFront(f, start, at[1], end, EntryAt(f, start), rest);
  }

  lemma HeadersFront(f: seq<Byte>, start: nat, next: nat, end: nat, e: Entry, rest: seq<Entry>)
    requires start <= next <= end <= |f| && ValidEntry(e) && forall x :: x in rest ==> ValidEntry(x)
    requires f[start..next] == Bytes(Header(e)) + Variable(e) && f[next..end] == Headers(rest)
    ensures f[start..end] == Headers([e] + rest)
  {
    var entries := [e] + rest;
    assert entries[0] == e && entries[1..] == rest;
    assert f[start..end] == f[start..next] + f[next..end];
  }

  lemma EndRecordWritten(f: seq<Byte>, i: nat)
    requires EndRecordAt(f, i) && SingleDisk(f, i)
    ensures |f[i + 22..]| < TWO16 && f[i..] == Bytes(EndRecord(Classic(f, i), f[i + 22..]))
  {
    var l := EndRecord(Classic(f, i), f[i + 22..]);
    var l3 := l.rest.rest.rest;
    assert f[i + 22..] == f[i + 22..|f|];
    assert Holds(f, i + 22, l3.rest.rest.rest.rest.rest);
    assert Holds(f, i + 20, l3.rest.rest.rest.rest);
    assert Holds(f, i + 16, l3.rest.rest.rest);
    assert Holds(f, i + 12, l3.rest.rest);
    assert Holds(f, i + 10, l3.rest);
    assert Holds(f, i + 8, l3);
    assert Holds(f, i + 6, l.rest.rest);
    assert Holds(f, i + 4, l.rest);
    assert Holds(f, i, l);
    HoldsWritten(f, i, l);
    assert f[i..] == f[i..|f|];
  }

  lemma LocatorWritten(f: seq<Byte>, i: nat, d: Directory)
    requires i + 22 <= |f| && LongDirectory(f, i) == Some(d)
    ensures 20 <= i && d.end < TWO64 && f[i - 20..i] == Bytes(Locator(d.end))
  {
    var at, l := i - 20, Locator(d.end);
    assert Holds(f, at + 16, l.rest.rest.rest);
    assert Holds(f, at + 8, l.rest.rest);
    assert Holds(f, at + 4, l.rest);
    assert Holds(f, at, l);
    HoldsWritten(f, at, l);
  }

  lemma RecordWritten(f: seq<Byte>, i: nat, d: Directory)
    requires i + 22 <= |f| && LongDirectory(f, i) == Some(d)
    ensures 20 <= i && d.end + 56 <= i - 20
    ensures (var versions, more := f[d.end + 12..d.end + 16], f[d.end + 56..i - 20];
      44 + |more| <= 0x40_0000 && f[d.end..i - 20] == Bytes(Record(d, versions, more)))
  {
    var z, locator := d.end, i - 20;
    var more := f[z + 56..locator];
    var l := Record(d, f[z + 12..z + 16], more);
    var l3 := l.rest.rest.rest;
    var l5 := l3.rest.rest;
    assert Holds(f, z + 56, l5.rest.rest.rest.rest);
    assert Holds(f, z + 48, l5.rest.rest.rest);
    assert Holds(f, z + 40, l5.rest.rest);
    assert Holds(f, z + 32, l5.rest);
    assert Holds(f, z + 24, l5);
    assert Holds(f, z + 20, l3.rest);
    assert Holds(f, z + 16, l3);
    assert Holds(f, z + 12, l.rest.rest);
    assert Holds(f, z + 4, l.rest);
    assert Holds(f, z, l);
    HoldsWritten(f, z, l);
  }

  lemma Joined(f: seq<Byte>, z: nat, n: nat, m: nat)
    requires z <= n <= m <= |f|
    ensures f[z..] == f[z..n] + f[n..m] + f[m..]
  {
  }

  lemma LongWritten(f: seq<Byte>, i: nat, d: Directory, tail: seq<Byte>)
    requires i + 22 <= |f| && LongDirectory(f, i) == Some(d) && f[i..] == tail
    ensures d.end + 76 <= i && 44 + |f[d.end + 56..i - 20]| <= 0x40_0000 && d.end < TWO64
    ensures (var versions, more := f[d.end + 12..d.end + 16], f[d.end + 56..i - 20];
      f[d.end..] == Bytes(Record(d, versions, more)) + Bytes(Locator(d.end)) + tail)
  {
    RecordWritten(f, i, d);
    LocatorWritten(f, i, d);
    Joined(f, d.end, i - 20, i);
  }

  /** What follows an accepted directory is a trailer written for it. */
  lemma TrailerWritten(f: seq<Byte>, i: nat, d: Directory) returns (form: Form)
    requires EndRecordAt(f, i) && Describes(f, i, d) && d.count <= 10_000 && d.bytes <= 0x40_0000 && |f| < TWO63
    ensures ValidForm(form, d.start) && d.end < TWO64 && |f[i + 22..]| < TWO16 && d.end <= |f|
    ensures f[d.end..] == Trailer(d, form, f[i + 22..])
  {
    if NeedsZip64(Classic(f, i)) {
      EndRecordWritten(f, i);
      LongWritten(f, i, d, Bytes(EndRecord(Classic(f, i), f[i + 22..])));
      form := Long(f[d.end + 12..d.end + 16], f[d.end + 56..i - 20], Classic(f, i));
    } else {
      form := Short;
      EndRecordWritten(f, i);
    }
  }

  /**
   * The files that are accepted are exactly the ones a writer can produce: any bytes, at most
   * 10 000 headers of at most 4 MiB in all, and their trailer in either form, with a comment
   * in which no other end record starts.
   */
  lemma AcceptedIffWritten(f: seq<Byte>)
    requires |f| < TWO63
    ensures Accepts(f) <==> exists p :: ValidParts(p) && f == Zip(p) && CommentIsPlain(f, |p.comment|)
  {
    if Accepts(f) {
      var p := PartsOf(f);
    }
    forall p | ValidParts(p) && f == Zip(p) && CommentIsPlain(f, |p.comment|) ensures Accepts(f) {
      WrittenIsAccepted(p);
    }
  }

  lemma PartsOf(f: seq<Byte>) returns (p: Parts)
    requires Accepts(f) && |f| < TWO63
    ensures ValidParts(p) && f == Zip(p) && CommentIsPlain(f, |p.comment|)
  {
    var i, d :| LastEndRecord(f, i) && Describes(f, i, d) && DirectoryOk(f, d);
    var at :| Tiling(f, d.start, d.end, d.count, at);
    var entries := TilesWritten(f, d.start, d.end, d.count, at);
    var form := TrailerWritten(f, i, d);
    p := Parts(f[..d.start], entries, form, f[i + 22..]);
    Assembled(f, d, p);
    assert |f| - 22 - |p.comment| == i;
  }

  lemma Assembled(f: seq<Byte>, d: Directory, p: Parts)
    requires d.count <= 10_000 && d.bytes <= 0x40_0000 && d.start + d.bytes == d.end < TWO64 && d.end <= |f|
    requires (forall e :: e in p.entries ==> ValidEntry(e)) && |p.entries| == d.count && |p.comment| < TWO16
    requires f[..d.start] == p.before && f[d.start..d.end] == Headers(p.entries) && ValidForm(p.form, d.start)
    requires f[d.end..] == Trailer(d, p.form, p.comment)
    ensures ValidParts(p) && f == Zip(p)
  {
    assert DirectoryOf(p.before, p.entries) == d;
    ThreeParts(f, d.start, d.end);
  }

  lemma ThreeParts(f: seq<Byte>, a: nat, b: nat)
    requires a <= b <= |f|
    ensures f == f[..a] + f[a..b] + f[b..]
  {
  }
}
