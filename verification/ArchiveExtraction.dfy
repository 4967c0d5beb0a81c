/** Unpacking an uploaded archive into a remote directory, inside its destination and its budget. */
module ArchiveExtraction {
  import opened FiniteSets
  import opened Options
  import opened Limits
  import opened RemoteTree
  import opened Texts
  import opened Paths
  import opened RemoteUpload

  // ------------------------------------------------------------ where an entry goes

  predicate BadName(name: string) {
    || name == "" || name[0] == '/'
    || '\\' in name || '\0' in name || '\r' in name || '\n' in name
    || HasDrivePrefix(name)
    || |Split(name, '/')| > 64
    || ".." in Split(name, '/')
  }

  function TrimSlash(s: string): string {
    if s != "" && s[|s| - 1] == '/' then s[..|s| - 1] else s
  }

  function SafeJoin(destination: string, name: string): Option<string> {
    if BadName(name) then None
    else
      var outPath := Clean(PathJoin(destination, name));
      var cleanDest := Clean(destination);
      if outPath != cleanDest && !(TrimSlash(cleanDest) + "/" <= outPath) then None else Some(outPath)
  }

  /** The segments of a name that name something. */
  function Kept(parts: seq<string>): seq<string> {
    if parts == [] then []
    else (if parts[0] == "" || parts[0] == "." then [] else [parts[0]]) + Kept(parts[1..])
  }

  function Target(destination: Path, name: string): Option<Path> {
    if BadName(name) then None else Some(destination + Kept(Split(name, '/')))
  }

  lemma {:induction false} CanonKept(parts: seq<string>, stack: seq<string>)
    requires ".." !in parts
    ensures Canon(true, parts, stack) == stack + Kept(parts)
    decreases |parts|
  {
    if parts != [] {
      CanonKept(parts[1..], Paths.Step(true, parts[0], stack));
      if parts[0] == "" || parts[0] == "." {
        assert [] + Kept(parts[1..]) == Kept(parts[1..]);
      } else {
        assert stack + [parts[0]] + Kept(parts[1..]) == stack + ([parts[0]] + Kept(parts[1..]));
      }
    }
  }

  lemma {:induction false} KeptPlain(parts: seq<string>)
    requires ".." !in parts && Free(parts, '/')
    ensures AllPlain(Kept(parts))
  {
    if parts != [] {
      KeptPlain(parts[1..]);
    }
  }

  lemma PlainSettles(segs: seq<string>)
    requires AllPlain(segs)
    ensures Settled(true, segs)
  {
  }

  lemma JoinedCleans(destination: string, name: string)
    requires Rooted(destination) && !BadName(name)
    ensures Clean(PathJoin(destination, name)) == Render(true, Segments(destination) + Kept(Split(name, '/')))
    ensures AllPlain(Kept(Split(name, '/')))
  {
    CleanRooted(destination);
    var d, parts := Segments(destination), Split(name, '/');
    KeptPlain(parts);
    SplitAt(destination, name, '/');
    CanonAppend(true, Split(destination, '/'), parts, []);
    CanonKept(parts, d);
    assert destination + "/" + name == destination + ['/'] + name;
    PlainSettles(d + Kept(parts));
    CleanRender(true, d + Kept(parts));
  }

  /**
   * For a validated destination the join is the destination's segments followed by the
   * name's own; only the checks on the name ever reject it, never the final prefix test.
   */
  lemma SafeJoinLands(destination: string, name: string, windows: bool)
    requires ValidateRemotePath(destination, windows, true)
    ensures SafeJoin(destination, name)
            == match Target(Segments(destination), name) { case None => None case Some(p) => Some(Render(true, p)) }
  {
    if !BadName(name) {
      ValidIsRooted(destination, windows);
      CleanRooted(destination);
      JoinedCleans(destination, name);
      UnderPrefix(Segments(destination), Kept(Split(name, '/')));
    }
  }

  /**
   * Which names are refused, by their characters: an empty one, a leading slash, a backslash,
   * NUL or line break anywhere, a leading drive letter, more than 63 slashes, or two dots
   * that stand between slashes.
   */
  lemma RefusedIff(destination: string, name: string, windows: bool)
    requires ValidateRemotePath(destination, windows, true)
    ensures SafeJoin(destination, name).None? <==>
              || name == ""
              || name[0] == '/'
              || (exists i :: 0 <= i < |name| && name[i] in {'\\', '\0', '\r', '\n'})
              || (|name| >= 2 && name[1] == ':' && ('a' <= name[0] <= 'z' || 'A' <= name[0] <= 'Z'))
              || multiset(name)['/'] > 63
              || exists i: nat :: PartAt(name, '/', "..", i)
  {
    SafeJoinLands(destination, name, windows);
    SplitCount(name, '/');
    SplitMember(name, '/', "..");
  }

  lemma UnderPrefix(d: seq<string>, k: seq<string>)
    requires AllPlain(d) && AllPlain(k)
    ensures Render(true, d + k) == Render(true, d) || TrimSlash(Render(true, d)) + "/" <= Render(true, d + k)
  {
    var x := Render(true, d);
    if k == [] {
      assert d + k == d;
    } else if d == [] {
      assert TrimSlash(x) == "";
    } else {
      JoinEndsPlain(d);
      assert x[|x| - 1] == Join(d, '/')[|Join(d, '/')| - 1];
      assert (d + k)[..|d|] == d;
      ProperPrefix(d, d + k);
    }
  }

  /** A segment that is one name and no more, on any server. */
  predicate CleanSegment(seg: string) {
    seg != "" && seg != "." && seg != ".."
    && forall i :: 0 <= i < |seg| ==> seg[i] !in {'/', '\\', '\0', '\r', '\n'}
  }

  ghost predicate CleanFrom(p: Path, n: nat) {
    forall k :: n <= k < |p| ==> CleanSegment(p[k])
  }

  lemma {:induction false} KeptMember(parts: seq<string>, seg: string)
    ensures seg in Kept(parts) ==> seg in parts && seg != "" && seg != "."
  {
    if parts != [] {
      KeptMember(parts[1..], seg);
    }
  }

  /** What an accepted name adds to the destination are clean segments. */
  lemma TargetIsClean(destination: Path, name: string)
    requires Target(destination, name).Some?
    ensures Prefix(destination, Target(destination, name).value)
    ensures CleanFrom(Target(destination, name).value, |destination|)
  {
    var kept := Kept(Split(name, '/'));
    var out := destination + kept;
    assert out[..|destination|] == destination;
    forall k | |destination| <= k < |out| ensures CleanSegment(out[k]) {
      var seg := out[k];
      assert seg in kept;
      KeptMember(Split(name, '/'), seg);
      SplitMember(name, '/', seg);
      var i: nat :| PartAt(name, '/', seg, i);
      forall j | 0 <= j < |seg| ensures seg[j] !in {'\\', '\0', '\r', '\n'} {
        assert seg[j] == name[i..i + |seg|][j] == name[i + j];
        assert name[i + j] in name;
      }
    }
  }

  datatype Kind = Folder | Regular | Metadata | Other

  /**
   * What reading an entry gives: anything at all, or its content and then its end, which is
   * reported with the last bytes or only after them.
   */
  datatype Reader = Faulty | Sound(content: seq<Byte>, eager: bool)

  /** `size` is what the archive declares. */
  datatype Entry = Entry(name: string, kind: Kind, size: nat, reader: Reader)

  /** The directory an entry asks for: itself if it is one, else the one it sits in. */
  function DirectoryFor(out: Path, kind: Kind): Path {
    if kind.Folder? || out == [] then out else out[..|out| - 1]
  }

  /**
   * The directory made for an entry is the destination or lies under it, except for a file
   * whose name has no segment of its own: that one asks for the destination's parent.
   */
  lemma DirectoryUnderDestination(destination: Path, name: string, kind: Kind)
    requires !BadName(name)
    ensures Prefix(destination, Target(destination, name).value)
    ensures Prefix(destination, DirectoryFor(Target(destination, name).value, kind))
            <==> kind.Folder? || Kept(Split(name, '/')) != [] || destination == []
  {
    var k := Kept(Split(name, '/'));
    var out := destination + k;
    assert out[..|destination|] == destination;
    if k == [] {
      assert out == destination;
    } else {
      assert out[..|out| - 1][..|destination|] == destination;
    }
  }

  /** Such a file exists: a name of one dot. */
  lemma DotIsTheDestination(destination: Path)
    ensures !BadName(".") && Target(destination, ".") == Some(destination)
  {
    SplitNoSep(".", '/');
    assert Kept(["."]) == Kept(["."][1..]);
    assert destination + [] == destination;
  }

  // ------------------------------------------------------------------ the budget

  datatype ReadResult = More | AtEnd | Broken | TooLarge

  class ExtractBudget {
    var remaining: int
    var entries: nat
    /** Whether the request is sure to last. */
    const steady: bool
    /** All bytes delivered so far. */
    ghost var stream: seq<Byte>

    ghost predicate Valid()
      reads this
    {
      remaining >= 0 && remaining + |stream| == 512 * 1024 * 1024 && entries <= 10_001
    }

    constructor (steady: bool)
      ensures Valid() && stream == [] && entries == 0 && this.steady == steady
    {
      remaining, entries, stream, this.steady := MAX_BYTES, 0, [], steady;
    }

    /** Counts one more entry; fails past the limit or when the request is gone. */
    method Next() returns (ok: bool)
      requires Valid() && entries <= MAX_ENTRIES
      modifies this`entries
      ensures Valid()
      ensures entries == old(entries) || entries == old(entries) + 1
      ensures ok ==> entries == old(entries) + 1 <= 10_000
      ensures old(entries) == MAX_ENTRIES ==> !ok
      ensures steady && old(entries) < 10_000 ==> ok
    {
      var gone: bool := *;
      if gone && !steady {
        return false;
      }
      entries := entries + 1;
      ok := entries <= MAX_ENTRIES;
    }

    /** One read into a buffer of `want` bytes, `pos` bytes into the entry. */
    method Read(reader: Reader, pos: nat, want: nat) returns (data: seq<Byte>, result: ReadResult)
      requires Valid() && want > 0 && (reader.Sound? ==> pos <= |reader.content|)
      modifies this`remaining, this`stream
      ensures Valid() && |data| <= want && stream == old(stream) + data
      ensures old(remaining) == 0 ==> data == [] && (result.TooLarge? || result.Broken?)
      ensures reader.Sound? ==> pos + |data| <= |reader.content| && data == reader.content[pos..pos + |data|]
      ensures reader.Sound? && result.AtEnd? ==> pos + |data| == |reader.content| && (reader.eager || data == [])
      ensures reader.Sound? && result.More? ==> data != []
      ensures reader.Sound? && result.More? && pos + |data| == |reader.content| ==> !reader.eager
      ensures reader.Sound? && steady && old(remaining) > 0 ==> result.More? || result.AtEnd?
    {
      var gone: bool := *;
      if gone && !steady {
        return [], Broken;
      }
      if remaining <= 0 {
        return [], TooLarge;
      }
      var room := if want > remaining then remaining else want;
      data, result := ReadEntry(reader, pos, room);
      remaining := remaining - |data|;
      stream := stream + data;
    }
  }

  /** The archive's own reader. */
  method ReadEntry(reader: Reader, pos: nat, room: nat) returns (data: seq<Byte>, result: ReadResult)
    requires room > 0 && (reader.Sound? ==> pos <= |reader.content|)
    ensures |data| <= room
    ensures reader.Sound? ==> pos + |data| <= |reader.content| && data == reader.content[pos..pos + |data|]
    ensures reader.Sound? ==>
              result == if pos + |data| == |reader.content| && (reader.eager || data == []) then AtEnd else More
    ensures reader.Sound? && result.More? ==> data != []
  {
    match reader
    case Faulty =>
      data :| |data| <= room;
      result := *;
    case Sound(content, eager) =>
      var k: nat :| k <= room && pos + k <= |content| && (pos < |content| ==> k > 0);
      data := content[pos..pos + k];
      result := if pos + k == |content| && (eager || k == 0) then AtEnd else More;
  }

  // ----------------------------------------------------------------- extraction

  /** Off the destination's subtree nothing changes, except that directories leading to it may appear. */
  ghost predicate Within(before: Tree, after: Tree, destination: Path) {
    && (forall q :: q in before && !Prefix(destination, q) ==> q in after && after[q] == before[q])
    && (forall q :: q in after && q !in before && !Prefix(destination, q) ==> after[q] == Dir && Prefix(q, destination))
  }

  /** Nothing disappears and nothing changes between file and directory. */
  ghost predicate Grows(before: Tree, after: Tree) {
    forall q :: q in before ==> q in after && (after[q] == Dir <==> before[q] == Dir)
  }

  /** Whatever is new under the destination has clean names all the way from there. */
  ghost predicate NewNamesClean(before: Tree, after: Tree, destination: Path) {
    forall q :: q in after && q !in before && Prefix(destination, q) ==> CleanFrom(q, |destination|)
  }

  ghost predicate Confined(before: Tree, after: Tree, destination: Path) {
    Within(before, after, destination) && Grows(before, after) && NewNamesClean(before, after, destination)
  }

  lemma ConfinedRefl(t: Tree, destination: Path)
    ensures Confined(t, t, destination)
  {
  }

  lemma ConfinedTrans(a: Tree, b: Tree, c: Tree, destination: Path)
    requires Confined(a, b, destination) && Confined(b, c, destination)
    ensures Confined(a, c, destination)
  {
  }

  lemma DirsConfined(before: Tree, after: Tree, destination: Path, p: Path)
    requires OnlyDirsTowards(before, after, p) && (Prefix(destination, p) || Prefix(p, destination))
    requires CleanFrom(p, |destination|)
    ensures Confined(before, after, destination)
  {
    forall q | q in after && q !in before && Prefix(destination, q) ensures CleanFrom(q, |destination|) {
      assert q == p[..|q|];
    }
    forall q | q in after && q !in before && !Prefix(destination, q) ensures Prefix(q, destination) {
      PrefixOrder(q, p, destination);
      PrefixOrder(destination, q, p);
      PrefixOrder(q, destination, p);
    }
  }

  lemma FileConfined(before: Tree, after: Tree, destination: Path, p: Path)
    requires OnlyFileAt(before, after, p) && Prefix(destination, p) && CleanFrom(p, |destination|)
    ensures Confined(before, after, destination)
  {
  }

  /** Makes the directory an entry asks for. */
  method MakeFor(remote: Remote, destination: Path, out: Path, kind: Kind) returns (ok: bool)
    requires WellFormed(remote.tree) && Prefix(destination, out) && CleanFrom(out, |destination|)
    modifies remote
    ensures WellFormed(remote.tree) && Confined(old(remote.tree), remote.tree, destination)
    ensures ok ==> IsDir(remote.tree, DirectoryFor(out, kind))
    ensures ok ==> Clear(old(remote.tree), DirectoryFor(out, kind))
                   && remote.tree == WithDirs(old(remote.tree), DirectoryFor(out, kind))
    ensures remote.readable && remote.writable && Clear(old(remote.tree), DirectoryFor(out, kind)) ==> ok
  {
    var dir := DirectoryFor(out, kind);
    var made, _ := EnsureDirAllCreated(remote, dir);
    if |dir| >= |destination| {
      assert dir == out[..|dir|];
      PrefixOrder(destination, dir, out);
    } else {
      assert dir == out[..|dir|];
      PrefixOrder(dir, destination, out);
    }
    DirsConfined(old(remote.tree), remote.tree, destination, dir);
    ok := made;
  }

  /** An entry can be read to its end while `left` bytes remain: reading at all takes one of them. */
  predicate Delivers(reader: Reader, left: int)
    requires reader.Sound?
  {
    left > 0 && if reader.eager then |reader.content| <= left else |reader.content| < left
  }

  /** The tree, and how many bytes may still be delivered. */
  datatype Unpacking = Unpacking(tree: Tree, left: int)

  /** A file at `out`, once its directory is there. */
  ghost function WithFile(t: Tree, left: int, out: Path, reader: Reader): Option<Unpacking> {
    if reader.Sound? && Delivers(reader, left) && CanHold(t, out)
    then Some(Unpacking(t[out := File(reader.content)], left - |reader.content|))
    else None
  }

  /**
   * Sends one file through the budget; with the budget used up even an empty one fails. What
   * is stored is what the budget let through, and of a sound entry all of it.
   */
  method Send(remote: Remote, budget: ExtractBudget, destination: Path, out: Path, reader: Reader) returns (ok: bool)
    requires WellFormed(remote.tree) && Prefix(destination, out) && CleanFrom(out, |destination|)
    requires budget.Valid() && remote as object != budget
    modifies remote, budget`remaining, budget`stream
    ensures WellFormed(remote.tree) && Confined(old(remote.tree), remote.tree, destination)
    ensures budget.Valid() && old(budget.stream) <= budget.stream
    ensures OnlyBeginning(old(remote.tree), remote.tree, out, budget.stream[|old(budget.stream)|..])
    ensures ok ==> remote.tree == old(remote.tree)[out := File(budget.stream[|old(budget.stream)|..])]
    ensures ok ==> old(budget.remaining) > 0 && CanHold(old(remote.tree), out)
    ensures ok && reader.Sound? ==>
              && budget.stream == old(budget.stream) + reader.content
              && WithFile(old(remote.tree), old(budget.remaining), out, reader)
                 == Some(Unpacking(remote.tree, budget.remaining))
    ensures Calm(remote, budget) && WithFile(old(remote.tree), old(budget.remaining), out, reader).Some? ==> ok
  {
    var content, result := Deliver(remote, budget, reader);
    // A reader that fails midway can leave what it delivered so far on the server.
    var sent := remote.Upload(out, content);
    FileConfined(old(remote.tree), remote.tree, destination, out);
    ok := sent.Uploaded? && result.AtEnd?;
  }

  /** No call on the server fails for a reason of its own, and the request lasts. */
  predicate Calm(remote: Remote, budget: ExtractBudget) {
    remote.readable && remote.writable && budget.steady
  }

  /** The upload reading the entry until its end, an error, or the loss of the connection. */
  method Deliver(remote: Remote, budget: ExtractBudget, reader: Reader)
    returns (content: seq<Byte>, result: ReadResult)
    requires budget.Valid()
    modifies budget`remaining, budget`stream
    ensures budget.Valid() && budget.stream == old(budget.stream) + content
    ensures old(budget.remaining) == 0 ==> !result.AtEnd?
    ensures reader.Sound? && result.AtEnd? ==> content == reader.content && Delivers(reader, old(budget.remaining))
    ensures reader.Sound? && Calm(remote, budget) && Delivers(reader, old(budget.remaining)) ==> result.AtEnd?
  {
    var turns: nat := *;
    var want: nat :| want > 0;
    content, result := budget.Read(reader, 0, want);
    while result.More?
      invariant budget.Valid() && budget.stream == old(budget.stream) + content
      invariant old(budget.remaining) == 0 ==> !result.AtEnd? && !result.More?
      invariant reader.Sound? ==> content <= reader.content
      invariant reader.Sound? && result.AtEnd? ==> content == reader.content && Delivers(reader, old(budget.remaining))
      invariant reader.Sound? && result.More? ==> content == reader.content ==> !reader.eager
      invariant reader.Sound? && Calm(remote, budget) && Delivers(reader, old(budget.remaining)) ==>
                  result.More? || result.AtEnd?
      decreases if reader.Sound? then |reader.content| - |content| else turns, result.More?
    {
      var lost: bool := *;
      if (lost && !remote.writable) || (reader.Faulty? && turns == 0) {
        return content, Broken;
      }
      var data;
      want :| want > 0;
      data, result := budget.Read(reader, |content|, want);
      content := content + data;
      turns := if turns > 0 then turns - 1 else 0;
    }
  }

  /** What extraction promises for an entry once it succeeded. */
  ghost predicate Placed(t: Tree, destination: Path, e: Entry) {
    && Target(destination, e.name).Some?
    && (e.kind.Folder? ==> IsDir(t, Target(destination, e.name).value))
    && (e.kind.Regular? ==> Target(destination, e.name).value in t && t[Target(destination, e.name).value].File?)
  }

  lemma PlacedGrows(before: Tree, after: Tree, destination: Path, done: seq<Entry>)
    requires Grows(before, after) && forall e :: e in done ==> Placed(before, destination, e)
    ensures forall e :: e in done ==> Placed(after, destination, e)
  {
    forall e | e in done ensures Placed(after, destination, e) {
      assert Placed(before, destination, e);
    }
  }

  function Count(entries: seq<Entry>): nat {
    if entries == [] then 0 else Count(entries[..|entries| - 1]) + if entries[|entries| - 1].kind.Regular? then 1 else 0
  }

  function SkippedOf(entries: seq<Entry>, metadata: bool): seq<string> {
    if entries == [] then []
    else
      var e := entries[|entries| - 1];
      SkippedOf(entries[..|entries| - 1], metadata)
      + if e.kind.Other? || (metadata && e.kind.Metadata?) then [e.name] else []
  }

  /** The entries that are files, and those reported as passed over: metadata only where it counts. */
  ghost function FilesIn(entries: seq<Entry>): set<nat> {
    set i: nat | i < |entries| && entries[i].kind == Regular
  }

  ghost function PassedOver(entries: seq<Entry>, metadata: bool): set<nat> {
    set i: nat | i < |entries| && (entries[i].kind == Other || (metadata && entries[i].kind == Metadata))
  }

  /** What the report says: how many files, and a name for each entry passed over and for no other. */
  lemma {:induction false} ReportIs(entries: seq<Entry>, metadata: bool)
    ensures Count(entries) == |FilesIn(entries)|
    ensures |SkippedOf(entries, metadata)| == |PassedOver(entries, metadata)|
    ensures forall name :: name in SkippedOf(entries, metadata) <==>
              exists i: nat :: i in PassedOver(entries, metadata) && entries[i].name == name
  {
    if entries != [] {
      var n: nat := |entries| - 1;
      var init := entries[..n];
      ReportIs(init, metadata);
      OneMore(FilesIn(init), FilesIn(entries), n, entries[n].kind == Regular);
      OneMore(PassedOver(init, metadata), PassedOver(entries, metadata), n,
              entries[n].kind == Other || (metadata && entries[n].kind == Metadata));
    }
  }

  lemma CountSnoc(entries: seq<Entry>, i: nat, metadata: bool)
    requires i < |entries|
    ensures Count(entries[..i + 1]) == Count(entries[..i]) + if entries[i].kind.Regular? then 1 else 0
    ensures SkippedOf(entries[..i + 1], metadata)
            == SkippedOf(entries[..i], metadata)
                + if entries[i].kind.Other? || (metadata && entries[i].kind.Metadata?) then [entries[i].name] else []
  {
    assert entries[..i + 1][..i] == entries[..i];
  }

  lemma PlacedMore(t: Tree, destination: Path, entries: seq<Entry>, i: nat)
    requires i < |entries| && Placed(t, destination, entries[i])
    requires forall e :: e in entries[..i] ==> Placed(t, destination, e)
    ensures forall e :: e in entries[..i + 1] ==> Placed(t, destination, e)
  {
    assert entries[..i + 1] == entries[..i] + [entries[i]];
  }

  // ------------------------------------------------ what extraction amounts to

  predicate SoundEntry(e: Entry) {
    e.kind.Regular? ==> e.reader.Sound?
  }

  predicate AllSound(entries: seq<Entry>) {
    forall e :: e in entries ==> SoundEntry(e)
  }

  /** One entry that goes to `out`. */
  ghost function UnpackedAt(s: Unpacking, out: Path, e: Entry, zip: bool): Option<Unpacking> {
    var dir := DirectoryFor(out, e.kind);
    if (zip || e.kind.Regular?) && e.size > s.left then None
    else if e.kind.Metadata? || e.kind.Other? then Some(s)
    else if !Clear(s.tree, dir) then None
    else if e.kind.Folder? then Some(Unpacking(WithDirs(s.tree, dir), s.left))
    else WithFile(WithDirs(s.tree, dir), s.left, out, e.reader)
  }

  /** One entry of a sound archive: what it makes of the tree, or nothing where it must fail. */
  ghost function Unpacked(s: Unpacking, destination: Path, e: Entry, zip: bool): Option<Unpacking> {
    match Target(destination, e.name)
    case None => None
    case Some(out) => UnpackedAt(s, out, e, zip)
  }

  /** All entries in turn. */
  ghost function AllUnpacked(s: Unpacking, destination: Path, entries: seq<Entry>, zip: bool): Option<Unpacking> {
    if entries == [] then Some(s)
    else
      match AllUnpacked(s, destination, entries[..|entries| - 1], zip)
      case None => None
      case Some(mid) => Unpacked(mid, destination, entries[|entries| - 1], zip)
  }

  ghost predicate Unpackable(t: Tree, left: int, destination: Path, entries: seq<Entry>, zip: bool) {
    AllUnpacked(Unpacking(t, left), destination, entries, zip).Some?
  }

  lemma UnpackedNext(s: Unpacking, destination: Path, entries: seq<Entry>, zip: bool, i: nat)
    requires i < |entries|
    ensures AllUnpacked(s, destination, entries[..i + 1], zip)
            == match AllUnpacked(s, destination, entries[..i], zip)
               case None => None
               case Some(mid) => Unpacked(mid, destination, entries[i], zip)
  {
    assert entries[..i + 1][..i] == entries[..i];
  }

  /** What cannot be unpacked up to some entry cannot be unpacked at all. */
  lemma {:induction false} StaysFailed(s: Unpacking, destination: Path, entries: seq<Entry>, zip: bool, i: nat)
    requires i <= |entries| && AllUnpacked(s, destination, entries[..i], zip).None?
    ensures AllUnpacked(s, destination, entries, zip).None?
    decreases |entries| - i
  {
    if i == |entries| {
      assert entries[..i] == entries;
    } else {
      UnpackedNext(s, destination, entries, zip, i);
      StaysFailed(s, destination, entries, zip, i + 1);
    }
  }

  /** The walk stands where unpacking the entries so far stands, as far as they are sound. */
  ghost predicate InStep(start: Unpacking, now: Unpacking, destination: Path, done: seq<Entry>, zip: bool) {
    AllSound(done) ==> AllUnpacked(start, destination, done, zip) == Some(now)
  }

  /** One more entry: in step again if it was placed, and failed for good if a calm run could not place it. */
  ghost predicate EntryOutcome(before: Unpacking, after: Unpacking, destination: Path, e: Entry, zip: bool, ok: bool,
                               calm: bool)
  {
    && (ok && SoundEntry(e) ==> Unpacked(before, destination, e, zip) == Some(after))
    && (!ok && SoundEntry(e) && calm ==> Unpacked(before, destination, e, zip).None?)
  }

  lemma StepOn(start: Unpacking, before: Unpacking, after: Unpacking, destination: Path, entries: seq<Entry>, i: nat,
               zip: bool, ok: bool, calm: bool)
    requires i < |entries| && InStep(start, before, destination, entries[..i], zip)
    requires EntryOutcome(before, after, destination, entries[i], zip, ok, calm)
    ensures ok ==> InStep(start, after, destination, entries[..i + 1], zip)
    ensures !ok && calm && AllSound(entries) ==> AllUnpacked(start, destination, entries, zip).None?
  {
    UnpackedNext(start, destination, entries, zip, i);
    assert entries[..i + 1] == entries[..i] + [entries[i]];
    assert AllSound(entries) ==> AllSound(entries[..i]) && SoundEntry(entries[i]);
    if !ok && calm && AllSound(entries) {
      StaysFailed(start, destination, entries, zip, i + 1);
    }
  }

  /** The same of an entry whose place is known. */
  ghost predicate PlacedAs(before: Unpacking, after: Unpacking, out: Path, e: Entry, zip: bool, ok: bool, calm: bool) {
    && (ok && SoundEntry(e) ==> UnpackedAt(before, out, e, zip) == Some(after))
    && (!ok && SoundEntry(e) && calm ==> UnpackedAt(before, out, e, zip).None?)
  }

  /** A file's two calls, each of which did what it could where the run is calm. */
  lemma FileOutcome(before: Unpacking, after: Unpacking, out: Path, e: Entry, zip: bool, made: bool, sent: bool,
                    calm: bool)
    requires e.kind.Regular? && e.size <= before.left && (sent ==> made)
    requires made ==> Clear(before.tree, DirectoryFor(out, e.kind))
    requires calm && Clear(before.tree, DirectoryFor(out, e.kind)) ==> made
    requires (var held := WithFile(WithDirs(before.tree, DirectoryFor(out, e.kind)), before.left, out, e.reader);
      (made && calm && held.Some? ==> sent) && (sent && e.reader.Sound? ==> held == Some(after)))
    ensures PlacedAs(before, after, out, e, zip, sent, calm)
  {
  }

  /** One file: its directory, then its bytes. */
  method PlaceFile(remote: Remote, budget: ExtractBudget, destination: Path, out: Path, e: Entry, ghost zip: bool)
    returns (ok: bool)
    requires WellFormed(remote.tree) && budget.Valid() && remote as object != budget
    requires Prefix(destination, out) && CleanFrom(out, |destination|)
    requires e.kind.Regular? && e.size <= budget.remaining
    modifies remote, budget`remaining, budget`stream
    ensures WellFormed(remote.tree) && Confined(old(remote.tree), remote.tree, destination)
    ensures budget.Valid() && old(budget.stream) <= budget.stream
    ensures ok ==> out in remote.tree && remote.tree[out].File?
    ensures PlacedAs(Unpacking(old(remote.tree), old(budget.remaining)),
              Unpacking(remote.tree, budget.remaining), out, e, zip, ok, Calm(remote, budget))
  {
    ok := MakeFor(remote, destination, out, e.kind);
    ghost var made, mid := ok, remote.tree;
    if ok {
      ok := Send(remote, budget, destination, out, e.reader);
      ConfinedTrans(old(remote.tree), mid, remote.tree, destination);
    }
    FileOutcome(Unpacking(old(remote.tree), old(budget.remaining)), Unpacking(remote.tree, budget.remaining), out, e,
                zip, made, ok, Calm(remote, budget));
  }

  /** What both formats do with an entry; only ZIP minds the declared size of everything. */
  method PlaceEntry(remote: Remote, budget: ExtractBudget, destination: Path, e: Entry, zip: bool)
    returns (ok: bool)
    requires WellFormed(remote.tree) && budget.Valid() && remote as object != budget
    modifies remote, budget`remaining, budget`stream
    ensures WellFormed(remote.tree) && Confined(old(remote.tree), remote.tree, destination)
    ensures budget.Valid() && old(budget.stream) <= budget.stream
    ensures ok ==> Placed(remote.tree, destination, e)
    ensures EntryOutcome(Unpacking(old(remote.tree), old(budget.remaining)),
              Unpacking(remote.tree, budget.remaining), destination, e, zip, ok, Calm(remote, budget))
  {
    ConfinedRefl(remote.tree, destination);
    var target := Target(destination, e.name);
    if target.None? || ((zip || e.kind.Regular?) && e.size > budget.remaining) {
      return false;
    }
    TargetIsClean(destination, e.name);
    match e.kind
    case Folder => ok := MakeFor(remote, destination, target.value, e.kind);
    case Regular => ok := PlaceFile(remote, budget, destination, target.value, e, zip);
    case Metadata => ok := true;
    case Other => ok := true;
  }

  /** The state of an extraction after the entries `done`. */
  ghost predicate Extracted(before: Tree, after: Tree, destination: Path, done: seq<Entry>) {
    && WellFormed(after) && Confined(before, after, destination)
    && forall e :: e in done ==> Placed(after, destination, e)
  }

  /** Where the walk that began at `start` stands. */
  ghost predicate Stands(start: Unpacking, now: Unpacking, destination: Path, done: seq<Entry>, zip: bool) {
    Extracted(start.tree, now.tree, destination, done) && InStep(start, now, destination, done, zip)
  }

  predicate Reported(done: seq<Entry>, zip: bool, written: nat, skipped: seq<string>) {
    written == Count(done) && skipped == SkippedOf(done, zip)
  }

  /** The report after one more entry; only ZIP lists metadata records as skipped. */
  method Report(entries: seq<Entry>, i: nat, zip: bool, written: nat, skipped: seq<string>)
    returns (written': nat, skipped': seq<string>)
    requires i < |entries| && Reported(entries[..i], zip, written, skipped)
    ensures Reported(entries[..i + 1], zip, written', skipped')
  {
    CountSnoc(entries, i, zip);
    written', skipped' := written, skipped;
    if entries[i].kind.Regular? {
      written' := written + 1;
    } else if entries[i].kind.Other? || (zip && entries[i].kind.Metadata?) {
      skipped' := skipped + [entries[i].name];
    }
  }

  lemma ExtractedOne(before: Tree, mid: Tree, after: Tree, destination: Path, entries: seq<Entry>, i: nat)
    requires i < |entries| && Extracted(before, mid, destination, entries[..i])
    requires WellFormed(after) && Confined(mid, after, destination)
    ensures Confined(before, after, destination)
    ensures Placed(after, destination, entries[i]) ==> Extracted(before, after, destination, entries[..i + 1])
  {
    ConfinedTrans(before, mid, after, destination);
    PlacedGrows(mid, after, destination, entries[..i]);
    if Placed(after, destination, entries[i]) {
      PlacedMore(after, destination, entries, i);
    }
  }

  /** The next entry of the walk that began at `start`. */
  method PlaceNext(remote: Remote, budget: ExtractBudget, ghost start: Unpacking, destination: Path,
                   entries: seq<Entry>, i: nat, zip: bool)
    returns (ok: bool)
    requires i < |entries| && budget.Valid() && remote as object != budget
    requires Stands(start, Unpacking(remote.tree, budget.remaining), destination, entries[..i], zip)
    modifies remote, budget`remaining, budget`stream
    ensures budget.Valid() && WellFormed(remote.tree) && Confined(start.tree, remote.tree, destination)
    ensures ok ==> Stands(start, Unpacking(remote.tree, budget.remaining), destination, entries[..i + 1], zip)
    ensures !ok && Calm(remote, budget) && AllSound(entries) ==>
              !Unpackable(start.tree, start.left, destination, entries, zip)
  {
    ghost var before := Unpacking(remote.tree, budget.remaining);
    ok := PlaceEntry(remote, budget, destination, entries[i], zip);
    ExtractedOne(start.tree, before.tree, remote.tree, destination, entries, i);
    StepOn(start, before, Unpacking(remote.tree, budget.remaining), destination, entries, i, zip, ok,
           Calm(remote, budget));
  }

  /**
   * Whatever the entries and however their readers behave, nothing outside the destination
   * changes and no more than the budget is delivered. Success means every entry was placed;
   * of a sound archive it leaves exactly the unpacked tree, and where nothing fails for a
   * reason of its own it comes exactly when there is one and no more than 10000 entries.
   */
  method ExtractZip(remote: Remote, entries: seq<Entry>, destination: Path, budget: ExtractBudget)
    returns (ok: bool, written: nat, skipped: seq<string>)
    requires WellFormed(remote.tree) && remote as object != budget && budget.Valid() && budget.entries == 0
    modifies remote, budget
    ensures WellFormed(remote.tree) && Confined(old(remote.tree), remote.tree, destination)
    ensures budget.Valid() && |budget.stream| <= 512 * 1024 * 1024
    ensures ok ==> |entries| <= 10_000 && forall e :: e in entries ==> Placed(remote.tree, destination, e)
    ensures ok ==> written == Count(entries) && skipped == SkippedOf(entries, true)
    ensures ok ==> InStep(Unpacking(old(remote.tree), old(budget.remaining)),
                          Unpacking(remote.tree, budget.remaining), destination, entries, true)
    ensures AllSound(entries) && Calm(remote, budget) ==>
              (ok <==>
                && |entries| <= 10_000
                && Unpackable(old(remote.tree), old(budget.remaining), destination, entries, true))
  {
    ok, written, skipped := false, 0, [];
    ghost var start := Unpacking(remote.tree, budget.remaining);
    ConfinedRefl(remote.tree, destination);
    for i := 0 to |entries|
      invariant i <= MAX_ENTRIES && budget.Valid() && budget.entries == i && !ok
      invariant Stands(start, Unpacking(remote.tree, budget.remaining), destination, entries[..i], true)
      invariant Reported(entries[..i], true, written, skipped)
    {
      var next := budget.Next();
      if !next {
        return;
      }
      var placed := PlaceNext(remote, budget, start, destination, entries, i, true);
      if !placed {
        return;
      }
      written, skipped := Report(entries, i, true, written, skipped);
    }
    assert entries[..|entries|] == entries;
    ok := true;
  }

  /**
   * As for ZIP, but the end of the archive is itself counted, so one entry fewer fits. A
   * damaged archive may give out at any header.
   */
  method ExtractTar(remote: Remote, entries: seq<Entry>, intact: bool, destination: Path, budget: ExtractBudget)
    returns (ok: bool, written: nat, skipped: seq<string>)
    requires WellFormed(remote.tree) && remote as object != budget && budget.Valid() && budget.entries == 0
    modifies remote, budget
    ensures WellFormed(remote.tree) && Confined(old(remote.tree), remote.tree, destination)
    ensures budget.Valid() && |budget.stream| <= 512 * 1024 * 1024
    ensures ok ==> |entries| < 10_000 && forall e :: e in entries ==> Placed(remote.tree, destination, e)
    ensures ok ==> written == Count(entries) && skipped == SkippedOf(entries, false)
    ensures ok ==> InStep(Unpacking(old(remote.tree), old(budget.remaining)),
                          Unpacking(remote.tree, budget.remaining), destination, entries, false)
    ensures intact && AllSound(entries) && Calm(remote, budget) ==>
              (ok <==>
                && |entries| < 10_000
                && Unpackable(old(remote.tree), old(budget.remaining), destination, entries, false))
  {
    ok, written, skipped := false, 0, [];
    ghost var start := Unpacking(remote.tree, budget.remaining);
    ConfinedRefl(remote.tree, destination);
    var i := 0;
    while true
      invariant i <= |entries| && i <= MAX_ENTRIES && budget.Valid() && budget.entries == i && !ok
      invariant Stands(start, Unpacking(remote.tree, budget.remaining), destination, entries[..i], false)
      invariant Reported(entries[..i], false, written, skipped)
      decreases |entries| - i
    {
      var next := budget.Next();
      if !next {
        return;
      }
      if i == |entries| {
        break;
      }
      var corrupt: bool := *;
      if corrupt && !intact {
        return;
      }
      var placed := PlaceNext(remote, budget, start, destination, entries, i, false);
      if !placed {
        return;
      }
      written, skipped := Report(entries, i, false, written, skipped);
      i := i + 1;
    }
    assert entries[..|entries|] == entries;
    ok := true;
  }

  // --------------------------------------------------- what an unpacked tree is

  lemma {:induction false} WithDirsKeeps(t: Tree, p: Path, q: Path)
    requires q in t
    ensures q in WithDirs(t, p) && WithDirs(t, p)[q] == t[q]
    decreases |p|
  {
    if p != [] && p !in t {
      WithDirsKeeps(t, Parent(p), q);
    }
  }

  /** No entry changes a file but a regular one that goes there. */
  lemma UnpackedKeeps(s: Unpacking, after: Unpacking, destination: Path, e: Entry, zip: bool, q: Path)
    requires Unpacked(s, destination, e, zip) == Some(after) && q in s.tree
    requires e.kind.Regular? ==> Target(destination, e.name) != Some(q)
    ensures q in after.tree && after.tree[q] == s.tree[q]
  {
    WithDirsKeeps(s.tree, DirectoryFor(Target(destination, e.name).value, e.kind), q);
  }

  /** Of several entries for one file the last decides, and the file holds exactly that entry's content. */
  lemma {:induction false} LastEntryWins(s: Unpacking, after: Unpacking, destination: Path, entries: seq<Entry>,
                                         zip: bool, i: nat, q: Path)
    requires AllUnpacked(s, destination, entries, zip) == Some(after)
    requires i < |entries| && entries[i].kind.Regular? && Target(destination, entries[i].name) == Some(q)
    requires forall j :: i < j < |entries| && entries[j].kind.Regular? ==>
               Target(destination, entries[j].name) != Some(q)
    ensures entries[i].reader.Sound? && q in after.tree && after.tree[q] == File(entries[i].reader.content)
    decreases |entries|
  {
    var front, last := entries[..|entries| - 1], entries[|entries| - 1];
    var mid := AllUnpacked(s, destination, front, zip).value;
    if i < |front| {
      LastEntryWins(s, mid, destination, front, zip, i, q);
      UnpackedKeeps(mid, after, destination, last, zip, q);
    }
  }

  /** Apart from the limit on their number, tar takes whatever ZIP takes, with the same outcome. */
  lemma {:induction false} ZipThenTar(s: Unpacking, after: Unpacking, destination: Path, entries: seq<Entry>)
    requires AllUnpacked(s, destination, entries, true) == Some(after)
    ensures AllUnpacked(s, destination, entries, false) == Some(after)
    decreases |entries|
  {
    if entries != [] {
      var front := entries[..|entries| - 1];
      ZipThenTar(s, AllUnpacked(s, destination, front, true).value, destination, front);
    }
  }

  /** Entries that are only reported unpack to nothing, however many: 10000 of them tell ZIP and tar apart. */
  lemma {:induction false} SkippedUnpack(s: Unpacking, destination: Path, entries: seq<Entry>, zip: bool)
    requires forall e :: e in entries ==> e.kind.Other? && !BadName(e.name) && e.size <= s.left
    ensures AllUnpacked(s, destination, entries, zip) == Some(s) && AllSound(entries)
    decreases |entries|
  {
    if entries != [] {
      var front, last := entries[..|entries| - 1], entries[|entries| - 1];
      SkippedUnpack(s, destination, front, zip);
      assert entries == front + [last] && last in entries;
    }
  }
}
