/**
 * Trust on first use and re-pinning in a known_hosts file. A line is its fields; what the
 * SSH library makes of names, patterns, hashes and keys is a parameter with stated laws.
 */
module KnownHosts {
  import opened Options
  import opened Texts

  /** The fields of a line, none of them empty. */
  type Line = fields: seq<string> | forall f | f in fields :: f != ""
    witness []
  type Word = s: string | s != "" witness "x"
  type Key = nat
  datatype Addr = Addr(host: string, port: string)
  datatype Hashed = Hashed(salt: string, digest: string)

  /**
   * `name` is the normalised spelling of an address, `address` the one a single pattern
   * stands for, `list` and `wellFormed` the library's reading of a whole comma list.
   */
  datatype World = World(
    name: Addr -> string, address: string -> Option<Addr>,
    list: (string, Addr) -> bool, wellFormed: string -> bool,
    unhash: string -> Option<Hashed>, digest: (string, string) -> string,
    decode: string -> Option<Key>, blob: Key -> Word, kind: Key -> Word, thumb: Key -> string)

  /** `terminated` tells whether the last line ends in a newline. */
  datatype File = File(lines: seq<Line>, terminated: bool)

  function Lead(s: string): char {
    if s == "" then ' ' else s[0]
  }

  predicate Wild(s: string) {
    exists i | 0 <= i < |s| :: s[i] == '*' || s[i] == '?' || s[i] == '!'
  }

  /** What is assumed of the library; hashing is taken to be injective for each salt. */
  ghost predicate Lawful(w: World) {
    && (forall s, a :: !Wild(s) ==> (w.list(s, a) <==> SomePieceReads(w, Split(s, ','), a)))
    && (forall s :: !Wild(s) ==> (w.wellFormed(s) <==> EveryPieceReads(w, Split(s, ','))))
    && (forall salt, m, n :: w.digest(salt, m) == w.digest(salt, n) ==> m == n)
    && (forall k: Key :: w.decode(w.blob(k)) == Some(k))
  }

  /** A single name that can stand first on a line of its own. */
  predicate PlainName(n: string) {
    n != "" && ',' !in n && !Wild(n) && Lead(n) != '@' && Lead(n) != '|' && Lead(n) != '#'
  }

  /** An address whose spelling is such a name, and is read back as no other address if at all. */
  predicate Nameable(w: World, a: Addr) {
    PlainName(w.name(a)) && (w.address(w.name(a)).Some? ==> w.address(w.name(a)) == Some(a))
  }

  predicate ReadsBack(w: World, a: Addr) {
    w.address(w.name(a)) == Some(a)
  }

  ghost predicate SomePieceReads(w: World, pieces: seq<string>, a: Addr) {
    exists p :: p in pieces && p != "" && w.address(p) == Some(a)
  }

  ghost predicate EveryPieceReads(w: World, pieces: seq<string>) {
    forall p :: p in pieces && p != "" ==> w.address(p).Some?
  }

  /** A library small enough to check the laws on: every pattern is a host on port 22. */
  function SampleLibrary(): World {
    World(
      (a: Addr) => if a.port == "22" then a.host else "[" + a.host + "]:" + a.port,
      (s: string) => Some(Addr(s, "22")),
      (s: string, a: Addr) => a.port == "22" && a.host != "" && a.host in Split(s, ','),
      (s: string) => true,
      (s: string) => None, (salt: string, m: string) => m,
      (s: string) => if s == "" then None else Some(|s| - 1),
      (k: Key) => Mark(k), (k: Key) => "ssh-ed25519", (k: Key) => "SHA256")
  }

  function Mark(k: Key): (s: Word)
    ensures |s| == k + 1
  {
    seq(k + 1, i => 'x')
  }

  lemma SampleLists(s: string, a: Addr)
    ensures SampleLibrary().list(s, a) <==> SomePieceReads(SampleLibrary(), Split(s, ','), a)
  {
    var w := SampleLibrary();
    assert forall p :: w.address(p) == Some(a) <==> p == a.host && a.port == "22";
  }

  /** The laws can be met, by a library that reads a plain host on port 22 back. */
  lemma LawfulLibrary(host: string)
    requires PlainName(host)
    ensures Lawful(SampleLibrary()) && ReadsBack(SampleLibrary(), Addr(host, "22"))
            && Nameable(SampleLibrary(), Addr(host, "22"))
  {
    var w := SampleLibrary();
    forall s, a | !Wild(s) ensures w.list(s, a) <==> SomePieceReads(w, Split(s, ','), a) {
      SampleLists(s, a);
    }
    assert forall s :: w.wellFormed(s) && EveryPieceReads(w, Split(s, ','));
    assert forall k: Key :: w.decode(w.blob(k)) == Some(k);
  }

  // -------------------------------------------------- how the library reads a file

  datatype Parsed =
    | Ignored
    | Bad
    | Revokes(key: Key)
    | Pins(field: string, key: Key, cert: bool)
    | Hashes(field: string, key: Key, cert: bool)

  function Parse(w: World, line: Line): Parsed {
    if line == [] || Lead(line[0]) == '#' then Ignored
    else
      var rest := if Marked(line[0]) then line[1..] else line;
      if |rest| < 3 || w.decode(rest[2]).None? then Bad
      else
        var key := w.decode(rest[2]).value;
        if line[0] == "@revoked" then Revokes(key)
        else if Lead(rest[0]) == '|' then if w.unhash(rest[0]).Some? then Hashes(rest[0], key, Marked(line[0])) else Bad
        else if w.wellFormed(rest[0]) then Pins(rest[0], key, Marked(line[0]))
        else Bad
  }

  predicate Marked(first: string) {
    first == "@cert-authority" || first == "@revoked"
  }

  predicate HashedMatches(w: World, field: string, name: string) {
    match w.unhash(field)
    case None => false
    case Some(h) => w.digest(h.salt, name) == h.digest
  }

  /** One malformed line makes the whole file unreadable. */
  predicate Loads(w: World, lines: seq<Line>) {
    forall line | line in lines :: !Parse(w, line).Bad?
  }

  function LinePins(w: World, line: Line, a: Addr): seq<Key> {
    match Parse(w, line)
    case Pins(field, key, _) => if w.list(field, a) then [key] else []
    case Hashes(field, key, _) => if HashedMatches(w, field, w.name(a)) then [key] else []
    case _ => []
  }

  /** The keys a file pins for an address, in file order. */
  function PinsOf(w: World, lines: seq<Line>, a: Addr): seq<Key> {
    if lines == [] then [] else LinePins(w, lines[0], a) + PinsOf(w, lines[1..], a)
  }

  predicate Revoked(w: World, lines: seq<Line>, key: Key) {
    exists line | line in lines :: Parse(w, line) == Revokes(key)
  }

  datatype Verdict = Unreadable | IsRevoked | Match | Mismatch(want: seq<Key>)

  /** Revocation is by key, whatever the host, and comes before any pin. */
  function Check(w: World, lines: seq<Line>, a: Addr, key: Key): Verdict {
    if !Loads(w, lines) then Unreadable
    else if Revoked(w, lines, key) then IsRevoked
    else if key in PinsOf(w, lines, a) then Match
    else Mismatch(PinsOf(w, lines, a))
  }

  /** The four forms of a line: a list or a hash of names, a certificate authority, a revoked key. */
  lemma LinesRead(w: World, names: Word, kind: Word, blob: Word, key: Key)
    requires w.decode(blob) == Some(key)
    ensures names[0] !in {'#', '|', '@'} ==>
              Parse(w, [names, kind, blob]) == if w.wellFormed(names) then Pins(names, key, false) else Bad
    ensures names[0] == '|' ==>
              Parse(w, [names, kind, blob]) == if w.unhash(names).Some? then Hashes(names, key, false) else Bad
    ensures names[0] != '|' ==>
              Parse(w, ["@cert-authority", names, kind, blob])
              == if w.wellFormed(names) then Pins(names, key, true) else Bad
    ensures Parse(w, ["@revoked", names, kind, blob]) == Revokes(key)
    ensures names[0] == '#' ==> Parse(w, [names, kind, blob]) == Ignored
  {
    assert ["@cert-authority", names, kind, blob][1..] == [names, kind, blob];
    assert ["@revoked", names, kind, blob][1..] == [names, kind, blob];
  }

  /** A line pins the key for the address, by a list it reads in or by a hash of its name. */
  ghost predicate PinnedBy(w: World, line: Line, a: Addr, key: Key) {
    match Parse(w, line)
    case Pins(field, k, _) => k == key && w.list(field, a)
    case Hashes(field, k, _) =>
      && k == key && w.unhash(field).Some?
      && w.digest(w.unhash(field).value.salt, w.name(a)) == w.unhash(field).value.digest
    case _ => false
  }

  lemma {:induction false} PinnedIff(w: World, lines: seq<Line>, a: Addr, key: Key)
    ensures key in PinsOf(w, lines, a) <==> exists line :: line in lines && PinnedBy(w, line, a, key)
  {
    if lines != [] {
      PinnedIff(w, lines[1..], a, key);
      assert forall line :: line in lines <==> line == lines[0] || line in lines[1..];
      assert key in LinePins(w, lines[0], a) <==> PinnedBy(w, lines[0], a, key);
    }
  }

  /** When a key is accepted, and when it is refused as revoked, line by line. */
  lemma VerdictIff(w: World, lines: seq<Line>, a: Addr, key: Key)
    ensures Check(w, lines, a, key) == Match <==>
              && (forall line :: line in lines ==> Parse(w, line) != Bad && Parse(w, line) != Revokes(key))
              && exists line :: line in lines && PinnedBy(w, line, a, key)
    ensures Check(w, lines, a, key) == IsRevoked <==>
              && (forall line :: line in lines ==> Parse(w, line) != Bad)
              && exists line :: line in lines && Parse(w, line) == Revokes(key)
  {
    PinnedIff(w, lines, a, key);
  }

  lemma {:induction false} PinsOfConcat(w: World, x: seq<Line>, y: seq<Line>, a: Addr)
    ensures PinsOf(w, x + y, a) == PinsOf(w, x, a) + PinsOf(w, y, a)
  {
    if x == [] {
      assert x + y == y;
    } else {
      PinsOfConcat(w, x[1..], y, a);
      FrontOf(x, y);
      Regroup(LinePins(w, x[0], a), PinsOf(w, x[1..], a), PinsOf(w, y, a));
    }
  }

  // ------------------------------------------------------------------ re-pinning

  function Without(pieces: seq<string>, names: seq<string>): (r: seq<string>)
    ensures forall p :: p in r <==> p in pieces && p !in names
    ensures pieces != [] && pieces[0] !in names ==> r != [] && r[0] == pieces[0]
  {
    if pieces == [] then []
    else if pieces[0] in names then Without(pieces[1..], names)
    else [pieces[0]] + Without(pieces[1..], names)
  }

  /** A line whose first field became empty starts, once read again, with its second. */
  function Refielded(first: string, line: Line): Line
    requires line != []
  {
    if first == "" then line[1..] else [first] + line[1..]
  }

  /** What is left of a line: nothing, the line, or the line without the re-pinned names. */
  function Rewrite(w: World, names: seq<string>, line: Line): seq<Line> {
    if |line| < 3 then if line == [] then [] else [line]
    else if Lead(line[0]) == '@' then [line]
    else if Lead(line[0]) == '|' then
      if exists n | n in names :: HashedMatches(w, line[0], n) then [] else [line]
    else
      var hosts := Without(Split(line[0], ','), names);
      if hosts == [] then [] else [Refielded(Join(hosts, ','), line)]
  }

  function RewriteAll(w: World, names: seq<string>, lines: seq<Line>): seq<Line> {
    if lines == [] then [] else Rewrite(w, names, lines[0]) + RewriteAll(w, names, lines[1..])
  }

  /** Lines the code will not decide about: wildcard rules, and markers naming the host. */
  predicate Refuses(name: string, line: Line) {
    |line| >= 3 && (Wild(line[0]) || (Lead(line[0]) == '@' && name in Split(line[1], ',')))
  }

  function NewLine(w: World, a: Addr, key: Key): (line: Line)
    ensures line != []
  {
    if w.name(a) == "" then [w.kind(key), w.blob(key)] else [w.name(a), w.kind(key), w.blob(key)]
  }

  function Names(w: World, a: Addr, aliases: seq<Addr>): seq<string> {
    [w.name(a)] + seq(|aliases|, i requires 0 <= i < |aliases| => w.name(aliases[i]))
  }

  function Repinned(w: World, lines: seq<Line>, a: Addr, key: Key, aliases: seq<Addr>): seq<Line> {
    RewriteAll(w, Names(w, a, aliases), lines) + [NewLine(w, a, key)]
  }

  /** Appending to a file whose last line is not terminated continues that line. */
  function Appended(f: File, line: Line): File
    requires line != []
  {
    if f.terminated || f.lines == [] then File(f.lines + [line], true)
    else File(f.lines[..|f.lines| - 1] + [Glued(f.lines[|f.lines| - 1], line)], true)
  }

  function Glued(last: Line, line: Line): Line
    requires line != []
  {
    if last == [] then line else last[..|last| - 1] + [last[|last| - 1] + line[0]] + line[1..]
  }

  function NonBlank(lines: seq<Line>): seq<Line> {
    if lines == [] then [] else (if lines[0] == [] then [] else [lines[0]]) + NonBlank(lines[1..])
  }

  /** A line of a list, which is neither short, nor a marker, nor hashed. */
  predicate NameList(line: Line) {
    |line| >= 3 && line[0][0] != '@' && line[0][0] != '|'
  }

  /** Which lines a rewrite removes: blank ones, hashes of a re-pinned name, and lists of nothing else. */
  lemma LineGoneIff(w: World, names: seq<string>, line: Line)
    ensures Rewrite(w, names, line) == [] <==>
              || line == []
              || (|line| >= 3 && line[0][0] == '|' && exists n | n in names :: HashedMatches(w, line[0], n))
              || (NameList(line) && forall p :: p in Split(line[0], ',') ==> p in names)
  {
    if NameList(line) {
      WithoutAll(Split(line[0], ','), names);
    }
  }

  /** And which stay word for word: every other short line, marker and hash, and each list without such a name. */
  lemma LineStaysIff(w: World, names: seq<string>, line: Line)
    requires Rewrite(w, names, line) != []
    ensures Rewrite(w, names, line) == [line] <==>
              (NameList(line) ==> forall p :: p in Split(line[0], ',') ==> p !in names)
  {
    if NameList(line) {
      KeptListIff(line[0], names);
      assert [line[0]] + line[1..] == line;
    }
  }

  lemma KeptListIff(list: string, names: seq<string>)
    requires Without(Split(list, ','), names) != []
    ensures Join(Without(Split(list, ','), names), ',') == list
            <==> forall p :: p in Split(list, ',') ==> p !in names
  {
    var pieces := Split(list, ',');
    var kept := Without(pieces, names);
    JoinSplit(list, ',');
    if forall p :: p in pieces ==> p !in names {
      WithoutNone(pieces, names);
    } else {
      assert kept != pieces;
      assert forall i :: 0 <= i < |kept| ==> kept[i] in kept;
      SplitJoin(kept, ',');
    }
  }

  lemma WithoutAll(pieces: seq<string>, names: seq<string>)
    ensures Without(pieces, names) == [] <==> forall p :: p in pieces ==> p in names
  {
    var kept := Without(pieces, names);
    assert kept != [] ==> kept[0] in kept;
  }

  // ------------------------------------------------ when a rewritten line reads right

  /** A list of names pinned to a key: neither a marker, nor hashed, nor a comment. */
  predicate PlainList(line: Line) {
    |line| >= 3 && Lead(line[0]) != '@' && Lead(line[0]) != '|' && Lead(line[0]) != '#'
  }

  function Remaining(names: seq<string>, line: Line): seq<string>
    requires line != []
  {
    Without(Split(line[0], ','), names)
  }

  /** A first field the library takes for a list of names. */
  predicate StillPlain(first: string) {
    first != "" && Lead(first) != '#' && Lead(first) != '|' && !Marked(first)
  }

  /** What is left of a list is nothing, or still a list. */
  predicate KeepsLine(names: seq<string>, line: Line) {
    PlainList(line) && Remaining(names, line) != [] ==> StillPlain(Join(Remaining(names, line), ','))
  }

  predicate Keepable(names: seq<string>, lines: seq<Line>) {
    forall line | line in lines :: KeepsLine(names, line)
  }

  predicate Unrefused(name: string, lines: seq<Line>) {
    forall line | line in lines :: !Refuses(name, line)
  }

  /** The rewritten line reads as the original does, with the names that remain. */
  ghost predicate ReadsAsRest(w: World, names: seq<string>, line: Line) {
    if PlainList(line) && Remaining(names, line) != [] then
      Parse(w, line).Pins? && |Rewrite(w, names, line)| == 1
      && Parse(w, Rewrite(w, names, line)[0]) == Pins(Join(Remaining(names, line), ','), Parse(w, line).key, false)
    else
      forall l :: l in Rewrite(w, names, line) ==> Parse(w, l) == Parse(w, line)
  }

  ghost predicate AllNames(w: World, names: seq<string>) {
    forall n :: n in names ==> exists x :: n == w.name(x) && Nameable(w, x)
  }

  lemma {:induction false} PiecesNotWild(s: string, p: string)
    requires !Wild(s) && p in Split(s, ',')
    ensures !Wild(p)
  {
    if s == "" {
      assert p == "";
    } else {
      assert forall i :: 0 <= i < |s[1..]| ==> s[1..][i] == s[i + 1];
      var rest := Split(s[1..], ',');
      if s[0] == ',' {
        if p != "" {
          PiecesNotWild(s[1..], p);
        }
      } else if p == [s[0]] + rest[0] {
        PiecesNotWild(s[1..], rest[0]);
        assert forall i :: 0 < i < |p| ==> p[i] == rest[0][i - 1];
      } else {
        PiecesNotWild(s[1..], p);
      }
    }
  }

  lemma {:induction false} JoinNotWild(parts: seq<string>)
    requires forall p :: p in parts ==> !Wild(p)
    ensures !Wild(Join(parts, ','))
  {
    if |parts| > 1 {
      JoinNotWild(parts[1..]);
      assert !Wild(parts[0]);
      var rest := Join(parts[1..], ',');
      var s := parts[0] + [','] + rest;
      assert forall i :: 0 <= i < |parts[0]| ==> s[i] == parts[0][i];
      assert forall i :: |parts[0]| < i < |s| ==> s[i] == rest[i - |parts[0]| - 1];
      assert s[|parts[0]|] == ',';
    }
  }

  /** The names left in a list, joined and read again. */
  lemma RemainingList(w: World, names: seq<string>, line: Line)
    requires Lawful(w) && PlainList(line) && !Wild(line[0]) && Remaining(names, line) != []
    ensures (var hosts := Remaining(names, line); var first := Join(hosts, ',');
      && !Wild(first) && Split(first, ',') == hosts
      && (w.wellFormed(line[0]) ==> w.wellFormed(first))
      && forall a :: w.list(first, a) <==> SomePieceReads(w, hosts, a))
  {
    var hosts := Remaining(names, line);
    var first := Join(hosts, ',');
    assert Free(hosts, ',') by {
      forall i | 0 <= i < |hosts| ensures ',' !in hosts[i] {
        assert hosts[i] in hosts && hosts[i] in Split(line[0], ',');
      }
    }
    SplitJoin(hosts, ',');
    forall p | p in hosts ensures !Wild(p) {
      PiecesNotWild(line[0], p);
    }
    JoinNotWild(hosts);
  }

  lemma PlainParses(w: World, line: Line)
    requires PlainList(line) && !Parse(w, line).Bad?
    ensures w.decode(line[2]).Some? && w.wellFormed(line[0])
    ensures Parse(w, line) == Pins(line[0], w.decode(line[2]).value, false)
  {
  }

  /** With a first field put in place of a list, the line reads as that list of the same key, or not as one. */
  lemma RefieldedReads(w: World, line: Line, first: string)
    requires PlainList(line) && !Parse(w, line).Bad? && w.wellFormed(first)
    ensures Parse(w, Refielded(first, line)) == Pins(first, Parse(w, line).key, false) <==> StillPlain(first)
  {
    PlainParses(w, line);
    if first != "" {
      var l := Refielded(first, line);
      assert l[0] == first && l[2] == line[2];
    }
  }

  lemma CommentStays(w: World, names: seq<string>, line: Line, l: Line)
    requires AllNames(w, names) && |line| >= 3 && Lead(line[0]) == '#' && l in Rewrite(w, names, line)
    ensures Parse(w, l) == Ignored == Parse(w, line)
  {
    var pieces := Split(line[0], ',');
    assert pieces[0] != "" && pieces[0][0] == '#' && pieces[0] !in names;
    var hosts := Without(pieces, names);
    assert hosts != [] && hosts[0] == pieces[0];
    assert Join(hosts, ',')[0] == '#';
  }

  /**
   * A line of a readable file reads right after the rewrite if and only if what is left of
   * its list is nothing or still a list, which can be seen before the call.
   */
  lemma RewriteReadsIff(w: World, names: seq<string>, line: Line)
    requires Lawful(w) && AllNames(w, names) && names != [] && !Refuses(names[0], line) && !Parse(w, line).Bad?
    ensures ReadsAsRest(w, names, line) <==> KeepsLine(names, line)
  {
    if PlainList(line) {
      if Remaining(names, line) != [] {
        PlainParses(w, line);
        RemainingList(w, names, line);
        RefieldedReads(w, line, Join(Remaining(names, line), ','));
      }
    } else if |line| >= 3 && Lead(line[0]) == '#' {
      forall l | l in Rewrite(w, names, line) ensures Parse(w, l) == Parse(w, line) {
        CommentStays(w, names, line, l);
      }
    }
  }

  lemma {:induction false} WithoutNone(pieces: seq<string>, names: seq<string>)
    requires forall p :: p in pieces ==> p !in names
    ensures Without(pieces, names) == pieces
  {
    if pieces != [] {
      WithoutNone(pieces[1..], names);
    }
  }

  /** A list that names none of the re-pinned hosts is left as it is, empty names and all. */
  lemma UnnamedListStays(w: World, names: seq<string>, line: Line)
    requires PlainList(line) && forall p :: p in Split(line[0], ',') ==> p !in names
    ensures Rewrite(w, names, line) == [line] && KeepsLine(names, line)
  {
    WithoutNone(Split(line[0], ','), names);
    JoinSplit(line[0], ',');
    assert [line[0]] + line[1..] == line;
  }

  // --------------------------------------------------------- what re-pinning keeps

  /** A name that is removed was read as the address it names, and so as no other. */
  lemma RemainingReads(w: World, names: seq<string>, pieces: seq<string>, b: Addr)
    requires AllNames(w, names) && EveryPieceReads(w, pieces) && w.name(b) !in names
    ensures SomePieceReads(w, Without(pieces, names), b) <==> SomePieceReads(w, pieces, b)
  {
    forall p | p in pieces && p in names && p != "" ensures w.address(p) != Some(b) {
      var x :| p == w.name(x) && Nameable(w, x);
    }
  }

  lemma RestPins(w: World, names: seq<string>, line: Line, b: Addr)
    requires PlainList(line) && Remaining(names, line) != [] && ReadsAsRest(w, names, line)
    ensures PinsOf(w, Rewrite(w, names, line), b)
            == if w.list(Join(Remaining(names, line), ','), b) then [Parse(w, line).key] else []
  {
    var r := Rewrite(w, names, line);
    assert PinsOf(w, r, b) == LinePins(w, r[0], b) + PinsOf(w, r[1..], b);
  }

  lemma PlainKeepsOther(w: World, names: seq<string>, line: Line, b: Addr)
    requires Lawful(w) && AllNames(w, names) && names != [] && w.name(b) !in names
    requires PlainList(line) && !Wild(line[0]) && !Parse(w, line).Bad? && KeepsLine(names, line)
    ensures PinsOf(w, Rewrite(w, names, line), b) == LinePins(w, line, b)
  {
    PlainParses(w, line);
    RemainingReads(w, names, Split(line[0], ','), b);
    if Remaining(names, line) != [] {
      RemainingList(w, names, line);
      RewriteReadsIff(w, names, line);
      RestPins(w, names, line, b);
    }
  }

  lemma HashedKeepsOther(w: World, names: seq<string>, line: Line, b: Addr)
    requires Lawful(w) && w.name(b) !in names && |line| >= 3 && Lead(line[0]) == '|'
    ensures PinsOf(w, Rewrite(w, names, line), b) == LinePins(w, line, b)
  {
    if n :| n in names && HashedMatches(w, line[0], n) {
      var h := w.unhash(line[0]).value;
      assert w.digest(h.salt, n) != w.digest(h.salt, w.name(b));
    }
  }

  lemma CommentPins(w: World, names: seq<string>, line: Line, b: Addr)
    requires AllNames(w, names) && |line| >= 3 && Lead(line[0]) == '#'
    ensures PinsOf(w, Rewrite(w, names, line), b) == [] == LinePins(w, line, b)
  {
    var r := Rewrite(w, names, line);
    if r != [] {
      CommentStays(w, names, line, r[0]);
      assert PinsOf(w, r, b) == LinePins(w, r[0], b) + PinsOf(w, r[1..], b);
    }
  }

  /** An address that is not re-pinned keeps what a line pins for it. */
  lemma RewriteKeepsOther(w: World, names: seq<string>, line: Line, b: Addr)
    requires Lawful(w) && AllNames(w, names) && names != [] && w.name(b) !in names
    requires !Refuses(names[0], line) && !Parse(w, line).Bad? && KeepsLine(names, line)
    ensures PinsOf(w, Rewrite(w, names, line), b) == LinePins(w, line, b)
  {
    if PlainList(line) {
      PlainKeepsOther(w, names, line, b);
    } else if |line| >= 3 && Lead(line[0]) == '|' {
      HashedKeepsOther(w, names, line, b);
    } else if |line| >= 3 && Lead(line[0]) == '#' {
      CommentPins(w, names, line, b);
    } else if line != [] {
      assert PinsOf(w, [line], b) == LinePins(w, line, b);
    }
  }

  /** A pin of the re-pinned host that the rewrite leaves: a marker rule, or another spelling. */
  ghost predicate Stray(w: World, names: seq<string>, line: Line, a: Addr, k: Key) {
    if PlainList(line)
    then Parse(w, line).Pins? && Parse(w, line).key == k && OtherSpelling(w, names, Split(line[0], ','), a)
    else |line| >= 3 && Lead(line[0]) == '@' && LinePins(w, line, a) == [k]
  }

  ghost predicate OtherSpelling(w: World, names: seq<string>, pieces: seq<string>, a: Addr) {
    exists p :: p in pieces && p != "" && p !in names && w.address(p) == Some(a)
  }

  ghost predicate Strayed(w: World, names: seq<string>, lines: seq<Line>, a: Addr, k: Key) {
    exists line :: line in lines && Stray(w, names, line, a, k)
  }

  lemma PlainLeavesStrays(w: World, names: seq<string>, line: Line, a: Addr, k: Key)
    requires Lawful(w) && AllNames(w, names) && names != []
    requires PlainList(line) && !Wild(line[0]) && !Parse(w, line).Bad? && KeepsLine(names, line)
    ensures k in PinsOf(w, Rewrite(w, names, line), a) <==> Stray(w, names, line, a, k)
  {
    PlainParses(w, line);
    assert OtherSpelling(w, names, Split(line[0], ','), a) <==> SomePieceReads(w, Remaining(names, line), a);
    if Remaining(names, line) != [] {
      RemainingList(w, names, line);
      RewriteReadsIff(w, names, line);
      RestPins(w, names, line, a);
    }
  }

  lemma HashedDropsHost(w: World, names: seq<string>, line: Line, a: Addr)
    requires |line| >= 3 && Lead(line[0]) == '|' && w.name(a) in names
    ensures PinsOf(w, Rewrite(w, names, line), a) == []
  {
    if !HashedMatches(w, line[0], w.name(a)) {
      assert LinePins(w, line, a) == [];
    }
  }

  lemma RewriteLeavesStrays(w: World, names: seq<string>, line: Line, a: Addr, k: Key)
    requires Lawful(w) && AllNames(w, names) && names != [] && names[0] == w.name(a)
    requires !Refuses(names[0], line) && !Parse(w, line).Bad? && KeepsLine(names, line)
    ensures k in PinsOf(w, Rewrite(w, names, line), a) <==> Stray(w, names, line, a, k)
  {
    if PlainList(line) {
      PlainLeavesStrays(w, names, line, a, k);
    } else if |line| >= 3 && Lead(line[0]) == '|' {
      HashedDropsHost(w, names, line, a);
    } else if |line| >= 3 && Lead(line[0]) == '#' {
      CommentPins(w, names, line, a);
    } else if line != [] {
      assert PinsOf(w, [line], a) == LinePins(w, line, a);
    }
  }

  lemma NamesAreNames(w: World, a: Addr, aliases: seq<Addr>)
    requires Nameable(w, a) && forall x :: x in aliases ==> Nameable(w, x)
    ensures AllNames(w, Names(w, a, aliases)) && Names(w, a, aliases)[0] == w.name(a)
  {
    var names := Names(w, a, aliases);
    forall n | n in names ensures exists x :: n == w.name(x) && Nameable(w, x) {
      var i :| 0 <= i < |names| && names[i] == n;
      assert n == w.name(if i == 0 then a else aliases[i - 1]);
    }
  }

  lemma {:induction false} RewriteAllKeepsOther(w: World, names: seq<string>, lines: seq<Line>, b: Addr)
    requires Lawful(w) && AllNames(w, names) && names != [] && w.name(b) !in names
    requires Loads(w, lines) && Unrefused(names[0], lines) && Keepable(names, lines)
    ensures PinsOf(w, RewriteAll(w, names, lines), b) == PinsOf(w, lines, b)
  {
    if lines != [] {
      assert lines[0] in lines;
      RewriteKeepsOther(w, names, lines[0], b);
      RewriteAllKeepsOther(w, names, lines[1..], b);
      PinsOfConcat(w, Rewrite(w, names, lines[0]), RewriteAll(w, names, lines[1..]), b);
    }
  }

  lemma {:induction false} RewriteAllLeavesStrays(w: World, names: seq<string>, lines: seq<Line>, a: Addr, k: Key)
    requires Lawful(w) && AllNames(w, names) && names != [] && names[0] == w.name(a)
    requires Loads(w, lines) && Unrefused(names[0], lines) && Keepable(names, lines)
    ensures k in PinsOf(w, RewriteAll(w, names, lines), a) <==> Strayed(w, names, lines, a, k)
  {
    if lines != [] {
      assert lines[0] in lines;
      RewriteLeavesStrays(w, names, lines[0], a, k);
      RewriteAllLeavesStrays(w, names, lines[1..], a, k);
      PinsOfConcat(w, Rewrite(w, names, lines[0]), RewriteAll(w, names, lines[1..]), a);
      assert forall line :: line in lines <==> line == lines[0] || line in lines[1..];
    }
  }

  /** The new line is a pin of the new key exactly when the host's spelling is read back at all. */
  lemma NewLineReads(w: World, a: Addr, key: Key)
    requires Lawful(w) && Nameable(w, a)
    ensures Parse(w, NewLine(w, a, key)) == if ReadsBack(w, a) then Pins(w.name(a), key, false) else Bad
    ensures forall b :: PinsOf(w, [NewLine(w, a, key)], b) == if ReadsBack(w, a) && b == a then [key] else []
  {
    var n := w.name(a);
    SplitNoSep(n, ',');
    assert Split(n, ',') == [n];
    assert w.wellFormed(n) <==> w.address(n).Some? by {
      assert n in [n];
    }
    forall b ensures PinsOf(w, [NewLine(w, a, key)], b) == if ReadsBack(w, a) && b == a then [key] else [] {
      assert w.list(n, b) <==> SomePieceReads(w, [n], b);
      assert SomePieceReads(w, [n], b) <==> w.address(n) == Some(b) by {
        assert n in [n];
      }
      assert PinsOf(w, [NewLine(w, a, key)], b) == LinePins(w, NewLine(w, a, key), b);
    }
  }

  /** What a re-pin is asked of: a readable file, and names that can be written down. */
  ghost predicate Repinnable(w: World, lines: seq<Line>, a: Addr, aliases: seq<Addr>) {
    && Lawful(w) && Loads(w, lines) && Unrefused(w.name(a), lines)
    && Nameable(w, a) && (forall x :: x in aliases ==> Nameable(w, x))
    && Keepable(Names(w, a, aliases), lines)
  }

  /** Re-pinning leaves the pins of every address under another name, in their order, as they were. */
  lemma OthersKeepTheirPins(w: World, lines: seq<Line>, a: Addr, key: Key, aliases: seq<Addr>, b: Addr)
    requires Repinnable(w, lines, a, aliases) && w.name(b) !in Names(w, a, aliases)
    ensures PinsOf(w, Repinned(w, lines, a, key, aliases), b) == PinsOf(w, lines, b)
  {
    NamesAreNames(w, a, aliases);
    RewriteAllKeepsOther(w, Names(w, a, aliases), lines, b);
    PinsOfConcat(w, RewriteAll(w, Names(w, a, aliases), lines), [NewLine(w, a, key)], b);
    NewLineReads(w, a, key);
    assert b != a;
  }

  /** The host is left with the new key, if its spelling is read back, and with its strays. */
  lemma HostPinsAfter(w: World, lines: seq<Line>, a: Addr, key: Key, aliases: seq<Addr>, k: Key)
    requires Repinnable(w, lines, a, aliases)
    ensures k in PinsOf(w, Repinned(w, lines, a, key, aliases), a)
            <==> (k == key && ReadsBack(w, a)) || Strayed(w, Names(w, a, aliases), lines, a, k)
  {
    NamesAreNames(w, a, aliases);
    RewriteAllLeavesStrays(w, Names(w, a, aliases), lines, a, k);
    PinsOfConcat(w, RewriteAll(w, Names(w, a, aliases), lines), [NewLine(w, a, key)], a);
    NewLineReads(w, a, key);
  }

  ghost predicate Only(pins: seq<Key>, key: Key) {
    forall k :: k in pins <==> k == key
  }

  /** The keys that strays pin for the host. */
  ghost function StrayKeys(w: World, names: seq<string>, lines: seq<Line>, a: Addr): iset<Key> {
    iset k: Key | Strayed(w, names, lines, a, k)
  }

  lemma OnlyAddedIff(pins: seq<Key>, key: Key, strays: iset<Key>)
    requires forall k :: k in pins <==> k == key || k in strays
    ensures Only(pins, key) <==> strays <= iset{key}
  {
    if strays <= iset{key} {
      assert forall k :: k in strays ==> k == key;
    } else {
      var k :| k in strays && k != key;
      assert k in pins;
    }
  }

  lemma OnlyStrayIff(pins: seq<Key>, key: Key, strays: iset<Key>)
    requires forall k :: k in pins <==> k in strays
    ensures Only(pins, key) <==> strays == iset{key}
  {
    if strays == iset{key} {
      assert forall k :: k in strays <==> k == key;
    } else if Only(pins, key) {
      assert forall k :: k in strays <==> k == key;
    }
  }

  /**
   * Exactly the new key is pinned if and only if no stray pins another and, where the host's
   * spelling is not read back, a stray pins it.
   */
  lemma OnlyNewKeyIff(w: World, lines: seq<Line>, a: Addr, key: Key, aliases: seq<Addr>)
    requires Repinnable(w, lines, a, aliases)
    ensures (var strays := StrayKeys(w, Names(w, a, aliases), lines, a);
      Only(PinsOf(w, Repinned(w, lines, a, key, aliases), a), key)
      <==> if ReadsBack(w, a) then strays <= iset{key} else strays == iset{key})
  {
    var strays := StrayKeys(w, Names(w, a, aliases), lines, a);
    var pins := PinsOf(w, Repinned(w, lines, a, key, aliases), a);
    forall k: Key ensures k in pins <==> (k == key && ReadsBack(w, a)) || k in strays {
      HostPinsAfter(w, lines, a, key, aliases, k);
    }
    if ReadsBack(w, a) {
      OnlyAddedIff(pins, key, strays);
    } else {
      OnlyStrayIff(pins, key, strays);
    }
  }

  lemma {:induction false} RewriteAllFrom(w: World, names: seq<string>, lines: seq<Line>, l: Line)
    ensures l in RewriteAll(w, names, lines) <==> exists line :: line in lines && l in Rewrite(w, names, line)
  {
    if lines != [] {
      RewriteAllFrom(w, names, lines[1..], l);
      assert forall line :: line in lines <==> line == lines[0] || line in lines[1..];
    }
  }

  lemma MarkerStays(w: World, names: seq<string>, lines: seq<Line>, line: Line, k: Key)
    requires line in lines && Parse(w, line) == Revokes(k)
    ensures line in RewriteAll(w, names, lines)
  {
    assert Lead(line[0]) == '@';
    assert Rewrite(w, names, line) == [line];
    RewriteAllFrom(w, names, lines, line);
  }

  /** The two readings of a line are malformed, or revoke a key, together. */
  ghost predicate SameKind(w: World, x: Line, y: Line) {
    && (Parse(w, x).Bad? <==> Parse(w, y).Bad?)
    && (forall k :: Parse(w, x) == Revokes(k) <==> Parse(w, y) == Revokes(k))
  }

  lemma RewriteKind(w: World, names: seq<string>, line: Line, l: Line)
    requires Lawful(w) && AllNames(w, names) && names != [] && !Refuses(names[0], line) && !Parse(w, line).Bad?
    requires KeepsLine(names, line) && l in Rewrite(w, names, line)
    ensures SameKind(w, l, line)
  {
    RewriteReadsIff(w, names, line);
    if PlainList(line) {
      assert l == Rewrite(w, names, line)[0];
    }
  }

  /** A re-pinned file is readable if and only if the host's spelling is read back; it revokes the same keys. */
  lemma RepinnedReads(w: World, lines: seq<Line>, a: Addr, key: Key, aliases: seq<Addr>, k: Key)
    requires Repinnable(w, lines, a, aliases)
    ensures Loads(w, Repinned(w, lines, a, key, aliases)) <==> ReadsBack(w, a)
    ensures Revoked(w, Repinned(w, lines, a, key, aliases), k) <==> Revoked(w, lines, k)
  {
    var names := Names(w, a, aliases);
    var kept, added := RewriteAll(w, names, lines), NewLine(w, a, key);
    NamesAreNames(w, a, aliases);
    NewLineReads(w, a, key);
    forall l | l in kept ensures exists line :: line in lines && SameKind(w, l, line) {
      RewriteAllFrom(w, names, lines, l);
      var line :| line in lines && l in Rewrite(w, names, line);
      RewriteKind(w, names, line, l);
    }
    assert forall l :: l in kept + [added] <==> l in kept || l == added;
    if Revoked(w, lines, k) {
      var line :| line in lines && Parse(w, line) == Revokes(k);
      MarkerStays(w, names, lines, line, k);
    }
  }

  /**
   * A confirmed key that is not revoked verifies after a re-pin if and only if the host's
   * spelling is read back; otherwise the file is lost to every host.
   */
  lemma RepinVerifiesIff(w: World, lines: seq<Line>, a: Addr, key: Key, aliases: seq<Addr>)
    requires Repinnable(w, lines, a, aliases) && !Revoked(w, lines, key)
    ensures Check(w, Repinned(w, lines, a, key, aliases), a, key) == if ReadsBack(w, a) then Match else Unreadable
  {
    RepinnedReads(w, lines, a, key, aliases, key);
    HostPinsAfter(w, lines, a, key, aliases, key);
  }

  lemma AddedReads(w: World, lines: seq<Line>, line: Line, k: Key)
    ensures Loads(w, lines + [line]) <==> Loads(w, lines) && !Parse(w, line).Bad?
    ensures Revoked(w, lines + [line], k) <==> Revoked(w, lines, k) || Parse(w, line) == Revokes(k)
  {
    assert forall l :: l in lines + [line] <==> l in lines || l == line;
  }

  /** And likewise after the pin was appended on a line of its own. */
  lemma AppendVerifiesIff(w: World, f: File, a: Addr, key: Key)
    requires Lawful(w) && Loads(w, f.lines) && !Revoked(w, f.lines, key) && Nameable(w, a)
    requires f.terminated || f.lines == []
    ensures Check(w, Appended(f, NewLine(w, a, key)).lines, a, key) == if ReadsBack(w, a) then Match else Unreadable
  {
    NewLineReads(w, a, key);
    AddedReads(w, f.lines, NewLine(w, a, key), key);
    PinsOfConcat(w, f.lines, [NewLine(w, a, key)], a);
  }

  /**
   * Where the library writes an IPv6 address on port 22 in brackets without a port, and does
   * not read that spelling, pinning it leaves a file that no host can be checked against.
   */
  lemma BracketedAddressLocksOut(w: World, f: File, key: Key, b: Addr, k: Key)
    requires Lawful(w) && w.name(Addr("::1", "22")) == "[::1]" && w.address("[::1]").None?
    requires f.terminated || f.lines == []
    ensures Check(w, Appended(f, NewLine(w, Addr("::1", "22"), key)).lines, b, k) == Unreadable
  {
    var a := Addr("::1", "22");
    assert PlainName("[::1]");
    NewLineReads(w, a, key);
    assert NewLine(w, a, key) in Appended(f, NewLine(w, a, key)).lines;
  }

  lemma FrontOf<T>(x: seq<T>, y: seq<T>)
    requires x != []
    ensures (x + y)[1..] == x[1..] + y && (x + y)[0] == x[0]
  {
  }

  lemma {:induction false} NonBlankConcat(x: seq<Line>, y: seq<Line>)
    ensures NonBlank(x + y) == NonBlank(x) + NonBlank(y)
  {
    if x == [] {
      assert x + y == y;
    } else {
      NonBlankConcat(x[1..], y);
      FrontOf(x, y);
      Regroup(if x[0] == [] then [] else [x[0]], NonBlank(x[1..]), NonBlank(y));
    }
  }

  /** An append puts the pin on a line of its own exactly when nothing stands on the line it continues. */
  lemma AppendGluesIff(f: File, line: Line)
    requires line != []
    ensures NonBlank(Appended(f, line).lines) == NonBlank(f.lines) + [line]
            <==> f.terminated || f.lines == [] || f.lines[|f.lines| - 1] == []
    ensures Appended(f, line).terminated
  {
    assert NonBlank([line]) == [line];
    NonBlankConcat(f.lines, [line]);
    if !f.terminated && f.lines != [] {
      var init, last := f.lines[..|f.lines| - 1], f.lines[|f.lines| - 1];
      assert f.lines == init + [last];
      NonBlankConcat(init, [last]);
      NonBlankConcat(init, [Glued(last, line)]);
      assert NonBlank([Glued(last, line)]) == [Glued(last, line)];
      assert last != [] ==> NonBlank([last]) == [last];
      assert last == [] ==> NonBlank([last]) == [];
    }
  }

  /** A three-field line whose list is left with nothing but empty text makes the file unreadable. */
  lemma EmptiedListBreaks(w: World, lines: seq<Line>, a: Addr, key: Key, aliases: seq<Addr>, line: Line)
    requires line in lines && |line| == 3 && PlainList(line)
    requires Remaining(Names(w, a, aliases), line) == [""] && Lead(line[1]) != '#'
    ensures !Loads(w, Repinned(w, lines, a, key, aliases))
  {
    var names := Names(w, a, aliases);
    assert Rewrite(w, names, line) == [line[1..]];
    RewriteAllFrom(w, names, lines, line[1..]);
    assert line[1..] in Repinned(w, lines, a, key, aliases);
    ShortIsBad(w, line[1..]);
  }

  lemma ShortIsBad(w: World, l: Line)
    requires |l| == 2
    ensures Parse(w, l).Bad? || Lead(l[0]) == '#'
  {
  }

  /** A trailing comma is enough: the key type moves into the list's place. */
  lemma TrailingCommaBreaks(w: World, a: Addr, key: Key)
    requires Lawful(w) && Nameable(w, a) && ReadsBack(w, a) && Lead(w.kind(key)) != '#'
    ensures (var line: Line := [w.name(a) + ",", w.kind(key), w.blob(key)];
      && Loads(w, [line]) && !Refuses(w.name(a), line)
      && !Loads(w, Repinned(w, [line], a, key, [])))
  {
    var n := w.name(a);
    var line: Line := [n + ",", w.kind(key), w.blob(key)];
    TrailingList(n);
    assert EveryPieceReads(w, [n, ""]);
    assert w.wellFormed(n + ",");
    assert Names(w, a, []) == [n];
    EmptiedListBreaks(w, [line], a, key, [], line);
  }

  lemma TrailingList(n: string)
    requires PlainName(n)
    ensures Split(n + ",", ',') == [n, ""] && Without([n, ""], [n]) == [""]
    ensures !Wild(n + ",") && (n + ",")[0] == n[0]
  {
    SplitAt(n, "", ',');
    SplitNoSep(n, ',');
    assert n + [','] + "" == n + ",";
    assert [n, ""][1..] == [""] && [""][1..] == [];
    assert Without([], [n]) == [] && Without([""], [n]) == [""];
  }

  /** A line that pins another spelling alone: rewriting leaves it, and it names the host. */
  lemma StrayAlias(w: World, a: Addr, p: string, pinned: Key)
    requires Lawful(w) && Nameable(w, a) && PlainName(p) && w.address(p) == Some(a) && p != w.name(a)
    ensures (var line: Line := [p, w.kind(pinned), w.blob(pinned)];
      Repinnable(w, [line], a, []) && Stray(w, Names(w, a, []), line, a, pinned))
  {
    var line: Line := [p, w.kind(pinned), w.blob(pinned)];
    var names := Names(w, a, []);
    SplitNoSep(p, ',');
    assert Split(p, ',') == [p] && p in [p];
    assert w.wellFormed(p);
    assert [p][1..] == [] && Without([], names) == [];
    assert Without([p], names) == [p];
    JoinSplit(p, ',');
    assert StillPlain(p);
    assert Parse(w, line) == Pins(p, pinned, false);
  }

  /** A host pinned under another spelling, such as one that states port 22, keeps its old key. */
  lemma OtherSpellingSurvives(w: World, a: Addr, p: string, pinned: Key, key: Key)
    requires Lawful(w) && Nameable(w, a) && PlainName(p) && w.address(p) == Some(a) && p != w.name(a)
    ensures (var line: Line := [p, w.kind(pinned), w.blob(pinned)];
      Repinnable(w, [line], a, []) && pinned in PinsOf(w, Repinned(w, [line], a, key, []), a))
  {
    StrayAlias(w, a, p, pinned);
    HostPinsAfter(w, [[p, w.kind(pinned), w.blob(pinned)]], a, key, [], pinned);
  }

  // -------------------------------------------------------------- the stored file

  datatype Outcome = Accepted | HaltRevoked | Prompt(changed: bool, pinned: Option<Key>) | HaltStoreError

  lemma {:induction false} RewriteAllSnoc(w: World, names: seq<string>, lines: seq<Line>, line: Line)
    ensures RewriteAll(w, names, lines + [line]) == RewriteAll(w, names, lines) + Rewrite(w, names, line)
  {
    if lines == [] {
      assert [line][1..] == [];
    } else {
      RewriteAllSnoc(w, names, lines[1..], line);
      assert (lines + [line])[1..] == lines[1..] + [line];
    }
  }

  /** What becomes of one line that is not refused. */
  method RewriteLine(w: World, names: seq<string>, line: Line) returns (kept: seq<Line>)
    ensures kept == Rewrite(w, names, line)
  {
    kept := [];
    if |line| < 3 {
      if line != [] {
        kept := [line];
      }
    } else if Lead(line[0]) == '@' {
      kept := [line];
    } else if Lead(line[0]) == '|' {
      if !exists n | n in names :: HashedMatches(w, line[0], n) {
        kept := [line];
      }
    } else {
      var hosts := Without(Split(line[0], ','), names);
      if hosts != [] {
        kept := [Refielded(Join(hosts, ','), line)];
      }
    }
  }

  /** The whole rewrite: given up at a wildcard rule, and in the end if a marker named the host. */
  method RewriteLines(w: World, names: seq<string>, lines: seq<Line>) returns (ok: bool, out: seq<Line>)
    requires names != []
    ensures ok <==> Unrefused(names[0], lines)
    ensures ok ==> out == RewriteAll(w, names, lines)
  {
    out := [];
    var stale := 0;
    for i := 0 to |lines|
      invariant out == RewriteAll(w, names, lines[..i])
      invariant stale >= 0 && (stale == 0 <==> Unrefused(names[0], lines[..i]))
    {
      var line := lines[i];
      RewriteAllSnoc(w, names, lines[..i], line);
      assert lines[..i + 1] == lines[..i] + [line];
      UnrefusedSnoc(names[0], lines[..i], line);
      if |line| >= 3 && Wild(line[0]) {
        assert line in lines && Refuses(names[0], line);
        return false, out;
      }
      if |line| >= 3 && Lead(line[0]) == '@' && names[0] in Split(line[1], ',') {
        stale := stale + 1;
      }
      var kept := RewriteLine(w, names, line);
      out := out + kept;
    }
    assert lines[..|lines|] == lines;
    ok := stale == 0;
  }

  /** Which lines are refused, by their characters. */
  lemma RefusesIff(name: string, line: Line)
    requires ',' !in name
    ensures Refuses(name, line) <==>
              && |line| >= 3
              && (|| (exists i :: 0 <= i < |line[0]| && line[0][i] in {'*', '?', '!'})
                  || (line[0][0] == '@' && exists i: nat :: PartAt(line[1], ',', name, i)))
  {
    if |line| >= 3 {
      SplitMember(line[1], ',', name);
    }
  }

  lemma UnrefusedSnoc(name: string, lines: seq<Line>, line: Line)
    ensures Unrefused(name, lines + [line]) <==> Unrefused(name, lines) && !Refuses(name, line)
  {
    assert forall l :: l in lines + [line] <==> l in lines || l == line;
  }

  /** The first `n` characters of the `k`th field, after the fields before it. */
  function Beginning(line: Line, k: nat, n: nat): (part: Line)
    requires 0 < k <= |line| && 0 < n <= |line[k - 1]|
    ensures part != []
  {
    line[..k - 1] + [line[k - 1][..n]]
  }

  /** The file as it was, or with a beginning of the line at its end. */
  ghost predicate PartlyAppended(before: File, after: File, line: Line) {
    || after == before
    || exists k: nat, n: nat :: 0 < k <= |line| && 0 < n <= |line[k - 1]|
                                && after == Appended(before, Beginning(line, k, n)).(terminated := false)
  }

  /** A key of the same algorithm is pinned: the host's key has changed, and is not merely new. */
  predicate HasChanged(w: World, f: File, host: Addr, key: Key) {
    exists k :: k in PinsOf(w, f.lines, host) && w.kind(k) == w.kind(key)
  }

  /** What a confirmed key makes of the file: the re-pinned one, or one line more for a new key. */
  ghost predicate Written(w: World, before: File, after: File, host: Addr, addr: Addr, remote: Addr, key: Key) {
    if HasChanged(w, before, host, key)
    then Unrefused(w.name(addr), before.lines) && after == File(Repinned(w, before.lines, addr, key, [remote]), true)
    else after == Appended(before, NewLine(w, addr, key))
  }

  /** Or, where an append broke off, a beginning of that line. */
  ghost predicate Repins(w: World, before: File, after: File, host: Addr, addr: Addr, remote: Addr, key: Key) {
    || Written(w, before, after, host, addr, remote, key)
    || (!HasChanged(w, before, host, key) && PartlyAppended(before, after, NewLine(w, addr, key)))
  }

  /** The user confirmed the fingerprint of a key that is neither pinned nor revoked. */
  predicate Confirmed(w: World, f: File, host: Addr, key: Key, accept: string) {
    Check(w, f.lines, host, key).Mismatch? && accept != "" && accept == w.thumb(key)
  }

  /** A line can be added to the file by itself, and the address has a spelling for it. */
  ghost predicate Appendable(w: World, f: File, a: Addr) {
    Lawful(w) && Nameable(w, a) && (f.terminated || f.lines == [])
  }

  /** The host can be pinned under its own spelling, in the way its key asks for. */
  ghost predicate Pinnable(w: World, f: File, host: Addr, addr: Addr, remote: Addr, key: Key) {
    && host == addr
    && if HasChanged(w, f, host, key) then Repinnable(w, f.lines, addr, [remote]) else Appendable(w, f, addr)
  }

  class Pinned {
    var file: File
    /** Whether no load, write or second load fails for a reason of its own. */
    const steady: bool

    constructor (file: File, steady: bool)
      ensures this.file == file && this.steady == steady
    {
      this.file, this.steady := file, steady;
    }

    /** The file is replaced as a whole, by a rename, or not at all. */
    method Replace(w: World, a: Addr, key: Key, aliases: seq<Addr>) returns (done: bool)
      modifies this
      ensures !done ==> file == old(file)
      ensures done ==> file == File(Repinned(w, old(file).lines, a, key, aliases), true)
      ensures done ==> Unrefused(w.name(a), old(file).lines)
      ensures steady && Unrefused(w.name(a), old(file).lines) ==> done
    {
      var kept, out := RewriteLines(w, Names(w, a, aliases), file.lines);
      if !kept {
        return false;
      }
      done := *;
      done := done || steady;
      if done {
        file := File(out + [NewLine(w, a, key)], true);
      }
    }

    /** A failing write may leave a beginning of the line behind. */
    method Append(w: World, a: Addr, key: Key) returns (done: bool)
      modifies this
      ensures done ==> file == Appended(old(file), NewLine(w, a, key))
      ensures !done ==> PartlyAppended(old(file), file, NewLine(w, a, key))
      ensures steady ==> done
    {
      done := *;
      done := done || steady;
      var line := NewLine(w, a, key);
      if done {
        file := Appended(file, line);
      } else if * {
        var k: nat :| 0 < k <= |line|;
        var n: nat :| 0 < n <= |line[k - 1]|;
        file := Appended(file, Beginning(line, k, n)).(terminated := false);
      }
    }

    /**
     * The host-key callback: what it accepts, the file it leaves pins and does not revoke; it
     * changes the file only for a key whose fingerprint the user confirmed. Where the file can
     * be read and written each verdict has its one outcome; otherwise it may halt instead.
     */
    method Callback(w: World, host: Addr, addr: Addr, remote: Addr, key: Key, accept: string) returns (r: Outcome)
      modifies this
      ensures r.Accepted? ==> Check(w, file.lines, host, key) == Match
      ensures file != old(file) ==>
                Check(w, old(file).lines, host, key).Mismatch? && accept != "" && accept == w.thumb(key)
      ensures file != old(file) ==> Repins(w, old(file), file, host, addr, remote, key)
      ensures file != old(file) && r.Accepted? ==> Written(w, old(file), file, host, addr, remote, key)
      ensures r.HaltRevoked? ==> Check(w, old(file).lines, host, key) == IsRevoked
      ensures r.Prompt? ==>
                && file == old(file) && Check(w, file.lines, host, key).Mismatch?
                && !(accept != "" && accept == w.thumb(key))
      ensures r.Prompt? ==> (r.changed <==> HasChanged(w, file, host, key))
      ensures r.Prompt? ==> r.changed == r.pinned.Some?
      ensures r.Prompt? && r.changed ==> r.pinned.value in PinsOf(w, file.lines, host) && r.pinned.value != key
      ensures Check(w, old(file).lines, host, key) == Match ==>
                file == old(file) && (r == Accepted || (!steady && r == HaltStoreError))
      ensures Check(w, old(file).lines, host, key) == IsRevoked ==>
                file == old(file) && (r == HaltRevoked || (!steady && r == HaltStoreError))
      ensures Check(w, old(file).lines, host, key) == Unreadable ==> file == old(file) && r == HaltStoreError
      ensures Check(w, old(file).lines, host, key).Mismatch? && !(accept != "" && accept == w.thumb(key)) ==>
                r.Prompt? || (!steady && r == HaltStoreError)
      ensures steady && Confirmed(w, old(file), host, key, accept) ==>
                if HasChanged(w, old(file), host, key) && !Unrefused(w.name(addr), old(file).lines)
                then r == HaltStoreError && file == old(file)
                else
                  && Written(w, old(file), file, host, addr, remote, key)
                  && r == if Check(w, file.lines, host, key) == Match then Accepted else HaltStoreError
      ensures steady && Confirmed(w, old(file), host, key, accept)
              && Pinnable(w, old(file), host, addr, remote, key) ==>
                (r == Accepted <==> ReadsBack(w, addr))
    {
      var unread: bool := *;
      if unread && !steady {
        return HaltStoreError;
      }
      var verdict := Check(w, file.lines, host, key);
      match verdict
      case Unreadable => return HaltStoreError;
      case Match => return Accepted;
      case IsRevoked => return HaltRevoked;
      case Mismatch(want) =>
        var sameType := SameAlgorithm(w, want, key);
        assert HasChanged(w, file, host, key) <==> sameType != [] by {
          assert sameType != [] ==> sameType[0] in sameType;
        }
        var confirmed := accept != "" && accept == w.thumb(key);
        if !confirmed {
          if sameType != [] {
            assert sameType[0] in sameType;
            return Prompt(true, Some(sameType[0]));
          }
          return Prompt(false, None);
        }
        var written;
        if sameType != [] {
          written := Replace(w, addr, key, [remote]);
        } else {
          written := Append(w, addr, key);
        }
        // The file is read again, which can fail, and must now match.
        var reread: bool := *;
        var verified := Check(w, file.lines, host, key).Match? && (reread || steady);
        r := if written && verified then Accepted else HaltStoreError;
        if Pinnable(w, old(file), host, addr, remote, key) {
          if sameType != [] {
            RepinVerifiesIff(w, old(file).lines, addr, key, [remote]);
          } else {
            AppendVerifiesIff(w, old(file), addr, key);
          }
        }
    }
  }

  function SameAlgorithm(w: World, want: seq<Key>, key: Key): (r: seq<Key>)
    ensures forall k :: k in r <==> k in want && w.kind(k) == w.kind(key)
  {
    if want == [] then []
    else (if w.kind(want[0]) == w.kind(key) then [want[0]] else []) + SameAlgorithm(w, want[1..], key)
  }
}
