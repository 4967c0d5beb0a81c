/** Remote path validation, the comparison form, and the overlap test built on it. */
module Paths {
  import opened Texts

  // ------------------------------------------------------- lexical cleaning

  /** The segments that survive cleaning: empty and "." go, ".." takes its predecessor along. */
  function Canon(rooted: bool, parts: seq<string>, stack: seq<string>): seq<string>
    decreases |parts|
  {
    if parts == [] then stack
    else Canon(rooted, parts[1..], Step(rooted, parts[0], stack))
  }

  function Step(rooted: bool, seg: string, stack: seq<string>): seq<string> {
    if seg == "" || seg == "." then stack
    else if seg == ".." then
      if stack != [] && stack[|stack| - 1] != ".." then stack[..|stack| - 1]
      else if rooted then stack
      else stack + [".."]
    else stack + [seg]
  }

  /** The standard library's path.Clean. */
  function Clean(p: string): string {
    if p == "" then "."
    else Render(p[0] == '/', Canon(p[0] == '/', Split(p, '/'), []))
  }

  function Render(rooted: bool, segs: seq<string>): string {
    if rooted then "/" + Join(segs, '/')
    else if segs == [] then "." else Join(segs, '/')
  }

  predicate Plain(seg: string) {
    seg != "" && seg != "." && seg != ".." && '/' !in seg
  }

  predicate AllPlain(segs: seq<string>) {
    forall i :: 0 <= i < |segs| ==> Plain(segs[i])
  }

  /** What cleaning can leave on the stack: climbs first (only if not rooted), then plain names. */
  predicate Settled(rooted: bool, stack: seq<string>) {
    && (forall i :: 0 <= i < |stack| ==> Plain(stack[i]) || (!rooted && stack[i] == ".."))
    && (forall i :: 0 < i < |stack| && stack[i] == ".." ==> stack[i - 1] == "..")
  }

  lemma {:induction false} CanonSettles(rooted: bool, parts: seq<string>, stack: seq<string>)
    requires Settled(rooted, stack) && Free(parts, '/')
    ensures Settled(rooted, Canon(rooted, parts, stack))
    decreases |parts|
  {
    if parts != [] {
      assert Settled(rooted, Step(rooted, parts[0], stack));
      CanonSettles(rooted, parts[1..], Step(rooted, parts[0], stack));
    }
  }

  lemma {:induction false} CanonOfSettled(rooted: bool, stack: seq<string>, parts: seq<string>)
    requires Settled(rooted, stack + parts)
    ensures Canon(rooted, parts, stack) == stack + parts
    decreases |parts|
  {
    if parts != [] {
      var all := stack + parts;
      assert all[|stack|] == parts[0];
      if parts[0] == ".." && stack != [] {
        assert all[|stack| - 1] == stack[|stack| - 1];
      }
      assert Step(rooted, parts[0], stack) == stack + [parts[0]];
      assert stack + [parts[0]] + parts[1..] == all;
      CanonOfSettled(rooted, stack + [parts[0]], parts[1..]);
    }
  }

  lemma {:induction false} CanonAppend(rooted: bool, a: seq<string>, b: seq<string>, stack: seq<string>)
    ensures Canon(rooted, a + b, stack) == Canon(rooted, b, Canon(rooted, a, stack))
    decreases |a|
  {
    if a == [] {
      assert a + b == b;
    } else {
      assert (a + b)[1..] == a[1..] + b;
      CanonAppend(rooted, a[1..], b, Step(rooted, a[0], stack));
    }
  }

  /** Segments of a rendering are what was rendered. */
  lemma CleanRender(rooted: bool, segs: seq<string>)
    requires Settled(rooted, segs)
    ensures Clean(Render(rooted, segs)) == Render(rooted, segs)
  {
    var r := Render(rooted, segs);
    assert Free(segs, '/');
    if segs == [] {
      assert r == if rooted then "/" else ".";
      assert Split("", '/') == [""];
      SplitNoSep(".", '/');
      if rooted {
        assert Split(r, '/') == ["", ""];
        assert Canon(true, ["", ""], []) == Canon(true, [""], []) == [];
      } else {
        assert Canon(false, ["."], []) == [];
      }
    } else {
      SplitJoin(segs, '/');
      CanonOfSettled(rooted, [], segs);
      assert [] + segs == segs;
      if rooted {
        SplitAt("", Join(segs, '/'), '/');
        assert r == "" + ['/'] + Join(segs, '/');
        CanonAppend(true, [""], segs, []);
      } else {
        RelativeStart(segs);
      }
    }
  }

  lemma RelativeStart(segs: seq<string>)
    requires Settled(false, segs) && segs != []
    ensures Join(segs, '/') != "" && Join(segs, '/')[0] != '/'
  {
    assert segs[0] != "" && segs[0][0] == Join(segs, '/')[0];
  }

  lemma CleanIdempotent(p: string)
    ensures Clean(Clean(p)) == Clean(p)
  {
    if p == "" {
      CleanRender(false, []);
    } else {
      CanonSettles(p[0] == '/', Split(p, '/'), []);
      CleanRender(p[0] == '/', Canon(p[0] == '/', Split(p, '/'), []));
    }
  }

  /** A climb takes the name before it along, and stops at the root. */
  lemma ClimbingCancels(p: string, seg: string, q: string)
    requires Plain(seg)
    ensures Clean(p + ['/'] + (seg + ['/'] + (".." + ['/'] + q))) == Clean(p + ['/'] + q)
    ensures Clean("" + ['/'] + (".." + ['/'] + q)) == Clean("" + ['/'] + q)
  {
    var climb := ".." + ['/'] + q;
    SplitAt("..", q, '/');
    SplitNoSep("..", '/');
    SplitNoSep(seg, '/');
    SplitAt(seg, climb, '/');
    SplitAt(p, seg + ['/'] + climb, '/');
    SplitAt(p, q, '/');
    SplitAt("", climb, '/');
    SplitAt("", q, '/');
    var rooted := (p + ['/'])[0] == '/';
    CanonCancels(rooted, Split(p, '/'), seg, Split(q, '/'));
    CanonAtRoot(Split(q, '/'));
  }

  lemma CanonCancels(rooted: bool, a: seq<string>, seg: string, b: seq<string>)
    requires Plain(seg)
    ensures Canon(rooted, a + ([seg] + ([".."] + b)), []) == Canon(rooted, a + b, [])
  {
    var stack := Canon(rooted, a, []);
    CanonAppend(rooted, a, [seg] + ([".."] + b), []);
    CanonAppend(rooted, a, b, []);
    assert ([seg] + ([".."] + b))[1..] == [".."] + b && ([".."] + b)[1..] == b;
    assert Step(rooted, "..", Step(rooted, seg, stack)) == stack;
  }

  lemma CanonAtRoot(b: seq<string>)
    ensures Canon(true, [""] + ([".."] + b), []) == Canon(true, [""] + b, [])
  {
    assert ([""] + ([".."] + b))[1..] == [".."] + b && ([".."] + b)[1..] == b && ([""] + b)[1..] == b;
  }

  // ------------------------------------------------------------- validation

  predicate Control(c: char) {
    c < ' ' || '\U{7f}' <= c <= '\U{9f}'
  }

  predicate HasDrivePrefix(p: string) {
    |p| >= 2 && p[1] == ':' && ('A' <= p[0] <= 'Z' || 'a' <= p[0] <= 'z')
  }

  const TRAILING: set<char> := {' ', '.'}

  predicate ValidSegment(seg: string, windows: bool) {
    !(seg == ".." || seg == "." || (windows && HasDrivePrefix(seg))
      || (windows && seg != "" && TrimRight(seg, TRAILING) != seg))
  }

  predicate ValidateRemotePath(p: string, windows: bool, allowRoot: bool) {
    && !(p == "" || (exists c :: c in p && Control(c)) || "//" <= p || "\\\\" <= p)
    && !(windows && '\\' in p)
    && p[0] == '/'
    && |Split(p, '/')| <= 66
    && (forall i :: 0 <= i < |Split(p, '/')| ==> ValidSegment(Split(p, '/')[i], windows))
    && (allowRoot || Clean(p) != "/")
  }

  predicate ValidateChildName(name: string, windows: bool) {
    !((exists c :: c in name && Control(c)) || name == "" || name == "." || name == ".."
      || '/' in name || '\0' in name || '\r' in name || '\n' in name || (windows && '\\' in name)
      || (windows && (TrimRight(name, TRAILING) != name || ':' in name)))
  }

  /** No control character, in either of the two ranges. */
  predicate Printable(s: string) {
    forall i :: 0 <= i < |s| ==> s[i] as int >= 32 && !(127 <= s[i] as int < 160)
  }

  lemma PrintableIff(s: string)
    ensures Printable(s) <==> !exists c :: c in s && Control(c)
  {
    assert forall i :: 0 <= i < |s| ==> s[i] in s;
  }

  lemma TrimmedIff(s: string)
    ensures TrimRight(s, TRAILING) == s <==> s == "" || (s[|s| - 1] != '.' && s[|s| - 1] != ' ')
  {
  }

  /** Which names of directory entries are accepted, by their characters. */
  lemma ChildNameIff(name: string, windows: bool)
    ensures ValidateChildName(name, windows) <==>
              && name !in {"", ".", ".."} && Printable(name) && '/' !in name
              && (windows ==> '\\' !in name && ':' !in name && name[|name| - 1] != '.' && name[|name| - 1] != ' ')
  {
    TrimmedIff(name);
    PrintableIff(name);
    assert forall c :: c in name ==> exists i :: 0 <= i < |name| && name[i] == c;
  }

  /** What may stand between two slashes: nothing that climbs or stands still, on Windows nothing ambiguous. */
  predicate PartAllowed(part: string, windows: bool) {
    && part != "." && part != ".."
    && (windows && part != "" ==> part[|part| - 1] != '.' && part[|part| - 1] != ' ')
    && (windows && |part| >= 2 && part[1] == ':' ==> !('a' <= part[0] <= 'z' || 'A' <= part[0] <= 'Z'))
  }

  ghost predicate PartsAllowed(p: string, windows: bool) {
    forall part, i: nat :: '/' !in part && PartAt(p, '/', part, i) ==> PartAllowed(part, windows)
  }

  lemma SegmentIff(part: string, windows: bool)
    ensures ValidSegment(part, windows) <==> PartAllowed(part, windows)
  {
    TrimmedIff(part);
  }

  lemma PartsAllowedIff(p: string, windows: bool)
    ensures PartsAllowed(p, windows)
            <==> forall i :: 0 <= i < |Split(p, '/')| ==> ValidSegment(Split(p, '/')[i], windows)
  {
    var parts := Split(p, '/');
    if PartsAllowed(p, windows) {
      forall i | 0 <= i < |parts| ensures ValidSegment(parts[i], windows) {
        SplitMember(p, '/', parts[i]);
        assert parts[i] in parts;
        SegmentIff(parts[i], windows);
      }
    }
    if forall i :: 0 <= i < |parts| ==> ValidSegment(parts[i], windows) {
      forall part, i: nat | '/' !in part && PartAt(p, '/', part, i) ensures PartAllowed(part, windows) {
        SplitMember(p, '/', part);
        SegmentIff(part, windows);
      }
    }
  }

  /** Which paths are accepted, by their characters. */
  lemma RemotePathIff(p: string, windows: bool, allowRoot: bool)
    ensures ValidateRemotePath(p, windows, allowRoot) <==>
              && p != "" && p[0] == '/' && !("//" <= p) && multiset(p)['/'] <= 65
              && Printable(p) && (windows ==> '\\' !in p) && PartsAllowed(p, windows)
              && (allowRoot || exists i :: 0 <= i < |p| && p[i] != '/')
  {
    SplitCount(p, '/');
    PrintableIff(p);
    PartsAllowedIff(p, windows);
    if PartsAllowed(p, windows) && p != "" && p[0] == '/' {
      RootIff(p, windows);
    }
  }

  /** Only slashes clean to the root. */
  lemma RootIff(p: string, windows: bool)
    requires PartsAllowed(p, windows) && p != "" && p[0] == '/'
    ensures Clean(p) == "/" <==> forall i :: 0 <= i < |p| ==> p[i] == '/'
  {
    SplitMember(p, '/', ".");
    SplitMember(p, '/', "..");
    assert !PartAllowed(".", windows) && !PartAllowed("..", windows);
    CleanRooted(p);
    NonEmptyIff(p);
    assert Clean(p) == "/" + Join(Segments(p), '/');
  }

  lemma {:induction false} NonEmptyIff(p: string)
    ensures NonEmpty(Split(p, '/')) == [] <==> forall i :: 0 <= i < |p| ==> p[i] == '/'
  {
    if p != "" {
      NonEmptyIff(p[1..]);
      assert forall i :: 0 < i < |p| ==> p[i] == p[1..][i - 1];
      assert (forall i :: 0 <= i < |p[1..]| ==> p[1..][i] == '/') && p[0] == '/' ==>
          forall i :: 0 <= i < |p| ==> p[i] == '/';
    }
  }

  // ------------------------------------------------------------- comparison

  function TrimAll(parts: seq<string>): (r: seq<string>)
    ensures |r| == |parts| && forall k :: 0 <= k < |parts| ==> r[k] == TrimRight(parts[k], TRAILING)
  {
    seq(|parts|, k requires 0 <= k < |parts| => TrimRight(parts[k], TRAILING))
  }

  function ComparisonPath(lower: Lowering, p: string, windows: bool): string {
    if windows then Clean(Lower(lower, Join(TrimAll(Split(Replace(p, '\\', '/'), '/')), '/'))) else Clean(p)
  }

  /** The loop that trims each part in place. */
  method Compare(lower: Lowering, p: string, windows: bool) returns (r: string)
    ensures r == ComparisonPath(lower, p, windows)
  {
    r := p;
    if windows {
      r := Replace(r, '\\', '/');
      var parts := Split(r, '/');
      ghost var original := parts;
      for i := 0 to |parts|
        invariant |parts| == |original|
        invariant forall k :: 0 <= k < i ==> parts[k] == TrimRight(original[k], TRAILING)
        invariant forall k :: i <= k < |parts| ==> parts[k] == original[k]
      {
        parts := parts[i := TrimRight(parts[i], TRAILING)];
      }
      assert parts == TrimAll(original);
      r := Lower(lower, Join(parts, '/'));
    }
    r := Clean(r);
  }

  predicate PathsOverlap(lower: Lowering, src: string, dst: string, windows: bool) {
    var a, b := ComparisonPath(lower, src, windows), ComparisonPath(lower, dst, windows);
    a == b || TrimRight(a, {'/'}) + "/" <= b
  }

  // ---------------------------------------------- what overlap means, by segments

  /** The non-empty parts of a path. */
  function NonEmpty(parts: seq<string>): seq<string> {
    if parts == [] then []
    else (if parts[0] == "" then [] else [parts[0]]) + NonEmpty(parts[1..])
  }

  /** A path's canonical segments as the comparison sees them. */
  function Key(lower: Lowering, p: string, windows: bool): seq<string> {
    var segs := NonEmpty(Split(p, '/'));
    if windows then LowerAll(lower, segs) else segs
  }

  lemma {:induction false} CanonIsNonEmpty(parts: seq<string>, stack: seq<string>)
    requires forall i :: 0 <= i < |parts| ==> parts[i] != "." && parts[i] != ".."
    ensures Canon(true, parts, stack) == stack + NonEmpty(parts)
    decreases |parts|
  {
    if parts != [] {
      CanonIsNonEmpty(parts[1..], Step(true, parts[0], stack));
      if parts[0] != "" {
        assert stack + [parts[0]] + NonEmpty(parts[1..]) == stack + ([parts[0]] + NonEmpty(parts[1..]));
      } else {
        assert [] + NonEmpty(parts[1..]) == NonEmpty(parts[1..]);
      }
    }
  }

  function Segments(p: string): seq<string> {
    NonEmpty(Split(p, '/'))
  }

  /** An absolute path, of any depth, none of whose parts climbs or stands still. */
  predicate Rooted(p: string) {
    p != "" && p[0] == '/' && "." !in Split(p, '/') && ".." !in Split(p, '/')
  }

  lemma ValidIsRooted(p: string, windows: bool)
    requires ValidateRemotePath(p, windows, true)
    ensures Rooted(p)
  {
    forall part | part in Split(p, '/') ensures part != "." && part != ".." {
      var i :| 0 <= i < |Split(p, '/')| && Split(p, '/')[i] == part;
      assert ValidSegment(Split(p, '/')[i], windows);
    }
  }

  /** Such a path cleans to its segments. */
  lemma CleanRooted(p: string)
    requires Rooted(p)
    ensures Clean(p) == Render(true, Segments(p)) && AllPlain(Segments(p))
    ensures Canon(true, Split(p, '/'), []) == Segments(p)
  {
    var parts := Split(p, '/');
    forall i | 0 <= i < |parts| ensures parts[i] != "." && parts[i] != ".." {
      assert parts[i] in parts;
    }
    NonEmptyPlain(parts);
    CanonIsNonEmpty(parts, []);
    assert [] + NonEmpty(parts) == NonEmpty(parts);
  }

  /** The standard library's path.Join of two elements. */
  function PathJoin(a: string, b: string): string {
    if a == "" then if b == "" then "" else Clean(b)
    else if b == "" then Clean(a)
    else Clean(a + "/" + b)
  }

  lemma {:induction false} NonEmptyOfLower(lower: Lowering, parts: seq<string>)
    ensures NonEmpty(LowerAll(lower, parts)) == LowerAll(lower, NonEmpty(parts))
  {
    if parts == [] {
      assert LowerAll(lower, parts) == [];
    } else {
      NonEmptyOfLower(lower, parts[1..]);
      assert LowerAll(lower, parts)[1..] == LowerAll(lower, parts[1..]);
      var tail := NonEmpty(parts[1..]);
      assert LowerAll(lower, [parts[0]] + tail) == [Lower(lower, parts[0])] + LowerAll(lower, tail);
    }
  }

  lemma {:induction false} NonEmptyPlain(parts: seq<string>)
    requires Free(parts, '/')
    requires forall i :: 0 <= i < |parts| ==> parts[i] != "." && parts[i] != ".."
    ensures AllPlain(NonEmpty(parts))
  {
    if parts != [] {
      NonEmptyPlain(parts[1..]);
    }
  }

  lemma LowerKeepsPlain(lower: Lowering, seg: string)
    ensures Plain(seg) ==> Plain(Lower(lower, seg))
    ensures seg != "." && seg != ".." ==> Lower(lower, seg) != "." && Lower(lower, seg) != ".."
    ensures '/' !in seg ==> '/' !in Lower(lower, seg)
  {
    if Lower(lower, seg) == "." {
      assert seg[0] == '.';
    }
    if Lower(lower, seg) == ".." {
      assert seg[0] == '.' && seg[1] == '.';
    }
    if '/' in Lower(lower, seg) {
      var k :| 0 <= k < |seg| && Lower(lower, seg)[k] == '/';
      assert seg[k] == '/';
    }
  }

  /** On a validated path the comparison form is the rendering of its key. */
  lemma ComparisonIsKey(lower: Lowering, p: string, windows: bool)
    requires ValidateRemotePath(p, windows, true)
    ensures ComparisonPath(lower, p, windows) == Render(true, Key(lower, p, windows))
    ensures AllPlain(Key(lower, p, windows))
  {
    var parts := Split(p, '/');
    assert forall i :: 0 <= i < |parts| ==> ValidSegment(parts[i], windows);
    NonEmptyPlain(parts);
    if windows {
      assert Replace(p, '\\', '/') == p;
      assert TrimAll(parts) == parts;
      JoinSplit(p, '/');
      LowerJoin(lower, parts);
      var lowered := LowerAll(lower, parts);
      forall i | 0 <= i < |lowered| ensures '/' !in lowered[i] && lowered[i] != "." && lowered[i] != ".." {
        LowerKeepsPlain(lower, parts[i]);
      }
      SplitJoin(lowered, '/');
      CanonIsNonEmpty(lowered, []);
      assert [] + NonEmpty(lowered) == NonEmpty(lowered);
      NonEmptyOfLower(lower, parts);
      assert Lower(lower, p)[0] == '/';
      forall i | 0 <= i < |Key(lower, p, true)| ensures Plain(Key(lower, p, true)[i]) {
        LowerKeepsPlain(lower, NonEmpty(parts)[i]);
      }
    } else {
      CanonIsNonEmpty(parts, []);
      assert [] + NonEmpty(parts) == NonEmpty(parts);
    }
  }

  lemma RenderSegments(a: seq<string>, b: seq<string>)
    requires AllPlain(a) && AllPlain(b)
    ensures Render(true, a) == Render(true, b) <==> a == b
  {
    assert Render(true, a)[1..] == Join(a, '/') && Render(true, b)[1..] == Join(b, '/');
    if a != [] {
      SplitJoin(a, '/');
    }
    if b != [] {
      SplitJoin(b, '/');
    }
    assert Split("", '/') == [""];
    assert a != [] ==> a[0] != "";
    assert b != [] ==> b[0] != "";
  }

  lemma {:induction false} JoinEndsPlain(a: seq<string>)
    requires AllPlain(a) && a != []
    ensures Join(a, '/') != "" && Join(a, '/')[|Join(a, '/')| - 1] != '/'
  {
    if |a| > 1 {
      JoinEndsPlain(a[1..]);
    }
  }

  lemma JoinedIsPrefix(a: seq<string>, b: seq<string>, rest: string)
    requires AllPlain(a) && AllPlain(b) && a != [] && b != []
    requires Join(b, '/') == Join(a, '/') + ['/'] + rest
    ensures a < b
  {
    SplitAt(Join(a, '/'), rest, '/');
    SplitJoin(a, '/');
    SplitJoin(b, '/');
    assert b == a + Split(rest, '/');
    assert b[..|a|] == a;
  }

  lemma SlashedIsPrefix(a: seq<string>, b: seq<string>)
    requires AllPlain(a) && AllPlain(b) && a != []
    requires Render(true, a) + "/" <= Render(true, b)
    ensures a < b
  {
    var x, y := Join(a, '/'), Join(b, '/');
    assert Render(true, a)[1..] == x && Render(true, b)[1..] == y;
    assert x + "/" <= y by {
      assert (Render(true, a) + "/")[1..] == x + "/";
      assert Render(true, b)[..|x| + 2][1..] == y[..|x| + 1];
    }
    assert y == x + ['/'] + y[|x| + 1..];
    JoinedIsPrefix(a, b, y[|x| + 1..]);
  }

  lemma PrefixIsSlashed(a: seq<string>, b: seq<string>)
    requires a != [] && a < b
    ensures Render(true, a) + "/" <= Render(true, b)
  {
    assert b == a + b[|a|..] && b[|a|..] != [];
    JoinAppend(a, b[|a|..], '/');
    assert Render(true, b) == Render(true, a) + "/" + Join(b[|a|..], '/');
  }

  /** A rendering followed by a slash starts another exactly when its segments come first in it. */
  lemma ProperPrefix(a: seq<string>, b: seq<string>)
    requires AllPlain(a) && AllPlain(b) && a != []
    ensures Render(true, a) + "/" <= Render(true, b) <==> a < b
  {
    if Render(true, a) + "/" <= Render(true, b) {
      SlashedIsPrefix(a, b);
    }
    if a < b {
      PrefixIsSlashed(a, b);
    }
  }

  lemma RenderedOverlap(a: seq<string>, b: seq<string>)
    requires AllPlain(a) && AllPlain(b)
    ensures (var x, y := Render(true, a), Render(true, b);
      x == y || TrimRight(x, {'/'}) + "/" <= y <==> a <= b)
  {
    var x := Render(true, a);
    RenderSegments(a, b);
    if a == [] {
      assert TrimRight(x, {'/'}) == "" by {
        assert x == "/" && x[..0] == "" && TrimRight("", {'/'}) == "";
      }
    } else {
      JoinEndsPlain(a);
      assert TrimRight(x, {'/'}) == x;
      ProperPrefix(a, b);
    }
  }

  /** The overlap test decides exactly the segment-prefix relation on comparison keys. */
  lemma OverlapIsPrefix(lower: Lowering, src: string, dst: string, windows: bool)
    requires ValidateRemotePath(src, windows, true) && ValidateRemotePath(dst, windows, true)
    ensures PathsOverlap(lower, src, dst, windows) <==> Key(lower, src, windows) <= Key(lower, dst, windows)
  {
    ComparisonIsKey(lower, src, windows);
    ComparisonIsKey(lower, dst, windows);
    RenderedOverlap(Key(lower, src, windows), Key(lower, dst, windows));
  }

  /** Hence the relation is reflexive and transitive. */
  lemma OverlapIsAPreorder(lower: Lowering, a: string, b: string, c: string, windows: bool)
    requires ValidateRemotePath(a, windows, true) && ValidateRemotePath(b, windows, true)
             && ValidateRemotePath(c, windows, true)
    ensures PathsOverlap(lower, a, a, windows)
    ensures PathsOverlap(lower, a, b, windows) && PathsOverlap(lower, b, c, windows) ==>
              PathsOverlap(lower, a, c, windows)
  {
    OverlapIsPrefix(lower, a, b, windows);
    OverlapIsPrefix(lower, b, c, windows);
    OverlapIsPrefix(lower, a, c, windows);
  }

  /** Paths that read alike: the same non-empty parts, on a Windows server up to case. */
  predicate SameParts(lower: Lowering, p: string, q: string, windows: bool) {
    if windows then NonEmpty(Split(Lower(lower, p), '/')) == NonEmpty(Split(Lower(lower, q), '/'))
    else NonEmpty(Split(p, '/')) == NonEmpty(Split(q, '/'))
  }

  /** Slashes repeated anywhere and, on Windows servers, a different case change no verdict. */
  lemma OverlapIgnoresSpelling(lower: Lowering, p: string, q: string, other: string, windows: bool)
    requires ValidateRemotePath(p, windows, true) && ValidateRemotePath(q, windows, true)
    requires ValidateRemotePath(other, windows, true) && SameParts(lower, p, q, windows)
    ensures PathsOverlap(lower, p, other, windows) == PathsOverlap(lower, q, other, windows)
    ensures PathsOverlap(lower, other, p, windows) == PathsOverlap(lower, other, q, windows)
  {
    KeyOfLower(lower, p);
    KeyOfLower(lower, q);
    OverlapIsPrefix(lower, p, other, windows);
    OverlapIsPrefix(lower, q, other, windows);
    OverlapIsPrefix(lower, other, p, windows);
    OverlapIsPrefix(lower, other, q, windows);
  }

  lemma {:induction false} NonEmptyAppend(a: seq<string>, b: seq<string>)
    ensures NonEmpty(a + b) == NonEmpty(a) + NonEmpty(b)
  {
    if a == [] {
      assert a + b == b;
    } else {
      NonEmptyAppend(a[1..], b);
      var all := a + b;
      assert all[1..] == a[1..] + b && all[0] == a[0];
      Regroup(if a[0] == "" then [] else [a[0]], NonEmpty(a[1..]), NonEmpty(b));
    }
  }

  lemma {:induction false} SplitOfLower(lower: Lowering, s: string)
    ensures Split(Lower(lower, s), '/') == LowerAll(lower, Split(s, '/'))
  {
    JoinSplit(s, '/');
    var parts := Split(s, '/');
    LowerJoin(lower, parts);
    forall i | 0 <= i < |parts| ensures '/' !in LowerAll(lower, parts)[i] {
      LowerKeepsPlain(lower, parts[i]);
    }
    SplitJoin(LowerAll(lower, parts), '/');
  }

  lemma KeyOfLower(lower: Lowering, p: string)
    ensures Key(lower, p, true) == NonEmpty(Split(Lower(lower, p), '/'))
  {
    SplitOfLower(lower, p);
    NonEmptyOfLower(lower, Split(p, '/'));
  }

  lemma RenderedSegments(segs: seq<string>)
    requires AllPlain(segs) && segs != []
    ensures Rooted(Render(true, segs)) && Segments(Render(true, segs)) == segs
  {
    SplitJoin(segs, '/');
    SplitAt("", Join(segs, '/'), '/');
    assert Render(true, segs) == "" + ['/'] + Join(segs, '/');
    assert Split(Render(true, segs), '/') == [""] + segs;
    NonEmptyAppend([""], segs);
    AllNonEmpty(segs);
    assert NonEmpty([""]) == [];
  }

  lemma {:induction false} AllNonEmpty(segs: seq<string>)
    requires AllPlain(segs)
    ensures NonEmpty(segs) == segs
  {
    if segs != [] {
      AllNonEmpty(segs[1..]);
    }
  }

  // ------------------------------------------------------- directory and name

  /** The standard library's path.Dir. */
  function PathDir(p: string): string {
    Clean(p[..LastIndex(p, '/') + 1])
  }

  /** The standard library's path.Base. */
  function PathBase(p: string): string {
    var t := TrimRight(p, {'/'});
    var last := t[LastIndex(t, '/') + 1..];
    if p == "" then "." else if last == "" then "/" else last
  }

  lemma DirAndBase(segs: seq<string>)
    requires AllPlain(segs) && segs != []
    ensures PathDir(Render(true, segs)) == Render(true, segs[..|segs| - 1])
    ensures PathBase(Render(true, segs)) == segs[|segs| - 1]
  {
    var init, last, p := segs[..|segs| - 1], segs[|segs| - 1], Render(true, segs);
    JoinLast(segs);
    var at := |p| - |last| - 1;
    assert p[at] == '/' && p[at + 1..] == last;
    assert forall k :: at < k < |p| ==> p[k] == last[k - at - 1];
    assert LastIndex(p, '/') == at;
    assert TrimRight(p, {'/'}) == p;
    SlashAfter(init);
    assert p[..at + 1] == SlashEnded(init);
  }

  /** The rendering of `segs` with a slash behind it. */
  function SlashEnded(segs: seq<string>): string {
    if segs == [] then "/" else Render(true, segs) + "/"
  }

  lemma JoinLast(segs: seq<string>)
    requires AllPlain(segs) && segs != []
    ensures Render(true, segs) == SlashEnded(segs[..|segs| - 1]) + segs[|segs| - 1]
  {
    var init, last := segs[..|segs| - 1], segs[|segs| - 1];
    assert segs == init + [last];
    if init != [] {
      JoinAppend(init, [last], '/');
    }
  }

  lemma TrailingSlash(q: string)
    ensures NonEmpty(Split(q + ['/'], '/')) == NonEmpty(Split(q, '/'))
  {
    SplitAt(q, "", '/');
    assert q + ['/'] + "" == q + ['/'];
    NonEmptyAppend(Split(q, '/'), [""]);
    assert NonEmpty([""]) == [];
    assert NonEmpty(Split(q, '/')) + [] == NonEmpty(Split(q, '/'));
  }

  lemma SlashAfter(segs: seq<string>)
    requires AllPlain(segs)
    ensures Clean(SlashEnded(segs)) == Render(true, segs)
  {
    if segs == [] {
      CleanRender(true, []);
      assert Render(true, []) == "/";
    } else {
      var q := Render(true, segs);
      RenderedSegments(segs);
      TrailingSlash(q);
      SplitAt(q, "", '/');
      assert q + "/" == q + ['/'] + "" && q + "/" == q + ['/'];
      CleanRooted(q + "/");
    }
  }

  // ------------------------------------------------------------- idempotence

  /** A segment the Windows form cannot change any further. */
  predicate Folded(lower: Lowering, seg: string) {
    Lower(lower, seg) == seg && '\\' !in seg && TrimRight(seg, TRAILING) == seg
  }

  lemma {:induction false} CanonKeepsFolded(lower: Lowering, rooted: bool, parts: seq<string>, stack: seq<string>)
    requires forall i :: 0 <= i < |parts| ==> Folded(lower, parts[i])
    requires forall i :: 0 <= i < |stack| ==> Folded(lower, stack[i])
    ensures forall i :: 0 <= i < |Canon(rooted, parts, stack)| ==> Folded(lower, Canon(rooted, parts, stack)[i])
    decreases |parts|
  {
    if parts != [] {
      CanonKeepsFolded(lower, rooted, parts[1..], Step(rooted, parts[0], stack));
    }
  }

  lemma FoldedPart(lower: Lowering, part: string)
    requires '\\' !in part
    ensures Folded(lower, Lower(lower, TrimRight(part, TRAILING)))
  {
    var t := TrimRight(part, TRAILING);
    var l := Lower(lower, t);
    assert Lower(lower, l) == l;
    assert l == "" || l[|l| - 1] !in TRAILING;
  }

  lemma ComparisonOfEmpty(lower: Lowering, rooted: bool)
    ensures ComparisonPath(lower, Render(rooted, []), true) == Render(rooted, [])
  {
    CleanRender(rooted, []);
    SplitNoSep("", '/');
    if rooted {
      FoldingFolded(lower, ["", ""]);
      assert Join(["", ""], '/') == "/" && Render(true, []) == "/";
    } else {
      SplitNoSep(".", '/');
      assert "."[..0] == "" && TrimRight(".", TRAILING) == TrimRight("", TRAILING);
      assert Replace(".", '\\', '/') == ".";
      assert TrimAll(["."]) == [""];
      assert Lower(lower, "") == "";
    }
  }

  /** Replacing, trimming and lowering leave folded parts as they are. */
  lemma FoldingFolded(lower: Lowering, parts: seq<string>)
    requires parts != [] && Free(parts, '/') && forall i :: 0 <= i < |parts| ==> Folded(lower, parts[i])
    ensures var c := Join(parts, '/');
            Lower(lower, Join(TrimAll(Split(Replace(c, '\\', '/'), '/')), '/')) == c
  {
    var c := Join(parts, '/');
    NoBackslash(parts);
    assert Replace(c, '\\', '/') == c;
    SplitJoin(parts, '/');
    assert TrimAll(parts) == parts;
    LowerJoin(lower, parts);
    assert LowerAll(lower, parts) == parts;
  }

  /** Comparing the already folded rendering changes nothing. */
  lemma ComparisonOfFolded(lower: Lowering, rooted: bool, segs: seq<string>)
    requires Settled(rooted, segs) && forall i :: 0 <= i < |segs| ==> Folded(lower, segs[i])
    ensures ComparisonPath(lower, Render(rooted, segs), true) == Render(rooted, segs)
  {
    if segs == [] {
      ComparisonOfEmpty(lower, rooted);
    } else {
      CleanRender(rooted, segs);
      if rooted {
        RootedParts(lower, segs);
        FoldingFolded(lower, [""] + segs);
      } else {
        FoldingFolded(lower, segs);
      }
    }
  }

  /** A rooted rendering is its segments joined after an empty one. */
  lemma RootedParts(lower: Lowering, segs: seq<string>)
    requires segs != [] && Free(segs, '/') && forall i :: 0 <= i < |segs| ==> Folded(lower, segs[i])
    ensures Render(true, segs) == Join([""] + segs, '/')
    ensures Free([""] + segs, '/') && forall i :: 0 <= i < |segs| + 1 ==> Folded(lower, ([""] + segs)[i])
  {
    RootedJoin(segs);
    var all := [""] + segs;
    forall i | 0 <= i < |all| ensures Folded(lower, all[i]) && '/' !in all[i] {
      assert all[i] == if i == 0 then "" else segs[i - 1];
    }
  }

  lemma RootedJoin(segs: seq<string>)
    requires segs != []
    ensures Join([""] + segs, '/') == "/" + Join(segs, '/')
  {
    JoinAppend([""], segs, '/');
  }

  lemma {:induction false} NoBackslash(parts: seq<string>)
    requires forall i :: 0 <= i < |parts| ==> '\\' !in parts[i]
    ensures '\\' !in Join(parts, '/')
  {
    if |parts| > 1 {
      NoBackslash(parts[1..]);
    }
  }

  /** For every string at all, valid or not, comparing twice is comparing once. */
  lemma ComparisonIdempotent(lower: Lowering, p: string, windows: bool)
    ensures ComparisonPath(lower, ComparisonPath(lower, p, windows), windows) == ComparisonPath(lower, p, windows)
  {
    if !windows {
      CleanIdempotent(p);
    } else {
      var parts := TrimAll(Split(Replace(p, '\\', '/'), '/'));
      var q := Lower(lower, Join(parts, '/'));
      LowerJoin(lower, parts);
      var folded := LowerAll(lower, parts);
      assert '\\' !in Replace(p, '\\', '/');
      SplitWithout(Replace(p, '\\', '/'), '\\');
      forall i | 0 <= i < |folded| ensures Folded(lower, folded[i]) && '/' !in folded[i] {
        FoldedPart(lower, Split(Replace(p, '\\', '/'), '/')[i]);
        LowerKeepsPlain(lower, parts[i]);
      }
      SplitJoin(folded, '/');
      if q == "" {
        ComparisonOfFolded(lower, false, []);
      } else {
        var rooted := q[0] == '/';
        CanonSettles(rooted, folded, []);
        CanonKeepsFolded(lower, rooted, folded, []);
        ComparisonOfFolded(lower, rooted, Canon(rooted, folded, []));
      }
    }
  }

  // ------------------------------------------- what a Windows server does not tell apart

  /**
   * For every string: the other slash, a dot or a blank at the end of a part, and the case of
   * any letter make no difference.
   */
  lemma SpellingsCompareAlike(lower: Lowering, a: string, c: char, b: string)
    ensures ComparisonPath(lower, a + "\\" + b, true) == ComparisonPath(lower, a + "/" + b, true)
    ensures (c == '.' || c == ' ') && (b == "" || b[0] == '/' || b[0] == '\\') ==>
              ComparisonPath(lower, a + [c] + b, true) == ComparisonPath(lower, a + b, true)
    ensures ComparisonPath(lower, Lower(lower, a), true) == ComparisonPath(lower, a, true)
  {
    assert Replace(a + "\\" + b, '\\', '/') == Replace(a + "/" + b, '\\', '/');
    if (c == '.' || c == ' ') && (b == "" || b[0] == '/' || b[0] == '\\') {
      var x, y := Replace(a, '\\', '/'), Replace(b, '\\', '/');
      assert Replace(a + [c] + b, '\\', '/') == x + [c] + y && Replace(a + b, '\\', '/') == x + y;
      TrailingIsTrimmed(x, c, y);
    }
    LoweredCompares(lower, a);
  }

  lemma TrimAllAppend(a: seq<string>, b: seq<string>)
    ensures TrimAll(a + b) == TrimAll(a) + TrimAll(b)
  {
  }

  function LongerLast(parts: seq<string>, c: char): seq<string>
    requires parts != []
  {
    parts[|parts| - 1 := parts[|parts| - 1] + [c]]
  }

  lemma PushLonger(d: char, parts: seq<string>, c: char)
    requires parts != []
    ensures Push(d, '/', LongerLast(parts, c)) == LongerLast(Push(d, '/', parts), c)
  {
    var x, y := Push(d, '/', LongerLast(parts, c)), LongerLast(Push(d, '/', parts), c);
    if d != '/' && |parts| == 1 {
      assert [d] + (parts[0] + [c]) == [d] + parts[0] + [c];
    }
    assert |x| == |y| && forall i :: 0 <= i < |x| ==> x[i] == y[i];
  }

  lemma {:induction false} SplitSnoc(s: string, c: char)
    requires c != '/'
    ensures Split(s + [c], '/') == LongerLast(Split(s, '/'), c)
  {
    if s == "" {
      SplitNoSep([c], '/');
      assert "" + [c] == [c];
    } else {
      SplitSnoc(s[1..], c);
      assert (s + [c])[1..] == s[1..] + [c];
      PushLonger(s[0], Split(s[1..], '/'), c);
    }
  }

  lemma TrailingIsTrimmed(x: string, c: char, y: string)
    requires c in TRAILING && (y == "" || y[0] == '/')
    ensures TrimAll(Split(x + [c] + y, '/')) == TrimAll(Split(x + y, '/'))
  {
    if y == "" {
      LastIsTrimmed(x, c);
      assert x + [c] + y == x + [c] && x + y == x;
    } else {
      TrimmedBeforeSlash(x, c, y[1..]);
      assert y == ['/'] + y[1..];
      Regroup(x + [c], ['/'], y[1..]);
      Regroup(x, ['/'], y[1..]);
    }
  }

  lemma TrimmedBeforeSlash(x: string, c: char, rest: string)
    requires c in TRAILING
    ensures TrimAll(Split(x + [c] + ['/'] + rest, '/')) == TrimAll(Split(x + ['/'] + rest, '/'))
  {
    LastIsTrimmed(x, c);
    TrimmedParts(x + [c], rest);
    TrimmedParts(x, rest);
  }

  lemma TrimmedParts(a: string, b: string)
    ensures TrimAll(Split(a + ['/'] + b, '/')) == TrimAll(Split(a, '/')) + TrimAll(Split(b, '/'))
  {
    SplitAt(a, b, '/');
    TrimAllAppend(Split(a, '/'), Split(b, '/'));
  }

  lemma LastIsTrimmed(x: string, c: char)
    requires c in TRAILING
    ensures TrimAll(Split(x + [c], '/')) == TrimAll(Split(x, '/'))
  {
    SplitSnoc(x, c);
    var parts := Split(x, '/');
    var last := parts[|parts| - 1];
    assert (last + [c])[..|last|] == last;
  }

  lemma LowerEnds(lower: Lowering, s: string)
    requires s != ""
    ensures Lower(lower, s)[|s| - 1] in TRAILING <==> s[|s| - 1] in TRAILING
    ensures Lower(lower, s)[..|s| - 1] == Lower(lower, s[..|s| - 1])
  {
    assert Structural('.') && Structural(' ');
  }

  lemma {:induction false} TrimOfLower(lower: Lowering, s: string)
    ensures TrimRight(Lower(lower, s), TRAILING) == Lower(lower, TrimRight(s, TRAILING))
  {
    if s != "" {
      LowerEnds(lower, s);
      if s[|s| - 1] in TRAILING {
        TrimOfLower(lower, s[..|s| - 1]);
      }
    }
  }

  lemma LoweredCompares(lower: Lowering, p: string)
    ensures ComparisonPath(lower, Lower(lower, p), true) == ComparisonPath(lower, p, true)
  {
    var q := Replace(p, '\\', '/');
    assert Replace(Lower(lower, p), '\\', '/') == Lower(lower, q);
    SplitOfLower(lower, q);
    var parts := Split(q, '/');
    TrimAllOfLower(lower, parts);
    LowerJoin(lower, TrimAll(parts));
    var joined := Join(TrimAll(parts), '/');
    assert Lower(lower, Lower(lower, joined)) == Lower(lower, joined);
  }

  lemma TrimAllOfLower(lower: Lowering, parts: seq<string>)
    ensures TrimAll(LowerAll(lower, parts)) == LowerAll(lower, TrimAll(parts))
  {
    forall k | 0 <= k < |parts|
      ensures TrimRight(Lower(lower, parts[k]), TRAILING) == Lower(lower, TrimRight(parts[k], TRAILING))
    {
      TrimOfLower(lower, parts[k]);
    }
  }

  lemma {:induction false} SplitWithout(s: string, c: char)
    requires c !in s
    ensures forall i :: 0 <= i < |Split(s, '/')| ==> c !in Split(s, '/')[i]
  {
    if s != "" {
      SplitWithout(s[1..], c);
    }
  }
}
