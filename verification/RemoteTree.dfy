/**
 * The remote server as a finite tree. Every call may fail, and a failed call may have
 * had part of its effect; what a call can never do is touch anything off its own path.
 */
module RemoteTree {
  /** How deep every recursive walk of a remote tree may go. */
  const MAX_TREE_DEPTH: nat := 64

  type Byte = b: int | 0 <= b < 256
  type Path = seq<string>
  datatype Node = Dir | File(content: seq<Byte>)
  type Tree = map<Path, Node>

  ghost predicate Prefix(a: Path, b: Path) {
    |a| <= |b| && a == b[..|a|]
  }

  lemma PrefixOrder(a: Path, b: Path, c: Path)
    ensures Prefix(a, b) && Prefix(b, c) ==> Prefix(a, c)
    ensures Prefix(a, c) && Prefix(b, c) && |a| <= |b| ==> Prefix(a, b)
  {
    if Prefix(a, b) && Prefix(b, c) {
      assert a == b[..|a|] == c[..|a|];
    }
    if Prefix(a, c) && Prefix(b, c) && |a| <= |b| {
      assert a == c[..|a|] == b[..|a|];
    }
  }

  /** A path of the same length starts another only if it is that path's beginning at every index. */
  lemma PrefixAt(a: Path, b: Path, i: nat)
    requires i < |a| && i < |b|
    ensures Prefix(a, b) ==> a[i] == b[i]
  {
    if Prefix(a, b) {
      assert b[..|a|][i] == b[i];
    }
  }

  function Parent(p: Path): Path
    requires p != []
  {
    p[..|p| - 1]
  }

  ghost predicate IsDir(t: Tree, p: Path) {
    p in t && t[p] == Dir
  }

  /** The root is a directory and every other entry sits in one. */
  ghost predicate WellFormed(t: Tree) {
    IsDir(t, []) && forall p {:trigger Parent(p)} :: p in t && p != [] ==> IsDir(t, Parent(p))
  }

  /** Nothing lies under a path that does not exist, nor under a file. */
  lemma {:induction false} NothingBelow(t: Tree, p: Path, q: Path)
    requires WellFormed(t) && !IsDir(t, p) && Prefix(p, q) && p != q
    ensures q !in t
    decreases |q|
  {
    if q in t {
      if Parent(q) != p {
        assert p == Parent(q)[..|p|];
        NothingBelow(t, p, Parent(q));
      }
      assert false;
    }
  }

  lemma AncestorsExist(t: Tree, q: Path, p: Path)
    requires WellFormed(t) && p in t && Prefix(q, p)
    ensures q in t
  {
    if q !in t {
      NothingBelow(t, q, p);
    }
  }

  /** No file stands on the way to `p`, nor at `p`. */
  ghost predicate Clear(t: Tree, p: Path)
    decreases |p|
  {
    IsDir(t, p) || (p !in t && p != [] && Clear(t, Parent(p)))
  }

  /** The tree with the directory `p` and whatever it lacked on the way there. */
  ghost function WithDirs(t: Tree, p: Path): Tree
    decreases |p|
  {
    if p == [] || p in t then t else WithDirs(t, Parent(p))[p := Dir]
  }

  /** Everything that existed is still there, unchanged. */
  ghost predicate Keeps(before: Tree, after: Tree) {
    forall p :: p in before ==> p in after && after[p] == before[p]
  }

  /** The only new entries are directories on the way to `p`. */
  ghost predicate OnlyDirsTowards(before: Tree, after: Tree, p: Path) {
    Keeps(before, after) && forall q :: q in after && q !in before ==> after[q] == Dir && Prefix(q, p)
  }

  /** Nothing but `p` itself differs, and `p` was not a directory. */
  ghost predicate OnlyFileAt(before: Tree, after: Tree, p: Path) {
    after == before || (p != [] && !IsDir(before, p) && exists c :: after == before[p := File(c)])
  }

  /** Nothing changed, or `p` now holds a beginning of the stream. */
  ghost predicate OnlyBeginning(before: Tree, after: Tree, p: Path, stream: seq<Byte>) {
    after == before || exists n: nat :: n <= |stream| && after == before[p := File(stream[..n])]
  }

  lemma BeginningOfPart(before: Tree, after: Tree, p: Path, part: seq<Byte>, stream: seq<Byte>)
    requires OnlyBeginning(before, after, p, part) && part <= stream
    ensures OnlyBeginning(before, after, p, stream)
  {
    if after != before {
      var n: nat :| n <= |part| && after == before[p := File(part[..n])];
      assert part[..n] == stream[..n];
    }
  }

  /** Nothing off the subtree at `p` differs, and under it entries only disappear. */
  ghost predicate RemovesUnder(before: Tree, after: Tree, p: Path) {
    && (forall q :: q in after ==> q in before && after[q] == before[q])
    && (forall q :: q in before && !Prefix(p, q) ==> q in after)
  }

  lemma DirsChain(a: Tree, b: Tree, c: Tree, p: Path, q: Path)
    requires OnlyDirsTowards(a, b, p) && OnlyDirsTowards(b, c, q) && Prefix(p, q)
    ensures OnlyDirsTowards(a, c, q)
  {
    forall r | Prefix(r, p) ensures Prefix(r, q) {
      assert r == p[..|r|] == q[..|r|];
    }
  }

  lemma PrefixStep(q: Path, p: Path)
    requires p != []
    ensures Prefix(q, p) <==> q == p || Prefix(q, Parent(p))
  {
    assert Prefix(q, Parent(p)) ==> q == Parent(p)[..|q|] == p[..|q|];
    assert Prefix(q, p) && q != p ==> q == p[..|q|] == Parent(p)[..|q|];
  }

  /** It has what there was, and directories on the whole way to `p`. */
  lemma {:induction false} WithDirsAt(t: Tree, p: Path, q: Path)
    requires WellFormed(t) && Clear(t, p)
    ensures q in WithDirs(t, p) <==> q in t || Prefix(q, p)
    ensures q in WithDirs(t, p) ==> WithDirs(t, p)[q] == if q in t then t[q] else Dir
    decreases |p|
  {
    if p in t {
      if Prefix(q, p) {
        AncestorsExist(t, q, p);
      }
    } else {
      WithDirsAt(t, Parent(p), q);
      PrefixStep(q, p);
    }
  }

  lemma {:induction false} ClearBefore(before: Tree, after: Tree, p: Path)
    requires WellFormed(before) && Keeps(before, after) && WellFormed(after) && IsDir(after, p)
    ensures Clear(before, p)
    decreases |p|
  {
    if p !in before {
      ClearBefore(before, after, Parent(p));
    }
  }

  /** Directories towards `p`, and `p` itself: that is exactly what was missing. */
  lemma OnlyMissingDirs(before: Tree, after: Tree, p: Path)
    requires WellFormed(before) && WellFormed(after) && OnlyDirsTowards(before, after, p) && IsDir(after, p)
    ensures Clear(before, p) && after == WithDirs(before, p)
  {
    ClearBefore(before, after, p);
    forall q ensures q in after <==> q in WithDirs(before, p) {
      WithDirsAt(before, p, q);
      if Prefix(q, p) {
        AncestorsExist(after, q, p);
      }
    }
    forall q | q in after ensures after[q] == WithDirs(before, p)[q] {
      WithDirsAt(before, p, q);
    }
  }

  lemma PrefixRefl(p: Path)
    ensures Prefix(p, p) && (p != [] ==> Prefix(Parent(p), p))
  {
    assert p[..|p|] == p;
  }

  lemma AddDir(t: Tree, p: Path)
    requires WellFormed(t) && p != [] && IsDir(t, Parent(p)) && p !in t
    ensures WellFormed(t[p := Dir]) && OnlyDirsTowards(t, t[p := Dir], p)
  {
    PrefixRefl(p);
  }

  /** A file can be put at `p`: its directory is there, and it is none itself. */
  ghost predicate CanHold(t: Tree, p: Path) {
    p != [] && IsDir(t, Parent(p)) && !IsDir(t, p)
  }

  datatype StatResult = Found(isDir: bool) | NotFound | StatFailed
  datatype UploadResult = Uploaded | Incomplete | Refused
  datatype Entry = Entry(name: string, isDir: bool)

  /** The entries are the members of `seen` directly under `p`, each once. */
  ghost predicate ListsOf(t: Tree, p: Path, seen: set<Path>, entries: seq<Entry>) {
    && (forall i {:trigger p + [entries[i].name]} :: 0 <= i < |entries| ==>
          p + [entries[i].name] in t && p + [entries[i].name] in seen
          && (entries[i].isDir <==> t[p + [entries[i].name]] == Dir))
    && Distinct(entries)
    && (forall q {:trigger Parent(q)} :: q in seen && q != [] && Parent(q) == p ==> Listed(entries, q[|q| - 1]))
  }

  predicate Distinct(entries: seq<Entry>) {
    forall i, j :: 0 <= i < j < |entries| ==> entries[i].name != entries[j].name
  }

  ghost predicate Listed(entries: seq<Entry>, name: string) {
    exists i :: 0 <= i < |entries| && entries[i].name == name
  }

  ghost predicate ListsExactly(t: Tree, p: Path, entries: seq<Entry>) {
    ListsOf(t, p, t.Keys, entries)
  }

  /** Nothing directly under `p` is left out. */
  ghost predicate ListsAll(t: Tree, p: Path, entries: seq<Entry>) {
    forall q {:trigger Parent(q)} :: q in t && q != [] && Parent(q) == p ==> Listed(entries, q[|q| - 1])
  }

  predicate Dotted(name: string) {
    name == "." || name == ".."
  }

  /** As the raw commands list a directory: truthfully, except that its own dot and its parent's may be shown. */
  ghost predicate ListsButDots(t: Tree, p: Path, entries: seq<Entry>) {
    && (forall i {:trigger p + [entries[i].name]} :: 0 <= i < |entries| ==>
          && (!Dotted(entries[i].name) ==> p + [entries[i].name] in t)
          && (p + [entries[i].name] in t ==> (entries[i].isDir <==> t[p + [entries[i].name]] == Dir)))
    && Distinct(entries) && ListsAll(t, p, entries)
  }

  lemma DotsShown(t: Tree, p: Path, entries: seq<Entry>)
    requires ListsExactly(t, p, entries) && p + ["."] !in t && p + [".."] !in t
    ensures ListsButDots(t, p, [Entry(".", true), Entry("..", true)] + entries)
  {
    var more := [Entry(".", true), Entry("..", true)] + entries;
    assert forall i :: 2 <= i < |more| ==> more[i] == entries[i - 2];
    forall q | q in t && q != [] && Parent(q) == p ensures Listed(more, q[|q| - 1]) {
      var i :| 0 <= i < |entries| && entries[i].name == q[|q| - 1];
      assert more[i + 2].name == q[|q| - 1];
    }
    forall i | 2 <= i < |more| ensures p + [more[i].name] in t && (more[i].isDir <==> t[p + [more[i].name]] == Dir) {
      assert p + [entries[i - 2].name] in t;
    }
  }

  lemma ListOneMore(t: Tree, p: Path, seen: set<Path>, entries: seq<Entry>, name: string)
    requires ListsOf(t, p, seen, entries) && p + [name] in t && p + [name] !in seen
    ensures ListsOf(t, p, seen + {p + [name]}, entries + [Entry(name, t[p + [name]] == Dir)])
  {
    var more := entries + [Entry(name, t[p + [name]] == Dir)];
    assert more[|entries|].name == name;
    forall q | q in seen + {p + [name]} && q != [] && Parent(q) == p ensures Listed(more, q[|q| - 1]) {
      if q in seen {
        var i :| 0 <= i < |entries| && entries[i].name == q[|q| - 1];
        assert more[i].name == q[|q| - 1];
      }
    }
  }

  /** One command sent to the server. */
  datatype Command =
    | Query(path: Path)
    | Listing(path: Path)
    | Change(path: Path)
    | Store(path: Path, content: seq<Byte>)

  /** What a lookup of one entry may answer, truthful or not. */
  datatype Answer = Is(isDir: bool) | Unsupported | Refusal

  class Remote {
    var tree: Tree
    /** SFTP creates missing parents and accepts an existing directory; FTP does neither. */
    const makesParents: bool
    /** Whether looking at what is there, and making what can be made, never fails for a reason of its own. */
    const readable: bool
    const writable: bool
    /** Whether a lookup of one entry is recognised when it is the nth command; without MLST none is. */
    const looksUp: nat -> bool
    /** Whether what is claimed about entries, in lookups and in listings, is what is there. */
    const truthful: bool
    /** Every command sent so far. */
    var log: seq<Command>

    constructor (tree: Tree, makesParents: bool, readable: bool, writable: bool, looksUp: nat -> bool,
                 truthful: bool)
      ensures this.tree == tree && this.makesParents == makesParents && log == []
      ensures this.readable == readable && this.writable == writable && this.looksUp == looksUp
      ensures this.truthful == truthful
    {
      this.tree, this.makesParents, log := tree, makesParents, [];
      this.readable, this.writable, this.looksUp, this.truthful := readable, writable, looksUp, truthful;
    }

    method Stat(p: Path) returns (r: StatResult)
      modifies this`log
      ensures log == old(log) + [Query(p)]
      ensures r.Found? ==> p in tree && (r.isDir <==> tree[p] == Dir)
      ensures r.NotFound? ==> p !in tree
      ensures readable ==> !r.StatFailed?
    {
      log := log + [Query(p)];
      var fails: bool := *;
      if fails && !readable {
        r := StatFailed;
      } else {
        r := if p in tree then Found(tree[p] == Dir) else NotFound;
      }
    }

    method MakeDir(p: Path) returns (ok: bool)
      requires WellFormed(tree)
      modifies this
      ensures log == old(log) + [Change(p)]
      ensures WellFormed(tree) && OnlyDirsTowards(old(tree), tree, p)
      ensures ok ==> IsDir(tree, p) && (p !in old(tree) || makesParents)
      ensures !makesParents && p != [] && !IsDir(old(tree), Parent(p)) ==> !ok && tree == old(tree)
      ensures writable && p != [] && p !in old(tree) && IsDir(old(tree), Parent(p)) ==> ok
      ensures writable && makesParents && Clear(old(tree), p) ==> ok
    {
      log := log + [Change(p)];
      ok := Create(p);
    }

    /** The server's side of creating a directory. */
    method Create(p: Path) returns (ok: bool)
      requires WellFormed(tree)
      modifies this`tree
      ensures WellFormed(tree) && OnlyDirsTowards(old(tree), tree, p)
      ensures ok ==> IsDir(tree, p) && (p !in old(tree) || makesParents)
      ensures !makesParents && p != [] && !IsDir(old(tree), Parent(p)) ==> !ok && tree == old(tree)
      ensures writable && p != [] && p !in old(tree) && IsDir(old(tree), Parent(p)) ==> ok
      ensures writable && makesParents && Clear(old(tree), p) ==> ok
    {
      ok := false;
      if p == [] {
        ok := makesParents;
      } else if p in tree {
        ok := makesParents && tree[p] == Dir;
      } else {
        if makesParents {
          var made := Create(Parent(p));
          PrefixRefl(p);
          DirsChain(old(tree), tree, tree, Parent(p), p);
          if !made {
            return;
          }
          assert !Prefix(p, Parent(p)) && p !in tree;
        } else if Parent(p) !in tree || tree[Parent(p)] != Dir {
          return;
        }
        // The reply may be lost after the server has acted.
        var acts: bool := *;
        if acts || writable {
          AddDir(tree, p);
          DirsChain(old(tree), tree, tree[p := Dir], p, p);
          tree := tree[p := Dir];
          ok := *;
          ok := ok || writable;
        }
      }
    }

    /** Sends the whole of `content`; anything but `Uploaded` may leave a beginning of it behind. */
    method Upload(p: Path, content: seq<Byte>) returns (r: UploadResult)
      requires WellFormed(tree)
      modifies this
      ensures log == old(log) + [Store(p, content)]
      ensures WellFormed(tree) && OnlyFileAt(old(tree), tree, p)
      ensures OnlyBeginning(old(tree), tree, p, content)
      ensures r.Uploaded? ==> tree == old(tree)[p := File(content)] && CanHold(old(tree), p)
      ensures writable && CanHold(old(tree), p) ==> r.Uploaded?
    {
      log := log + [Store(p, content)];
      r := Refused;
      if p != [] && Parent(p) in tree && tree[Parent(p)] == Dir && !(p in tree && tree[p] == Dir) {
        var works: bool := *;
        if works || writable {
          assert content[..|content|] == content;
          tree := tree[p := File(content)];
          r := Uploaded;
        } else if * {
          var n: nat :| n <= |content|;
          tree := tree[p := File(content[..n])];
          if * {
            r := Incomplete;
          }
        }
      }
    }

    /** The names directly under `p`, each once, in some order. */
    method List(p: Path) returns (ok: bool, entries: seq<Entry>)
      modifies this`log
      ensures log == old(log) + [Listing(p)]
      ensures ok ==> IsDir(tree, p) && ListsExactly(tree, p, entries)
      ensures readable && IsDir(tree, p) ==> ok
    {
      log := log + [Listing(p)];
      ok, entries := false, [];
      if p in tree && tree[p] == Dir {
        var todo := tree.Keys;
        while todo != {}
          invariant todo <= tree.Keys && log == old(log) + [Listing(p)]
          invariant ListsOf(tree, p, tree.Keys - todo, entries)
        {
          var q :| q in todo;
          if q != [] && q[..|q| - 1] == p {
            assert q == p + [q[|q| - 1]];
            ListOneMore(tree, p, tree.Keys - todo, entries, q[|q| - 1]);
            entries := entries + [Entry(q[|q| - 1], tree[q] == Dir)];
          }
          assert tree.Keys - (todo - {q}) == tree.Keys - todo + {q};
          todo := todo - {q};
        }
        assert tree.Keys - {} == tree.Keys;
        ok := *;
        ok := ok || readable;
      }
    }

    /** A download that reports no error delivered the whole file. */
    method Download(p: Path) returns (complete: bool, content: seq<Byte>)
      modifies this`log
      ensures log == old(log) + [Query(p)]
      ensures complete ==> p in tree && tree[p] == File(content)
      ensures readable && p in tree && tree[p].File? ==> complete
    {
      log := log + [Query(p)];
      complete, content := false, [];
      if p in tree && tree[p].File? {
        var works: bool := *;
        if works || readable {
          complete, content := true, tree[p].content;
        } else {
          var n: nat :| n <= |tree[p].content|;
          content := tree[p].content[..n];
        }
      }
    }

    /** What a server may say about one entry, where it does not fail to recognise the command. */
    method Lookup(p: Path) returns (answer: Answer)
      modifies this`log
      ensures log == old(log) + [Query(p)]
      ensures answer.Unsupported? <==> !looksUp(|old(log)|)
      ensures truthful && answer.Is? ==> p in tree && (answer.isDir <==> tree[p] == Dir)
      ensures truthful && readable && p in tree ==> !answer.Refusal?
    {
      if looksUp(|log|) {
        answer := Lstat(p);
      } else {
        log, answer := log + [Query(p)], Unsupported;
      }
    }

    /** The same where every server knows the command. */
    method Lstat(p: Path) returns (answer: Answer)
      modifies this`log
      ensures log == old(log) + [Query(p)] && !answer.Unsupported?
      ensures truthful && answer.Is? ==> p in tree && (answer.isDir <==> tree[p] == Dir)
      ensures truthful && readable && p in tree ==> answer.Is?
    {
      log := log + [Query(p)];
      var fails: bool := *;
      var claim: bool := *;
      if truthful {
        answer := if p in tree && (!fails || readable) then Is(tree[p] == Dir) else Refusal;
      } else {
        answer := if fails then Refusal else Is(claim);
      }
    }

    /** What a server may claim is in a directory. */
    method Claim(p: Path) returns (ok: bool, entries: seq<Entry>)
      modifies this`log
      ensures log == old(log) + [Listing(p)]
      ensures truthful && ok ==> IsDir(tree, p) && ListsButDots(tree, p, entries)
      ensures truthful && readable && IsDir(tree, p) ==> ok
    {
      if truthful {
        ok, entries := List(p);
        var dots: bool := *;
        if ok && dots && p + ["."] !in tree && p + [".."] !in tree {
          DotsShown(tree, p, entries);
          entries := [Entry(".", true), Entry("..", true)] + entries;
        }
      } else {
        log := log + [Listing(p)];
        ok := *;
        entries := *;
      }
    }

    /** DELE: removes a file or nothing; a lost reply reads as failure. */
    method DeleteFile(p: Path) returns (ok: bool)
      requires WellFormed(tree)
      modifies this
      ensures log == old(log) + [Change(p)]
      ensures WellFormed(tree) && RemovesUnder(old(tree), tree, p)
      ensures ok ==> p in old(tree) && old(tree)[p].File? && p !in tree
      ensures writable && p in old(tree) && old(tree)[p].File? ==> ok
    {
      log := log + [Change(p)];
      ok := false;
      var acts: bool := *;
      if p in tree && tree[p].File? && (acts || writable) {
        tree := tree - {p};
        ok := *;
        ok := ok || writable;
      }
    }

    /** RMD: a server removes only an empty directory, and never its root. */
    method RemoveDir(p: Path) returns (ok: bool)
      requires WellFormed(tree)
      modifies this
      ensures log == old(log) + [Change(p)]
      ensures WellFormed(tree) && RemovesUnder(old(tree), tree, p)
      ensures ok ==> p !in tree && IsDir(old(tree), p) && forall name :: p + [name] !in old(tree)
      ensures writable && p != [] && IsDir(old(tree), p) && (forall name :: p + [name] !in old(tree)) ==> ok
    {
      log := log + [Change(p)];
      ok := Unlink(p);
    }

    /** The server's side of removing a directory. */
    method Unlink(p: Path) returns (ok: bool)
      requires WellFormed(tree)
      modifies this`tree
      ensures WellFormed(tree) && RemovesUnder(old(tree), tree, p)
      ensures ok ==> p !in tree && IsDir(old(tree), p) && forall name :: p + [name] !in old(tree)
      ensures writable && p != [] && IsDir(old(tree), p) && (forall name :: p + [name] !in old(tree)) ==> ok
    {
      ok := false;
      var occupied := exists q :: q in tree && q != [] && q[..|q| - 1] == p;
      assert occupied <==> exists name :: p + [name] in tree by {
        assert forall q :: q in tree && q != [] && q[..|q| - 1] == p ==> q == p + [q[|q| - 1]];
        assert forall name :: (p + [name])[..|p + [name]| - 1] == p;
      }
      var acts: bool := *;
      if p != [] && p in tree && tree[p] == Dir && !occupied && (acts || writable) {
        tree := tree - {p};
        ok := *;
        ok := ok || writable;
      }
    }
  }
}
