/** Recursive copy between two remote subtrees, neither of which contains the other. */
module CopyTree {
  import opened RemoteTree
  import opened Subtrees
  import opened Options
  import Paths

  const MAX_VISITS := 100_000

  ghost predicate Disjoint(a: Path, b: Path) {
    !Prefix(a, b) && !Prefix(b, a)
  }

  /** `q` holds the same thing in both trees, or nothing in both. */
  ghost predicate Same(before: Tree, after: Tree, q: Path) {
    (q in before <==> q in after) && (q in before ==> before[q] == after[q])
  }

  /** Off the subtree at `dst` nothing changes but missing directories above it. */
  ghost predicate Confined(before: Tree, after: Tree, dst: Path) {
    forall q :: !Prefix(dst, q) ==> Same(before, after, q) || (q !in before && IsDir(after, q) && Prefix(q, dst))
  }

  /** What a copy leaves at `dst + r`: a file's content, a directory that was there or is new, or the old entry. */
  ghost predicate CopiedAt(before: Tree, after: Tree, src: Path, dst: Path, r: Path) {
    if src + r !in before then Same(before, after, dst + r)
    else if before[src + r].Dir? && dst + r in before then Same(before, after, dst + r)
    else dst + r in after && after[dst + r] == before[src + r]
  }

  /** The copy of the whole subtree: every relative path obeys the rule. */
  ghost predicate Copied(before: Tree, after: Tree, src: Path, dst: Path) {
    forall r :: CopiedAt(before, after, src, dst, r)
  }

  lemma DisjointBelow(src: Path, dst: Path, name: string)
    requires Disjoint(src, dst)
    ensures Disjoint(src + [name], dst + [name])
  {
    Extend(src, [name]);
    Extend(dst, [name]);
    NotBelow(src, dst, name);
    NotBelow(dst, src, name);
  }

  lemma NotBelow(src: Path, dst: Path, name: string)
    requires Disjoint(src, dst)
    ensures !Prefix(src + [name], dst + [name])
  {
    var a, b := src + [name], dst + [name];
    Extend(src, [name]);
    Extend(dst, [name]);
    PrefixOrder(src, a, b);
    PrefixOrder(src, dst, b);
    PrefixOrder(dst, src, b);
  }

  /** Confinement keeps the source: nothing at or below it can be new, and it is off the destination. */
  lemma SourceKept(before: Tree, after: Tree, src: Path, dst: Path, r: Path)
    requires Disjoint(src, dst) && Confined(before, after, dst)
    ensures Same(before, after, src + r)
  {
    var q := src + r;
    Extend(src, r);
    PrefixOrder(src, dst, q);
    PrefixOrder(dst, src, q);
    PrefixOrder(src, q, dst);
  }

  lemma ConfinedChain(a: Tree, b: Tree, c: Tree, dst: Path, name: string)
    requires Confined(a, b, dst) && Confined(b, c, dst + [name]) && dst in b
    ensures Confined(a, c, dst)
  {
    forall q | !Prefix(dst, q) ensures Same(a, c, q) || (q !in a && IsDir(c, q) && Prefix(q, dst)) {
      Extend(dst, [name]);
      PrefixOrder(dst, dst + [name], q);
      PrefixOrder(q, dst, dst + [name]);
      assert Same(a, b, q) || (q !in a && IsDir(b, q) && Prefix(q, dst));
      assert Same(b, c, q) || (q !in b && IsDir(c, q) && Prefix(q, dst + [name]));
    }
  }

  /** Creating the destination directory is confined to it. */
  lemma MakeConfined(before: Tree, after: Tree, dst: Path)
    requires OnlyDirsTowards(before, after, dst)
    ensures Confined(before, after, dst)
    ensures forall r :: r != [] ==> Same(before, after, dst + r)
  {
    forall r: Path | r != [] ensures Same(before, after, dst + r) {
      Extend(dst, r);
    }
  }

  lemma FileConfined(before: Tree, after: Tree, dst: Path)
    requires OnlyFileAt(before, after, dst)
    ensures Confined(before, after, dst)
  {
    assert dst[..|dst|] == dst;
  }

  /** Where the walk over the listing stands after the first `k` names. */
  ghost predicate Progress(before: Tree, now: Tree, src: Path, dst: Path, entries: seq<Entry>, k: nat)
    requires k <= |entries|
  {
    && Confined(before, now, dst)
    && CopiedAt(before, now, src, dst, []) && dst in now
    && (forall r {:trigger CopiedAt(before, now, src, dst, r)} ::
          r != [] && NamedIn(entries, k, r[0]) ==> CopiedAt(before, now, src, dst, r))
    && (forall r {:trigger Untouched(before, now, dst, r)} ::
          r != [] && !NamedIn(entries, k, r[0]) ==> Untouched(before, now, dst, r))
  }

  ghost predicate Untouched(before: Tree, now: Tree, dst: Path, r: Path) {
    Same(before, now, dst + r)
  }

  /** One more child copied advances the walk by one name. */
  lemma Advance(before: Tree, mid: Tree, now: Tree, src: Path, dst: Path, entries: seq<Entry>, k: nat)
    requires k < |entries| && Disjoint(src, dst)
    requires Distinct(entries)
    requires Progress(before, mid, src, dst, entries, k)
    requires Confined(mid, now, dst + [entries[k].name])
    requires Copied(mid, now, src + [entries[k].name], dst + [entries[k].name])
    ensures Progress(before, now, src, dst, entries, k + 1)
  {
    var name := entries[k].name;
    ConfinedChain(before, mid, now, dst, name);
    assert !Prefix(dst + [name], dst);
    assert dst + [] == dst && src + [] == src;
    assert Same(mid, now, dst);
    forall r | r != [] && NamedIn(entries, k + 1, r[0])
      ensures CopiedAt(before, now, src, dst, r)
    {
      assert [r[0]] + r[1..] == r;
      if r[0] == name {
        assert src + [name] + r[1..] == src + r && dst + [name] + r[1..] == dst + r;
        assert CopiedAt(mid, now, src + [name], dst + [name], r[1..]);
        SourceKept(before, mid, src, dst, r);
        assert !NamedIn(entries, k, name);
        assert Untouched(before, mid, dst, r);
      } else {
        assert CopiedAt(before, mid, src, dst, r);
        OffChild(mid, now, dst, name, r);
      }
    }
    forall r | r != [] && !NamedIn(entries, k + 1, r[0])
      ensures Untouched(before, now, dst, r)
    {
      assert entries[k].name != r[0];
      assert Untouched(before, mid, dst, r);
      OffChild(mid, now, dst, name, r);
    }
  }

  lemma OffChild(mid: Tree, now: Tree, dst: Path, name: string, r: Path)
    requires Confined(mid, now, dst + [name]) && r != [] && r[0] != name
    ensures Same(mid, now, dst + r)
  {
    var q := dst + r;
    assert q[|dst|] == r[0] && (dst + [name])[|dst|] == name;
    PrefixAt(dst + [name], q, |dst|);
    PrefixAt(q, dst + [name], |dst|);
  }

  lemma Finished(before: Tree, mid: Tree, now: Tree, src: Path, dst: Path, entries: seq<Entry>)
    requires WellFormed(before) && WellFormed(mid) && Disjoint(src, dst)
    requires Confined(before, mid, dst)
    requires ListsExactly(mid, src, entries)
    requires Progress(before, now, src, dst, entries, |entries|)
    ensures Copied(before, now, src, dst)
  {
    forall r ensures CopiedAt(before, now, src, dst, r) {
      if r != [] && !NamedIn(entries, |entries|, r[0]) {
        UnlistedIsAbsent(mid, src, entries, r);
        SourceKept(before, mid, src, dst, r);
        assert Untouched(before, now, dst, r);
      }
    }
  }

  // ------------------------------------------------------- what can be copied

  /** A directory can be made at `dst`, or something is there. */
  ghost predicate DirReachable(t: Tree, dst: Path, makesParents: bool) {
    dst in t || if makesParents then Clear(t, dst) else dst != [] && IsDir(t, Parent(dst))
  }

  /** One entry of the source allows the copy: its depth, its name, and what sits at its destination. */
  ghost predicate CopyableAt(t: Tree, src: Path, dst: Path, depth: nat, r: Path) {
    src + r in t ==>
      && depth + |r| <= 64
      && (r != [] ==> Paths.ValidateChildName(r[|r| - 1], true))
      && (if t[src + r].File? then !IsDir(t, dst + r)
          else dst + r in t && t[dst + r].File? ==> Childless(t, src + r))
  }

  /** The source is there, its destination can be, and every entry allows the copy. */
  ghost predicate Copyable(t: Tree, src: Path, dst: Path, depth: nat, makesParents: bool) {
    && src in t
    && (if t[src].Dir? then DirReachable(t, dst, makesParents) else dst != [] && IsDir(t, Parent(dst)))
    && AllCopyable(t, src, dst, depth)
  }

  ghost predicate AllCopyable(t: Tree, src: Path, dst: Path, depth: nat) {
    forall r :: CopyableAt(t, src, dst, depth, r)
  }

  ghost predicate NameCopyable(t: Tree, src: Path, dst: Path, depth: nat, name: string) {
    forall r :: r != [] && r[0] == name ==> CopyableAt(t, src, dst, depth, r)
  }

  /** Each entry under the first `k` names has cost one visit, and allowed its copy. */
  ghost predicate Tally(t: Tree, src: Path, dst: Path, depth: nat, entries: seq<Entry>, k: nat, spent: int)
    requires k <= |entries|
  {
    && spent == |Under(t, src, entries, k)|
    && forall r :: r != [] && NamedIn(entries, k, r[0]) ==> CopyableAt(t, src, dst, depth, r)
  }

  /** Confinement keeps the source's subtree, and with it its size and its empty directories. */
  lemma SubtreeKept(before: Tree, mid: Tree, src: Path, dst: Path, r: Path)
    requires Disjoint(src, dst) && Confined(before, mid, dst)
    ensures Subtree(mid, src + r) == Subtree(before, src + r)
    ensures Childless(mid, src + r) <==> Childless(before, src + r)
  {
    forall q ensures q in Subtree(mid, src + r) <==> q in Subtree(before, src + r) {
      if Prefix(src + r, q) {
        assert src + (r + q[|src + r|..]) == q;
        SourceKept(before, mid, src, dst, r + q[|src + r|..]);
      }
    }
    SourceKept(before, mid, src, dst, r);
    forall name: string ensures src + r + [name] in mid <==> src + r + [name] in before {
      assert src + (r + [name]) == src + r + [name];
      SourceKept(before, mid, src, dst, r + [name]);
    }
  }

  /** A child judged in the middle of the walk is judged as it was at the start. */
  lemma ChildCopyableAt(before: Tree, mid: Tree, src: Path, dst: Path, depth: nat, name: string, r: Path)
    requires Disjoint(src, dst) && Confined(before, mid, dst) && Paths.ValidateChildName(name, true)
    requires Same(before, mid, dst + ([name] + r))
    ensures CopyableAt(mid, src + [name], dst + [name], depth + 1, r)
            <==> CopyableAt(before, src, dst, depth, [name] + r)
  {
    var s := [name] + r;
    assert src + [name] + r == src + s && dst + [name] + r == dst + s;
    SourceKept(before, mid, src, dst, s);
    SubtreeKept(before, mid, src, dst, s);
    assert r != [] ==> s[|s| - 1] == r[|r| - 1];
  }

  /** The child's turn, seen from the start: its entries are the source's under that name. */
  lemma ChildCopyable(before: Tree, mid: Tree, src: Path, dst: Path, depth: nat, entries: seq<Entry>, k: nat)
    requires k < |entries| && Disjoint(src, dst) && Progress(before, mid, src, dst, entries, k)
    requires Distinct(entries)
    requires Paths.ValidateChildName(entries[k].name, true)
    ensures AllCopyable(mid, src + [entries[k].name], dst + [entries[k].name], depth + 1)
            <==> NameCopyable(before, src, dst, depth, entries[k].name)
  {
    var name := entries[k].name;
    var s, d, deep := src + [name], dst + [name], depth + 1;
    forall r ensures CopyableAt(mid, s, d, deep, r) <==> CopyableAt(before, src, dst, depth, [name] + r) {
      assert ([name] + r)[0] == name;
      assert Untouched(before, mid, dst, [name] + r);
      ChildCopyableAt(before, mid, src, dst, depth, name, r);
    }
    if AllCopyable(mid, s, d, deep) {
      forall r: Path | r != [] && r[0] == name ensures CopyableAt(before, src, dst, depth, r) {
        assert [name] + r[1..] == r;
        assert CopyableAt(mid, s, d, deep, r[1..]);
      }
    }
    if NameCopyable(before, src, dst, depth, name) {
      forall r ensures CopyableAt(mid, s, d, deep, r) {
        assert ([name] + r)[0] == name;
        assert CopyableAt(before, src, dst, depth, [name] + r);
      }
    }
  }

  /** A child that was copied has cost a visit for each of its entries. */
  lemma EntryTally(before: Tree, mid: Tree, src: Path, dst: Path, depth: nat, entries: seq<Entry>, k: nat, spent: int)
    requires k < |entries| && Disjoint(src, dst) && Progress(before, mid, src, dst, entries, k)
    requires Distinct(entries)
    requires Paths.ValidateChildName(entries[k].name, true) && Tally(before, src, dst, depth, entries, k, spent)
    requires AllCopyable(mid, src + [entries[k].name], dst + [entries[k].name], depth + 1)
    ensures Tally(before, src, dst, depth, entries, k + 1, spent + |Subtree(mid, src + [entries[k].name])|)
  {
    ChildCopyable(before, mid, src, dst, depth, entries, k);
    SubtreeKept(before, mid, src, dst, [entries[k].name]);
    UnderMore(before, src, entries, k);
    assert forall n :: NamedIn(entries, k + 1, n) ==> NamedIn(entries, k, n) || n == entries[k].name;
  }

  /** Where the whole source allows the copy, the destination directory is there when a child's turn comes. */
  lemma DestinationIsDir(before: Tree, mid: Tree, src: Path, dst: Path, depth: nat, name: string)
    requires IsDir(before, src) && src + [name] in before && AllCopyable(before, src, dst, depth)
    requires CopiedAt(before, mid, src, dst, [])
    ensures IsDir(mid, dst)
  {
    assert src + [] == src && dst + [] == dst;
    assert CopyableAt(before, src, dst, depth, []);
  }

  /** So every child can be copied when its turn comes. */
  lemma EntryAble(before: Tree, mid: Tree, src: Path, dst: Path, depth: nat, entries: seq<Entry>, k: nat,
                  makesParents: bool)
    requires k < |entries| && Disjoint(src, dst) && Progress(before, mid, src, dst, entries, k)
    requires Distinct(entries)
    requires Paths.ValidateChildName(entries[k].name, true) && src + [entries[k].name] in before
    requires IsDir(before, src) && AllCopyable(before, src, dst, depth)
    ensures Copyable(mid, src + [entries[k].name], dst + [entries[k].name], depth + 1, makesParents)
    ensures |Subtree(mid, src + [entries[k].name])|
            == |Under(before, src, entries, k + 1)| - |Under(before, src, entries, k)|
  {
    var name := entries[k].name;
    DestinationIsDir(before, mid, src, dst, depth, name);
    ChildCopyable(before, mid, src, dst, depth, entries, k);
    SourceKept(before, mid, src, dst, [name]);
    SubtreeKept(before, mid, src, dst, [name]);
    UnderMore(before, src, entries, k);
    assert Parent(dst + [name]) == dst;
  }

  /** A file is its whole subtree. */
  lemma FileCopyable(t: Tree, src: Path, dst: Path, depth: nat)
    requires WellFormed(t) && src in t && t[src].File?
    ensures |Subtree(t, src)| == 1
    ensures AllCopyable(t, src, dst, depth) <==> depth <= MAX_TREE_DEPTH && !IsDir(t, dst)
  {
    FileSubtree(t, src);
    assert src + [] == src && dst + [] == dst;
    forall r: Path | r != [] ensures src + r !in t {
      Extend(src, r);
      NothingBelow(t, src, src + r);
    }
    assert CopyableAt(t, src, dst, depth, []) <==> depth <= MAX_TREE_DEPTH && !IsDir(t, dst);
  }

  /** A directory whose children were all copied allowed its copy itself. */
  lemma WholeTally(before: Tree, start: Tree, after: Tree, src: Path, dst: Path, depth: nat, entries: seq<Entry>,
                   spent: int)
    requires WellFormed(before) && WellFormed(start) && WellFormed(after) && IsDir(before, src)
    requires Disjoint(src, dst) && Confined(before, start, dst) && ListsExactly(start, src, entries)
    requires Copied(before, after, src, dst) && depth <= MAX_TREE_DEPTH
    requires Tally(before, src, dst, depth, entries, |entries|, spent)
    ensures AllCopyable(before, src, dst, depth) && |Subtree(before, src)| == spent + 1
  {
    ListingKept(before, start, src, dst, entries);
    UnderAll(before, src, entries);
    forall r ensures CopyableAt(before, src, dst, depth, r) {
      if r == [] {
        assert src + [] == src && dst + [] == dst;
        if ClashAt(before, src, dst, []) {
          forall name: string ensures src + [name] !in before {
            ClashesAreEmpty(before, after, src, dst, [], name);
          }
        }
      } else if !NamedIn(entries, |entries|, r[0]) {
        UnlistedIsAbsent(before, src, entries, r);
      }
    }
  }

  /** The listing taken after the destination was made shows the source as it was. */
  lemma ListingKept(before: Tree, start: Tree, src: Path, dst: Path, entries: seq<Entry>)
    requires Disjoint(src, dst) && Confined(before, start, dst) && ListsExactly(start, src, entries)
    ensures ListsExactly(before, src, entries)
  {
    forall i | 0 <= i < |entries|
      ensures Same(before, start, src + [entries[i].name])
    {
      SourceKept(before, start, src, dst, [entries[i].name]);
    }
    forall q | q in before.Keys && q != [] && Parent(q) == src ensures Listed(entries, q[|q| - 1]) {
      assert q == src + [q[|q| - 1]];
      SourceKept(before, start, src, dst, [q[|q| - 1]]);
      assert q in start.Keys;
    }
  }

  /** The command puts a whole file of the source at its place under the destination. */
  ghost predicate StoresWhole(before: Tree, c: Command, src: Path, dst: Path) {
    c.Store? && exists r :: c.path == dst + r && src + r in before && before[src + r] == File(c.content)
  }

  /** Of what was sent from the `start`th command on, only whole files of the source are contents. */
  ghost predicate Whole(before: Tree, log: seq<Command>, start: nat, src: Path, dst: Path) {
    forall k :: start <= k < |log| && log[k].Store? ==> StoresWhole(before, log[k], src, dst)
  }

  lemma WholeJoins(before: Tree, earlier: seq<Command>, log: seq<Command>, start: nat, src: Path, dst: Path)
    requires start <= |earlier| && earlier <= log
    requires Whole(before, earlier, start, src, dst) && Whole(before, log, |earlier|, src, dst)
    ensures Whole(before, log, start, src, dst)
  {
    assert forall k :: 0 <= k < |earlier| ==> log[k] == earlier[k];
  }

  /** What a child stored is a whole file of the source as it was before the walk began. */
  lemma WholeChild(before: Tree, mid: Tree, log: seq<Command>, start: nat, src: Path, dst: Path, name: string)
    requires Disjoint(src, dst) && Confined(before, mid, dst)
    requires Whole(mid, log, start, src + [name], dst + [name])
    ensures Whole(before, log, start, src, dst)
  {
    forall k | start <= k < |log| && log[k].Store? ensures StoresWhole(before, log[k], src, dst) {
      assert StoresWhole(mid, log[k], src + [name], dst + [name]);
      var r :| log[k].path == dst + [name] + r && src + [name] + r in mid
               && mid[src + [name] + r] == File(log[k].content);
      assert dst + ([name] + r) == dst + [name] + r && src + ([name] + r) == src + [name] + r;
      SourceKept(before, mid, src, dst, [name] + r);
    }
  }

  ghost predicate EmptyOnto(t: Tree, src: Path, dst: Path) {
    Childless(t, src) && dst in t
  }

  /**
   * On any outcome everything off the destination keeps its content. Where neither path lies
   * in the other (`apart`), success means that the destination is the old one merged with the
   * source.
   * An empty directory is copied onto anything that exists without a change, and that is
   * reported as success. No outcome, failures included, ever sends less than a whole file.
   * Success costs one visit for each entry copied; and where no call fails for a reason of
   * its own, nor the staging of a file (`steady`), it comes exactly when the source can be
   * copied within the visits.
   */
  method CopyTreeDepth(remote: Remote, src: Path, dst: Path, depth: nat, visits: int, steady: bool, ghost apart: bool)
    returns (ok: bool, left: int)
    requires WellFormed(remote.tree) && depth <= MAX_TREE_DEPTH + 1
    requires apart ==> Disjoint(src, dst)
    modifies remote
    ensures WellFormed(remote.tree) && Confined(old(remote.tree), remote.tree, dst)
    ensures ok && apart ==> Copied(old(remote.tree), remote.tree, src, dst)
    ensures left < visits && (ok ==> 0 <= left)
    ensures remote.readable && visits > 0 && depth <= MAX_TREE_DEPTH && EmptyOnto(old(remote.tree), src, dst) ==>
              ok && remote.tree == old(remote.tree)
    ensures old(remote.log) <= remote.log
    ensures apart ==> Whole(old(remote.tree), remote.log, |old(remote.log)|, src, dst)
    ensures apart ==>
              Pays(Cost(old(remote.tree), src, dst, depth, remote.makesParents), visits, left, Able(remote, steady), ok)
    decreases MAX_TREE_DEPTH + 1 - depth, 4
  {
    ok, left := false, visits - 1;
    if Copyable(remote.tree, src, dst, depth, remote.makesParents) {
      NothingForFree(remote.tree, src, dst, depth, remote.makesParents);
    }
    if left < 0 || depth > MAX_TREE_DEPTH {
      return;
    }
    var info := remote.Stat(src);
    if !info.Found? {
      return;
    }
    ghost var log := remote.log;
    if info.isDir {
      ok, left := CopyDirectory(remote, src, dst, depth, left, steady, apart);
    } else {
      FileCopyable(remote.tree, src, dst, depth);
      ok := CopyFile(remote, src, dst, steady);
    }
    if apart {
      WholeJoins(old(remote.tree), log, remote.log, |old(remote.log)|, src, dst);
    }
  }

  /**
   * The whole copy, with its visits. Where neither path lies in the other: on success the
   * destination is the old one merged with the source, nothing but whole files is ever sent,
   * and where nothing fails for a reason of its own it succeeds if and only if the source can
   * be copied and has no more than 100 000 entries.
   */
  method CopyTree(remote: Remote, src: Path, dst: Path, steady: bool) returns (ok: bool)
    requires WellFormed(remote.tree)
    modifies remote
    ensures WellFormed(remote.tree) && Confined(old(remote.tree), remote.tree, dst)
    ensures ok && Disjoint(src, dst) ==> Copied(old(remote.tree), remote.tree, src, dst)
    ensures old(remote.log) <= remote.log
    ensures Disjoint(src, dst) ==> Whole(old(remote.tree), remote.log, |old(remote.log)|, src, dst)
    ensures Disjoint(src, dst) && ok ==> Fits(old(remote.tree), src, dst, remote.makesParents)
    ensures Disjoint(src, dst) && Able(remote, steady) ==>
              (ok <==> Fits(old(remote.tree), src, dst, remote.makesParents))
    ensures remote.readable && EmptyOnto(old(remote.tree), src, dst) ==> ok && remote.tree == old(remote.tree)
  {
    var left;
    ok, left := CopyTreeDepth(remote, src, dst, 0, MAX_VISITS, steady, Disjoint(src, dst));
  }

  /** The copy can be made, and within the visits it is given. */
  ghost predicate Fits(t: Tree, src: Path, dst: Path, makesParents: bool) {
    Copyable(t, src, dst, 0, makesParents) && |Subtree(t, src)| <= 100_000
  }

  predicate Able(remote: Remote, steady: bool) {
    remote.readable && remote.writable && steady
  }

  /** The visits a copy takes, one for each entry of the source, if it can be made at all. */
  ghost function Cost(t: Tree, src: Path, dst: Path, depth: nat, makesParents: bool): Option<nat> {
    if Copyable(t, src, dst, depth, makesParents) then Some(|Subtree(t, src)|) else None
  }

  lemma NothingForFree(t: Tree, src: Path, dst: Path, depth: nat, makesParents: bool)
    requires Copyable(t, src, dst, depth, makesParents)
    ensures |Subtree(t, src)| > 0 && depth <= MAX_TREE_DEPTH
  {
    PrefixRefl(src);
    assert src in Subtree(t, src) && src + [] == src;
    assert CopyableAt(t, src, dst, depth, []);
  }

  /** Makes the destination directory unless something is there already. */
  method EnterDestination(remote: Remote, dst: Path) returns (ok: bool)
    requires WellFormed(remote.tree)
    modifies remote
    ensures WellFormed(remote.tree) && Confined(old(remote.tree), remote.tree, dst)
    ensures ok ==> Entered(old(remote.tree), remote.tree, dst)
    ensures remote.readable && dst in old(remote.tree) ==> ok && remote.tree == old(remote.tree)
    ensures ok ==> DirReachable(old(remote.tree), dst, remote.makesParents)
    ensures remote.readable && remote.writable && DirReachable(old(remote.tree), dst, remote.makesParents) ==> ok
    ensures old(remote.log) <= remote.log
    ensures forall k :: |old(remote.log)| <= k < |remote.log| ==> !remote.log[k].Store?
  {
    var there := remote.Stat(dst);
    ok := true;
    if !there.Found? {
      ok := remote.MakeDir(dst);
      MakeConfined(old(remote.tree), remote.tree, dst);
      if ok {
        ClearBefore(old(remote.tree), remote.tree, dst);
      }
    }
  }

  ghost predicate Entered(before: Tree, now: Tree, dst: Path) {
    && dst in now && (if dst in before then now[dst] == before[dst] else now[dst] == Dir)
    && forall r :: r != [] ==> Same(before, now, dst + r)
  }

  lemma Begun(before: Tree, now: Tree, src: Path, dst: Path, entries: seq<Entry>)
    requires IsDir(before, src) && Confined(before, now, dst) && Entered(before, now, dst)
    ensures Progress(before, now, src, dst, entries, 0)
  {
    assert src + [] == src && dst + [] == dst;
  }

  /** The names to copy, every one of them valid. */
  method ListSource(remote: Remote, src: Path) returns (ok: bool, entries: seq<Entry>)
    modifies remote`log
    ensures remote.log == old(remote.log) + [Listing(src)]
    ensures ok ==> IsDir(remote.tree, src) && ListsExactly(remote.tree, src, entries)
    ensures Childless(remote.tree, src) && remote.readable ==> ok && entries == []
    ensures Childless(remote.tree, src) && ok ==> entries == []
    ensures ok ==> AllValid(entries)
    ensures remote.readable && IsDir(remote.tree, src) ==>
              ((forall name :: src + [name] in remote.tree ==> Paths.ValidateChildName(name, true)) ==> ok)
  {
    ok, entries := remote.List(src);
    if ok && Childless(remote.tree, src) {
      ChildlessLists(remote.tree, src, entries);
    }
    ok := ok && AllValid(entries);
  }

  predicate AllValid(entries: seq<Entry>) {
    forall i :: 0 <= i < |entries| ==> Paths.ValidateChildName(entries[i].name, true)
  }

  /** The destination directory is made, and then the source listed. */
  method Prepare(remote: Remote, src: Path, dst: Path, ghost depth: nat, ghost apart: bool)
    returns (ok: bool, entries: seq<Entry>)
    requires WellFormed(remote.tree) && IsDir(remote.tree, src) && (apart ==> Disjoint(src, dst))
    modifies remote
    ensures WellFormed(remote.tree) && Confined(old(remote.tree), remote.tree, dst)
    ensures ok ==> Entered(old(remote.tree), remote.tree, dst) && ListsExactly(remote.tree, src, entries)
    ensures ok ==> AllValid(entries) && DirReachable(old(remote.tree), dst, remote.makesParents)
    ensures remote.readable && EmptyOnto(old(remote.tree), src, dst) ==>
              ok && entries == [] && remote.tree == old(remote.tree)
    ensures apart && remote.readable && remote.writable && AllCopyable(old(remote.tree), src, dst, depth) ==>
              (DirReachable(old(remote.tree), dst, remote.makesParents) ==> ok)
    ensures old(remote.log) <= remote.log
    ensures forall k :: |old(remote.log)| <= k < |remote.log| ==> !remote.log[k].Store?
  {
    ghost var before := remote.tree;
    entries := [];
    ok := EnterDestination(remote, dst);
    if !ok {
      return;
    }
    if apart && AllCopyable(before, src, dst, depth) {
      SourceKept(before, remote.tree, src, dst, []);
      assert src + [] == src;
      forall name | src + [name] in remote.tree ensures Paths.ValidateChildName(name, true) {
        NamesAreValid(before, remote.tree, src, dst, depth, name);
      }
    }
    ok, entries := ListSource(remote, src);
  }

  method CopyDirectory(remote: Remote, src: Path, dst: Path, depth: nat, visits: int, steady: bool, ghost apart: bool)
    returns (ok: bool, left: int)
    requires WellFormed(remote.tree) && depth <= MAX_TREE_DEPTH && visits >= 0 && IsDir(remote.tree, src)
    requires apart ==> Disjoint(src, dst)
    modifies remote
    ensures WellFormed(remote.tree) && Confined(old(remote.tree), remote.tree, dst)
    ensures ok && apart ==> Copied(old(remote.tree), remote.tree, src, dst)
    ensures left <= visits && (ok ==> 0 <= left)
    ensures remote.readable && EmptyOnto(old(remote.tree), src, dst) ==>
              ok && remote.tree == old(remote.tree)
    ensures old(remote.log) <= remote.log
    ensures apart ==> Whole(old(remote.tree), remote.log, |old(remote.log)|, src, dst)
    ensures apart ==>
              Pays(Cost(old(remote.tree), src, dst, depth, remote.makesParents), visits + 1, left,
                   Able(remote, steady), ok)
    decreases MAX_TREE_DEPTH + 1 - depth, 3
  {
    left := visits;
    ghost var before := remote.tree;
    var entries;
    ok, entries := Prepare(remote, src, dst, depth, apart);
    if !ok {
      return;
    }
    ghost var log := remote.log;
    ok, left := CopyListed(remote, before, src, dst, entries, depth, left, steady, apart);
    if apart {
      WholeJoins(before, log, remote.log, |old(remote.log)|, src, dst);
    }
  }

  /** The names of a source that can be copied are valid, also as the listing finds them. */
  lemma NamesAreValid(before: Tree, now: Tree, src: Path, dst: Path, depth: nat, name: string)
    requires Disjoint(src, dst) && Confined(before, now, dst) && AllCopyable(before, src, dst, depth)
    requires src + [name] in now
    ensures Paths.ValidateChildName(name, true)
  {
    SourceKept(before, now, src, dst, [name]);
    assert CopyableAt(before, src, dst, depth, [name]);
  }

  /** The copy below both directories, once the destination is there and the source is listed. */
  method CopyListed(remote: Remote, ghost before: Tree, src: Path, dst: Path, entries: seq<Entry>, depth: nat,
                    visits: int, steady: bool, ghost apart: bool)
    returns (ok: bool, left: int)
    requires WellFormed(remote.tree) && depth <= MAX_TREE_DEPTH && visits >= 0
    requires WellFormed(before) && IsDir(before, src) && ListsExactly(remote.tree, src, entries)
    requires Confined(before, remote.tree, dst) && Entered(before, remote.tree, dst) && AllValid(entries)
    requires apart ==> Disjoint(src, dst)
    modifies remote
    ensures WellFormed(remote.tree) && Confined(before, remote.tree, dst)
    ensures ok && apart ==> Copied(before, remote.tree, src, dst)
    ensures left <= visits && (ok ==> 0 <= left)
    ensures entries == [] ==> ok && remote.tree == old(remote.tree)
    ensures old(remote.log) <= remote.log
    ensures apart ==> Whole(before, remote.log, |old(remote.log)|, src, dst)
    ensures apart && ok ==>
              AllCopyable(before, src, dst, depth) && left == visits + 1 - |Subtree(before, src)|
    ensures apart && Able(remote, steady) && AllCopyable(before, src, dst, depth) ==>
              (|Subtree(before, src)| <= visits + 1 ==> ok)
    decreases MAX_TREE_DEPTH + 1 - depth, 2
  {
    Begun(before, remote.tree, src, dst, entries);
    if apart {
      ListingKept(before, remote.tree, src, dst, entries);
      UnderFewer(before, src, entries, |entries|);
    }
    ok, left := CopyEntries(remote, before, src, dst, entries, depth, visits, steady, apart);
    if apart && ok {
      Finished(before, old(remote.tree), remote.tree, src, dst, entries);
      WholeTally(before, old(remote.tree), remote.tree, src, dst, depth, entries, visits - left);
    }
  }

  /** The children one by one. */
  method CopyEntries(remote: Remote, ghost before: Tree, src: Path, dst: Path, entries: seq<Entry>, depth: nat,
                     visits: int, steady: bool, ghost apart: bool)
    returns (ok: bool, left: int)
    requires WellFormed(remote.tree) && depth <= MAX_TREE_DEPTH && visits >= 0 && IsDir(before, src)
    requires Distinct(entries)
    requires dst in remote.tree && Confined(before, remote.tree, dst) && AllValid(entries)
    requires apart ==>
               && Progress(before, remote.tree, src, dst, entries, 0)
               && forall i :: 0 <= i < |entries| ==> src + [entries[i].name] in before
    requires apart ==> Disjoint(src, dst)
    modifies remote
    ensures WellFormed(remote.tree) && Confined(before, remote.tree, dst)
    ensures left <= visits && (ok ==> 0 <= left)
    ensures entries == [] ==> ok && remote.tree == old(remote.tree)
    ensures old(remote.log) <= remote.log
    ensures apart ==> Whole(before, remote.log, |old(remote.log)|, src, dst)
    ensures apart && ok ==>
              && Progress(before, remote.tree, src, dst, entries, |entries|)
              && Tally(before, src, dst, depth, entries, |entries|, visits - left)
    ensures apart && Able(remote, steady) && AllCopyable(before, src, dst, depth) ==>
              (|Under(before, src, entries, |entries|)| <= visits ==> ok)
    decreases MAX_TREE_DEPTH + 1 - depth, 1
  {
    ok, left := true, visits;
    for i := 0 to |entries|
      invariant WellFormed(remote.tree) && 0 <= left <= visits && dst in remote.tree && ok
      invariant Confined(before, remote.tree, dst) && (i == 0 ==> remote.tree == old(remote.tree))
      invariant old(remote.log) <= remote.log
      invariant apart ==> Progress(before, remote.tree, src, dst, entries, i)
      invariant apart ==> Whole(before, remote.log, |old(remote.log)|, src, dst)
      invariant apart ==> Tally(before, src, dst, depth, entries, i, visits - left)
    {
      ok, left := CopyEntry(remote, before, src, dst, entries, i, depth, left, steady, apart, visits - left,
                            |old(remote.log)|);
      if !ok {
        return;
      }
    }
  }

  /** What a child's copy comes to for the walk over the whole listing. */
  lemma EntryOutcome(before: Tree, mid: Tree, now: Tree, src: Path, dst: Path, depth: nat, entries: seq<Entry>, i: nat,
                     spent: int, visits: int, left: int, makesParents: bool, able: bool, ok: bool)
    requires i < |entries| && Disjoint(src, dst) && AllValid(entries) && IsDir(before, src) && Distinct(entries)
    requires src + [entries[i].name] in before && Progress(before, mid, src, dst, entries, i)
    requires Tally(before, src, dst, depth, entries, i, spent)
    requires Confined(mid, now, dst + [entries[i].name])
    requires ok ==> Copied(mid, now, src + [entries[i].name], dst + [entries[i].name])
    requires Pays(Cost(mid, src + [entries[i].name], dst + [entries[i].name], depth + 1, makesParents), visits, left,
                  able, ok)
    ensures ok ==> Progress(before, now, src, dst, entries, i + 1)
    ensures ok ==> Tally(before, src, dst, depth, entries, i + 1, spent + visits - left)
    ensures able && AllCopyable(before, src, dst, depth) ==>
              (|Under(before, src, entries, |entries|)| <= spent + visits ==> ok)
  {
    UnderGrows(before, src, entries, i + 1);
    if ok {
      Advance(before, mid, now, src, dst, entries, i);
      EntryTally(before, mid, src, dst, depth, entries, i, spent);
    } else if AllCopyable(before, src, dst, depth) {
      EntryAble(before, mid, src, dst, depth, entries, i, makesParents);
    }
  }

  /** One name of the listing, copied below both directories. */
  method CopyEntry(remote: Remote, ghost before: Tree, src: Path, dst: Path, entries: seq<Entry>, i: nat, depth: nat,
                   visits: int, steady: bool, ghost apart: bool, ghost spent: int, ghost start: nat)
    returns (ok: bool, left: int)
    requires WellFormed(remote.tree) && depth <= MAX_TREE_DEPTH && i < |entries|
    requires AllValid(entries) && IsDir(before, src) && start <= |remote.log|
    requires Distinct(entries)
    requires dst in remote.tree && Confined(before, remote.tree, dst)
    requires apart ==> Progress(before, remote.tree, src, dst, entries, i)
    requires apart ==> Disjoint(src, dst) && src + [entries[i].name] in before
    requires apart ==> Tally(before, src, dst, depth, entries, i, spent)
    requires apart ==> Whole(before, remote.log, start, src, dst)
    modifies remote
    ensures WellFormed(remote.tree) && dst in remote.tree && Confined(before, remote.tree, dst)
    ensures ok && apart ==> Progress(before, remote.tree, src, dst, entries, i + 1)
    ensures left < visits && (ok ==> 0 <= left)
    ensures old(remote.log) <= remote.log
    ensures apart ==> Whole(before, remote.log, start, src, dst)
    ensures apart && ok ==> Tally(before, src, dst, depth, entries, i + 1, spent + visits - left)
    ensures apart && Able(remote, steady) && AllCopyable(before, src, dst, depth) ==>
              (|Under(before, src, entries, |entries|)| <= spent + visits ==> ok)
    decreases MAX_TREE_DEPTH + 1 - depth, 0
  {
    ghost var mid := remote.tree;
    var name := entries[i].name;
    if apart {
      DisjointBelow(src, dst, name);
    }
    ok, left := CopyTreeDepth(remote, src + [name], dst + [name], depth + 1, visits, steady, apart);
    ConfinedChain(before, mid, remote.tree, dst, name);
    StillThere(mid, remote.tree, dst, name);
    if apart {
      WholeChild(before, mid, remote.log, |old(remote.log)|, src, dst, name);
      WholeJoins(before, old(remote.log), remote.log, start, src, dst);
      EntryOutcome(before, mid, remote.tree, src, dst, depth, entries, i, spent, visits, left, remote.makesParents,
                   Able(remote, steady), ok);
    }
  }

  lemma StillThere(before: Tree, after: Tree, dst: Path, name: string)
    requires Confined(before, after, dst + [name]) && dst in before
    ensures dst in after
  {
    assert !Prefix(dst + [name], dst);
  }

  /** Only a download that reported no error is uploaded, so no truncated read ever is. */
  method CopyFile(remote: Remote, src: Path, dst: Path, steady: bool) returns (ok: bool)
    requires WellFormed(remote.tree)
    modifies remote
    ensures WellFormed(remote.tree) && Confined(old(remote.tree), remote.tree, dst)
    ensures ok ==> src in old(remote.tree) && old(remote.tree)[src].File?
                   && remote.tree == old(remote.tree)[dst := old(remote.tree)[src]]
    ensures ok && Disjoint(src, dst) ==> Copied(old(remote.tree), remote.tree, src, dst)
    ensures old(remote.log) <= remote.log
    ensures Whole(old(remote.tree), remote.log, |old(remote.log)|, src, dst)
    ensures ok ==> CanHold(old(remote.tree), dst)
    ensures Able(remote, steady) && src in old(remote.tree) && old(remote.tree)[src].File? ==>
              (CanHold(old(remote.tree), dst) ==> ok)
  {
    ghost var before := remote.tree;
    assert dst + [] == dst && src + [] == src;
    var complete, content := remote.Download(src);
    var staged: bool := *;
    if !complete || (!staged && !steady) {
      return false;
    }
    var sent := remote.Upload(dst, content);
    FileConfined(before, remote.tree, dst);
    ok := sent.Uploaded?;
    if ok {
      FileCopied(before, src, dst);
    }
  }

  lemma FileCopied(before: Tree, src: Path, dst: Path)
    requires WellFormed(before) && src in before && before[src].File?
    ensures Copied(before, before[dst := before[src]], src, dst)
  {
    var after := before[dst := before[src]];
    forall r ensures CopiedAt(before, after, src, dst, r) {
      if r == [] {
        assert src + r == src && dst + r == dst;
      } else {
        Extend(src, r);
        Extend(dst, r);
        NothingBelow(before, src, src + r);
      }
    }
  }

  // ----------------------------------------------------------- consequences

  /** Every file and directory of the source is reproduced as it is. */
  ghost predicate ExactCopy(before: Tree, after: Tree, src: Path, dst: Path) {
    forall r :: src + r in before ==> dst + r in after && after[dst + r] == before[src + r]
  }

  /** A directory of the source meets a file that already sits at its destination. */
  ghost predicate ClashAt(before: Tree, src: Path, dst: Path, r: Path) {
    src + r in before && before[src + r].Dir? && dst + r in before && before[dst + r].File?
  }

  /** On any outcome the source is bit for bit what it was. */
  lemma SourceUnchanged(before: Tree, after: Tree, src: Path, dst: Path)
    requires Disjoint(src, dst) && Confined(before, after, dst)
    ensures forall q :: Prefix(src, q) ==> Same(before, after, q)
  {
    forall q | Prefix(src, q) ensures Same(before, after, q) {
      assert src + q[|src|..] == q;
      SourceKept(before, after, src, dst, q[|src|..]);
    }
  }

  /** A reported success is an exact copy if and only if no source directory meets an existing file. */
  lemma SuccessIsExactIff(before: Tree, after: Tree, src: Path, dst: Path)
    requires Copied(before, after, src, dst)
    ensures ExactCopy(before, after, src, dst) <==> forall r :: !ClashAt(before, src, dst, r)
  {
    forall r
      ensures src + r in before && !ClashAt(before, src, dst, r) ==>
                dst + r in after && after[dst + r] == before[src + r]
    {
      assert CopiedAt(before, after, src, dst, r);
    }
    if r :| ClashAt(before, src, dst, r) {
      assert CopiedAt(before, after, src, dst, r);
      assert src + r in before && after[dst + r] != before[src + r];
    }
  }

  /** And such a directory can only be an empty one: below anything else the copy fails. */
  lemma ClashesAreEmpty(before: Tree, after: Tree, src: Path, dst: Path, r: Path, name: string)
    requires WellFormed(after) && Copied(before, after, src, dst) && ClashAt(before, src, dst, r)
    ensures src + r + [name] !in before
  {
    var child := r + [name];
    assert src + r + [name] == src + child && dst + r + [name] == dst + child;
    assert CopiedAt(before, after, src, dst, r) && CopiedAt(before, after, src, dst, child);
    assert Parent(dst + child) == dst + r;
  }

  /**
   * The failing family is real: an empty directory copied onto a file succeeds on a server
   * that can be read, and the result is no exact copy.
   */
  method CopyOverFile(remote: Remote, src: Path, dst: Path) returns (ok: bool)
    requires WellFormed(remote.tree) && remote.readable && Childless(remote.tree, src)
    requires dst in remote.tree && remote.tree[dst].File?
    modifies remote
    ensures ok && remote.tree == old(remote.tree) && !ExactCopy(old(remote.tree), remote.tree, src, dst)
  {
    ok := CopyTree(remote, src, dst, false);
    assert src + [] == src && dst + [] == dst;
    assert src + [] in remote.tree && remote.tree[dst + []] != remote.tree[src + []];
  }
}
