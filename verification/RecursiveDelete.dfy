/**
 * The two adapters' recursive delete. The server may answer a lookup or a listing with
 * anything at all; it is only assumed that removing a directory fails unless it is empty.
 * What was sent is read off the remote's own log.
 */
module RecursiveDelete {
  import opened Options
  import opened RemoteTree
  import opened Subtrees
  import Paths

  const BUDGET: nat := 100_000

  /** Budget units that paid for commands; a counter driven to -1 refused its last unit. */
  function Spent(budget: int, left: int): int {
    budget - if left < 0 then 0 else left
  }

  /** Removing from `a` to `b` and on to `c`, each under a path at or below `p`. */
  lemma RemovesChain(a: Tree, b: Tree, c: Tree, p: Path, q: Path)
    requires RemovesUnder(a, b, p) && RemovesUnder(b, c, q) && Prefix(p, q)
    ensures RemovesUnder(a, c, p)
  {
    forall r | Prefix(q, r) ensures Prefix(p, r) {
      assert p == q[..|p|] == r[..|p|];
    }
  }

  lemma ChildBelow(p: Path, name: string)
    ensures Prefix(p, p) && Prefix(p, p + [name])
  {
    assert p[..|p|] == p && (p + [name])[..|p|] == p;
  }

  lemma NothingLeft(t: Tree, p: Path)
    requires WellFormed(t) && p !in t
    ensures forall q :: Prefix(p, q) ==> q !in t
  {
    forall q | Prefix(p, q) ensures q !in t {
      if q != p {
        NothingBelow(t, p, q);
      }
    }
  }

  // ------------------------------------------------------------ what was sent

  /** Every command from the `start`th on names a path at or below `p`. */
  ghost predicate Below(p: Path, log: seq<Command>, start: nat) {
    forall k :: start <= k < |log| ==> Prefix(p, log[k].path)
  }

  /** The same, except that the second one may list the parent of `p`. */
  ghost predicate BelowButOnce(p: Path, log: seq<Command>, start: nat) {
    forall k :: start <= k < |log| ==>
      Prefix(p, log[k].path) || (k == start + 1 && p != [] && log[k] == Listing(Parent(p)))
  }

  /** What a child's commands name lies at or below its directory, the child's own exception included. */
  lemma ChildCommands(p: Path, name: string, log: seq<Command>, start: nat)
    requires BelowButOnce(p + [name], log, start)
    ensures Below(p, log, start)
  {
    var child := p + [name];
    assert Parent(child) == p && p[..|p|] == p;
    forall k | start <= k < |log| ensures Prefix(p, log[k].path) {
      if Prefix(child, log[k].path) {
        assert p == child[..|p|] == log[k].path[..|p|];
      }
    }
  }

  lemma BelowJoins(p: Path, before: seq<Command>, log: seq<Command>, start: nat)
    requires start <= |before| && before <= log && Below(p, log, |before|)
    ensures Below(p, before, start) ==> Below(p, log, start)
    ensures BelowButOnce(p, before, start) ==> BelowButOnce(p, log, start)
  {
    assert forall k :: 0 <= k < |before| ==> log[k] == before[k];
  }

  /** The second command from `start` on lists the parent, which is not at or below `p`. */
  ghost predicate AsksParent(p: Path, log: seq<Command>, start: nat) {
    p != [] && start + 1 < |log| && log[start + 1] == Listing(Parent(p))
  }

  lemma ParentIsOutside(p: Path, log: seq<Command>, start: nat)
    requires AsksParent(p, log, start)
    ensures !Below(p, log, start)
  {
    assert !Prefix(p, log[start + 1].path);
  }

  lemma OneCommand(p: Path, log: seq<Command>, c: Command)
    requires Prefix(p, c.path)
    ensures Below(p, log + [c], |log|)
  {
  }

  // ------------------------------------------------------ what can be deleted

  /** One entry allows the deletion: its name, and its depth, which FTP minds for directories only. */
  ghost predicate DeletableAt(t: Tree, p: Path, depth: nat, ftp: bool, r: Path) {
    p + r in t ==>
      && (r != [] ==> Paths.ValidateChildName(r[|r| - 1], ftp))
      && (t[p + r].Dir? || r == [] || !ftp ==> depth + |r| <= 64)
  }

  ghost predicate AllDeletable(t: Tree, p: Path, depth: nat, ftp: bool) {
    forall r :: DeletableAt(t, p, depth, ftp, r)
  }

  ghost predicate NameDeletable(t: Tree, p: Path, depth: nat, ftp: bool, name: string) {
    forall r :: r != [] && r[0] == name ==> DeletableAt(t, p, depth, ftp, r)
  }

  /** The budget a deletion takes, one unit for each entry, if it can be done at all. */
  ghost function DeleteCost(t: Tree, p: Path, depth: nat, ftp: bool): Option<nat> {
    if p in t && p != [] && AllDeletable(t, p, depth, ftp) then Some(|Subtree(t, p)|) else None
  }

  /** The same for an entry of a listing, whose files FTP deletes without a visit of their own. */
  ghost function EntryCost(t: Tree, child: Path, depth: nat, ftp: bool): Option<nat> {
    if ftp && child in t && t[child].File? then Some(1) else DeleteCost(t, child, depth, ftp)
  }

  /** No child of the directory is named like itself or its parent. */
  ghost predicate NoDots(t: Tree, p: Path) {
    p + ["."] !in t && p + [".."] !in t
  }

  /** Where the walk over a truthful listing stands: the first names are gone, and what they cost. */
  ghost predicate Walking(t: Tree, now: Tree, p: Path, depth: nat, ftp: bool, entries: seq<Entry>, k: nat, spent: int)
    requires k <= |entries|
  {
    && (NoDots(t, p) ==> now == t - Under(t, p, entries, k) && spent == |Under(t, p, entries, k)|)
    && (NoDots(t, p) ==> forall r :: r != [] && NamedIn(entries, k, r[0]) ==> DeletableAt(t, p, depth, ftp, r))
    && (forall name :: Dotted(name) && p + [name] in t ==> p + [name] in now)
  }

  /** Under a name whose turn has not come everything is as it was. */
  lemma TurnKept(t: Tree, now: Tree, p: Path, entries: seq<Entry>, k: nat, q: Path)
    requires k < |entries| && Distinct(entries) && now == t - Under(t, p, entries, k)
    requires Prefix(p + [entries[k].name], q)
    ensures (q in now <==> q in t) && (q in t ==> now[q] == t[q])
  {
    assert q[|p|] == (p + [entries[k].name])[|p|] == entries[k].name;
  }

  lemma TurnSubtree(t: Tree, now: Tree, p: Path, entries: seq<Entry>, k: nat)
    requires k < |entries| && Distinct(entries) && now == t - Under(t, p, entries, k)
    ensures Subtree(now, p + [entries[k].name]) == Subtree(t, p + [entries[k].name])
  {
    forall q ensures q in Subtree(now, p + [entries[k].name]) <==> q in Subtree(t, p + [entries[k].name]) {
      if Prefix(p + [entries[k].name], q) {
        TurnKept(t, now, p, entries, k, q);
      }
    }
  }

  lemma ChildDeletableAt(t: Tree, now: Tree, p: Path, depth: nat, ftp: bool, entries: seq<Entry>, k: nat, r: Path)
    requires k < |entries| && Distinct(entries) && now == t - Under(t, p, entries, k)
    requires Paths.ValidateChildName(entries[k].name, ftp)
    requires p + [entries[k].name] in t && (t[p + [entries[k].name]].Dir? || !ftp)
    ensures DeletableAt(now, p + [entries[k].name], depth + 1, ftp, r)
            <==> DeletableAt(t, p, depth, ftp, [entries[k].name] + r)
  {
    var name, s := entries[k].name, [entries[k].name] + r;
    assert p + [name] + r == p + s;
    Extend(p + [name], r);
    TurnKept(t, now, p, entries, k, p + s);
    assert r == [] ==> p + s == p + [name];
    assert r != [] ==> s[|s| - 1] == r[|r| - 1];
  }

  /** A directory's turn is judged as it was at the start. */
  lemma ChildDeletable(t: Tree, now: Tree, p: Path, depth: nat, ftp: bool, entries: seq<Entry>, k: nat)
    requires k < |entries| && Distinct(entries) && now == t - Under(t, p, entries, k)
    requires Paths.ValidateChildName(entries[k].name, ftp)
    requires p + [entries[k].name] in t && (t[p + [entries[k].name]].Dir? || !ftp)
    ensures AllDeletable(now, p + [entries[k].name], depth + 1, ftp)
            <==> NameDeletable(t, p, depth, ftp, entries[k].name)
  {
    var name, child, deep := entries[k].name, p + [entries[k].name], depth + 1;
    forall r ensures DeletableAt(now, child, deep, ftp, r) <==> DeletableAt(t, p, depth, ftp, [name] + r) {
      ChildDeletableAt(t, now, p, depth, ftp, entries, k, r);
    }
    if AllDeletable(now, child, deep, ftp) {
      forall r: Path | r != [] && r[0] == name ensures DeletableAt(t, p, depth, ftp, r) {
        assert [name] + r[1..] == r;
        assert DeletableAt(now, child, deep, ftp, r[1..]);
      }
    }
    if NameDeletable(t, p, depth, ftp, name) {
      forall r ensures DeletableAt(now, child, deep, ftp, r) {
        assert ([name] + r)[0] == name;
        assert DeletableAt(t, p, depth, ftp, [name] + r);
      }
    }
  }

  /** A file has nothing under its name but itself. */
  lemma FileDeletable(t: Tree, p: Path, depth: nat, ftp: bool, name: string)
    requires WellFormed(t) && p + [name] in t && t[p + [name]].File? && Paths.ValidateChildName(name, ftp) && ftp
    ensures NameDeletable(t, p, depth, ftp, name) && |Subtree(t, p + [name])| == 1
  {
    FileSubtree(t, p + [name]);
    forall r: Path | r != [] && r[0] == name ensures DeletableAt(t, p, depth, ftp, r) {
      assert p + r == p + [name] + r[1..];
      Extend(p + [name], r[1..]);
      if r[1..] != [] {
        NothingBelow(t, p + [name], p + r);
      } else {
        assert r == [name];
      }
    }
  }

  /** What an entry costs is what lies under its name, and it can be paid if every entry allows it. */
  lemma EntryCostIs(t: Tree, now: Tree, p: Path, depth: nat, ftp: bool, entries: seq<Entry>, k: nat)
    requires k < |entries| && WellFormed(t) && Distinct(entries) && now == t - Under(t, p, entries, k)
    requires Paths.ValidateChildName(entries[k].name, ftp) && p + [entries[k].name] in t
    ensures (var cost := EntryCost(now, p + [entries[k].name], depth + 1, ftp);
      && (cost.Some? <==> NameDeletable(t, p, depth, ftp, entries[k].name))
      && (cost.Some? ==> cost.value == |Under(t, p, entries, k + 1)| - |Under(t, p, entries, k)|))
  {
    var child := p + [entries[k].name];
    PrefixRefl(child);
    TurnKept(t, now, p, entries, k, child);
    TurnSubtree(t, now, p, entries, k);
    UnderMore(t, p, entries, k);
    if ftp && t[child].File? {
      FileDeletable(t, p, depth, ftp, entries[k].name);
    } else {
      ChildDeletable(t, now, p, depth, ftp, entries, k);
    }
  }

  /** With its subtree gone one more name is gone. */
  lemma OneNameGone(t: Tree, now: Tree, after: Tree, p: Path, entries: seq<Entry>, k: nat)
    requires k < |entries| && now == t - Under(t, p, entries, k)
    requires RemovesUnder(now, after, p + [entries[k].name])
    requires forall q :: Prefix(p + [entries[k].name], q) ==> q !in after
    ensures after == t - Under(t, p, entries, k + 1)
  {
    forall q ensures q in after <==> q in t - Under(t, p, entries, k + 1) {
      UnderOne(t, p, entries, k, q);
    }
  }

  lemma DotsStay(t: Tree, now: Tree, after: Tree, p: Path, child: string)
    requires RemovesUnder(now, after, p + [child]) && !Dotted(child)
    requires forall name :: Dotted(name) && p + [name] in t ==> p + [name] in now
    ensures forall name :: Dotted(name) && p + [name] in t ==> p + [name] in after
  {
    forall name | Dotted(name) && p + [name] in t ensures p + [name] in after {
      assert (p + [name])[|p|] != (p + [child])[|p|];
    }
  }

  /** Nothing lies under a dot that is only shown. */
  lemma WalkPasses(t: Tree, now: Tree, p: Path, depth: nat, ftp: bool, entries: seq<Entry>, k: nat, spent: int)
    requires k < |entries| && WellFormed(t) && Dotted(entries[k].name)
    requires Walking(t, now, p, depth, ftp, entries, k, spent)
    ensures Walking(t, now, p, depth, ftp, entries, k + 1, spent)
  {
    if NoDots(t, p) {
      var name := entries[k].name;
      NothingLeft(t, p + [name]);
      assert Subtree(t, p + [name]) == {};
      forall q ensures q in Under(t, p, entries, k + 1) <==> q in Under(t, p, entries, k) {
        UnderOne(t, p, entries, k, q);
      }
      assert Under(t, p, entries, k + 1) == Under(t, p, entries, k);
      forall r: Path | r != [] && NamedIn(entries, k + 1, r[0]) ensures DeletableAt(t, p, depth, ftp, r) {
        if !NamedIn(entries, k, r[0]) {
          AbsentBelow(t, p, r);
        }
      }
    }
  }

  /** What deleting one entry comes to for the walk over the whole listing. */
  lemma WalkOn(t: Tree, now: Tree, after: Tree, p: Path, depth: nat, ftp: bool, entries: seq<Entry>, k: nat,
               spent: int, budget: int, left: int, able: bool, ok: bool)
    requires k < |entries| && WellFormed(t) && ListsButDots(t, p, entries)
    requires !Dotted(entries[k].name) && Paths.ValidateChildName(entries[k].name, ftp)
    requires Walking(t, now, p, depth, ftp, entries, k, spent)
    requires RemovesUnder(now, after, p + [entries[k].name])
    requires ok ==> forall q :: Prefix(p + [entries[k].name], q) ==> q !in after
    requires NoDots(t, p) ==>
               Pays(EntryCost(now, p + [entries[k].name], depth + 1, ftp), budget, left, able, ok)
    ensures ok ==> Walking(t, after, p, depth, ftp, entries, k + 1, spent + budget - left)
    ensures NoDots(t, p) && able && AllDeletable(t, p, depth, ftp) ==>
              (|Under(t, p, entries, |entries|)| <= spent + budget ==> ok)
  {
    DotsStay(t, now, after, p, entries[k].name);
    if NoDots(t, p) {
      EntryCostIs(t, now, p, depth, ftp, entries, k);
      UnderGrows(t, p, entries, k + 1);
      if ok {
        OneNameGone(t, now, after, p, entries, k);
        assert forall n :: NamedIn(entries, k + 1, n) ==> NamedIn(entries, k, n) || n == entries[k].name;
      }
    }
  }

  /** At the end of the listing the directory is empty, unless names were passed over. */
  lemma WalkEnds(t: Tree, now: Tree, p: Path, depth: nat, ftp: bool, entries: seq<Entry>, spent: int)
    requires WellFormed(t) && IsDir(t, p) && ListsButDots(t, p, entries) && depth <= MAX_TREE_DEPTH
    requires Walking(t, now, p, depth, ftp, entries, |entries|, spent)
    ensures (forall name :: p + [name] !in now) <==> NoDots(t, p)
    ensures NoDots(t, p) ==>
              IsDir(now, p) && AllDeletable(t, p, depth, ftp) && |Subtree(t, p)| == spent + 1
  {
    if NoDots(t, p) {
      UnderAll(t, p, entries);
      forall name: string ensures p + [name] !in now {
        if p + [name] in t {
          Extend(p, [name]);
          UnderSome(t, p, entries, p + [name]);
        }
      }
      forall r ensures DeletableAt(t, p, depth, ftp, r) {
        assert p + [] == p;
        if r != [] && !NamedIn(entries, |entries|, r[0]) {
          UnlistedIsAbsent(t, p, entries, r);
        }
      }
    }
  }

  // -------------------------------------------------------------------- FTP

  /** MLST first; a server that does not know the command is asked for the parent's listing. */
  method FtpStat(remote: Remote, p: Path) returns (known: bool, isDir: bool)
    requires p != [] && WellFormed(remote.tree)
    modifies remote`log
    ensures remote.log == old(remote.log)
                          + if remote.looksUp(|old(remote.log)|) then [Query(p)] else [Query(p), Listing(Parent(p))]
    ensures remote.truthful && p in remote.tree && known ==> (isDir <==> remote.tree[p] == Dir)
    ensures remote.truthful && remote.readable && p in remote.tree ==> known
  {
    known, isDir := false, false;
    var answer := remote.Lookup(p);
    match answer
    case Is(dir) => return true, dir;
    case Refusal => return;
    case Unsupported =>
      var listed, entries := remote.Claim(Parent(p));
      if !listed {
        return;
      }
      for i := 0 to |entries|
        invariant remote.log == old(remote.log) + [Query(p), Listing(Parent(p))]
        invariant !NamedIn(entries, i, p[|p| - 1])
      {
        if entries[i].name == p[|p| - 1] {
          assert Parent(p) + [p[|p| - 1]] == p;
          return true, entries[i].isDir;
        }
      }
      if remote.truthful {
        ChildUnlisted(remote.tree, Parent(p), entries, p[|p| - 1]);
        assert Parent(p) + [p[|p| - 1]] == p;
      }
      // Else a single entry of the same name in another case will do.
      known, isDir := *, *;
  }

  /** No call fails for a reason of its own. */
  predicate Able(remote: Remote) {
    remote.readable && remote.writable
  }

  /** Any deletion costs something, none starts too deep, and a single file costs one unit. */
  lemma TopCost(t: Tree, p: Path, depth: nat, ftp: bool)
    requires WellFormed(t)
    ensures DeleteCost(t, p, depth, ftp).Some? ==> depth <= MAX_TREE_DEPTH && DeleteCost(t, p, depth, ftp).value > 0
    ensures p != [] && p in t && t[p].File? && depth <= MAX_TREE_DEPTH ==> DeleteCost(t, p, depth, ftp) == Some(1)
  {
    assert p + [] == p;
    if DeleteCost(t, p, depth, ftp).Some? {
      PrefixRefl(p);
      assert p in Subtree(t, p);
      assert DeletableAt(t, p, depth, ftp, []);
    }
    if p != [] && p in t && t[p].File? && depth <= MAX_TREE_DEPTH {
      FileSubtree(t, p);
      forall r ensures DeletableAt(t, p, depth, ftp, r) {
        Extend(p, r);
        if r != [] {
          NothingBelow(t, p, p + r);
        }
      }
    }
  }

  /** A source that can be deleted has no name that is refused, and none that is passed over. */
  lemma CleanNames(t: Tree, p: Path, depth: nat, ftp: bool, entries: seq<Entry>)
    requires ListsButDots(t, p, entries) && AllDeletable(t, p, depth, ftp)
    ensures NoDots(t, p)
    ensures forall i :: 0 <= i < |entries| && !Dotted(entries[i].name) ==>
              Paths.ValidateChildName(entries[i].name, ftp)
  {
    assert DeletableAt(t, p, depth, ftp, ["."]) && DeletableAt(t, p, depth, ftp, [".."]);
    forall i | 0 <= i < |entries| && !Dotted(entries[i].name) ensures Paths.ValidateChildName(entries[i].name, ftp) {
      assert p + [entries[i].name] in t && DeletableAt(t, p, depth, ftp, [entries[i].name]);
    }
  }

  lemma WalkBegins(t: Tree, p: Path, depth: nat, ftp: bool, entries: seq<Entry>)
    ensures Walking(t, t, p, depth, ftp, entries, 0, 0)
  {
    assert Under(t, p, entries, 0) == {};
  }

  /** The tree after a delete attempt, and the commands it took. */
  twostate predicate Attempted(remote: Remote, p: Path, ok: bool, spent: int, rate: int)
    reads remote
  {
    && WellFormed(remote.tree) && RemovesUnder(old(remote.tree), remote.tree, p)
    && (ok ==> forall q :: Prefix(p, q) ==> q !in remote.tree)
    && old(remote.log) <= remote.log && |remote.log| - |old(remote.log)| <= rate * spent
  }

  /**
   * FTP. Everything sent names a path at or below `p`, save that the very first lookup lists
   * the parent exactly when the server does not recognise it; a unit of budget pays for
   * at most four commands; and success means the whole subtree is gone with everything else
   * in place.
   */
  method DeleteDepth(remote: Remote, p: Path, depth: nat, budget: nat) returns (ok: bool, left: int)
    requires WellFormed(remote.tree) && depth <= MAX_TREE_DEPTH + 1 && p != []
    modifies remote
    ensures remote.truthful ==>
              Pays(DeleteCost(old(remote.tree), p, depth, true), budget, left, Able(remote), ok)
    ensures Attempted(remote, p, ok, Spent(budget, left), 4)
    ensures -1 <= left <= budget && (ok ==> 0 <= left)
    ensures BelowButOnce(p, remote.log, |old(remote.log)|)
    ensures remote.looksUp(|old(remote.log)|) ==> Below(p, remote.log, |old(remote.log)|)
    ensures !remote.looksUp(|old(remote.log)|) && depth <= MAX_TREE_DEPTH && budget > 0 ==>
              AsksParent(p, remote.log, |old(remote.log)|)
    decreases MAX_TREE_DEPTH + 1 - depth, 4
  {
    ok, left := false, budget;
    TopCost(remote.tree, p, depth, true);
    if depth > MAX_TREE_DEPTH || budget <= 0 {
      return;
    }
    left := left - 1;
    ChildBelow(p, "");
    var known, isDir := FtpStat(remote, p);
    if !known {
      return;
    }
    ghost var asked, start := remote.log, |old(remote.log)|;
    assert BelowButOnce(p, asked, start) && (remote.looksUp(start) ==> Below(p, asked, start));
    assert !remote.looksUp(start) ==> AsksParent(p, asked, start);
    if !isDir {
      ok := remote.DeleteFile(p);
      OneCommand(p, asked, Change(p));
      BelowJoins(p, asked, remote.log, start);
      if ok {
        NothingLeft(remote.tree, p);
      }
      return;
    }
    ok, left := DeleteContents(remote, p, depth, left);
    BelowJoins(p, asked, remote.log, start);
  }

  /** Lists a directory, deletes what the server says is in it, and then the directory. */
  method DeleteContents(remote: Remote, p: Path, depth: nat, budget: nat) returns (ok: bool, left: int)
    requires WellFormed(remote.tree) && depth <= MAX_TREE_DEPTH && p != []
    modifies remote
    ensures WellFormed(remote.tree) && RemovesUnder(old(remote.tree), remote.tree, p)
    ensures ok ==> forall q :: Prefix(p, q) ==> q !in remote.tree
    ensures old(remote.log) <= remote.log && |remote.log| - |old(remote.log)| <= 2 + 4 * Spent(budget, left)
    ensures -1 <= left <= budget && (ok ==> 0 <= left)
    ensures Below(p, remote.log, |old(remote.log)|)
    ensures remote.truthful ==> (ok ==> IsDir(old(remote.tree), p))
    ensures remote.truthful && IsDir(old(remote.tree), p) ==>
              Pays(DeleteCost(old(remote.tree), p, depth, true), budget + 1, left, Able(remote), ok)
    decreases MAX_TREE_DEPTH + 1 - depth, 3
  {
    left := budget;
    ChildBelow(p, "");
    ghost var tree, start := remote.tree, |old(remote.log)|;
    var listed, entries := remote.Claim(p);
    OneCommand(p, old(remote.log), Listing(p));
    if remote.truthful && listed {
      UnderAll(tree, p, entries);
      if AllDeletable(tree, p, depth, true) {
        CleanNames(tree, p, depth, true, entries);
      }
    }
    if !listed || !ValidEntries(entries) {
      return false, left;
    }
    ghost var listing := remote.log;
    ok, left := DeleteEntries(remote, p, entries, depth, left);
    BelowJoins(p, listing, remote.log, start);
    if !ok {
      return;
    }
    if remote.truthful {
      WalkEnds(tree, remote.tree, p, depth, true, entries, budget - left);
    }
    ghost var emptied, log := remote.tree, remote.log;
    ok := remote.RemoveDir(p);
    RemovesChain(tree, emptied, remote.tree, p, p);
    OneCommand(p, log, Change(p));
    BelowJoins(p, log, remote.log, start);
    if ok {
      NothingLeft(remote.tree, p);
    }
  }

  /** The entries one by one, all of whose names were checked before. */
  method DeleteEntries(remote: Remote, p: Path, entries: seq<Entry>, depth: nat, budget: nat)
    returns (ok: bool, left: int)
    requires WellFormed(remote.tree) && depth <= MAX_TREE_DEPTH && p != [] && ValidEntries(entries)
    requires remote.truthful ==> IsDir(remote.tree, p) && ListsButDots(remote.tree, p, entries)
    modifies remote
    ensures WellFormed(remote.tree) && RemovesUnder(old(remote.tree), remote.tree, p)
    ensures old(remote.log) <= remote.log && |remote.log| - |old(remote.log)| <= 4 * Spent(budget, left)
    ensures -1 <= left <= budget && (ok ==> 0 <= left)
    ensures Below(p, remote.log, |old(remote.log)|)
    ensures remote.truthful && ok ==>
              Walking(old(remote.tree), remote.tree, p, depth, true, entries, |entries|, budget - left)
    ensures remote.truthful && Able(remote) && AllDeletable(old(remote.tree), p, depth, true) ==>
              (|Under(old(remote.tree), p, entries, |entries|)| <= budget ==> ok)
    decreases MAX_TREE_DEPTH + 1 - depth, 2
  {
    ok, left := true, budget;
    ghost var start, tree := |old(remote.log)|, remote.tree;
    ChildBelow(p, "");
    if remote.truthful {
      WalkBegins(tree, p, depth, true, entries);
    }
    for i := 0 to |entries|
      invariant WellFormed(remote.tree) && RemovesUnder(tree, remote.tree, p) && ok
      invariant old(remote.log) <= remote.log && 0 <= left <= budget
      invariant |remote.log| - start <= 4 * (budget - left)
      invariant Below(p, remote.log, start)
      invariant remote.truthful ==> Walking(tree, remote.tree, p, depth, true, entries, i, budget - left)
    {
      ok, left := DeleteTurn(remote, p, entries, i, depth, left, tree, start, budget - left);
      if !ok {
        break;
      }
    }
  }

  /** One of them, unless it is the directory or its parent. */
  method DeleteTurn(remote: Remote, p: Path, entries: seq<Entry>, i: nat, depth: nat, budget: nat, ghost tree0: Tree,
                    ghost start: nat, ghost spent: int)
    returns (ok: bool, left: int)
    requires WellFormed(remote.tree) && depth <= MAX_TREE_DEPTH && p != [] && i < |entries|
    requires Dotted(entries[i].name) || Paths.ValidateChildName(entries[i].name, true)
    requires RemovesUnder(tree0, remote.tree, p) && start <= |remote.log| && Below(p, remote.log, start)
    requires remote.truthful ==>
               && WellFormed(tree0) && ListsButDots(tree0, p, entries)
               && Walking(tree0, remote.tree, p, depth, true, entries, i, spent)
    modifies remote
    ensures WellFormed(remote.tree) && RemovesUnder(tree0, remote.tree, p)
    ensures old(remote.log) <= remote.log && |remote.log| - |old(remote.log)| <= 4 * Spent(budget, left)
    ensures -1 <= left <= budget && (ok ==> 0 <= left)
    ensures Below(p, remote.log, start)
    ensures remote.truthful && ok ==>
              Walking(tree0, remote.tree, p, depth, true, entries, i + 1, spent + budget - left)
    ensures remote.truthful && Able(remote) && AllDeletable(tree0, p, depth, true) ==>
              (|Under(tree0, p, entries, |entries|)| <= spent + budget ==> ok)
    decreases MAX_TREE_DEPTH + 1 - depth, 1
  {
    if remote.truthful && AllDeletable(tree0, p, depth, true) {
      CleanNames(tree0, p, depth, true, entries);
    }
    if entries[i].name == "." || entries[i].name == ".." {
      if remote.truthful {
        WalkPasses(tree0, remote.tree, p, depth, true, entries, i, spent);
      }
      return true, budget;
    }
    ChildBelow(p, entries[i].name);
    ok, left := DeleteEntry(remote, p, entries[i], depth, budget);
    RemovesChain(tree0, old(remote.tree), remote.tree, p, p + [entries[i].name]);
    BelowJoins(p, old(remote.log), remote.log, start);
    if remote.truthful {
      WalkOn(tree0, old(remote.tree), remote.tree, p, depth, true, entries, i, spent, budget, left, Able(remote), ok);
    }
  }

  predicate ValidEntries(entries: seq<Entry>) {
    forall i :: 0 <= i < |entries| ==>
      Dotted(entries[i].name) || Paths.ValidateChildName(entries[i].name, true)
  }

  /** One listed entry: a directory by recursion, anything else by one command of its own unit. */
  method DeleteEntry(remote: Remote, p: Path, e: Entry, depth: nat, budget: nat) returns (ok: bool, left: int)
    requires WellFormed(remote.tree) && depth <= MAX_TREE_DEPTH
    modifies remote
    ensures WellFormed(remote.tree) && RemovesUnder(old(remote.tree), remote.tree, p + [e.name])
    ensures ok ==> forall q :: Prefix(p + [e.name], q) ==> q !in remote.tree
    ensures remote.truthful && p + [e.name] in old(remote.tree) ==>
              (e.isDir <==> old(remote.tree)[p + [e.name]].Dir?) ==>
              Pays(EntryCost(old(remote.tree), p + [e.name], depth + 1, true), budget, left, Able(remote), ok)
    ensures old(remote.log) <= remote.log && |remote.log| - |old(remote.log)| <= 4 * Spent(budget, left)
    ensures -1 <= left <= budget && (ok ==> 0 <= left)
    ensures Below(p, remote.log, |old(remote.log)|)
    decreases MAX_TREE_DEPTH + 1 - depth, 0
  {
    var child := p + [e.name];
    ChildBelow(p, e.name);
    if e.isDir {
      ok, left := DeleteDepth(remote, child, depth + 1, budget);
      ChildCommands(p, e.name, remote.log, |old(remote.log)|);
    } else {
      left := budget - 1;
      if left < 0 {
        return false, left;
      }
      ok := remote.DeleteFile(child);
      OneCommand(p, old(remote.log), Change(child));
      if ok {
        NothingLeft(remote.tree, child);
      }
    }
  }

  // ------------------------------------------------------------------- SFTP

  /**
   * SFTP. Each name is checked only when its turn comes and every entry costs a visit; a
   * visit pays for at most three commands, all of them at or below `p`.
   */
  method DeleteBudget(remote: Remote, p: Path, depth: nat, budget: nat) returns (ok: bool, left: int)
    requires WellFormed(remote.tree) && depth <= MAX_TREE_DEPTH + 1 && p != []
    modifies remote
    ensures remote.truthful ==>
              Pays(DeleteCost(old(remote.tree), p, depth, false), budget, left, Able(remote), ok)
    ensures Attempted(remote, p, ok, Spent(budget, left), 3)
    ensures -1 <= left <= budget && (ok ==> 0 <= left)
    ensures Below(p, remote.log, |old(remote.log)|)
    decreases MAX_TREE_DEPTH + 1 - depth, 4
  {
    ok, left := false, budget - 1;
    TopCost(remote.tree, p, depth, false);
    if left < 0 || depth > MAX_TREE_DEPTH {
      return;
    }
    ChildBelow(p, "");
    var answer := remote.Lstat(p);
    ghost var asked, start := remote.log, |old(remote.log)|;
    OneCommand(p, old(remote.log), Query(p));
    if !answer.Is? {
      return;
    }
    if !answer.isDir {
      ok := remote.DeleteFile(p);
      OneCommand(p, asked, Change(p));
      BelowJoins(p, asked, remote.log, start);
      if ok {
        NothingLeft(remote.tree, p);
      }
      return;
    }
    ok, left := DeleteVisits(remote, p, depth, left);
    BelowJoins(p, asked, remote.log, start);
  }

  method DeleteVisits(remote: Remote, p: Path, depth: nat, budget: nat) returns (ok: bool, left: int)
    requires WellFormed(remote.tree) && depth <= MAX_TREE_DEPTH && p != []
    modifies remote
    ensures WellFormed(remote.tree) && RemovesUnder(old(remote.tree), remote.tree, p)
    ensures ok ==> forall q :: Prefix(p, q) ==> q !in remote.tree
    ensures old(remote.log) <= remote.log && |remote.log| - |old(remote.log)| <= 2 + 3 * Spent(budget, left)
    ensures -1 <= left <= budget && (ok ==> 0 <= left)
    ensures Below(p, remote.log, |old(remote.log)|)
    ensures remote.truthful ==> (ok ==> IsDir(old(remote.tree), p))
    ensures remote.truthful && IsDir(old(remote.tree), p) ==>
              Pays(DeleteCost(old(remote.tree), p, depth, false), budget + 1, left, Able(remote), ok)
    decreases MAX_TREE_DEPTH + 1 - depth, 3
  {
    left := budget;
    ChildBelow(p, "");
    ghost var tree, start := remote.tree, |old(remote.log)|;
    var listed, entries := remote.Claim(p);
    OneCommand(p, old(remote.log), Listing(p));
    if remote.truthful && listed {
      UnderAll(tree, p, entries);
      if AllDeletable(tree, p, depth, false) {
        CleanNames(tree, p, depth, false, entries);
      }
    }
    if !listed {
      return false, left;
    }
    ghost var listing := remote.log;
    ok, left := VisitEntries(remote, p, entries, depth, left);
    BelowJoins(p, listing, remote.log, start);
    if !ok {
      return;
    }
    if remote.truthful {
      WalkEnds(tree, remote.tree, p, depth, false, entries, budget - left);
    }
    ghost var emptied, log := remote.tree, remote.log;
    ok := remote.RemoveDir(p);
    RemovesChain(tree, emptied, remote.tree, p, p);
    OneCommand(p, log, Change(p));
    BelowJoins(p, log, remote.log, start);
    if ok {
      NothingLeft(remote.tree, p);
    }
  }

  /** The entries one by one, each name checked when its turn comes. */
  method VisitEntries(remote: Remote, p: Path, entries: seq<Entry>, depth: nat, budget: nat)
    returns (ok: bool, left: int)
    requires WellFormed(remote.tree) && depth <= MAX_TREE_DEPTH && p != []
    requires remote.truthful ==> IsDir(remote.tree, p) && ListsButDots(remote.tree, p, entries)
    modifies remote
    ensures WellFormed(remote.tree) && RemovesUnder(old(remote.tree), remote.tree, p)
    ensures old(remote.log) <= remote.log && |remote.log| - |old(remote.log)| <= 3 * Spent(budget, left)
    ensures -1 <= left <= budget && (ok ==> 0 <= left)
    ensures Below(p, remote.log, |old(remote.log)|)
    ensures remote.truthful && ok ==>
              Walking(old(remote.tree), remote.tree, p, depth, false, entries, |entries|, budget - left)
    ensures remote.truthful && Able(remote) && AllDeletable(old(remote.tree), p, depth, false) ==>
              (|Under(old(remote.tree), p, entries, |entries|)| <= budget ==> ok)
    decreases MAX_TREE_DEPTH + 1 - depth, 2
  {
    ok, left := true, budget;
    ghost var start, tree := |old(remote.log)|, remote.tree;
    ChildBelow(p, "");
    if remote.truthful {
      WalkBegins(tree, p, depth, false, entries);
    }
    for i := 0 to |entries|
      invariant WellFormed(remote.tree) && RemovesUnder(tree, remote.tree, p) && ok
      invariant old(remote.log) <= remote.log && 0 <= left <= budget
      invariant |remote.log| - start <= 3 * (budget - left)
      invariant Below(p, remote.log, start)
      invariant remote.truthful ==> Walking(tree, remote.tree, p, depth, false, entries, i, budget - left)
    {
      ok, left := VisitTurn(remote, p, entries, i, depth, left, tree, start, budget - left);
      if !ok {
        break;
      }
    }
  }

  /** One of them, unless it is the directory or its parent. */
  method VisitTurn(remote: Remote, p: Path, entries: seq<Entry>, i: nat, depth: nat, budget: nat, ghost tree0: Tree,
                   ghost start: nat, ghost spent: int)
    returns (ok: bool, left: int)
    requires WellFormed(remote.tree) && depth <= MAX_TREE_DEPTH && p != [] && i < |entries|
    requires RemovesUnder(tree0, remote.tree, p) && start <= |remote.log| && Below(p, remote.log, start)
    requires remote.truthful ==>
               && WellFormed(tree0) && ListsButDots(tree0, p, entries)
               && Walking(tree0, remote.tree, p, depth, false, entries, i, spent)
    modifies remote
    ensures WellFormed(remote.tree) && RemovesUnder(tree0, remote.tree, p)
    ensures old(remote.log) <= remote.log && |remote.log| - |old(remote.log)| <= 3 * Spent(budget, left)
    ensures -1 <= left <= budget && (ok ==> 0 <= left)
    ensures Below(p, remote.log, start)
    ensures remote.truthful && ok ==>
              Walking(tree0, remote.tree, p, depth, false, entries, i + 1, spent + budget - left)
    ensures remote.truthful && Able(remote) && AllDeletable(tree0, p, depth, false) ==>
              (|Under(tree0, p, entries, |entries|)| <= spent + budget ==> ok)
    decreases MAX_TREE_DEPTH + 1 - depth, 1
  {
    if remote.truthful && AllDeletable(tree0, p, depth, false) {
      CleanNames(tree0, p, depth, false, entries);
    }
    if entries[i].name == "." || entries[i].name == ".." {
      if remote.truthful {
        WalkPasses(tree0, remote.tree, p, depth, false, entries, i, spent);
      }
      return true, budget;
    }
    if !Paths.ValidateChildName(entries[i].name, false) {
      return false, budget;
    }
    ChildBelow(p, entries[i].name);
    ok, left := VisitEntry(remote, p, entries[i], depth, budget);
    RemovesChain(tree0, old(remote.tree), remote.tree, p, p + [entries[i].name]);
    BelowJoins(p, old(remote.log), remote.log, start);
    if remote.truthful {
      WalkOn(tree0, old(remote.tree), remote.tree, p, depth, false, entries, i, spent, budget, left, Able(remote), ok);
    }
  }

  method VisitEntry(remote: Remote, p: Path, e: Entry, depth: nat, budget: nat) returns (ok: bool, left: int)
    requires WellFormed(remote.tree) && depth <= MAX_TREE_DEPTH
    modifies remote
    ensures WellFormed(remote.tree) && RemovesUnder(old(remote.tree), remote.tree, p + [e.name])
    ensures ok ==> forall q :: Prefix(p + [e.name], q) ==> q !in remote.tree
    ensures remote.truthful ==>
              Pays(EntryCost(old(remote.tree), p + [e.name], depth + 1, false), budget, left, Able(remote), ok)
    ensures old(remote.log) <= remote.log && |remote.log| - |old(remote.log)| <= 3 * Spent(budget, left)
    ensures -1 <= left <= budget && (ok ==> 0 <= left)
    ensures Below(p, remote.log, |old(remote.log)|)
    decreases MAX_TREE_DEPTH + 1 - depth, 0
  {
    ok, left := DeleteBudget(remote, p + [e.name], depth + 1, budget);
    ChildCommands(p, e.name, remote.log, |old(remote.log)|);
  }

  // ------------------------------------------------------------ entry points

  /**
   * Either adapter's entry point, which refuses the root. Whatever the server answers, at
   * most 400 000 commands over FTP and 300 000 over SFTP; none changes anything that is not
   * at or below `p`, and all of them name a path at or below `p` if and only if the session
   * is SFTP or the FTP server recognises the lookup that opens the call. Where the server
   * tells the truth, and nothing fails for a reason of its own, it succeeds if and only if
   * what is there can be deleted and has no more than 100 000 entries.
   */
  method Delete(remote: Remote, p: Path, sftp: bool) returns (ok: bool)
    requires WellFormed(remote.tree)
    modifies remote
    ensures WellFormed(remote.tree) && RemovesUnder(old(remote.tree), remote.tree, p)
    ensures ok ==> p != [] && forall q :: q in remote.tree <==> q in old(remote.tree) && !Prefix(p, q)
    ensures old(remote.log) <= remote.log
    ensures |remote.log| - |old(remote.log)| <= (if sftp then 3 else 4) * 100_000
    ensures BelowButOnce(p, remote.log, |old(remote.log)|)
    ensures p != [] ==> (Below(p, remote.log, |old(remote.log)|) <==> sftp || remote.looksUp(|old(remote.log)|))
    ensures forall k :: |old(remote.log)| <= k < |remote.log| && !remote.log[k].Query? && !remote.log[k].Listing? ==>
              Prefix(p, remote.log[k].path)
    ensures remote.truthful && ok ==> Removable(old(remote.tree), p, !sftp)
    ensures remote.truthful && Able(remote) ==> (ok <==> Removable(old(remote.tree), p, !sftp))
  {
    if p == [] {
      return false;
    }
    var left;
    if sftp {
      ok, left := DeleteBudget(remote, p, 0, BUDGET);
    } else {
      ok, left := DeleteDepth(remote, p, 0, BUDGET);
      if !remote.looksUp(|old(remote.log)|) {
        ParentIsOutside(p, remote.log, |old(remote.log)|);
      }
    }
  }

  /** The path is there, every entry at or below it can be deleted, and they are not too many. */
  ghost predicate Removable(t: Tree, p: Path, ftp: bool) {
    p in t && p != [] && AllDeletable(t, p, 0, ftp) && |Subtree(t, p)| <= 100_000
  }
}
