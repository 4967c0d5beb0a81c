/** Creating parents, the existence probe, and the single-request upload. */
module RemoteUpload {
  import opened Options
  import opened RemoteTree

  datatype Outcome = Done | Taken | Failed

  /**
   * Creates `dir` and its missing parents. `created` is a promise about the past: the
   * directory was not there before, so nothing under it was either.
   */
  method EnsureDirAllCreated(remote: Remote, dir: Path) returns (ok: bool, created: bool)
    requires WellFormed(remote.tree)
    modifies remote
    ensures WellFormed(remote.tree) && OnlyDirsTowards(old(remote.tree), remote.tree, dir)
    ensures ok ==> IsDir(remote.tree, dir)
    ensures created ==> ok && dir !in old(remote.tree)
    ensures ok ==> Clear(old(remote.tree), dir) && remote.tree == WithDirs(old(remote.tree), dir)
    ensures remote.readable && remote.writable && Clear(old(remote.tree), dir) ==> ok
    ensures remote.readable ==> (ok <==> IsDir(remote.tree, dir))
    ensures remote.readable && remote.writable && ok ==> (created <==> dir !in old(remote.tree))
    decreases |dir|
  {
    ok, created := true, false;
    if dir == [] {
      return;
    }
    PrefixRefl(dir);
    var st := remote.Stat(dir);
    if st.Found? {
      return st.isDir, false;
    } else if st.StatFailed? {
      return false, false;
    }
    var parentOk, _ := EnsureDirAllCreated(remote, Parent(dir));
    ghost var mid := remote.tree;
    DirsChain(old(remote.tree), old(remote.tree), mid, Parent(dir), Parent(dir));
    DirsChain(old(remote.tree), mid, mid, Parent(dir), dir);
    if !parentOk {
      return false, false;
    }
    assert dir !in mid by {
      assert !Prefix(dir, Parent(dir));
    }
    var made := remote.MakeDir(dir);
    DirsChain(old(remote.tree), mid, remote.tree, Parent(dir), dir);
    if IsDir(remote.tree, dir) {
      OnlyMissingDirs(old(remote.tree), remote.tree, dir);
    }
    if !made {
      var again := remote.Stat(dir);
      return again == Found(true), false;
    }
    created := true;
  }

  /** Only a definite "not there" counts as free. */
  method DestinationTaken(remote: Remote, p: Path) returns (taken: bool, failed: bool)
    modifies remote`log
    ensures !taken ==> !failed && p !in remote.tree
    ensures taken && !failed ==> p in remote.tree
    ensures remote.readable ==> !failed
  {
    var st := remote.Stat(p);
    match st
    case Found(_) => taken, failed := true, false;
    case NotFound => taken, failed := false, false;
    case StatFailed => taken, failed := true, true;
  }

  /** `path.Dir`: of "/a/b/" it is "/a/b" itself, of "/a/b" it is "/a". */
  function DirOf(p: Path, trailingSlash: bool): Path
    requires p != []
  {
    if trailingSlash then p else Parent(p)
  }

  /** Everything but `p` is as it was, apart from directories added on the way to it. */
  ghost predicate OnlyTouches(before: Tree, after: Tree, p: Path) {
    && (forall q :: q in before && q != p ==> q in after && after[q] == before[q])
    && (forall q :: q in after && q !in before && q != p ==> after[q] == Dir && Prefix(q, p))
    && (p in before ==> p in after && (before[p] == Dir ==> after[p] == Dir))
  }

  /** The destination is as it was, gone, a directory, or a file holding a beginning of what was sent. */
  ghost predicate HoldsBeginning(before: Tree, after: Tree, p: Path, sent: Option<seq<Byte>>) {
    p in after && after[p].File? ==>
      (p in before && before[p] == after[p]) || (sent.Some? && after[p].content <= sent.value)
  }

  lemma SendTouches(a: Tree, b: Tree, c: Tree, dir: Path, p: Path)
    requires p != [] && (dir == p || dir == Parent(p))
    requires OnlyDirsTowards(a, b, dir) && OnlyFileAt(b, c, p)
    ensures OnlyTouches(a, c, p)
    ensures p !in a ==> Keeps(a, c)
  {
    PrefixRefl(p);
    forall q | Prefix(q, dir) ensures Prefix(q, p) {
      assert q == dir[..|q|] == p[..|q|];
    }
  }

  /**
   * An upload to `p` can be carried out: no file stands on the way, `p` is no directory and
   * is not meant as one, and nothing is there that may not be overwritten.
   */
  ghost predicate Receivable(t: Tree, p: Path, trailingSlash: bool, overwrite: bool)
    requires p != []
  {
    !trailingSlash && Clear(t, Parent(p)) && !IsDir(t, p) && (overwrite || p !in t)
  }

  /** Once the directory is made, a file can be put there exactly where the tree allowed for it. */
  lemma ReceivableIff(t: Tree, p: Path, trailingSlash: bool)
    requires WellFormed(t) && p != [] && Clear(t, DirOf(p, trailingSlash))
    ensures CanHold(WithDirs(t, DirOf(p, trailingSlash)), p) <==> Receivable(t, p, trailingSlash, true)
  {
    var dir := DirOf(p, trailingSlash);
    PrefixRefl(dir);
    WithDirsAt(t, dir, dir);
    WithDirsAt(t, dir, p);
    WithDirsAt(t, dir, Parent(p));
    assert dir == Parent(p) ==> !Prefix(p, dir);
    assert Clear(t, dir) && dir in t ==> IsDir(t, dir);
  }

  /** A directory that was not there held nothing, so its would-be entry is free. */
  lemma FreshParentIsEmpty(t: Tree, p: Path, trailingSlash: bool)
    requires WellFormed(t) && p != [] && DirOf(p, trailingSlash) !in t
    ensures p !in t
  {
  }

  /**
   * Without overwrite consent no outcome changes or removes anything that existed,
   * whether or not the probe was skipped; with consent only the destination may change.
   */
  method UploadSimple(remote: Remote, p: Path, trailingSlash: bool, overwrite: bool, content: seq<Byte>)
    returns (r: Outcome)
    requires WellFormed(remote.tree) && p != []
    modifies remote
    ensures WellFormed(remote.tree) && OnlyTouches(old(remote.tree), remote.tree, p)
    ensures !overwrite ==> Keeps(old(remote.tree), remote.tree)
    ensures !overwrite && p in old(remote.tree) ==> !r.Done?
    ensures HoldsBeginning(old(remote.tree), remote.tree, p, Some(content))
    ensures r.Done? ==> p in remote.tree && remote.tree[p] == File(content)
    ensures r.Done? ==> remote.tree == WithDirs(old(remote.tree), Parent(p))[p := File(content)]
    ensures r.Done? ==> Receivable(old(remote.tree), p, trailingSlash, overwrite)
    ensures remote.readable && remote.writable && Receivable(old(remote.tree), p, trailingSlash, overwrite) ==> r.Done?
    ensures r.Taken? ==> !overwrite && p in remote.tree
    ensures remote.readable && remote.writable && !overwrite && p in old(remote.tree)
            && Clear(old(remote.tree), DirOf(p, trailingSlash)) ==>
              r.Taken?
  {
    var dir := DirOf(p, trailingSlash);
    PrefixRefl(p);
    var ok, created := EnsureDirAllCreated(remote, dir);
    ghost var mid := remote.tree;
    SendTouches(old(remote.tree), mid, mid, dir, p);
    if !ok {
      return Failed;
    }
    if !overwrite && !created {
      var taken, failed := DestinationTaken(remote, p);
      if failed {
        return Failed;
      }
      if taken {
        return Taken;
      }
    }
    if created {
      FreshParentIsEmpty(old(remote.tree), p, trailingSlash);
    }
    ReceivableIff(old(remote.tree), p, trailingSlash);
    var sent := remote.Upload(p, content);
    SendTouches(old(remote.tree), mid, remote.tree, dir, p);
    r := if sent.Uploaded? then Done else Failed;
  }
}
