/** What lies under a path, entry by entry of its listing, and what a walk over it costs. */
module Subtrees {
  import opened Options
  import opened RemoteTree
  import FiniteSets

  lemma Extend(p: Path, q: Path)
    ensures Prefix(p, p + q) && (p + q)[|p|..] == q
  {
  }

  /** A directory with nothing directly in it. */
  ghost predicate Childless(t: Tree, p: Path) {
    IsDir(t, p) && forall name :: p + [name] !in t
  }

  ghost function Subtree(t: Tree, p: Path): set<Path> {
    set q | q in t && Prefix(p, q)
  }

  predicate NamedIn(entries: seq<Entry>, k: nat, name: string)
    requires k <= |entries|
  {
    exists i :: 0 <= i < k && entries[i].name == name
  }

  /** What lies under the first `k` names of the listing. */
  ghost function Under(t: Tree, src: Path, entries: seq<Entry>, k: nat): set<Path>
    requires k <= |entries|
  {
    set q | q in t && Prefix(src, q) && q != src && NamedIn(entries, k, q[|src|])
  }

  lemma UnderOne(t: Tree, src: Path, entries: seq<Entry>, k: nat, q: Path)
    requires k < |entries|
    ensures q in Under(t, src, entries, k + 1)
            <==> q in Under(t, src, entries, k) || q in Subtree(t, src + [entries[k].name])
  {
    var child := src + [entries[k].name];
    assert Prefix(child, q) ==> q[..|src|] == child[..|src|] == src && q[|src|] == entries[k].name;
    assert Prefix(src, q) && q != src && q[|src|] == entries[k].name ==> q[..|child|] == child;
    assert NamedIn(entries, k + 1, entries[k].name);
  }

  /** One more name adds the subtree below it. */
  lemma UnderMore(t: Tree, src: Path, entries: seq<Entry>, k: nat)
    requires k < |entries|
    requires Distinct(entries)
    ensures |Under(t, src, entries, k + 1)|
            == |Under(t, src, entries, k)| + |Subtree(t, src + [entries[k].name])|
  {
    var a, b := Under(t, src, entries, k), Subtree(t, src + [entries[k].name]);
    forall q ensures q in Under(t, src, entries, k + 1) <==> q in a + b {
      UnderOne(t, src, entries, k, q);
    }
    assert Under(t, src, entries, k + 1) == a + b;
    assert a !! b by {
      forall q | q in b ensures q !in a {
        assert q[|src|] == (src + [entries[k].name])[|src|] == entries[k].name;
      }
    }
  }

  /** The source itself lies under none of its names. */
  lemma UnderFewer(t: Tree, src: Path, entries: seq<Entry>, k: nat)
    requires k <= |entries| && src in t
    ensures |Under(t, src, entries, k)| < |Subtree(t, src)|
  {
    var u, all := Under(t, src, entries, k), Subtree(t, src);
    PrefixRefl(src);
    assert u + {src} <= all && |u + {src}| == |u| + 1;
    FiniteSets.Smaller(u + {src}, all);
  }

  /** No more lies under some of the names than under all of them. */
  lemma UnderGrows(t: Tree, src: Path, entries: seq<Entry>, k: nat)
    requires k <= |entries|
    ensures |Under(t, src, entries, k)| <= |Under(t, src, entries, |entries|)|
  {
    FiniteSets.Smaller(Under(t, src, entries, k), Under(t, src, entries, |entries|));
  }

  /** And is all that lies under no name of its listing. */
  lemma UnderAll(t: Tree, src: Path, entries: seq<Entry>)
    requires WellFormed(t) && src in t && ListsAll(t, src, entries)
    ensures |Subtree(t, src)| == |Under(t, src, entries, |entries|)| + 1
  {
    var u, all := Under(t, src, entries, |entries|), Subtree(t, src);
    PrefixRefl(src);
    forall q ensures q in all <==> q in u || q == src {
      if q in all && q != src {
        UnderSome(t, src, entries, q);
      }
    }
    FiniteSets.OneMore(u, all, src, true);
  }

  lemma UnderSome(t: Tree, src: Path, entries: seq<Entry>, q: Path)
    requires WellFormed(t) && ListsAll(t, src, entries) && q in t && Prefix(src, q) && q != src
    ensures NamedIn(entries, |entries|, q[|src|])
  {
    var r := q[|src|..];
    assert src + r == q && r != [] && r[0] == q[|src|];
    if !NamedIn(entries, |entries|, r[0]) {
      UnlistedIsAbsent(t, src, entries, r);
    }
  }

  /** A name the listing does not show has nothing to copy. */
  lemma UnlistedIsAbsent(t: Tree, src: Path, entries: seq<Entry>, r: Path)
    requires WellFormed(t) && ListsAll(t, src, entries) && r != []
    requires !NamedIn(entries, |entries|, r[0])
    ensures src + r !in t
  {
    ChildUnlisted(t, src, entries, r[0]);
    AbsentBelow(t, src, r);
  }

  lemma AbsentBelow(t: Tree, src: Path, r: Path)
    requires WellFormed(t) && r != [] && src + [r[0]] !in t
    ensures src + r !in t
  {
    var child := src + [r[0]];
    var q := child + r[1..];
    assert src + r == q;
    Extend(child, r[1..]);
    if q != child {
      NothingBelow(t, child, q);
    }
  }

  lemma ChildUnlisted(t: Tree, src: Path, entries: seq<Entry>, name: string)
    requires ListsAll(t, src, entries) && !NamedIn(entries, |entries|, name)
    ensures src + [name] !in t
  {
    var child := src + [name];
    assert Parent(child) == src && child[|child| - 1] == name;
  }

  lemma ChildlessLists(t: Tree, p: Path, entries: seq<Entry>)
    requires Childless(t, p) && ListsExactly(t, p, entries)
    ensures entries == []
  {
    assert entries != [] ==> p + [entries[0].name] in t;
  }

  /** A file is its whole subtree. */
  lemma FileSubtree(t: Tree, p: Path)
    requires WellFormed(t) && p in t && t[p].File?
    ensures |Subtree(t, p)| == 1
  {
    PrefixRefl(p);
    forall q | q in Subtree(t, p) ensures q == p {
      if q != p {
        NothingBelow(t, p, q);
      }
    }
    assert Subtree(t, p) == {p};
  }

  /** Success spends exactly the cost; and where nothing else fails, it comes if the visits suffice. */
  predicate Pays(cost: Option<nat>, visits: int, left: int, able: bool, ok: bool) {
    && (ok ==> cost.Some? && left == visits - cost.value)
    && (able && cost.Some? && cost.value <= visits ==> ok)
  }
}
