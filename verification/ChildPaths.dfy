/** How a directory entry's path is built from text, and what it is by segments. */
module ChildPaths {
  import opened Options
  import opened Texts
  import opened Paths
  import opened ArchiveExtraction

  /** The FTP adapter's spelling. */
  function TrimmedChild(p: string, name: string): string {
    TrimRight(p, {'/'}) + "/" + name
  }

  lemma ChildNameIsPlain(name: string, windows: bool)
    requires ValidateChildName(name, windows)
    ensures Plain(name) && Split(name, '/') == [name] && NonEmpty([name]) == [name] && Kept([name]) == [name]
  {
    SplitNoSep(name, '/');
    assert [name][1..] == [];
  }

  function Slashes(k: nat): (s: string)
    ensures |s| == k && forall i :: 0 <= i < k ==> s[i] == '/'
  {
    seq(k, i => '/')
  }

  lemma {:induction false} TrailingSlashes(q: string, k: nat)
    ensures NonEmpty(Split(q + Slashes(k), '/')) == NonEmpty(Split(q, '/'))
  {
    if k == 0 {
      assert q + Slashes(0) == q;
    } else {
      TrailingSlashes(q, k - 1);
      TrailingSlash(q + Slashes(k - 1));
      assert q + Slashes(k - 1) + ['/'] == q + Slashes(k);
    }
  }

  lemma TrimmedSegments(p: string)
    ensures NonEmpty(Split(TrimRight(p, {'/'}), '/')) == NonEmpty(Split(p, '/'))
  {
    var t := TrimRight(p, {'/'});
    TrailingSlashes(t, |p| - |t|);
    assert t + Slashes(|p| - |t|) == p;
  }

  /**
   * Both spellings of a child, trimming and appending or joining and cleaning, name the
   * directory's own segments followed by the entry's name, however deep the directory; and
   * both are such paths again, so the recursion stays below wherever it goes.
   */
  lemma ChildSegments(p: string, name: string, windows: bool)
    requires Rooted(p) && ValidateChildName(name, windows)
    ensures Rooted(TrimmedChild(p, name)) && Segments(TrimmedChild(p, name)) == Segments(p) + [name]
    ensures PathJoin(p, name) == Render(true, Segments(p) + [name])
    ensures Rooted(PathJoin(p, name)) && Segments(PathJoin(p, name)) == Segments(p) + [name]
  {
    ChildNameIsPlain(name, windows);
    TrimmedRooted(p, name);
    CleanRooted(p);
    assert p + "/" + name == p + ['/'] + name;
    SplitAt(p, name, '/');
    CanonAppend(true, Split(p, '/'), [name], []);
    CanonKept([name], Segments(p));
    RenderedSegments(Segments(p) + [name]);
  }

  lemma TrimmedRooted(p: string, name: string)
    requires Rooted(p) && Plain(name) && Split(name, '/') == [name] && NonEmpty([name]) == [name]
    ensures Rooted(TrimmedChild(p, name)) && Segments(TrimmedChild(p, name)) == Segments(p) + [name]
  {
    var t := TrimRight(p, {'/'});
    TrimmedSegments(p);
    assert TrimmedChild(p, name) == t + ['/'] + name;
    SplitAt(t, name, '/');
    NonEmptyAppend(Split(t, '/'), [name]);
    forall part | part in Split(t, '/') ensures part == "" || part in Split(p, '/') {
      if part != "" {
        NonEmptyMember(Split(t, '/'), part);
        NonEmptyMember(Split(p, '/'), part);
      }
    }
  }

  lemma {:induction false} NonEmptyMember(parts: seq<string>, part: string)
    requires part != ""
    ensures part in NonEmpty(parts) <==> part in parts
  {
    if parts != [] {
      NonEmptyMember(parts[1..], part);
    }
  }
}
