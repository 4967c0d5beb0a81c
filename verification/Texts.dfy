/** Split and join on one separator, trimming, replacing, and lower-casing. */
module Texts {
  lemma Regroup<T>(a: seq<T>, b: seq<T>, c: seq<T>)
    ensures a + (b + c) == a + b + c
  {
  }

  /** Always at least one part; every part is free of `sep`. */
  function Split<T(==)>(s: seq<T>, sep: T): (parts: seq<seq<T>>)
    ensures parts != []
    ensures Free(parts, sep)
  {
    if s == [] then [[]] else Push(s[0], sep, Split(s[1..], sep))
  }

  /** One more character in front: it starts a part or extends the first one. */
  function Push<T(==)>(c: T, sep: T, parts: seq<seq<T>>): (r: seq<seq<T>>)
    requires parts != []
    ensures r != []
    ensures Free(parts, sep) ==> Free(r, sep)
  {
    if c == sep then [[]] + parts else [[c] + parts[0]] + parts[1..]
  }

  lemma PushAppend<T>(c: T, sep: T, a: seq<seq<T>>, b: seq<seq<T>>)
    requires a != []
    ensures Push(c, sep, a + b) == Push(c, sep, a) + b
  {
    assert (a + b)[1..] == a[1..] + b;
    if c == sep {
      assert [[]] + (a + b) == [[]] + a + b;
    }
  }

  function Join<T>(parts: seq<seq<T>>, sep: T): seq<T> {
    if |parts| == 0 then []
    else if |parts| == 1 then parts[0]
    else parts[0] + [sep] + Join(parts[1..], sep)
  }

  lemma {:induction false} JoinSplit<T>(s: seq<T>, sep: T)
    ensures Join(Split(s, sep), sep) == s
  {
    if s != [] {
      JoinSplit(s[1..], sep);
      var rest := Split(s[1..], sep);
      if s[0] == sep {
        assert Split(s, sep)[1..] == rest;
      } else {
        assert Split(s, sep)[1..] == rest[1..];
      }
    }
  }

  lemma {:induction false} SplitNoSep<T>(s: seq<T>, sep: T)
    requires sep !in s
    ensures Split(s, sep) == [s]
  {
    if s != [] {
      SplitNoSep(s[1..], sep);
      assert [s[0]] + s[1..] == s;
    }
  }

  /** A separator cuts the text into independent halves. */
  lemma {:induction false} SplitAt<T>(a: seq<T>, b: seq<T>, sep: T)
    ensures Split(a + [sep] + b, sep) == Split(a, sep) + Split(b, sep)
  {
    var s := a + [sep] + b;
    if a == [] {
      assert s[1..] == b;
    } else {
      SplitAt(a[1..], b, sep);
      assert s[1..] == a[1..] + [sep] + b;
      PushAppend(a[0], sep, Split(a[1..], sep), Split(b, sep));
    }
  }

  /** One part more than there are separators. */
  lemma {:induction false} SplitCount<T>(s: seq<T>, sep: T)
    ensures |Split(s, sep)| == 1 + multiset(s)[sep]
  {
    if s != [] {
      SplitCount(s[1..], sep);
      assert s == [s[0]] + s[1..];
    }
  }

  /** A part of the text from `i` on, with the end of the text or a separator on either side. */
  ghost predicate PartAt<T>(s: seq<T>, sep: T, part: seq<T>, i: nat) {
    && i + |part| <= |s| && s[i..i + |part|] == part
    && (i == 0 || s[i - 1] == sep) && (i + |part| == |s| || s[i + |part|] == sep)
  }

  lemma PartLater<T>(s: seq<T>, sep: T, part: seq<T>, i: nat)
    requires s != [] && i > 0
    ensures PartAt(s, sep, part, i) <==> PartAt(s[1..], sep, part, i - 1) && (i == 1 ==> s[0] == sep)
  {
    if i + |part| <= |s| {
      assert s[1..][i - 1..i - 1 + |part|] == s[i..i + |part|];
    }
  }

  /** The first part ends at the first separator. */
  lemma FirstPart<T>(s: seq<T>, sep: T, part: seq<T>)
    requires sep !in part
    ensures Split(s, sep)[0] == part <==> PartAt(s, sep, part, 0)
    decreases |s|
  {
    if s != [] && s[0] != sep {
      if part != [] {
        FirstPart(s[1..], sep, part[1..]);
        if part[0] == s[0] && |part| <= |s| {
          assert s[0..|part|] == [s[0]] + s[1..][0..|part| - 1] && part == [part[0]] + part[1..];
        }
      }
    }
  }

  ghost predicate LaterPart<T>(s: seq<T>, sep: T, part: seq<T>) {
    exists i: nat :: i > 0 && PartAt(s, sep, part, i)
  }

  lemma LaterInRest<T>(s: seq<T>, sep: T, part: seq<T>)
    requires s != []
    ensures LaterPart(s, sep, part)
            <==> LaterPart(s[1..], sep, part) || (s[0] == sep && PartAt(s[1..], sep, part, 0))
  {
    if i: nat :| i > 0 && PartAt(s, sep, part, i) {
      PartLater(s, sep, part, i);
    }
    if i: nat :| i > 0 && PartAt(s[1..], sep, part, i) {
      PartLater(s, sep, part, i + 1);
    }
    PartLater(s, sep, part, 1);
  }

  lemma {:induction false} LaterParts<T>(s: seq<T>, sep: T, part: seq<T>)
    requires sep !in part
    ensures part in Split(s, sep)[1..] <==> LaterPart(s, sep, part)
    decreases |s|
  {
    if s != [] {
      var rest := Split(s[1..], sep);
      LaterParts(s[1..], sep, part);
      LaterInRest(s, sep, part);
      FirstPart(s[1..], sep, part);
      if s[0] == sep {
        assert Split(s, sep)[1..] == rest == [rest[0]] + rest[1..];
      } else {
        assert Split(s, sep)[1..] == rest[1..];
      }
    }
  }

  /** The parts are what stands between separators. */
  lemma SplitMember<T>(s: seq<T>, sep: T, part: seq<T>)
    requires sep !in part
    ensures part in Split(s, sep) <==> exists i: nat :: PartAt(s, sep, part, i)
  {
    FirstPart(s, sep, part);
    LaterParts(s, sep, part);
    var parts := Split(s, sep);
    assert parts == [parts[0]] + parts[1..];
  }

  ghost predicate Free<T>(parts: seq<seq<T>>, sep: T) {
    forall i :: 0 <= i < |parts| ==> sep !in parts[i]
  }

  lemma {:induction false} SplitJoin<T>(parts: seq<seq<T>>, sep: T)
    requires parts != [] && Free(parts, sep)
    ensures Split(Join(parts, sep), sep) == parts
  {
    SplitNoSep(parts[0], sep);
    if |parts| > 1 {
      SplitJoin(parts[1..], sep);
      var rest := Join(parts[1..], sep);
      SplitAt(parts[0], rest, sep);
      assert [parts[0]] + parts[1..] == parts;
    }
  }

  lemma {:induction false} JoinAppend<T>(a: seq<seq<T>>, b: seq<seq<T>>, sep: T)
    requires a != [] && b != []
    ensures Join(a + b, sep) == Join(a, sep) + [sep] + Join(b, sep)
  {
    if |a| == 1 {
      assert (a + b)[1..] == b;
    } else {
      JoinAppend(a[1..], b, sep);
      assert (a + b)[1..] == a[1..] + b;
    }
  }

  function TrimRight(s: string, cut: set<char>): (r: string)
    ensures r <= s && (r == "" || r[|r| - 1] !in cut)
    ensures forall k :: |r| <= k < |s| ==> s[k] in cut
  {
    if s == "" || s[|s| - 1] !in cut then s else TrimRight(s[..|s| - 1], cut)
  }

  /** The index of the last `c`, or -1. */
  function LastIndex(s: string, c: char): (i: int)
    ensures -1 <= i < |s|
    ensures i >= 0 ==> s[i] == c
    ensures forall k :: i < k < |s| ==> s[k] != c
  {
    if s == "" then -1 else if s[|s| - 1] == c then |s| - 1 else LastIndex(s[..|s| - 1], c)
  }

  /** The characters the path and name code treats specially; lower-casing neither moves nor produces them. */
  predicate Structural(c: char) {
    c == '/' || c == '.' || c == ' ' || c == '\\'
  }

  predicate Unmoved(c: char) {
    '0' <= c <= '9' || c == ' ' || c == '(' || c == ')'
  }

  ghost predicate LawfulLowering(lower: char -> char) {
    && (forall c {:trigger lower(lower(c))} :: lower(lower(c)) == lower(c))
    && (forall c {:trigger lower(c)} :: Structural(c) || Unmoved(c) || Structural(lower(c)) ==> lower(c) == c)
  }

  /** Lower-casing of single characters, as the Unicode tables give it. */
  type Lowering = lower: char -> char | LawfulLowering(lower)
    ghost witness (c: char) => c

  function Lower(lower: Lowering, s: string): (r: string)
    ensures |r| == |s| && forall k :: 0 <= k < |s| ==> r[k] == lower(s[k])
  {
    seq(|s|, k requires 0 <= k < |s| => lower(s[k]))
  }

  function LowerAll(lower: Lowering, parts: seq<string>): (r: seq<string>)
    ensures |r| == |parts| && forall k :: 0 <= k < |parts| ==> r[k] == Lower(lower, parts[k])
  {
    seq(|parts|, k requires 0 <= k < |parts| => Lower(lower, parts[k]))
  }

  lemma {:induction false} LowerJoin(lower: Lowering, parts: seq<string>)
    ensures Lower(lower, Join(parts, '/')) == Join(LowerAll(lower, parts), '/')
  {
    if |parts| > 1 {
      LowerJoin(lower, parts[1..]);
      assert LowerAll(lower, parts)[1..] == LowerAll(lower, parts[1..]);
      var rest := Join(parts[1..], '/');
      assert Lower(lower, parts[0] + ['/'] + rest) == Lower(lower, parts[0]) + ['/'] + Lower(lower, rest);
    }
  }

  function Replace(s: string, from: char, to: char): (r: string)
    ensures |r| == |s| && forall k :: 0 <= k < |s| ==> r[k] == if s[k] == from then to else s[k]
  {
    seq(|s|, k requires 0 <= k < |s| => if s[k] == from then to else s[k])
  }
}
