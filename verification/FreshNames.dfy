/** Collision-free name suggestions for uploads. */
module FreshNames {
  import opened Decimal
  import opened FiniteSets
  import opened Paths
  import opened Texts

  /** A leading dot belongs to the name; any other last dot starts the extension. */
  function Stem(name: string): string {
    if LastIndex(name, '.') > 0 then name[..LastIndex(name, '.')] else name
  }

  function Extension(name: string): string {
    if LastIndex(name, '.') > 0 then name[LastIndex(name, '.')..] else ""
  }

  function Itoa(n: nat): string {
    var d := Digits(n);
    seq(|d|, i requires 0 <= i < |d| => "0123456789"[d[i]])
  }

  function Candidate(name: string, i: nat): string {
    Stem(name) + " (" + Itoa(i) + ")" + Extension(name)
  }

  /**
   * Where the number goes: after a non-empty stem and before the extension, which is the last
   * dot and what follows it; a name with no dot but a leading one has none.
   */
  lemma CandidateShape(name: string, i: nat)
    ensures (var k := |Candidate(name, i)| - |Itoa(i)| - 3 - |Extension(name)|;
      && 0 <= k <= |name| && Candidate(name, i) == name[..k] + " (" + Itoa(i) + ")" + name[k..]
      && (k < |name| ==> k > 0 && name[k] == '.' && '.' !in name[k + 1..])
      && (k == |name| ==> '.' !in name || '.' !in name[1..]))
  {
    var dot := LastIndex(name, '.');
    assert Stem(name) + Extension(name) == name;
    assert dot <= 0 && name != "" ==> '.' !in name[1..];
  }

  /** How a server compares names: as they are, or on Windows lower-cased. */
  datatype Casing = Exact | Folding(lower: Lowering)

  function Fold(name: string, folds: Casing): string {
    match folds
    case Exact => name
    case Folding(lower) => Lower(lower, name)
  }

  predicate Free(name: string, taken: set<string>, folds: Casing) {
    Fold(name, folds) !in taken
  }

  // ------------------------------------------------------ distinct candidates

  lemma ItoaInjective(m: nat, n: nat)
    requires Itoa(m) == Itoa(n)
    ensures m == n
  {
    var d, e := Digits(m), Digits(n);
    assert |d| == |Itoa(m)| == |Itoa(n)| == |e|;
    forall i | 0 <= i < |d| ensures d[i] == e[i] {
      assert Itoa(m)[i] == "0123456789"[d[i]] && Itoa(n)[i] == "0123456789"[e[i]];
      CharsDiffer(d[i], e[i]);
    }
    DigitsInjective(m, n);
  }

  lemma CharsDiffer(a: nat, b: nat)
    requires a < 10 && b < 10
    ensures "0123456789"[a] == "0123456789"[b] <==> a == b
    ensures '0' <= "0123456789"[a] <= '9'
  {
  }

  lemma LowerItoa(lower: Lowering, n: nat)
    ensures Lower(lower, Itoa(n)) == Itoa(n)
  {
    forall i | 0 <= i < |Itoa(n)| ensures Unmoved(Itoa(n)[i]) {
      CharsDiffer(Digits(n)[i], 0);
    }
  }

  lemma LowerConcat(lower: Lowering, a: string, b: string)
    ensures Lower(lower, a + b) == Lower(lower, a) + Lower(lower, b)
  {
  }

  lemma FoldCandidate(name: string, i: nat, folds: Casing)
    ensures Fold(Candidate(name, i), folds) == Fold(Stem(name), folds) + " (" + Itoa(i) + ")"
            + Fold(Extension(name), folds)
  {
    if folds.Folding? {
      var lower := folds.lower;
      LowerItoa(lower, i);
      LowerConcat(lower, Stem(name) + " (" + Itoa(i) + ")", Extension(name));
      LowerConcat(lower, Stem(name) + " (" + Itoa(i), ")");
      LowerConcat(lower, Stem(name) + " (", Itoa(i));
      LowerConcat(lower, Stem(name), " (");
      assert Lower(lower, " (") == " (" && Lower(lower, ")") == ")";
    }
  }

  lemma MiddleInjective(a: string, x: string, y: string, b: string)
    requires a + x + b == a + y + b
    ensures x == y
  {
    assert |x| == |y|;
    assert x == (a + x + b)[|a|..|a| + |x|];
    assert y == (a + y + b)[|a|..|a| + |y|];
  }

  /** Different indices give candidates that stay different when folded. */
  lemma CandidatesDiffer(name: string, i: nat, j: nat, folds: Casing)
    requires Fold(Candidate(name, i), folds) == Fold(Candidate(name, j), folds)
    ensures i == j
  {
    FoldCandidate(name, i, folds);
    FoldCandidate(name, j, folds);
    var a, b := Fold(Stem(name), folds) + " (", ")" + Fold(Extension(name), folds);
    assert Fold(Candidate(name, i), folds) == a + Itoa(i) + b;
    assert Fold(Candidate(name, j), folds) == a + Itoa(j) + b;
    MiddleInjective(a, Itoa(i), Itoa(j), b);
    ItoaInjective(i, j);
  }

  /** The folded candidates 1 to n. */
  ghost function Tried(name: string, n: nat, folds: Casing): set<string> {
    if n == 0 then {} else Tried(name, n - 1, folds) + {Fold(Candidate(name, n), folds)}
  }

  lemma {:induction false} TriedIndex(name: string, n: nat, folds: Casing, c: string)
    returns (i: nat)
    requires c in Tried(name, n, folds)
    ensures 1 <= i <= n && c == Fold(Candidate(name, i), folds)
  {
    if c == Fold(Candidate(name, n), folds) {
      i := n;
    } else {
      i := TriedIndex(name, n - 1, folds, c);
    }
  }

  lemma {:induction false} TriedTaken(name: string, n: nat, taken: set<string>, folds: Casing)
    requires forall k :: 1 <= k <= n ==> !Free(Candidate(name, k), taken, folds)
    ensures Tried(name, n, folds) <= taken
  {
    if n > 0 {
      TriedTaken(name, n - 1, taken, folds);
      assert !Free(Candidate(name, n), taken, folds);
    }
  }

  lemma {:induction false} TriedSize(name: string, n: nat, folds: Casing)
    ensures |Tried(name, n, folds)| == n
  {
    if n > 0 {
      TriedSize(name, n - 1, folds);
      var c := Fold(Candidate(name, n), folds);
      if c in Tried(name, n - 1, folds) {
        var i := TriedIndex(name, n - 1, folds, c);
        CandidatesDiffer(name, n, i, folds);
      }
    }
  }

  // ---------------------------------------------------------------- the search

  /**
   * The name itself if free, else the candidate with the least free index, found within one
   * more attempt than there are taken names.
   */
  method UniqueName(name: string, taken: set<string>, folds: Casing) returns (unique: string, ghost tried: nat)
    ensures Free(unique, taken, folds)
    ensures Free(name, taken, folds) ==> unique == name && tried == 0
    ensures !Free(name, taken, folds) ==> 1 <= tried <= |taken| + 1 && unique == Candidate(name, tried)
    ensures forall i :: 1 <= i < tried ==> !Free(Candidate(name, i), taken, folds)
  {
    if Fold(name, folds) !in taken {
      return name, 0;
    }
    var base, ext := name, "";
    var dot := LastIndex(name, '.');
    if dot > 0 {
      base, ext := name[..dot], name[dot..];
    }
    var i := 1;
    while true
      invariant 1 <= i <= |taken| + 1
      invariant forall k :: 1 <= k < i ==> !Free(Candidate(name, k), taken, folds)
      decreases |taken| + 1 - i
    {
      var candidate := base + " (" + Itoa(i) + ")" + ext;
      assert candidate == Candidate(name, i);
      if Fold(candidate, folds) !in taken {
        return candidate, i;
      }
      // Were all of them taken, there would be more taken names than there are.
      TriedTaken(name, i, taken, folds);
      TriedSize(name, i, folds);
      Smaller(Tried(name, i, folds), taken);
      i := i + 1;
    }
  }

  datatype Suggestion = Suggestion(name: string, suggested: string)

  function Folded(names: seq<string>, folds: Casing): set<string> {
    if names == [] then {} else {Fold(names[0], folds)} + Folded(names[1..], folds)
  }

  /** Suggestions that fold apart from each other and from everything reserved. */
  ghost predicate Apart(conflicts: seq<Suggestion>, reserved: set<string>, folds: Casing) {
    && (forall i :: 0 <= i < |conflicts| ==> Free(conflicts[i].suggested, reserved, folds))
    && (forall i, j :: 0 <= i < j < |conflicts| ==>
          Fold(conflicts[i].suggested, folds) != Fold(conflicts[j].suggested, folds))
  }

  /** The suggestions made so far, folded. */
  ghost function Made(conflicts: seq<Suggestion>, folds: Casing): set<string> {
    if conflicts == [] then {}
    else Made(conflicts[..|conflicts| - 1], folds) + {Fold(conflicts[|conflicts| - 1].suggested, folds)}
  }

  /** The name with the least number whose candidate is not taken. */
  ghost predicate LeastFree(s: Suggestion, taken: set<string>, folds: Casing) {
    exists i: nat :: LeastFreeIs(s, i, taken, folds)
  }

  ghost predicate LeastFreeIs(s: Suggestion, i: nat, taken: set<string>, folds: Casing) {
    && i >= 1 && s.suggested == Candidate(s.name, i) && Free(s.suggested, taken, folds)
    && forall j :: 1 <= j < i ==> Fold(Candidate(s.name, j), folds) in taken
  }

  /** Each suggestion in turn is the least candidate neither reserved nor suggested before. */
  ghost predicate Numbered(conflicts: seq<Suggestion>, reserved: set<string>, folds: Casing) {
    conflicts == [] ||
    (var before := conflicts[..|conflicts| - 1];
     Numbered(before, reserved, folds)
     && LeastFree(conflicts[|conflicts| - 1], reserved + Made(before, folds), folds))
  }

  lemma NumberedSnoc(conflicts: seq<Suggestion>, s: Suggestion, reserved: set<string>, folds: Casing)
    requires Numbered(conflicts, reserved, folds) && LeastFree(s, reserved + Made(conflicts, folds), folds)
    ensures Numbered(conflicts + [s], reserved, folds)
    ensures Made(conflicts + [s], folds) == Made(conflicts, folds) + {Fold(s.suggested, folds)}
  {
    assert (conflicts + [s])[..|conflicts|] == conflicts;
  }

  lemma {:induction false} MadeHas(conflicts: seq<Suggestion>, folds: Casing, k: nat)
    requires k < |conflicts|
    ensures Fold(conflicts[k].suggested, folds) in Made(conflicts, folds)
    decreases |conflicts|
  {
    if k < |conflicts| - 1 {
      MadeHas(conflicts[..|conflicts| - 1], folds, k);
    }
  }

  lemma ApartMore(conflicts: seq<Suggestion>, reserved: set<string>, folds: Casing)
    requires conflicts != []
    requires (var before, s := conflicts[..|conflicts| - 1], conflicts[|conflicts| - 1];
      Apart(before, reserved, folds) && Free(s.suggested, reserved + Made(before, folds), folds))
    ensures Apart(conflicts, reserved, folds)
  {
    var before, s := conflicts[..|conflicts| - 1], conflicts[|conflicts| - 1];
    forall k | 0 <= k < |before|
      ensures Free(conflicts[k].suggested, reserved, folds)
              && Fold(conflicts[k].suggested, folds) != Fold(s.suggested, folds)
    {
      MadeHas(before, folds, k);
      assert Free(before[k].suggested, reserved, folds);
    }
    forall j, k | 0 <= j < k < |before|
      ensures Fold(conflicts[j].suggested, folds) != Fold(conflicts[k].suggested, folds)
    {
      assert Fold(before[j].suggested, folds) != Fold(before[k].suggested, folds);
    }
  }

  /** Hence suggestions fold apart. */
  lemma {:induction false} NumberedApart(conflicts: seq<Suggestion>, reserved: set<string>, folds: Casing)
    requires Numbered(conflicts, reserved, folds)
    ensures Apart(conflicts, reserved, folds)
  {
    if conflicts != [] {
      NumberedApart(conflicts[..|conflicts| - 1], reserved, folds);
      LastIsFree(conflicts, reserved, folds);
      ApartMore(conflicts, reserved, folds);
    }
  }

  lemma LastIsFree(conflicts: seq<Suggestion>, reserved: set<string>, folds: Casing)
    requires conflicts != [] && Numbered(conflicts, reserved, folds)
    ensures Free(conflicts[|conflicts| - 1].suggested, reserved + Made(conflicts[..|conflicts| - 1], folds), folds)
  {
  }

  /** The folded names of a list, gathered one by one. */
  method Gather(names: seq<string>, start: set<string>, folds: Casing) returns (all: set<string>)
    ensures all == start + Folded(names, folds)
  {
    all := start;
    for i := 0 to |names|
      invariant all == start + Folded(names[..i], folds)
    {
      FoldedSnoc(names[..i], names[i], folds);
      assert names[..i + 1] == names[..i] + [names[i]];
      UnionRegroups(start, Folded(names[..i], folds), {Fold(names[i], folds)});
      all := all + {Fold(names[i], folds)};
    }
    assert names[..|names|] == names;
  }

  lemma ClashingAt(requested: seq<string>, i: nat, present: set<string>, folds: Casing)
    requires i < |requested|
    ensures Clashing(requested[..i + 1], present, folds)
            == Clashing(requested[..i], present, folds)
               + if Fold(requested[i], folds) in present then [requested[i]] else []
  {
    assert requested[..i + 1] == requested[..i] + [requested[i]];
    ClashingSnoc(requested[..i], requested[i], present, folds);
  }

  /** Another name for one that is taken. */
  method SuggestNext(conflicts: seq<Suggestion>, name: string, taken: set<string>, ghost reserved: set<string>,
                     folds: Casing)
    returns (more: seq<Suggestion>, all: set<string>)
    requires taken == reserved + Made(conflicts, folds) && Numbered(conflicts, reserved, folds)
    requires Fold(name, folds) in taken
    ensures all == reserved + Made(more, folds) && Numbered(more, reserved, folds)
    ensures Originals(more) == Originals(conflicts) + [name]
  {
    var suggested, tried := UniqueName(name, taken, folds);
    var s := Suggestion(name, suggested);
    assert LeastFreeIs(s, tried, taken, folds);
    NumberedSnoc(conflicts, s, reserved, folds);
    OriginalsSnoc(conflicts, s);
    more, all := conflicts + [s], taken + {Fold(suggested, folds)};
  }

  /** A suggestion for each requested name that is present, clear of `reserved` and of each other. */
  method Suggest(requested: seq<string>, present: set<string>, reserved: set<string>, folds: Casing)
    returns (conflicts: seq<Suggestion>)
    requires present <= reserved
    ensures Originals(conflicts) == Clashing(requested, present, folds)
    ensures Numbered(conflicts, reserved, folds)
  {
    var taken := reserved;
    conflicts := [];
    for i := 0 to |requested|
      invariant taken == reserved + Made(conflicts, folds) && Numbered(conflicts, reserved, folds)
      invariant Originals(conflicts) == Clashing(requested[..i], present, folds)
    {
      var name := requested[i];
      ClashingAt(requested, i, present, folds);
      if Fold(name, folds) in present {
        conflicts, taken := SuggestNext(conflicts, name, taken, reserved, folds);
      }
    }
    assert requested[..|requested|] == requested;
  }

  /**
   * One directory of an upload check: each requested name that exists gets a suggestion.
   * Suggestions clash neither with each other, nor with what exists, nor with what is queued.
   */
  method CheckDirectory(existing: seq<string>, requested: seq<string>, folds: Casing)
    returns (conflicts: seq<Suggestion>)
    ensures Originals(conflicts) == Clashing(requested, Folded(existing, folds), folds)
    ensures Apart(conflicts, Folded(existing, folds) + Folded(requested, folds), folds)
    ensures Numbered(conflicts, Folded(existing, folds) + Folded(requested, folds), folds)
  {
    var present := Gather(existing, {}, folds);
    assert present == Folded(existing, folds);
    var taken := Gather(requested, present, folds);
    conflicts := Suggest(requested, present, taken, folds);
    NumberedApart(conflicts, taken, folds);
  }

  /** Names a server takes for one: the same or, on Windows, the same once lower-cased. */
  predicate Alike(a: string, b: string, folds: Casing) {
    if folds.Folding? then Lower(folds.lower, a) == Lower(folds.lower, b) else a == b
  }

  ghost predicate AnyAlike(name: string, names: seq<string>, folds: Casing) {
    exists n :: n in names && Alike(name, n, folds)
  }

  lemma {:induction false} FoldedMember(names: seq<string>, name: string, folds: Casing)
    ensures Fold(name, folds) in Folded(names, folds) <==> AnyAlike(name, names, folds)
  {
    if names != [] {
      FoldedMember(names[1..], name, folds);
      assert forall n :: n in names <==> n == names[0] || n in names[1..];
      assert AnyAlike(name, names, folds) <==> Alike(name, names[0], folds) || AnyAlike(name, names[1..], folds);
    }
  }

  /**
   * What an answer says about names: exactly those requested that the server takes for one
   * that exists, and suggestions it takes for none that exists, none requested and none suggested.
   */
  lemma AnswerMeans(conflicts: seq<Suggestion>, requested: seq<string>, existing: seq<string>, folds: Casing)
    requires Answers(conflicts, requested, Listed(existing), folds)
    ensures forall name :: (exists k :: 0 <= k < |conflicts| && conflicts[k].name == name)
                           <==> name in requested && AnyAlike(name, existing, folds)
    ensures forall k :: 0 <= k < |conflicts| ==>
              !AnyAlike(conflicts[k].suggested, existing, folds) && !AnyAlike(conflicts[k].suggested, requested, folds)
    ensures forall j, k :: 0 <= j < k < |conflicts| ==> !Alike(conflicts[j].suggested, conflicts[k].suggested, folds)
  {
    NumberedApart(conflicts, Folded(existing, folds) + Folded(requested, folds), folds);
    forall name ensures (exists k :: 0 <= k < |conflicts| && conflicts[k].name == name)
                        <==> name in requested && AnyAlike(name, existing, folds)
    {
      OriginalsMember(conflicts, name);
      ClashingMember(requested, Folded(existing, folds), folds, name);
      FoldedMember(existing, name, folds);
    }
    forall k | 0 <= k < |conflicts| ensures !AnyAlike(conflicts[k].suggested, existing, folds)
                                            && !AnyAlike(conflicts[k].suggested, requested, folds)
    {
      FoldedMember(existing, conflicts[k].suggested, folds);
      FoldedMember(requested, conflicts[k].suggested, folds);
      assert Free(conflicts[k].suggested, Folded(existing, folds) + Folded(requested, folds), folds);
    }
  }

  lemma {:induction false} OriginalsMember(conflicts: seq<Suggestion>, name: string)
    ensures name in Originals(conflicts) <==> exists k :: 0 <= k < |conflicts| && conflicts[k].name == name
  {
    if conflicts != [] {
      var rest := conflicts[1..];
      OriginalsMember(rest, name);
      assert forall k :: 0 <= k < |rest| ==> rest[k] == conflicts[k + 1];
      assert forall k :: 0 < k < |conflicts| ==> conflicts[k] == rest[k - 1];
    }
  }

  lemma {:induction false} ClashingMember(requested: seq<string>, present: set<string>, folds: Casing, name: string)
    ensures name in Clashing(requested, present, folds) <==> name in requested && Fold(name, folds) in present
  {
    if requested != [] {
      ClashingMember(requested[1..], present, folds, name);
      assert requested == [requested[0]] + requested[1..];
    }
  }

  lemma {:induction false} FoldedSnoc(names: seq<string>, name: string, folds: Casing)
    ensures Folded(names + [name], folds) == Folded(names, folds) + {Fold(name, folds)}
  {
    if names != [] {
      FoldedSnoc(names[1..], name, folds);
      assert (names + [name])[1..] == names[1..] + [name];
    } else {
      assert (names + [name])[1..] == [];
    }
  }

  /** The requested names that exist already, in request order, repeats included. */
  function Clashing(requested: seq<string>, present: set<string>, folds: Casing): seq<string> {
    if requested == [] then []
    else
      (if Fold(requested[0], folds) in present then [requested[0]] else [])
      + Clashing(requested[1..], present, folds)
  }

  lemma {:induction false} ClashingSnoc(requested: seq<string>, name: string, present: set<string>, folds: Casing)
    ensures Clashing(requested + [name], present, folds)
            == Clashing(requested, present, folds) + if Fold(name, folds) in present then [name] else []
  {
    if requested != [] {
      ClashingSnoc(requested[1..], name, present, folds);
      assert (requested + [name])[1..] == requested[1..] + [name];
    } else {
      assert (requested + [name])[1..] == [];
    }
  }

  function Originals(conflicts: seq<Suggestion>): seq<string> {
    if conflicts == [] then [] else [conflicts[0].name] + Originals(conflicts[1..])
  }

  lemma {:induction false} OriginalsSnoc(conflicts: seq<Suggestion>, s: Suggestion)
    ensures Originals(conflicts + [s]) == Originals(conflicts) + [s.name]
  {
    if conflicts != [] {
      OriginalsSnoc(conflicts[1..], s);
      assert (conflicts + [s])[1..] == conflicts[1..] + [s];
    } else {
      assert (conflicts + [s])[1..] == [];
    }
  }

  // ------------------------------------------------------- a whole upload check

  datatype Listing = Listed(names: seq<string>) | Missing | Failed

  /** A cleaned request path, as its parent directory and its last element. */
  datatype Request = Request(dir: string, name: string)
  datatype Conflict = Conflict(dir: string, what: Suggestion)

  function NamesIn(requests: seq<Request>, dir: string): seq<string> {
    if requests == [] then []
    else (if requests[0].dir == dir then [requests[0].name] else []) + NamesIn(requests[1..], dir)
  }

  function ConflictsIn(conflicts: seq<Conflict>, dir: string): seq<Suggestion> {
    if conflicts == [] then []
    else (if conflicts[0].dir == dir then [conflicts[0].what] else []) + ConflictsIn(conflicts[1..], dir)
  }

  function Tagged(dir: string, found: seq<Suggestion>): (r: seq<Conflict>)
    ensures |r| == |found|
  {
    if found == [] then [] else [Conflict(dir, found[0])] + Tagged(dir, found[1..])
  }

  lemma {:induction false} NamesInSnoc(requests: seq<Request>, r: Request, dir: string)
    ensures NamesIn(requests + [r], dir) == NamesIn(requests, dir) + if r.dir == dir then [r.name] else []
  {
    if requests != [] {
      NamesInSnoc(requests[1..], r, dir);
      assert (requests + [r])[1..] == requests[1..] + [r];
    } else {
      assert (requests + [r])[1..] == [];
    }
  }

  lemma {:induction false} ConflictsInConcat(a: seq<Conflict>, b: seq<Conflict>, dir: string)
    ensures ConflictsIn(a + b, dir) == ConflictsIn(a, dir) + ConflictsIn(b, dir)
  {
    if a == [] {
      assert a + b == b;
    } else {
      ConflictsInConcat(a[1..], b, dir);
      var all := a + b;
      assert all[1..] == a[1..] + b && all[0] == a[0];
      var head := if a[0].dir == dir then [a[0].what] else [];
      assert head + (ConflictsIn(a[1..], dir) + ConflictsIn(b, dir))
          == head + ConflictsIn(a[1..], dir) + ConflictsIn(b, dir);
    }
  }

  lemma {:induction false} ConflictsInTagged(d: string, found: seq<Suggestion>, dir: string)
    ensures ConflictsIn(Tagged(d, found), dir) == if d == dir then found else []
  {
    if found != [] {
      ConflictsInTagged(d, found[1..], dir);
      assert Tagged(d, found)[1..] == Tagged(d, found[1..]);
    }
  }

  /** What a check must say about one directory. */
  ghost predicate Answers(conflicts: seq<Suggestion>, requested: seq<string>, listing: Listing, folds: Casing) {
    match listing
    case Missing => conflicts == []
    case Failed => false
    case Listed(existing) =>
      && Originals(conflicts) == Clashing(requested, Folded(existing, folds), folds)
      && Numbered(conflicts, Folded(existing, folds) + Folded(requested, folds), folds)
  }

  /** Each directory once. */
  ghost predicate Ordered(order: seq<string>, dirs: set<string>) {
    && (forall i, j :: 0 <= i < j < |order| ==> order[i] != order[j])
    && (forall d :: d in order <==> d in dirs)
  }

  /** Every directory's names in request order, and no other directory. */
  ghost predicate Grouped(requests: seq<Request>, byDir: map<string, seq<string>>) {
    && (forall d :: d in byDir ==> byDir[d] == NamesIn(requests, d) && byDir[d] != [])
    && (forall d :: d !in byDir ==> NamesIn(requests, d) == [])
  }

  lemma AddsKey(m: map<string, seq<string>>, key: string, names: seq<string>)
    ensures m[key := names].Keys == m.Keys + {key}
    ensures key in m ==> m[key := names].Keys == m.Keys
  {
    assert m[key := names].Keys == m.Keys + {key};
  }

  lemma GroupAt(requests: seq<Request>, i: nat, order: seq<string>, byDir: map<string, seq<string>>)
    requires i < |requests| && Ordered(order, byDir.Keys) && Grouped(requests[..i], byDir)
    ensures (var r := requests[i];
      var more := byDir[r.dir := (if r.dir in byDir then byDir[r.dir] else []) + [r.name]];
      Grouped(requests[..i + 1], more) && Ordered(if r.dir in byDir then order else order + [r.dir], more.Keys))
  {
    var r := requests[i];
    assert requests[..i + 1] == requests[..i] + [r];
    GroupOne(requests[..i], r, byDir);
    if r.dir !in byDir {
      OrderOne(order, byDir.Keys, r.dir);
    }
    AddsKey(byDir, r.dir, (if r.dir in byDir then byDir[r.dir] else []) + [r.name]);
  }

  method Group(requests: seq<Request>) returns (order: seq<string>, byDir: map<string, seq<string>>)
    ensures Ordered(order, byDir.Keys) && Grouped(requests, byDir)
  {
    order, byDir := [], map[];
    for i := 0 to |requests|
      invariant Ordered(order, byDir.Keys) && Grouped(requests[..i], byDir)
    {
      var r := requests[i];
      GroupAt(requests, i, order, byDir);
      if r.dir !in byDir {
        order := order + [r.dir];
      }
      byDir := byDir[r.dir := (if r.dir in byDir then byDir[r.dir] else []) + [r.name]];
    }
    assert requests[..|requests|] == requests;
  }

  lemma NamesInAll(requests: seq<Request>, r: Request)
    ensures forall d :: d != r.dir ==> NamesIn(requests + [r], d) == NamesIn(requests, d)
    ensures NamesIn(requests + [r], r.dir) == NamesIn(requests, r.dir) + [r.name]
  {
    forall d ensures NamesIn(requests + [r], d) == NamesIn(requests, d) + if r.dir == d then [r.name] else [] {
      NamesInSnoc(requests, r, d);
    }
  }

  lemma GroupOne(requests: seq<Request>, r: Request, byDir: map<string, seq<string>>)
    requires Grouped(requests, byDir)
    ensures Grouped(requests + [r], byDir[r.dir := (if r.dir in byDir then byDir[r.dir] else []) + [r.name]])
  {
    NamesInAll(requests, r);
  }

  lemma OrderOne(order: seq<string>, dirs: set<string>, dir: string)
    requires Ordered(order, dirs) && dir !in dirs
    ensures Ordered(order + [dir], dirs + {dir})
  {
    assert forall d :: d in order + [dir] <==> d in order || d == dir;
  }

  /** The answers given so far: for the directories done, and none for the others. */
  ghost predicate Answered(conflicts: seq<Conflict>, requests: seq<Request>, list: string -> Listing, folds: Casing,
                           done: seq<string>)
  {
    && (forall d :: d !in done ==> ConflictsIn(conflicts, d) == [])
    && (forall d :: d in done ==> Answers(ConflictsIn(conflicts, d), NamesIn(requests, d), list(d), folds))
  }

  /** An answer for every directory that is asked about, and nothing about any other. */
  ghost predicate AnswersAll(conflicts: seq<Conflict>, requests: seq<Request>, list: string -> Listing, folds: Casing) {
    forall d :: if NamesIn(requests, d) == [] then ConflictsIn(conflicts, d) == []
                else Answers(ConflictsIn(conflicts, d), NamesIn(requests, d), list(d), folds)
  }

  ghost predicate AllListed(requests: seq<Request>, list: string -> Listing) {
    forall d :: NamesIn(requests, d) != [] ==> !list(d).Failed?
  }

  lemma AnswerOne(conflicts: seq<Conflict>, requests: seq<Request>, list: string -> Listing, folds: Casing,
                  done: seq<string>, dir: string, found: seq<Suggestion>)
    requires Answered(conflicts, requests, list, folds, done) && dir !in done
    requires Answers(found, NamesIn(requests, dir), list(dir), folds)
    ensures Answered(conflicts + Tagged(dir, found), requests, list, folds, done + [dir])
  {
    var all := conflicts + Tagged(dir, found);
    ConflictsInOne(conflicts, dir, found, dir);
    assert ConflictsIn(all, dir) == found;
    forall d | d != dir ensures ConflictsIn(all, d) == ConflictsIn(conflicts, d) {
      ConflictsInOne(conflicts, dir, found, d);
    }
    assert forall d :: d in done + [dir] <==> d in done || d == dir;
  }

  lemma AnswerAt(conflicts: seq<Conflict>, requests: seq<Request>, list: string -> Listing, folds: Casing,
                 order: seq<string>, k: nat, found: seq<Suggestion>)
    requires k < |order| && Answered(conflicts, requests, list, folds, order[..k]) && order[k] !in order[..k]
    requires Answers(found, NamesIn(requests, order[k]), list(order[k]), folds)
    ensures Answered(conflicts + Tagged(order[k], found), requests, list, folds, order[..k + 1])
  {
    assert order[..k + 1] == order[..k] + [order[k]];
    AnswerOne(conflicts, requests, list, folds, order[..k], order[k], found);
  }

  lemma ConflictsInOne(conflicts: seq<Conflict>, dir: string, found: seq<Suggestion>, d: string)
    ensures d != dir ==> ConflictsIn(conflicts + Tagged(dir, found), d) == ConflictsIn(conflicts, d)
    ensures ConflictsIn(conflicts, dir) == [] ==> ConflictsIn(conflicts + Tagged(dir, found), dir) == found
  {
    ConflictsInConcat(conflicts, Tagged(dir, found), d);
    ConflictsInTagged(dir, found, d);
    ConflictsInConcat(conflicts, Tagged(dir, found), dir);
    ConflictsInTagged(dir, found, dir);
  }

  method AnswerDirectory(listing: Listing, requested: seq<string>, folds: Casing)
    returns (ok: bool, found: seq<Suggestion>)
    ensures ok <==> !listing.Failed?
    ensures ok ==> Answers(found, requested, listing, folds)
  {
    ok, found := true, [];
    match listing
    case Failed => ok := false;
    case Missing =>
    case Listed(existing) => found := CheckDirectory(existing, requested, folds);
  }

  /** One more directory answered, unless it cannot be listed. */
  method AnswerNext(conflicts: seq<Conflict>, requests: seq<Request>, list: string -> Listing, folds: Casing,
                    order: seq<string>, k: nat, names: seq<string>)
    returns (ok: bool, more: seq<Conflict>)
    requires k < |order| && Answered(conflicts, requests, list, folds, order[..k])
    requires order[k] !in order[..k] && names == NamesIn(requests, order[k])
    ensures ok <==> !list(order[k]).Failed?
    ensures ok ==> Answered(more, requests, list, folds, order[..k + 1])
  {
    var found;
    ok, found := AnswerDirectory(list(order[k]), names, folds);
    more := conflicts + Tagged(order[k], found);
    if ok {
      AnswerAt(conflicts, requests, list, folds, order, k, found);
    }
  }

  /** The directories in the order they were first asked about, up to one that cannot be listed. */
  method AnswerOrder(requests: seq<Request>, list: string -> Listing, folds: Casing, order: seq<string>,
                     byDir: map<string, seq<string>>)
    returns (ok: bool, conflicts: seq<Conflict>)
    requires Ordered(order, byDir.Keys) && Grouped(requests, byDir)
    ensures ok ==> Answered(conflicts, requests, list, folds, order)
    ensures !ok ==> exists d :: d in order && list(d).Failed?
  {
    ok, conflicts := true, [];
    for k := 0 to |order|
      invariant ok && Answered(conflicts, requests, list, folds, order[..k])
    {
      NextDirectory(requests, order, byDir, k);
      ok, conflicts := AnswerNext(conflicts, requests, list, folds, order, k, byDir[order[k]]);
      if !ok {
        return;
      }
    }
    assert order[..|order|] == order;
  }

  /** Fails when a directory cannot be listed; otherwise answers for every directory requested. */
  method CheckRequests(requests: seq<Request>, list: string -> Listing, folds: Casing)
    returns (ok: bool, conflicts: seq<Conflict>)
    ensures ok <==> AllListed(requests, list)
    ensures ok ==> AnswersAll(conflicts, requests, list, folds)
  {
    var order, byDir := Group(requests);
    ok, conflicts := AnswerOrder(requests, list, folds, order, byDir);
    if ok {
      AllAnswered(conflicts, requests, list, folds, order, byDir);
    } else {
      var d :| d in order && list(d).Failed?;
      assert NamesIn(requests, d) != [];
    }
  }

  lemma NextDirectory(requests: seq<Request>, order: seq<string>, byDir: map<string, seq<string>>, k: nat)
    requires k < |order| && Ordered(order, byDir.Keys) && Grouped(requests, byDir)
    ensures order[k] !in order[..k] && order[k] in byDir && byDir[order[k]] == NamesIn(requests, order[k])
  {
    assert order[k] in order;
  }

  lemma AllAnswered(conflicts: seq<Conflict>, requests: seq<Request>, list: string -> Listing, folds: Casing,
                    order: seq<string>, byDir: map<string, seq<string>>)
    requires Answered(conflicts, requests, list, folds, order) && Ordered(order, byDir.Keys) && Grouped(requests, byDir)
    ensures AnswersAll(conflicts, requests, list, folds) && AllListed(requests, list)
  {
    assert forall d :: NamesIn(requests, d) != [] <==> d in order;
  }

  const MAX_PATHS := 10000

  datatype Reply = BadRequest | ListFailed | Checked(conflicts: seq<Conflict>)

  predicate AllValid(paths: seq<string>, windows: bool) {
    paths == [] || (AllValid(paths[..|paths| - 1], windows) && ValidateRemotePath(paths[|paths| - 1], windows, false))
  }

  predicate Acceptable(paths: seq<string>, windows: bool) {
    0 < |paths| <= MAX_PATHS && AllValid(paths, windows)
  }

  /** The directory and the name a request path asks about. */
  function RequestOf(p: string): Request {
    Request(PathDir(Clean(p)), PathBase(Clean(p)))
  }

  function RequestsOf(paths: seq<string>): (r: seq<Request>)
    ensures |r| == |paths| && forall i :: 0 <= i < |paths| ==> r[i] == RequestOf(paths[i])
  {
    seq(|paths|, i requires 0 <= i < |paths| => RequestOf(paths[i]))
  }

  /** For a valid path these are all of its segments but the last, and the last. */
  lemma RequestSegments(p: string, windows: bool)
    requires ValidateRemotePath(p, windows, false)
    ensures Segments(p) != []
    ensures RequestOf(p) == Request(Render(true, Segments(p)[..|Segments(p)| - 1]), Segments(p)[|Segments(p)| - 1])
  {
    ValidIsRooted(p, windows);
    CleanRooted(p);
    DirAndBase(Segments(p));
  }

  lemma {:induction false} AllValidFront(paths: seq<string>, windows: bool, n: nat)
    requires n <= |paths| && AllValid(paths, windows)
    ensures AllValid(paths[..n], windows)
  {
    if n == |paths| {
      assert paths[..n] == paths;
    } else {
      AllValidFront(paths[..|paths| - 1], windows, n);
      assert paths[..|paths| - 1][..n] == paths[..n];
    }
  }

  lemma AllValidSnoc(paths: seq<string>, windows: bool, i: nat)
    requires i < |paths|
    ensures AllValid(paths[..i + 1], windows)
            <==> AllValid(paths[..i], windows) && ValidateRemotePath(paths[i], windows, false)
  {
    var front := paths[..i + 1];
    assert front[..|front| - 1] == paths[..i] && front[|front| - 1] == paths[i];
  }

  lemma {:induction false} AllValidIff(paths: seq<string>, windows: bool)
    ensures AllValid(paths, windows)
            <==> forall i :: 0 <= i < |paths| ==> ValidateRemotePath(paths[i], windows, false)
  {
    if paths != [] {
      var init := paths[..|paths| - 1];
      AllValidIff(init, windows);
      assert forall i :: 0 <= i < |init| ==> init[i] == paths[i];
      assert paths == init + [paths[|paths| - 1]];
    }
  }

  method Validate(paths: seq<string>, windows: bool) returns (ok: bool)
    ensures ok <==> AllValid(paths, windows)
  {
    for i := 0 to |paths|
      invariant AllValid(paths[..i], windows)
    {
      AllValidSnoc(paths, windows, i);
      if !ValidateRemotePath(paths[i], windows, false) {
        if AllValid(paths, windows) {
          AllValidFront(paths, windows, i + 1);
        }
        return false;
      }
    }
    assert paths[..|paths|] == paths;
    ok := true;
  }

  /**
   * The whole check: refused unless every path is valid, failed exactly when a directory
   * among them cannot be listed, and otherwise an answer for each directory and no other.
   */
  method UploadCheck(paths: seq<string>, windows: bool, list: string -> Listing, folds: Casing) returns (r: Reply)
    ensures r.BadRequest? <==>
              !(0 < |paths| <= 10_000 && forall i :: 0 <= i < |paths| ==> ValidateRemotePath(paths[i], windows, false))
    ensures Acceptable(paths, windows) ==> (r.ListFailed? <==> !AllListed(RequestsOf(paths), list))
    ensures r.Checked? ==> AnswersAll(r.conflicts, RequestsOf(paths), list, folds)
  {
    AllValidIff(paths, windows);
    if |paths| == 0 || |paths| > MAX_PATHS {
      return BadRequest;
    }
    var valid := Validate(paths, windows);
    if !valid {
      return BadRequest;
    }
    var ok, conflicts := CheckRequests(RequestsOf(paths), list, folds);
    r := if ok then Checked(conflicts) else ListFailed;
  }
}
