/** Counting what an object store holds that no live upload accounts for. */
module StagedInventory {
  import opened Limits
  import opened MapSums
  import opened Options

  const MAX_PAGES := 10000

  datatype Object = Object(key: Option<string>, size: Option<int>)
  datatype Page = Page(contents: seq<Object>, truncated: bool, next: Option<string>)

  /** The answer to each continuation token, `None` when the store cannot be reached. */
  type Bucket = Option<string> -> Option<Page>

  /** `upload` gives the upload an object key belongs to, if it belongs to any. */
  datatype Keys = Keys(upload: string -> Option<string>, active: set<string>)

  predicate Measured(o: Object) {
    o.key.Some? && o.size.Some? && o.size.value >= 0
  }

  /** Uploads in progress are charged already, other objects are not the store's own. */
  function Charge(k: Keys, o: Object): nat
    requires Measured(o)
  {
    match k.upload(o.key.value)
    case None => 0
    case Some(id) => if id in k.active then 0 else o.size.value
  }

  function Total(k: Keys, objects: seq<Object>): nat
    requires forall o :: o in objects ==> Measured(o)
  {
    if objects == [] then 0 else Total(k, objects[..|objects| - 1]) + Charge(k, objects[|objects| - 1])
  }

  lemma {:induction false} TotalConcat(k: Keys, a: seq<Object>, b: seq<Object>)
    requires forall o :: o in a + b ==> Measured(o)
    ensures Total(k, a + b) == Total(k, a) + Total(k, b)
  {
    if b == [] {
      assert a + b == a;
    } else {
      var init := b[..|b| - 1];
      assert (a + b)[..|a + b| - 1] == a + init;
      assert forall o :: o in a + init ==> o in a + b;
      TotalConcat(k, a, init);
    }
  }

  /** The sizes of the objects that belong to an upload, and to none in progress, by position. */
  ghost function Unclaimed(k: Keys, objects: seq<Object>): map<nat, nat> {
    map i: nat | i < |objects| && Measured(objects[i]) && k.upload(objects[i].key.value).Some?
                 && k.upload(objects[i].key.value).value !in k.active :: objects[i].size.value
  }

  /** The total adds up these sizes and no others. */
  lemma {:induction false} TotalIs(k: Keys, objects: seq<Object>)
    requires forall o :: o in objects ==> Measured(o)
    ensures Total(k, objects) == Sum(Unclaimed(k, objects))
  {
    if objects == [] {
      assert Unclaimed(k, objects) == map[];
    } else {
      var n: nat := |objects| - 1;
      assert objects[n] in objects;
      TotalIs(k, objects[..n]);
      UnclaimedStep(k, objects, n);
      SumInsert(Unclaimed(k, objects[..n]), n, objects[n].size.value);
    }
  }

  lemma UnclaimedStep(k: Keys, objects: seq<Object>, n: nat)
    requires n + 1 == |objects| && Measured(objects[n])
    ensures (var before, all := Unclaimed(k, objects[..n]), Unclaimed(k, objects);
      n !in before && all == if Charge(k, objects[n]) == 0 && n !in all then before
                             else before[n := objects[n].size.value])
    ensures n in Unclaimed(k, objects) ==> Charge(k, objects[n]) == objects[n].size.value
    ensures n !in Unclaimed(k, objects) ==> Charge(k, objects[n]) == 0
  {
  }

  function Contents(pages: seq<Page>): seq<Object> {
    if pages == [] then [] else Contents(pages[..|pages| - 1]) + pages[|pages| - 1].contents
  }

  function TokenAfter(pages: seq<Page>): Option<string> {
    if pages == [] then None else pages[|pages| - 1].next
  }

  /** Pages as the store hands them out, each but the last pointing at a different next one. */
  ghost predicate Linked(b: Bucket, pages: seq<Page>) {
    Follows(b, pages) && forall i :: 0 <= i < |pages| - 1 ==> Leads(pages, i)
  }

  ghost predicate Follows(b: Bucket, pages: seq<Page>) {
    forall i :: 0 <= i < |pages| ==> b(TokenAfter(pages[..i])) == Some(pages[i])
  }

  ghost predicate Leads(pages: seq<Page>, i: nat)
    requires i < |pages|
  {
    && pages[i].truncated && pages[i].next.Some?
    && (i > 0 ==> pages[i].next != TokenAfter(pages[..i]))
  }

  /** A complete listing within the page limit, every object measured and the sum within 64 bits. */
  ghost predicate Complete(b: Bucket, k: Keys, pages: seq<Page>) {
    && Linked(b, pages) && 0 < |pages| <= 10_000 && !pages[|pages| - 1].truncated
    && (forall o :: o in Contents(pages) ==> Measured(o)) && Total(k, Contents(pages)) <= 0x7fff_ffff_ffff_ffff
  }

  /** Two walks through the same store agree as far as both go. */
  lemma {:induction false} WalksAgree(b: Bucket, p: seq<Page>, q: seq<Page>, n: nat)
    requires Follows(b, p) && Follows(b, q) && n <= |p| && n <= |q|
    ensures p[..n] == q[..n]
  {
    if n > 0 {
      WalksAgree(b, p, q, n - 1);
      assert b(TokenAfter(p[..n - 1])) == Some(p[n - 1]);
      assert b(TokenAfter(q[..n - 1])) == Some(q[n - 1]);
      assert p[..n] == p[..n - 1] + [p[n - 1]];
      assert q[..n] == q[..n - 1] + [q[n - 1]];
    }
  }

  lemma {:induction false} ContentsWithin(pages: seq<Page>, n: nat)
    requires n <= |pages|
    ensures exists rest :: Contents(pages) == Contents(pages[..n]) + rest
  {
    if n == |pages| {
      assert pages[..n] == pages;
      assert Contents(pages) == Contents(pages[..n]) + [];
    } else {
      var init := pages[..|pages| - 1];
      ContentsWithin(init, n);
      assert init[..n] == pages[..n];
      var rest :| Contents(init) == Contents(pages[..n]) + rest;
      assert Contents(pages) == Contents(pages[..n]) + (rest + pages[|pages| - 1].contents);
    }
  }

  ghost predicate AllLead(pages: seq<Page>) {
    forall i :: 0 <= i < |pages| ==> Leads(pages, i)
  }

  lemma LastTruncated(b: Bucket, pages: seq<Page>, q: seq<Page>)
    requires Linked(b, pages) && AllLead(pages) && Linked(b, q) && 0 < |q| <= |pages|
    ensures q[|q| - 1].truncated
  {
    WalksAgree(b, pages, q, |q|);
    assert q[|q| - 1] == pages[..|q|][|q| - 1];
    assert Leads(pages, |q| - 1);
  }

  lemma CompleteLeads(b: Bucket, k: Keys, q: seq<Page>, n: nat)
    requires Complete(b, k, q) && n < |q| && q[n].truncated
    ensures q[n].next.Some? && (n > 0 ==> q[n].next != TokenAfter(q[..n]))
  {
    assert n < |q| - 1;
    assert Leads(q, n);
  }

  /** A walk that has not ended is the beginning of every complete listing. */
  lemma CompleteGoesOn(b: Bucket, k: Keys, pages: seq<Page>, q: seq<Page>)
    requires Linked(b, pages) && AllLead(pages) && Complete(b, k, q)
    ensures |q| > |pages| && q[..|pages|] == pages && b(TokenAfter(pages)) == Some(q[|pages|])
  {
    if |q| <= |pages| {
      LastTruncated(b, pages, q);
    }
    WalksAgree(b, pages, q, |pages|);
    assert pages[..|pages|] == pages;
    assert b(TokenAfter(q[..|pages|])) == Some(q[|pages|]);
  }

  /** Nor can a complete listing pass a page that cannot be added. */
  lemma CompleteAdds(b: Bucket, k: Keys, pages: seq<Page>, q: seq<Page>)
    requires Complete(b, k, q) && |q| > |pages| && q[..|pages|] == pages
    ensures (var all := Contents(pages) + q[|pages|].contents;
      (forall o :: o in all ==> Measured(o)) && Total(k, all) <= MAX64)
  {
    var n := |pages|;
    ContentsWithin(q, n + 1);
    var rest :| Contents(q) == Contents(q[..n + 1]) + rest;
    assert q[..n + 1][..n] == pages;
    assert Contents(q[..n + 1]) == Contents(pages) + q[n].contents;
    TotalConcat(k, Contents(q[..n + 1]), rest);
  }

  /** Adds one page to the sum; fails on an object without a size and before the sum passes 64 bits. */
  method AddPage(k: Keys, contents: seq<Object>, start: nat) returns (ok: bool, total: nat)
    requires start <= MAX64
    ensures ok <==> (forall o :: o in contents ==> Measured(o)) && start + Total(k, contents) <= MAX64
    ensures ok ==> total == start + Total(k, contents)
  {
    total := start;
    for i := 0 to |contents|
      invariant forall o :: o in contents[..i] ==> Measured(o)
      invariant total == start + Total(k, contents[..i]) <= MAX64
    {
      var o := contents[i];
      if o.key.None? || o.size.None? || o.size.value < 0 {
        assert o in contents && !Measured(o);
        return false, total;
      }
      assert contents[..i + 1] == contents[..i] + [o];
      assert contents[..i + 1][..i] == contents[..i];
      var owner := k.upload(o.key.value);
      if owner.None? || owner.value in k.active {
        continue;
      }
      if o.size.value > MAX64 - total {
        Overflows(k, contents, i, start);
        return false, total;
      }
      total := total + o.size.value;
    }
    assert contents[..|contents|] == contents;
    ok := true;
  }

  lemma Overflows(k: Keys, contents: seq<Object>, i: nat, start: nat)
    requires i < |contents| && forall o :: o in contents[..i + 1] ==> Measured(o)
    requires start + Total(k, contents[..i + 1]) > MAX64
    ensures (forall o :: o in contents ==> Measured(o)) ==> start + Total(k, contents) > MAX64
  {
    if forall o :: o in contents ==> Measured(o) {
      assert contents == contents[..i + 1] + contents[i + 1..];
      TotalConcat(k, contents[..i + 1], contents[i + 1..]);
    }
  }

  lemma LinkedMore(b: Bucket, pages: seq<Page>, page: Page)
    requires Linked(b, pages) && AllLead(pages) && b(TokenAfter(pages)) == Some(page)
    ensures Linked(b, pages + [page])
    ensures page.truncated && page.next.Some? && (pages != [] ==> page.next != TokenAfter(pages)) ==>
              AllLead(pages + [page])
  {
    var more := pages + [page];
    forall i | 0 <= i < |pages| ensures Leads(more, i) && b(TokenAfter(more[..i])) == Some(more[i]) {
      assert more[..i] == pages[..i] && Leads(pages, i);
    }
    assert more[..|pages|] == pages;
  }

  ghost predicate Hopeless(b: Bucket, k: Keys) {
    forall q :: !Complete(b, k, q)
  }

  lemma Unanswered(b: Bucket, k: Keys, pages: seq<Page>)
    requires Linked(b, pages) && AllLead(pages) && (b(TokenAfter(pages)).None? || |pages| >= MAX_PAGES)
    ensures Hopeless(b, k)
  {
    forall q ensures !Complete(b, k, q) {
      if Complete(b, k, q) {
        CompleteGoesOn(b, k, pages, q);
      }
    }
  }

  lemma CannotAdd(b: Bucket, k: Keys, pages: seq<Page>, page: Page)
    requires Linked(b, pages) && AllLead(pages) && b(TokenAfter(pages)) == Some(page)
    requires forall o :: o in Contents(pages) ==> Measured(o)
    requires (forall o :: o in page.contents ==> Measured(o)) ==>
             Total(k, Contents(pages)) + Total(k, page.contents) > MAX64
    ensures Hopeless(b, k)
  {
    forall q ensures !Complete(b, k, q) {
      if Complete(b, k, q) {
        CompleteGoesOn(b, k, pages, q);
        CompleteAdds(b, k, pages, q);
        TotalConcat(k, Contents(pages), page.contents);
      }
    }
  }

  lemma NoNextPage(b: Bucket, k: Keys, pages: seq<Page>, page: Page)
    requires Linked(b, pages) && AllLead(pages) && b(TokenAfter(pages)) == Some(page)
    requires page.truncated && (page.next.None? || (pages != [] && page.next == TokenAfter(pages)))
    ensures Hopeless(b, k)
  {
    forall q ensures !Complete(b, k, q) {
      if Complete(b, k, q) {
        CompleteGoesOn(b, k, pages, q);
        CompleteLeads(b, k, q, |pages|);
      }
    }
  }

  /** A page that can be added moves the walk on, and completes it if it is the last. */
  lemma Adds(b: Bucket, k: Keys, pages: seq<Page>, page: Page)
    requires Linked(b, pages) && AllLead(pages) && b(TokenAfter(pages)) == Some(page) && |pages| < MAX_PAGES
    requires forall o :: o in Contents(pages) + page.contents ==> Measured(o)
    ensures Contents(pages + [page]) == Contents(pages) + page.contents && TokenAfter(pages + [page]) == page.next
    ensures Total(k, Contents(pages + [page])) == Total(k, Contents(pages)) + Total(k, page.contents)
    ensures !page.truncated && Total(k, Contents(pages + [page])) <= MAX64 ==> Complete(b, k, pages + [page])
    ensures page.truncated && page.next.Some? && (pages != [] ==> page.next != TokenAfter(pages)) ==>
              Linked(b, pages + [page]) && AllLead(pages + [page])
  {
    assert (pages + [page])[..|pages|] == pages;
    TotalConcat(k, Contents(pages), page.contents);
    LinkedMore(b, pages, page);
  }

  /**
   * The bytes of every object that no live upload accounts for, over the whole listing:
   * answered exactly when the listing can be read to its end within the limits.
   */
  method StagedBytes(b: Bucket, k: Keys) returns (r: Option<nat>)
    ensures r.Some? ==> exists pages :: Complete(b, k, pages) && r.value == Total(k, Contents(pages))
    ensures r.None? ==> Hopeless(b, k)
  {
    var total: nat, token := 0, None;
    ghost var pages: seq<Page> := [];
    for n := 0 to MAX_PAGES
      invariant |pages| == n && Linked(b, pages) && AllLead(pages) && token == TokenAfter(pages)
      invariant (forall o :: o in Contents(pages) ==> Measured(o)) && total == Total(k, Contents(pages)) <= MAX64
    {
      var answer := b(token);
      if answer.None? {
        Unanswered(b, k, pages);
        return None;
      }
      var page := answer.value;
      var ok, sum := AddPage(k, page.contents, total);
      if !ok {
        CannotAdd(b, k, pages, page);
        return None;
      }
      Adds(b, k, pages, page);
      if !page.truncated {
        return Some(sum);
      }
      if page.next.None? || (token.Some? && token == page.next) {
        NoNextPage(b, k, pages, page);
        return None;
      }
      total, token, pages := sum, page.next, pages + [page];
    }
    Unanswered(b, k, pages);
    return None;
  }
}
