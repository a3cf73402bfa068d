/**
 * The scraper `search_vinted` (app.py, lines 132-163): for each page number
 * from 1 to `max_pages` it fetches the catalogue page, skips it when the
 * request fails or the status is not 200, picks the listing containers from
 * the first container selector that matches anything, and keeps each
 * container whose title, price and link are all present and whose price text
 * parses.  Listings are appended in page order, then document order.
 *
 * HTML is abstract here: a page is the sequence of results of the container
 * selectors, in the order they are tried, and a container is the results of
 * its title and price sub-selectors (the element's text, or nothing) and the
 * `href` of its first link.  The HTTP request is the oracle `fetch`, and
 * `urljoin` against the site origin is the function `resolve`.
 */
module Extraction {
  import opened Wrappers
  import Text
  import PriceText

  datatype Node = Node(titleHits: seq<Option<string>>, priceHits: seq<Option<string>>, href: Option<string>)

  datatype Page = Page(containerHits: seq<seq<Node>>)

  /** What one page request gives: an exception, or a status code and a body. */
  datatype Response = Failed | Response(status: int, page: Page)

  datatype Listing = Listing(title: string, price: real, link: string)

  /** `a or b or c` over `select_one` results: the first selector that found an element. */
  function FirstPresent<T>(hits: seq<Option<T>>): (r: Option<T>)
    ensures r.None? <==> forall i :: 0 <= i < |hits| ==> hits[i].None?
    ensures r.Some? ==> exists i :: 0 <= i < |hits| && hits[i] == r && forall j :: 0 <= j < i ==> hits[j].None?
  {
    if hits == [] then None
    else if hits[0].Some? then hits[0]
    else
      var r := FirstPresent(hits[1..]);
      assert r.Some? ==> exists i :: 0 <= i < |hits[1..]| && hits[1..][i] == r && forall j :: 0 <= j < i ==> hits[1..][j].None?;
      assert r.Some? ==> exists i :: 1 <= i < |hits| && hits[i] == r && forall j :: 0 <= j < i ==> hits[j].None?;
      r
  }

  /** `a or b or c or []` over `select` results: the first selector that matched some element. */
  function FirstNonEmpty<T>(lists: seq<seq<T>>): (r: seq<T>)
    ensures r == [] <==> forall i :: 0 <= i < |lists| ==> lists[i] == []
    ensures r != [] ==> exists i :: 0 <= i < |lists| && lists[i] == r && forall j :: 0 <= j < i ==> lists[j] == []
  {
    if lists == [] then []
    else if lists[0] != [] then lists[0]
    else
      var r := FirstNonEmpty(lists[1..]);
      assert r != [] ==> exists i :: 0 <= i < |lists[1..]| && lists[1..][i] == r && forall j :: 0 <= j < i ==> lists[1..][j] == [];
      assert r != [] ==> exists i :: 1 <= i < |lists| && lists[i] == r && forall j :: 0 <= j < i ==> lists[j] == [];
      r
  }

  /** The listing a container yields, or `None` when it is skipped. */
  function Extract(node: Node, resolve: string -> string): (r: Option<Listing>)
    ensures r.Some? ==> node.href.Some? && r.value.link == resolve(node.href.value) && r.value.price >= 0.0
  {
    var title := FirstPresent(node.titleHits);
    var priceText := FirstPresent(node.priceHits);
    if title.None? || priceText.None? || node.href.None? then None
    else
      match PriceText.PriceOf(priceText.value)
      case None => None
      case Some(price) => Some(Listing(Text.Strip(title.value), price, resolve(node.href.value)))
  }

  /**
   * A container is kept exactly when it has a title, a price text that parses
   * and a link; the listing carries the stripped title, the parsed price and
   * the resolved link.
   */
  lemma {:induction false} ExtractDefined(node: Node, resolve: string -> string)
    ensures Extract(node, resolve).Some? <==>
      FirstPresent(node.titleHits).Some? && FirstPresent(node.priceHits).Some? && node.href.Some?
      && PriceText.PriceOf(FirstPresent(node.priceHits).value).Some?
    ensures Extract(node, resolve).Some? ==>
      var l := Extract(node, resolve).value;
      l.title == Text.Strip(FirstPresent(node.titleHits).value)
      && Some(l.price) == PriceText.PriceOf(FirstPresent(node.priceHits).value)
      && l.price >= 0.0
      && l.link == resolve(node.href.value)
  {
    if FirstPresent(node.priceHits).Some? {
      PriceText.PriceOfDefined(FirstPresent(node.priceHits).value);
    }
  }

  /** `[g for x in xs if g is not None]` with `g = f(x)`: the kept results, in order. */
  function FilterMap<A, B>(xs: seq<A>, f: A -> Option<B>): seq<B> {
    if xs == [] then []
    else (match f(xs[0]) case Some(y) => [y] case None => []) + FilterMap(xs[1..], f)
  }

  /** The listings of a page's containers, in document order. */
  function ExtractAll(nodes: seq<Node>, resolve: string -> string): seq<Listing> {
    FilterMap(nodes, node => Extract(node, resolve))
  }

  /** The listings one page response contributes: none unless the request returned 200. */
  function PageListings(resp: Response, resolve: string -> string): seq<Listing> {
    if resp.Failed? || resp.status != 200 then []
    else ExtractAll(FirstNonEmpty(resp.page.containerHits), resolve)
  }

  /** The concatenation of `pageOf(lo)`, ..., `pageOf(hi)`. */
  function Concat<T>(lo: int, hi: int, pageOf: int -> seq<T>): seq<T>
    decreases hi - lo
  {
    if hi < lo then [] else Concat(lo, hi - 1, pageOf) + pageOf(hi)
  }

  /** The listings of pages `lo` to `hi`, concatenated in page order. */
  function Pages(lo: int, hi: int, fetch: int -> Response, resolve: string -> string): seq<Listing> {
    Concat(lo, hi, p => PageListings(fetch(p), resolve))
  }

  /** One more page appends that page's listings. */
  lemma {:induction false} PagesStep(lo: int, hi: int, fetch: int -> Response, resolve: string -> string)
    ensures hi < lo ==> Pages(lo, hi, fetch, resolve) == []
    ensures lo <= hi ==> Pages(lo, hi, fetch, resolve) == Pages(lo, hi - 1, fetch, resolve) + PageListings(fetch(hi), resolve)
  {
  }

  /** `search_vinted(query, max_pages)` with the query folded into `fetch`. */
  method SearchVinted(maxPages: int, fetch: int -> Response, resolve: string -> string)
    returns (results: seq<Listing>)
    ensures results == Pages(1, maxPages, fetch, resolve)
  {
    results := [];
    var page := 1;
    PagesStep(1, 0, fetch, resolve);
    while page <= maxPages
      invariant 1 <= page <= if maxPages < 1 then 1 else maxPages + 1
      invariant results == Pages(1, page - 1, fetch, resolve)
    {
      PagesStep(1, page, fetch, resolve);
      results := CollectPage(results, fetch(page), resolve);
      page := page + 1;
    }
    if maxPages < 1 {
      PagesStep(1, maxPages, fetch, resolve);
    }
  }

  /** One iteration of the page loop: skip a failed or non-200 response, else collect its containers. */
  method CollectPage(results: seq<Listing>, resp: Response, resolve: string -> string)
    returns (extended: seq<Listing>)
    ensures extended == results + PageListings(resp, resolve)
  {
    if resp.Failed? || resp.status != 200 {
      return results;
    }
    var items := FirstNonEmpty(resp.page.containerHits);
    extended := AppendListings(results, items, resolve);
  }

  /** The per-container loop of one page: append each kept listing to `results`. */
  method AppendListings(results: seq<Listing>, items: seq<Node>, resolve: string -> string)
    returns (extended: seq<Listing>)
    ensures extended == results + ExtractAll(items, resolve)
  {
    extended := results;
    var k := 0;
    while k < |items|
      invariant 0 <= k <= |items|
      invariant extended == results + ExtractAll(items[..k], resolve)
    {
      var listing := Extract(items[k], resolve);
      ExtractAllStep(items, k, resolve);
      if listing.Some? {
        extended := extended + [listing.value];
      }
      k := k + 1;
    }
    assert items[..k] == items;
  }

  lemma {:induction false} ExtractAllStep(items: seq<Node>, k: nat, resolve: string -> string)
    requires k < |items|
    ensures ExtractAll(items[..k + 1], resolve) ==
      ExtractAll(items[..k], resolve) + (if Extract(items[k], resolve).Some? then [Extract(items[k], resolve).value] else [])
  {
    var f := node => Extract(node, resolve);
    assert items[..k + 1] == items[..k] + [items[k]];
    FilterMapConcat(items[..k], [items[k]], f);
    assert FilterMap([items[k]], f) == (if f(items[k]).Some? then [f(items[k]).value] else []) by {
      assert [items[k]][1..] == [];
    }
  }

  lemma {:induction false} FilterMapConcat<A, B>(a: seq<A>, b: seq<A>, f: A -> Option<B>)
    ensures FilterMap(a + b, f) == FilterMap(a, f) + FilterMap(b, f)
  {
    if a == [] {
      assert a + b == b;
    } else {
      assert (a + b)[0] == a[0] && (a + b)[1..] == a[1..] + b;
      FilterMapConcat(a[1..], b, f);
    }
  }

  /** An element is kept exactly when `f` accepts some input with it. */
  lemma {:induction false} FilterMapMembers<A, B>(xs: seq<A>, f: A -> Option<B>, y: B)
    ensures y in FilterMap(xs, f) <==> exists i :: 0 <= i < |xs| && f(xs[i]) == Some(y)
  {
    if xs != [] {
      FilterMapMembers(xs[1..], f, y);
      if exists i :: 0 <= i < |xs[1..]| && f(xs[1..][i]) == Some(y) {
        var i :| 0 <= i < |xs[1..]| && f(xs[1..][i]) == Some(y);
        assert f(xs[i + 1]) == Some(y);
      }
      if exists i :: 0 <= i < |xs| && f(xs[i]) == Some(y) {
        var i :| 0 <= i < |xs| && f(xs[i]) == Some(y);
        if i > 0 {
          assert f(xs[1..][i - 1]) == Some(y);
        }
      }
    }
  }

  /** A container yields a listing exactly when `Extract` accepts it. */
  lemma ExtractAllMembers(nodes: seq<Node>, resolve: string -> string, x: Listing)
    ensures x in ExtractAll(nodes, resolve) <==> exists i :: 0 <= i < |nodes| && Extract(nodes[i], resolve) == Some(x)
  {
    FilterMapMembers(nodes, node => Extract(node, resolve), x);
  }

  lemma {:induction false} ConcatSplit<T>(lo: int, mid: int, hi: int, pageOf: int -> seq<T>)
    requires lo - 1 <= mid <= hi
    ensures Concat(lo, hi, pageOf) == Concat(lo, mid, pageOf) + Concat(mid + 1, hi, pageOf)
    decreases hi - mid
  {
    if mid < hi {
      ConcatSplit(lo, mid, hi - 1, pageOf);
    } else {
      assert Concat(mid + 1, hi, pageOf) == [];
    }
  }

  lemma {:induction false} ConcatMembers<T>(lo: int, hi: int, pageOf: int -> seq<T>, x: T)
    ensures x in Concat(lo, hi, pageOf) <==> exists p :: lo <= p <= hi && x in pageOf(p)
    decreases hi - lo
  {
    if lo <= hi {
      ConcatMembers(lo, hi - 1, pageOf, x);
    }
  }

  /**
   * A page whose request failed, or returned a status other than 200,
   * contributes nothing, and the pages around it are still processed.
   */
  lemma {:induction false} FailedPageSkipped(n: int, k: int, fetch: int -> Response, resolve: string -> string)
    requires 1 <= k <= n
    requires fetch(k).Failed? || fetch(k).status != 200
    ensures Pages(1, n, fetch, resolve) == Pages(1, k - 1, fetch, resolve) + Pages(k + 1, n, fetch, resolve)
  {
    var pageOf := p => PageListings(fetch(p), resolve);
    assert pageOf(k) == [];
    ConcatSkip(1, k, n, pageOf);
  }

  /** An empty page in the middle of a range can be cut out of the concatenation. */
  lemma {:induction false} ConcatSkip<T>(lo: int, k: int, hi: int, pageOf: int -> seq<T>)
    requires lo <= k <= hi && pageOf(k) == []
    ensures Concat(lo, hi, pageOf) == Concat(lo, k - 1, pageOf) + Concat(k + 1, hi, pageOf)
  {
    ConcatSplit(lo, k, hi, pageOf);
    assert Concat(lo, k, pageOf) == Concat(lo, k - 1, pageOf) + pageOf(k);
    assert Concat(lo, k - 1, pageOf) + [] == Concat(lo, k - 1, pageOf);
  }

  /** Three pages with the second one failing: pages 1 and 3 are kept, in that order. */
  lemma {:induction false} SecondOfThreeFails(fetch: int -> Response, resolve: string -> string)
    requires fetch(2).Failed?
    ensures Pages(1, 3, fetch, resolve) == PageListings(fetch(1), resolve) + PageListings(fetch(3), resolve)
  {
    var pageOf := p => PageListings(fetch(p), resolve);
    FailedPageSkipped(3, 2, fetch, resolve);
    assert Concat(1, 1, pageOf) == pageOf(1) by {
      assert Concat(1, 0, pageOf) == [];
    }
    assert Concat(3, 3, pageOf) == pageOf(3) by {
      assert Concat(3, 2, pageOf) == [];
    }
  }

  /** Every listing the scraper returns comes from an accepted container of a page in range. */
  lemma {:induction false} PagesMembers(lo: int, hi: int, fetch: int -> Response, resolve: string -> string, x: Listing)
    ensures x in Pages(lo, hi, fetch, resolve) <==> exists p :: lo <= p <= hi && x in PageListings(fetch(p), resolve)
  {
    var pageOf := p => PageListings(fetch(p), resolve);
    ConcatMembers(lo, hi, pageOf, x);
    assert forall p :: pageOf(p) == PageListings(fetch(p), resolve);
  }

  /** Every listing the scraper returns has a non-negative price. */
  lemma {:induction false} PricesNonNegative(lo: int, hi: int, fetch: int -> Response, resolve: string -> string, x: Listing)
    requires x in Pages(lo, hi, fetch, resolve)
    ensures x.price >= 0.0
  {
    PagesMembers(lo, hi, fetch, resolve, x);
    var p :| lo <= p <= hi && x in PageListings(fetch(p), resolve);
    var resp := fetch(p);
    var nodes := FirstNonEmpty(resp.page.containerHits);
    ExtractAllMembers(nodes, resolve, x);
    var i :| 0 <= i < |nodes| && Extract(nodes[i], resolve) == Some(x);
    ExtractDefined(nodes[i], resolve);
  }
}
