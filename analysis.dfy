/**
 * The analysis step of the search page: the brand and price filters applied
 * to the scraped listings, `analyze_prices` over what is left, and the
 * resale columns added to each remaining row.
 */
module Analysis {
  import opened Wrappers
  import Text
  import Extraction
  import Resale

  /** A record's `price` entry: an `int`/`float` value, or anything else. */
  datatype PriceField = Numeric(value: real) | NonNumeric

  /** The dictionary `{"avg", "min", "max", "count"}`. */
  datatype Stats = Stats(avg: real, min: real, max: real, count: nat)

  /** The list comprehension keeping the numeric prices, in order. */
  function NumericPrices(items: seq<PriceField>): (ps: seq<real>)
    ensures |ps| <= |items|
    ensures forall x :: x in ps <==> Numeric(x) in items
    ensures forall x :: multiset(ps)[x] == multiset(items)[Numeric(x)]
    ensures |ps| == |items| - multiset(items)[NonNumeric]
  {
    if items == [] then []
    else
      var rest := NumericPrices(items[1..]);
      assert items == [items[0]] + items[1..];
      assert multiset(items) == multiset{items[0]} + multiset(items[1..]);
      assert forall x :: Numeric(x) in items <==> items[0] == Numeric(x) || Numeric(x) in items[1..];
      if items[0].Numeric? then [items[0].value] + rest else rest
  }

  /** The comprehension keeps the order: the numeric prices of a concatenation are those of each part. */
  lemma {:induction false} NumericPricesConcat(a: seq<PriceField>, b: seq<PriceField>)
    ensures NumericPrices(a + b) == NumericPrices(a) + NumericPrices(b)
  {
    if a == [] {
      assert a + b == b;
    } else {
      assert (a + b)[0] == a[0] && (a + b)[1..] == a[1..] + b;
      NumericPricesConcat(a[1..], b);
    }
  }

  /** One record contributes its price when it is numeric, and nothing otherwise. */
  lemma {:induction false} NumericPricesSingle(f: PriceField)
    ensures NumericPrices([f]) == if f.Numeric? then [f.value] else []
  {
    assert [f][1..] == [];
  }

  function Sum(xs: seq<real>): real {
    if xs == [] then 0.0 else xs[0] + Sum(xs[1..])
  }

  /** `min(xs)`: an element of `xs` no larger than any other. */
  function MinOf(xs: seq<real>): (m: real)
    requires xs != []
    ensures m in xs
    ensures forall i :: 0 <= i < |xs| ==> m <= xs[i]
  {
    if |xs| == 1 then xs[0]
    else
      var m := MinOf(xs[1..]);
      assert forall i :: 1 <= i < |xs| ==> xs[i] == xs[1..][i - 1];
      if xs[0] <= m then xs[0] else m
  }

  /** `max(xs)`: an element of `xs` no smaller than any other. */
  function MaxOf(xs: seq<real>): (m: real)
    requires xs != []
    ensures m in xs
    ensures forall i :: 0 <= i < |xs| ==> xs[i] <= m
  {
    if |xs| == 1 then xs[0]
    else
      var m := MaxOf(xs[1..]);
      assert forall i :: 1 <= i < |xs| ==> xs[i] == xs[1..][i - 1];
      if m <= xs[0] then xs[0] else m
  }

  /** `sum(ps) / len(ps)`: the value whose product with the count is the sum. */
  function Mean(ps: seq<real>): (m: real)
    requires ps != []
    ensures m * (|ps| as real) == Sum(ps)
  {
    Sum(ps) / (|ps| as real)
  }

  /** `analyze_prices(items)`. */
  function AnalyzePrices(items: seq<PriceField>): (r: Option<Stats>)
    ensures r.None? <==> NumericPrices(items) == []
    ensures r.Some? ==> r.value.count == |NumericPrices(items)| && r.value.min <= r.value.avg <= r.value.max
  {
    var ps := NumericPrices(items);
    if ps == [] then None
    else
      MeanBounds(ps);
      Some(Stats(Mean(ps), MinOf(ps), MaxOf(ps), |ps|))
  }

  /** A sum of values between `lo` and `hi` lies between `n * lo` and `n * hi`. */
  lemma {:induction false} SumBounds(xs: seq<real>, lo: real, hi: real)
    requires forall i :: 0 <= i < |xs| ==> lo <= xs[i] <= hi
    ensures (|xs| as real) * lo <= Sum(xs) <= (|xs| as real) * hi
  {
    if xs != [] {
      assert forall i :: 0 <= i < |xs| - 1 ==> xs[1..][i] == xs[i + 1];
      SumBounds(xs[1..], lo, hi);
      assert (|xs| as real) * lo == lo + ((|xs| - 1) as real) * lo;
      assert (|xs| as real) * hi == hi + ((|xs| - 1) as real) * hi;
    }
  }

  /** `analyze_prices` gives None exactly when no price is numeric. */
  lemma {:induction false} AnalyzePricesNone(items: seq<PriceField>)
    ensures AnalyzePrices(items).None? <==> forall i :: 0 <= i < |items| ==> !items[i].Numeric?
  {
    if NumericPrices(items) != [] {
      var x := NumericPrices(items)[0];
      assert x in NumericPrices(items);
      assert Numeric(x) in items;
    }
  }

  /**
   * Otherwise it gives `count` numeric prices, `min` and `max` among them
   * and bounding them, and a mean between the two whose product with the
   * count is the sum.
   */
  lemma {:induction false} AnalyzePricesSome(items: seq<PriceField>, s: Stats)
    requires AnalyzePrices(items) == Some(s)
    ensures 0 < s.count <= |items|
    ensures s.count == |NumericPrices(items)| == |items| - multiset(items)[NonNumeric]
    ensures Numeric(s.min) in items && Numeric(s.max) in items
    ensures forall i :: 0 <= i < |items| && items[i].Numeric? ==> s.min <= items[i].value <= s.max
    ensures s.min <= s.avg <= s.max
    ensures s.avg == Mean(NumericPrices(items))
  {
    var ps := NumericPrices(items);
    NumericBounded(items, ps, s.min, s.max);
    MeanBounds(ps);
  }

  lemma {:induction false} NumericBounded(items: seq<PriceField>, ps: seq<real>, lo: real, hi: real)
    requires ps == NumericPrices(items)
    requires forall j :: 0 <= j < |ps| ==> lo <= ps[j] <= hi
    ensures forall i :: 0 <= i < |items| && items[i].Numeric? ==> lo <= items[i].value <= hi
  {
    forall i | 0 <= i < |items| && items[i].Numeric?
      ensures lo <= items[i].value <= hi
    {
      assert Numeric(items[i].value) in items;
      assert items[i].value in ps;
    }
  }

  /** The mean of a non-empty sequence lies between its minimum and maximum. */
  lemma {:induction false} MeanBounds(ps: seq<real>)
    requires ps != []
    ensures MinOf(ps) <= Mean(ps) <= MaxOf(ps)
  {
    MeanBetween(ps, MinOf(ps), MaxOf(ps));
  }

  /** The mean of values between `lo` and `hi` lies between them. */
  lemma {:induction false} MeanBetween(ps: seq<real>, lo: real, hi: real)
    requires ps != []
    requires forall i :: 0 <= i < |ps| ==> lo <= ps[i] <= hi
    ensures lo <= Mean(ps) <= hi
  {
    SumBounds(ps, lo, hi);
    DivideBetween(Sum(ps), |ps| as real, lo, hi);
  }

  lemma {:induction false} DivideBetween(total: real, n: real, lo: real, hi: real)
    requires n > 0.0 && n * lo <= total <= n * hi
    ensures lo <= total / n <= hi
  {
    var q := total / n;
    assert q * n == total;
  }

  /** The rows of the listings table as records with a numeric price. */
  function Records(listings: seq<Extraction.Listing>): seq<PriceField> {
    seq(|listings|, i requires 0 <= i < |listings| => Numeric(listings[i].price))
  }

  /**
   * A row survives the filters when the brand is "All" or occurs in the title
   * ignoring case, and its price lies in `[priceMin, priceMax]`.
   */
  predicate Selected(l: Extraction.Listing, brand: string, priceMin: int, priceMax: int) {
    && (brand == "All" || Text.Contains(Text.Lower(l.title), Text.Lower(brand)))
    && priceMin as real <= l.price <= priceMax as real
  }

  /** The brand mask and then the price mask of the results table. */
  function FilterListings(items: seq<Extraction.Listing>, brand: string, priceMin: int, priceMax: int): (r: seq<Extraction.Listing>)
    ensures |r| <= |items|
    ensures forall x :: x in r <==> x in items && Selected(x, brand, priceMin, priceMax)
  {
    if items == [] then []
    else
      var rest := FilterListings(items[1..], brand, priceMin, priceMax);
      assert forall x :: x in items <==> x == items[0] || x in items[1..];
      if Selected(items[0], brand, priceMin, priceMax) then [items[0]] + rest else rest
  }

  /** Filtering a concatenation filters each part, keeping the order. */
  lemma {:induction false} FilterConcat(a: seq<Extraction.Listing>, b: seq<Extraction.Listing>, brand: string, priceMin: int, priceMax: int)
    ensures FilterListings(a + b, brand, priceMin, priceMax) ==
            FilterListings(a, brand, priceMin, priceMax) + FilterListings(b, brand, priceMin, priceMax)
  {
    if a == [] {
      assert a + b == b;
    } else {
      assert (a + b)[0] == a[0] && (a + b)[1..] == a[1..] + b;
      FilterConcat(a[1..], b, brand, priceMin, priceMax);
    }
  }

  /** Applying the same filters again removes nothing more. */
  lemma {:induction false} FilterIdempotent(items: seq<Extraction.Listing>, brand: string, priceMin: int, priceMax: int)
    ensures FilterListings(FilterListings(items, brand, priceMin, priceMax), brand, priceMin, priceMax) ==
            FilterListings(items, brand, priceMin, priceMax)
  {
    if items != [] {
      FilterIdempotent(items[1..], brand, priceMin, priceMax);
    }
  }

  /** With brand "All" and a range holding every price, nothing is removed. */
  lemma {:induction false} FilterKeepsAll(items: seq<Extraction.Listing>, priceMin: int, priceMax: int)
    requires forall i :: 0 <= i < |items| ==> priceMin as real <= items[i].price <= priceMax as real
    ensures FilterListings(items, "All", priceMin, priceMax) == items
  {
    if items != [] {
      assert forall i :: 0 <= i < |items| - 1 ==> items[1..][i] == items[i + 1];
      FilterKeepsAll(items[1..], priceMin, priceMax);
      assert Selected(items[0], "All", priceMin, priceMax);
      assert items == [items[0]] + items[1..];
    }
  }

  /** The brand test ignores the case of both the title and the brand. */
  lemma {:induction false} BrandCaseInsensitive(l: Extraction.Listing, brand: string, priceMin: int, priceMax: int)
    requires brand != "All" && Text.Lower(brand) != "all"
    ensures Selected(l, Text.Lower(brand), priceMin, priceMax) <==> Selected(l, brand, priceMin, priceMax)
  {
    Text.LowerIdempotent(brand);
  }

  /**
   * Filter then aggregate: the statistics of the filtered rows lie inside
   * the chosen price range.
   */
  lemma {:induction false} FilteredStatsInRange(items: seq<Extraction.Listing>, brand: string, priceMin: int, priceMax: int)
    requires AnalyzePrices(Records(FilterListings(items, brand, priceMin, priceMax))).Some?
    ensures var s := AnalyzePrices(Records(FilterListings(items, brand, priceMin, priceMax))).value;
      priceMin as real <= s.min <= s.avg <= s.max <= priceMax as real
  {
    var kept := FilterListings(items, brand, priceMin, priceMax);
    var recs := Records(kept);
    var s := AnalyzePrices(recs).value;
    AnalyzePricesSome(recs, s);
    var i :| 0 <= i < |recs| && recs[i] == Numeric(s.min);
    assert kept[i] in kept;
    var j :| 0 <= j < |recs| && recs[j] == Numeric(s.max);
    assert kept[j] in kept;
  }

  /** Every listing row is numeric, so the count is the number of rows. */
  lemma {:induction false} RecordsCount(listings: seq<Extraction.Listing>)
    ensures listings != [] ==> AnalyzePrices(Records(listings)).Some? && AnalyzePrices(Records(listings)).value.count == |listings|
    ensures listings == [] ==> AnalyzePrices(Records(listings)).None?
  {
    var recs := Records(listings);
    AnalyzePricesNone(recs);
    if listings != [] {
      assert recs[0].Numeric?;
    }
  }

  /** The resale columns added to each row, computed from the filtered mean. */
  function Annotate(listings: seq<Extraction.Listing>, avg: real): (r: seq<Resale.Estimate>)
    ensures |r| == |listings|
    ensures forall i :: 0 <= i < |listings| ==> r[i] == Resale.ResaleEstimate(listings[i].price, avg)
  {
    seq(|listings|, i requires 0 <= i < |listings| => Resale.ResaleEstimate(listings[i].price, avg))
  }

  /** The search results shown: the filtered rows, their statistics and the resale columns. */
  datatype Table = Table(rows: seq<Extraction.Listing>, stats: Option<Stats>, resale: seq<Resale.Estimate>)

  /**
   * Filter the scraped rows, run `analyze_prices` on what is left, and add
   * the resale columns against that mean when there is a result.
   */
  function ResultsTable(items: seq<Extraction.Listing>, brand: string, priceMin: int, priceMax: int): Table {
    var kept := FilterListings(items, brand, priceMin, priceMax);
    var stats := AnalyzePrices(Records(kept));
    Table(kept, stats, if stats.Some? then Annotate(kept, stats.value.avg) else [])
  }

  /**
   * The table holds the filtered rows; it has statistics exactly when a row
   * survives, and then they count every row and lie in the price range, and
   * every row has its resale columns; otherwise no resale column is added.
   */
  lemma {:induction false} ResultsTableSpec(items: seq<Extraction.Listing>, brand: string, priceMin: int, priceMax: int)
    ensures var t := ResultsTable(items, brand, priceMin, priceMax);
      && t.rows == FilterListings(items, brand, priceMin, priceMax)
      && (t.stats.None? <==> t.rows == [])
      && (t.stats.None? ==> t.resale == [])
      && (t.stats.Some? ==>
            && t.stats.value.count == |t.rows| == |t.resale|
            && priceMin as real <= t.stats.value.min <= t.stats.value.avg <= t.stats.value.max <= priceMax as real)
  {
    var t := ResultsTable(items, brand, priceMin, priceMax);
    RecordsCount(t.rows);
    if t.stats.Some? {
      FilteredStatsInRange(items, brand, priceMin, priceMax);
    }
  }

  /**
   * The resale columns are scored against the mean of the kept rows: a row
   * at or below that mean scores at least 75, a row at or above it at most
   * 75, and the cheapest and dearest kept rows give one of each.  A mean of
   * zero gives the unknown estimate everywhere.
   */
  lemma {:induction false} ResaleAgainstFilteredMean(items: seq<Extraction.Listing>, brand: string, priceMin: int, priceMax: int)
    requires ResultsTable(items, brand, priceMin, priceMax).stats.Some?
    ensures var t := ResultsTable(items, brand, priceMin, priceMax);
      var avg := t.stats.value.avg;
      && |t.resale| == |t.rows|
      && (avg <= 0.0 ==> forall i :: 0 <= i < |t.resale| ==> t.resale[i] == Resale.Unknown)
      && (avg > 0.0 ==> forall i :: 0 <= i < |t.rows| && t.rows[i].price <= avg ==> t.resale[i].score >= 75)
      && (avg > 0.0 ==> forall i :: 0 <= i < |t.rows| && t.rows[i].price >= avg ==> t.resale[i].score <= 75)
      && (avg > 0.0 ==> exists i :: 0 <= i < |t.rows| && t.resale[i].score >= 75)
      && (avg > 0.0 ==> exists i :: 0 <= i < |t.rows| && t.resale[i].score <= 75)
  {
    var t := ResultsTable(items, brand, priceMin, priceMax);
    var s := t.stats.value;
    assert t.resale == Annotate(t.rows, s.avg);
    var i, j := CheapestDearest(t.rows, s);
    ScoresAgainst(t.rows, s.avg);
  }

  /** Rows holding the minimum and the maximum of the statistics of a table's rows. */
  lemma {:induction false} CheapestDearest(rows: seq<Extraction.Listing>, s: Stats) returns (i: nat, j: nat)
    requires AnalyzePrices(Records(rows)) == Some(s)
    ensures i < |rows| && rows[i].price == s.min <= s.avg
    ensures j < |rows| && rows[j].price == s.max >= s.avg
  {
    var recs := Records(rows);
    AnalyzePricesSome(recs, s);
    i :| 0 <= i < |recs| && recs[i] == Numeric(s.min);
    j :| 0 <= j < |recs| && recs[j] == Numeric(s.max);
  }

  /** Against a mean `avg`, the rows priced at most `avg` score at least 75 and those priced at least `avg` at most 75. */
  lemma {:induction false} ScoresAgainst(rows: seq<Extraction.Listing>, avg: real)
    ensures avg <= 0.0 ==> forall i :: 0 <= i < |rows| ==> Annotate(rows, avg)[i] == Resale.Unknown
    ensures avg > 0.0 ==> forall i :: 0 <= i < |rows| && rows[i].price <= avg ==> Annotate(rows, avg)[i].score >= 75
    ensures avg > 0.0 ==> forall i :: 0 <= i < |rows| && rows[i].price >= avg ==> Annotate(rows, avg)[i].score <= 75
  {
  }

  lemma {:induction false} TwoPricesStats()
    ensures AnalyzePrices([Numeric(10.0), Numeric(20.0)]) == Some(Stats(15.0, 10.0, 20.0, 2))
  {
    TwoPrices();
    TwoPricesSummary();
  }

  lemma {:induction false} TwoPricesSummary()
    ensures MinOf([10.0, 20.0]) == 10.0 && MaxOf([10.0, 20.0]) == 20.0 && Mean([10.0, 20.0]) == 15.0
  {
    var ps := [10.0, 20.0];
    assert ps[1..] == [20.0];
    assert Sum(ps) == 30.0;
    assert Mean(ps) * 2.0 == 30.0;
  }

  lemma {:induction false} TwoPrices()
    ensures NumericPrices([Numeric(10.0), Numeric(20.0)]) == [10.0, 20.0]
  {
    var x := [Numeric(10.0), Numeric(20.0)];
    assert x[1..] == [Numeric(20.0)];
    NumericPricesSingle(Numeric(20.0));
    assert NumericPrices(x) == [10.0] + NumericPrices(x[1..]);
  }

  /**
   * Three rows priced 10, 20 and 30 filtered to `[0, 25]`: two remain, their
   * mean is 15, and the row priced 10 (ratio 2/3) is a good resale, not a
   * fast one.
   */
  lemma {:induction false} ThreeListingsScenario()
    ensures var items := [Extraction.Listing("a", 10.0, "u"), Extraction.Listing("b", 20.0, "v"), Extraction.Listing("c", 30.0, "w")];
      var t := ResultsTable(items, "All", 0, 25);
      && t.rows == items[..2]
      && t.stats == Some(Stats(15.0, 10.0, 20.0, 2))
      && t.resale[0].tag == "✅ Bonne revente"
      && t.resale[0].score == 75
  {
    var items := [Extraction.Listing("a", 10.0, "u"), Extraction.Listing("b", 20.0, "v"), Extraction.Listing("c", 30.0, "w")];
    assert items[1..] == [items[1], items[2]];
    assert items[1..][1..] == [items[2]];
    var kept := FilterListings(items, "All", 0, 25);
    assert kept == [items[0], items[1]];
    assert Records(kept) == [Numeric(10.0), Numeric(20.0)];
    TwoPricesStats();
  }
}
