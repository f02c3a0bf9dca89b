/** Query evaluation: the filter chain followed by the stable sort
    (src/pages/ProductListing.tsx, lines 68-120), as a pure function of the
    product snapshot and the criteria, with the properties the page relies on. */
module Query {
  import opened Text
  import opened Catalog
  import opened Sequences
  import opened Facets
  import opened Ordering

  /** The products of `s` that survive the facets `fs`, in snapshot order. */
  function SelectThrough(s: seq<Product>, c: Criteria, fs: seq<Facet>): seq<Product> {
    if s == [] then []
    else (if PassesAll(c, fs, s[0]) then [s[0]] else []) + SelectThrough(s[1..], c, fs)
  }

  /** The snapshot products every facet admits, in snapshot order: the
      single-pass reference for the effect's filter chain. */
  function Select(s: seq<Product>, c: Criteria): seq<Product> {
    SelectThrough(s, c, FilterOrder)
  }

  /** One evaluation: filter, then sort with the selected comparator. */
  function Evaluate(s: seq<Product>, c: Criteria): seq<Product> {
    SortProducts(SortKeyOf(c.sortBy), Select(s, c))
  }

  /** The criteria of a freshly mounted page (or after "Clear All" with the
      default sort): no selection, the price window [0, 50000], no rating
      floor, sorted by name. */
  function DefaultCriteria(search: Option<string>): Criteria {
    Criteria(search, [], [], DefaultMinPrice, DefaultMaxPrice, 0, "name")
  }

  lemma {:induction false} SelectThroughCount(s: seq<Product>, c: Criteria, fs: seq<Facet>, x: Product)
    ensures multiset(SelectThrough(s, c, fs))[x] == if PassesAll(c, fs, x) then multiset(s)[x] else 0
  {
    if s != [] {
      SelectThroughCount(s[1..], c, fs, x);
      assert s == [s[0]] + s[1..];
    }
  }

  /** Before any filter has run, nothing has been removed. */
  lemma {:induction false} SelectThroughNothing(s: seq<Product>, c: Criteria)
    ensures SelectThrough(s, c, []) == s
  {
    if s != [] {
      SelectThroughNothing(s[1..], c);
      assert s == [s[0]] + s[1..];
    }
  }

  lemma PassesAllSnoc(c: Criteria, fs: seq<Facet>, f: Facet, p: Product)
    ensures PassesAll(c, fs + [f], p) == (PassesAll(c, fs, p) && Passes(c, f, p))
  {
    assert (fs + [f])[..|fs|] == fs;
  }

  /** Evaluation is a per-product filter: the first product is kept exactly
      when every facet admits it, and the rest is filtered on its own. */
  lemma SelectCons(p: Product, s: seq<Product>, c: Criteria)
    ensures Select([p] + s, c) == (if Admits(c, p) then [p] else []) + Select(s, c)
  {
    AdmitsIsFilterChain(c, p);
    assert ([p] + s)[1..] == s;
  }

  /** Running the filter of an active facet on the survivors of `fs` leaves
      the survivors of `fs` followed by that facet. */
  lemma {:induction false} StageApplied(s: seq<Product>, c: Criteria, fs: seq<Facet>, f: Facet, keep: Product -> bool)
    requires Active(c, f)
    requires forall p :: keep(p) == Test(c, f, p)
    ensures Filter(SelectThrough(s, c, fs), keep) == SelectThrough(s, c, fs + [f])
  {
    if s != [] {
      var head := if PassesAll(c, fs, s[0]) then [s[0]] else [];
      PassesAllSnoc(c, fs, f, s[0]);
      calc {
        Filter(SelectThrough(s, c, fs), keep);
        Filter(head + SelectThrough(s[1..], c, fs), keep);
        { FilterConcat(head, SelectThrough(s[1..], c, fs), keep); }
        Filter(head, keep) + Filter(SelectThrough(s[1..], c, fs), keep);
        { StageApplied(s[1..], c, fs, f, keep); }
        Filter(head, keep) + SelectThrough(s[1..], c, fs + [f]);
        SelectThrough(s, c, fs + [f]);
      }
    }
  }

  /** Skipping the filter of an inactive facet removes nothing. */
  lemma {:induction false} StageSkipped(s: seq<Product>, c: Criteria, fs: seq<Facet>, f: Facet)
    requires !Active(c, f)
    ensures SelectThrough(s, c, fs) == SelectThrough(s, c, fs + [f])
  {
    if s != [] {
      PassesAllSnoc(c, fs, f, s[0]);
      StageSkipped(s[1..], c, fs, f);
    }
  }

  /** Soundness and completeness: every admitted snapshot product appears in
      the result as often as in the snapshot, and nothing else appears. */
  lemma EvaluateCount(s: seq<Product>, c: Criteria, x: Product)
    ensures multiset(Evaluate(s, c))[x] == if Admits(c, x) then multiset(s)[x] else 0
  {
    SelectThroughCount(s, c, FilterOrder, x);
    AdmitsIsFilterChain(c, x);
  }

  /** A product is in the result exactly when it is in the snapshot and
      passes every active facet. */
  lemma EvaluateMembership(s: seq<Product>, c: Criteria, x: Product)
    ensures x in Evaluate(s, c) <==> x in s && Admits(c, x)
  {
    EvaluateCount(s, c, x);
  }

  /** The result is in the order of the selected key: ascending price for
      "price-low"; descending price, rating, discount (absent counts as 0)
      or review count for the other four; by name for anything else. */
  lemma EvaluateOrdered(s: seq<Product>, c: Criteria, i: int, j: int)
    requires 0 <= i < j < |Evaluate(s, c)|
    ensures var r := Evaluate(s, c);
      match SortKeyOf(c.sortBy)
      case PriceLow => r[i].price <= r[j].price
      case PriceHigh => r[i].price >= r[j].price
      case ByRating => r[i].rating >= r[j].rating
      case ByDiscount => DiscountOrZero(r[i]) >= DiscountOrZero(r[j])
      case ByPopularity => r[i].reviewsCount >= r[j].reviewsCount
      case ByName => LexCompare(r[i].name, r[j].name) <= 0
  {
    var r := Evaluate(s, c);
    assert Compare(SortKeyOf(c.sortBy), r[i], r[j]) <= 0.0;
  }

  /** Stability: products with equal keys keep their relative order from the
      filtered list. */
  lemma EvaluateStable(s: seq<Product>, c: Criteria, p: Product)
    ensures Ties(SortKeyOf(c.sortBy), Evaluate(s, c), p) == Ties(SortKeyOf(c.sortBy), Select(s, c), p)
  {
    SortStable(SortKeyOf(c.sortBy), Select(s, c), p);
  }

  /** An inverted price window admits nothing and is no fault. */
  lemma InvertedPriceRangeIsEmpty(s: seq<Product>, c: Criteria)
    requires c.minPrice > c.maxPrice
    ensures Evaluate(s, c) == []
  {
    var r := Evaluate(s, c);
    if r != [] {
      EvaluateMembership(s, c, r[0]);
      assert false;
    }
  }

  /** With the default criteria the price window [0, 50000] is the only
      restriction: products priced outside it (in particular above 50000)
      are dropped, all others kept, sorted by name. */
  lemma DefaultCriteriaKeepPriceWindow(s: seq<Product>, x: Product)
    ensures multiset(Evaluate(s, DefaultCriteria(None)))[x] ==
      if 0.0 <= x.price <= 50000.0 then multiset(s)[x] else 0
    ensures Sorted(ByName, Evaluate(s, DefaultCriteria(None)))
  {
    var c := DefaultCriteria(None);
    assert Admits(c, x) <==> 0.0 <= x.price <= 50000.0;
    EvaluateCount(s, c, x);
    assert SortKeyOf(c.sortBy) == ByName;
  }

  /** Facet monotonicity: widening the criteria never removes a product from
      the result. */
  lemma EvaluateMonotone(s: seq<Product>, c: Criteria, w: Criteria, x: Product)
    requires Widens(c, w)
    requires x in Evaluate(s, c)
    ensures x in Evaluate(s, w)
  {
    EvaluateMembership(s, c, x);
    AdmitsMonotone(c, w, x);
    EvaluateMembership(s, w, x);
  }

  lemma {:induction false} SelectExtensional(s: seq<Product>, c: Criteria, d: Criteria)
    requires forall p :: p in s ==> Admits(c, p) == Admits(d, p)
    ensures Select(s, c) == Select(s, d)
  {
    if s != [] {
      AdmitsIsFilterChain(c, s[0]);
      AdmitsIsFilterChain(d, s[0]);
      SelectExtensional(s[1..], c, d);
    }
  }

  /** Only which brands and categories are selected matters, not the order
      in which they were ticked nor repetitions. */
  lemma EvaluateBySelectionSets(s: seq<Product>, c: Criteria, d: Criteria)
    requires c.search == d.search && c.minPrice == d.minPrice && c.maxPrice == d.maxPrice
    requires c.minRating == d.minRating && c.sortBy == d.sortBy
    requires forall b :: b in c.brands <==> b in d.brands
    requires forall k :: k in c.categories <==> k in d.categories
    ensures Evaluate(s, c) == Evaluate(s, d)
  {
    forall p | p in s
      ensures Admits(c, p) == Admits(d, p)
    {
      AdmitsBySelectionSets(c, d, p);
    }
    SelectExtensional(s, c, d);
  }
}
