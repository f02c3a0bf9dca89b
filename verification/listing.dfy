/** The listing page's filter state and its event handlers
    (src/pages/ProductListing.tsx): the `useState` fields, the checkbox
    toggles, "Clear All", the price inputs, the rating radios, the sort
    dropdown, and the effect that seeds the category from the URL and
    recomputes the shown products. */
module Listing {
  import opened Text
  import opened Catalog
  import opened Sequences
  import opened Facets
  import opened Ordering
  import opened Query

  /** The values the rating radios offer: "4★ & above" down to "1★ & above",
      and "All Ratings". */
  const RatingChoices: seq<int> := [4, 3, 2, 1, 0]

  /** The checkbox updater: a ticked value is removed (every occurrence, the
      other values keeping their occurrences), an unticked one is appended at
      the end. Membership of `v` flips and nothing else changes. */
  function Toggle(selected: seq<string>, v: string): (r: seq<string>)
    ensures v in r <==> v !in selected
    ensures forall w :: w != v ==> (w in r <==> w in selected)
    ensures NoDup(selected) ==> NoDup(r)
    ensures v !in selected ==> r == selected + [v]
    ensures v in selected ==> forall w :: w != v ==> multiset(r)[w] == multiset(selected)[w]
  {
    if v in selected then
      var r := Filter(selected, (w: string) => w != v);
      forall w ensures multiset(r)[w] == if w != v then multiset(selected)[w] else 0 {
        FilterCount(selected, (w: string) => w != v, w);
      }
      r
    else
      selected + [v]
  }

  /** Toggling the same value twice restores the selected set, and restores
      the very same list when the value was not selected to begin with. */
  lemma ToggleTwice(selected: seq<string>, v: string)
    ensures forall w :: w in Toggle(Toggle(selected, v), v) <==> w in selected
    ensures v !in selected ==> Toggle(Toggle(selected, v), v) == selected
  {
    if v !in selected {
      var keep := (w: string) => w != v;
      FilterConcat(selected, [v], keep);
      FilterKeepsAll(selected, keep);
    }
  }

  /** Ticking a box twice leaves the criteria's shown products exactly as
      they were. On the page the effect runs between the two clicks; for the
      URL category that re-seeds the selection (`UrlCategoryToggleTwice`). */
  lemma ToggleTwiceSameResult(s: seq<Product>, c: Criteria, brand: string, category: string)
    ensures Evaluate(s, c.(brands := Toggle(Toggle(c.brands, brand), brand))) == Evaluate(s, c)
    ensures Evaluate(s, c.(categories := Toggle(Toggle(c.categories, category), category))) == Evaluate(s, c)
  {
    ToggleTwice(c.brands, brand);
    EvaluateBySelectionSets(s, c.(brands := Toggle(Toggle(c.brands, brand), brand)), c);
    ToggleTwice(c.categories, category);
    EvaluateBySelectionSets(s, c.(categories := Toggle(Toggle(c.categories, category), category)), c);
  }

  /** Ticking one more brand (or category) next to an already ticked one
      never hides a shown product: within a facet the selection is an OR. */
  lemma TickingMoreWidens(s: seq<Product>, c: Criteria, brand: string, category: string, x: Product)
    requires x in Evaluate(s, c)
    ensures c.brands != [] && brand !in c.brands ==>
      x in Evaluate(s, c.(brands := Toggle(c.brands, brand)))
    ensures c.categories != [] && category !in c.categories ==>
      x in Evaluate(s, c.(categories := Toggle(c.categories, category)))
  {
    if c.brands != [] && brand !in c.brands {
      EvaluateMonotone(s, c, c.(brands := Toggle(c.brands, brand)), x);
    }
    if c.categories != [] && category !in c.categories {
      EvaluateMonotone(s, c, c.(categories := Toggle(c.categories, category)), x);
    }
  }

  /** The facets "Clear All" resets; search and sort are kept. */
  function ClearFacets(c: Criteria): Criteria {
    c.(brands := [], categories := [], minPrice := DefaultMinPrice, maxPrice := DefaultMaxPrice, minRating := 0)
  }

  /** After "Clear All" only the search and the default price window
      restrict: a product passes exactly when it matches the search (if any)
      and is priced in [0, 50000]. */
  lemma ClearedAdmits(c: Criteria, x: Product)
    ensures Admits(ClearFacets(c), x) <==> Passes(c, Search, x) && 0.0 <= x.price <= 50000.0
    ensures Admits(c, x) ==> Passes(c, Search, x)
  {
  }

  /** After "Clear All" a product is shown exactly when it matches the search
      (if any) and its price lies in [0, 50000]; every product shown before
      whose price lies in that window is still shown. */
  lemma ClearFacetsAdmits(s: seq<Product>, c: Criteria, x: Product)
    ensures x in Evaluate(s, ClearFacets(c)) <==>
      x in s && Passes(c, Search, x) && 0.0 <= x.price <= 50000.0
    ensures x in Evaluate(s, c) && 0.0 <= x.price <= 50000.0 ==> x in Evaluate(s, ClearFacets(c))
  {
    ClearedAdmits(c, x);
    EvaluateMembership(s, ClearFacets(c), x);
    EvaluateMembership(s, c, x);
  }

  /** The URL seeding `if (categoryParam && !selectedCategories.includes(
      categoryParam)) setSelectedCategories([categoryParam])`: a present,
      non-empty parameter that is not selected replaces the selection. */
  function SeedCategory(selected: seq<string>, param: Option<string>): seq<string> {
    if param.Some? && param.value != [] && param.value !in selected then [param.value]
    else selected
  }

  /** After seeding, a present parameter is selected; the selection is either
      left alone or becomes exactly that parameter; seeding twice is seeding
      once. */
  lemma SeedCategoryProperties(selected: seq<string>, param: Option<string>)
    ensures param.Some? && param.value != [] ==> param.value in SeedCategory(selected, param)
    ensures SeedCategory(selected, param) == selected || SeedCategory(selected, param) == [param.value]
    ensures SeedCategory(selected, param) != selected <==>
      param.Some? && param.value != [] && param.value !in selected
    ensures SeedCategory(SeedCategory(selected, param), param) == SeedCategory(selected, param)
    ensures NoDup(selected) ==> NoDup(SeedCategory(selected, param))
  {
    if param.Some? && param.value != [] && param.value !in selected {
      assert SeedCategory(selected, param) == [param.value];
      assert forall x :: multiset([param.value])[x] <= 1;
    }
  }

  /** The URL category cannot be cleared or unticked while the parameter is
      present: "Clear All" and unticking it both leave a selection that the
      next effect run seeds back to exactly that category. */
  lemma UrlCategoryComesBack(selected: seq<string>, param: Option<string>)
    requires param.Some? && param.value != []
    ensures SeedCategory([], param) == [param.value]
    ensures param.value in selected ==> SeedCategory(Toggle(selected, param.value), param) == [param.value]
  {
  }

  /** Ticking the URL category twice, with the effect re-seeding after each
      click, leaves that category as the only one selected, whatever was
      selected before: other ticked categories are lost. */
  lemma UrlCategoryToggleTwice(selected: seq<string>, param: Option<string>)
    requires param.Some? && param.value != []
    ensures SeedCategory(Toggle(SeedCategory(Toggle(selected, param.value), param), param.value), param) == [param.value]
  {
    var v := param.value;
    var once := SeedCategory(Toggle(selected, v), param);
    if v in selected {
      UrlCategoryComesBack(selected, param);
      assert once == [v];
      UrlCategoryComesBack(once, param);
    } else {
      assert v in Toggle(selected, v);
      assert once == Toggle(selected, v);
      UrlCategoryComesBack(once, param);
    }
  }

  /** What the page settles on after "Clear All": the next effect run seeds
      the URL category (if any) into the cleared selection, so a product is
      shown exactly when it matches the search, is priced in [0, 50000], and
      belongs to the URL category when there is one. */
  lemma ClearAllSettled(s: seq<Product>, c: Criteria, param: Option<string>, x: Product)
    ensures x in Evaluate(s, ClearFacets(c).(categories := SeedCategory([], param))) <==>
      && x in s
      && Passes(c, Search, x)
      && 0.0 <= x.price <= 50000.0
      && (param.Some? && param.value != [] ==> x.category == Some(param.value))
  {
    var settled := ClearFacets(c).(categories := SeedCategory([], param));
    EvaluateMembership(s, settled, x);
    SettledAdmits(c, param, x);
  }

  /** The criteria of `ClearAllSettled`, one product at a time. */
  lemma SettledAdmits(c: Criteria, param: Option<string>, x: Product)
    ensures Admits(ClearFacets(c).(categories := SeedCategory([], param)), x) <==>
      && Passes(c, Search, x)
      && 0.0 <= x.price <= 50000.0
      && (param.Some? && param.value != [] ==> x.category == Some(param.value))
  {
    var settled := ClearFacets(c).(categories := SeedCategory([], param));
    AdmitsIff(settled, x);
    AdmitsIff(ClearFacets(c), x);
    if param.Some? && param.value != [] {
      assert settled.categories == [param.value];
      assert settled == ClearFacets(c).(categories := [param.value]);
    } else {
      assert settled == ClearFacets(c);
      ClearedAdmits(c, x);
    }
  }

  /** JS `n || fallback` for the number `parseInt` returned (`None` standing
      for NaN): NaN and 0 are falsy and give the fallback. */
  function OrElse(parsed: Option<int>, fallback: int): (r: int)
    ensures r == fallback || (parsed.Some? && r == parsed.value)
    ensures r == fallback <==> parsed.None? || parsed.value == 0 || parsed.value == fallback
  {
    if parsed.Some? && parsed.value != 0 then parsed.value else fallback
  }

  /** The Min input's new lower bound, `parseInt(value) || 0`. */
  function MinInputBound(parsed: Option<int>): (lo: int)
    ensures lo == (if parsed.Some? then parsed.value else 0)
  {
    OrElse(parsed, 0)
  }

  /** The Max input's new upper bound, `parseInt(value) || 50000`: an
      unparseable entry and an entered 0 both give 50000, so the upper bound
      never becomes 0 through this input. */
  function MaxInputBound(parsed: Option<int>): (hi: int)
    ensures parsed.None? || parsed.value == 0 ==> hi == DefaultMaxPrice
    ensures parsed.Some? && parsed.value != 0 ==> hi == parsed.value
    ensures hi != 0
  {
    OrElse(parsed, DefaultMaxPrice)
  }

  /** The effect's filter chain: starting from the snapshot, each active
      facet reassigns `filtered` to the survivors of its callback, in the
      order search, brand, category, price, rating. The result is the
      single-pass selection. */
  method ApplyFilters(products: seq<Product>, c: Criteria) returns (filtered: seq<Product>)
    ensures filtered == Select(products, c)
  {
    ghost var f1, f2, f3, f4 := [Search], [Search, Brand], [Search, Brand, Category], [Search, Brand, Category, Price];
    assert [] + [Search] == f1 && f1 + [Brand] == f2 && f2 + [Category] == f3;
    assert f3 + [Price] == f4 && f4 + [Rating] == FilterOrder;

    filtered := products;
    SelectThroughNothing(products, c);
    if c.search.Some? && c.search.value != [] {
      var query := Lower(c.search.value);
      var keep := (p: Product) => MatchesQuery(p, query);
      StageApplied(products, c, [], Search, keep);
      filtered := Filter(filtered, keep);
    } else {
      StageSkipped(products, c, [], Search);
    }
    assert filtered == SelectThrough(products, c, f1);
    if |c.brands| > 0 {
      var brands := c.brands;
      var keep := (p: Product) => p.brand.Some? && p.brand.value in brands;
      StageApplied(products, c, f1, Brand, keep);
      filtered := Filter(filtered, keep);
    } else {
      StageSkipped(products, c, f1, Brand);
    }
    assert filtered == SelectThrough(products, c, f2);
    if |c.categories| > 0 {
      var categories := c.categories;
      var keep := (p: Product) => p.category.Some? && p.category.value in categories;
      StageApplied(products, c, f2, Category, keep);
      filtered := Filter(filtered, keep);
    } else {
      StageSkipped(products, c, f2, Category);
    }
    assert filtered == SelectThrough(products, c, f3);
    var lo, hi := c.minPrice, c.maxPrice;
    var keepPrice := (p: Product) => lo as real <= p.price && p.price <= hi as real;
    StageApplied(products, c, f3, Price, keepPrice);
    filtered := Filter(filtered, keepPrice);
    assert filtered == SelectThrough(products, c, f4);
    if c.minRating > 0 {
      var floor := c.minRating;
      var keep := (p: Product) => p.rating >= floor as real;
      StageApplied(products, c, f4, Rating, keep);
      filtered := Filter(filtered, keep);
    } else {
      StageSkipped(products, c, f4, Rating);
    }
  }

  /** The page's `useState` fields that the catalog pipeline reads or writes. */
  class ListingState {
    var products: seq<Product>
    var filteredProducts: seq<Product>
    var selectedBrands: seq<string>
    var selectedCategories: seq<string>
    var priceRange: (int, int)
    var minRating: int
    var sortBy: string

    /** Selections never hold a value twice (a value is only appended when it
        is absent) and the rating floor is one of the radio values. */
    ghost predicate Valid()
      reads this
    {
      NoDup(selectedBrands) && NoDup(selectedCategories) && minRating in RatingChoices
    }

    /** The criteria one evaluation reads, for the given `search` parameter. */
    function CurrentCriteria(search: Option<string>): Criteria
      reads this
    {
      Criteria(search, selectedBrands, selectedCategories, priceRange.0, priceRange.1, minRating, sortBy)
    }

    /** The effect has nothing left to do: the category parameter is already
        seeded and the shown products are the evaluation of the current state. */
    ghost predicate Settled(search: Option<string>, categoryParam: Option<string>)
      reads this
    {
      && SeedCategory(selectedCategories, categoryParam) == selectedCategories
      && filteredProducts == Evaluate(products, CurrentCriteria(search))
    }

    /** The initial state of the page. */
    constructor ()
      ensures Valid()
      ensures products == [] && filteredProducts == []
      ensures selectedBrands == [] && selectedCategories == []
      ensures priceRange == (DefaultMinPrice, DefaultMaxPrice)
      ensures minRating == 0 && sortBy == "name"
    {
      products := [];
      filteredProducts := [];
      selectedBrands := [];
      selectedCategories := [];
      priceRange := (DefaultMinPrice, DefaultMaxPrice);
      minRating := 0;
      sortBy := "name";
    }

    /** `setProducts(data || [])`: a missing result becomes the empty catalog. */
    method ReceiveSnapshot(data: Option<seq<Product>>)
      modifies this
      ensures products == (if data.Some? then data.value else [])
      ensures filteredProducts == old(filteredProducts)
      ensures selectedBrands == old(selectedBrands) && selectedCategories == old(selectedCategories)
      ensures priceRange == old(priceRange) && minRating == old(minRating) && sortBy == old(sortBy)
    {
      products := if data.Some? then data.value else [];
    }

    /** `handleBrandChange`: toggles one brand and nothing else. */
    method HandleBrandChange(brand: string)
      requires Valid()
      modifies this
      ensures Valid()
      ensures selectedBrands == Toggle(old(selectedBrands), brand)
      ensures brand in selectedBrands <==> brand !in old(selectedBrands)
      ensures products == old(products) && filteredProducts == old(filteredProducts)
      ensures selectedCategories == old(selectedCategories)
      ensures priceRange == old(priceRange) && minRating == old(minRating) && sortBy == old(sortBy)
    {
      selectedBrands := Toggle(selectedBrands, brand);
    }

    /** `handleCategoryChange`: toggles one category and nothing else. */
    method HandleCategoryChange(category: string)
      requires Valid()
      modifies this
      ensures Valid()
      ensures selectedCategories == Toggle(old(selectedCategories), category)
      ensures category in selectedCategories <==> category !in old(selectedCategories)
      ensures products == old(products) && filteredProducts == old(filteredProducts)
      ensures selectedBrands == old(selectedBrands)
      ensures priceRange == old(priceRange) && minRating == old(minRating) && sortBy == old(sortBy)
    {
      selectedCategories := Toggle(selectedCategories, category);
    }

    /** `clearAllFilters`: every facet back to its default; the sort order,
        the products and the search parameter are left as they are. */
    method ClearAllFilters()
      modifies this
      ensures Valid()
      ensures selectedBrands == [] && selectedCategories == []
      ensures priceRange == (DefaultMinPrice, DefaultMaxPrice) && minRating == 0
      ensures sortBy == old(sortBy)
      ensures products == old(products) && filteredProducts == old(filteredProducts)
      ensures forall q :: CurrentCriteria(q) == ClearFacets(old(CurrentCriteria(q)))
    {
      selectedBrands := [];
      selectedCategories := [];
      priceRange := (DefaultMinPrice, DefaultMaxPrice);
      minRating := 0;
    }

    /** The sort dropdown, `setSortBy(e.target.value)`. */
    method SelectSort(value: string)
      requires Valid()
      modifies this
      ensures Valid()
      ensures sortBy == value
      ensures products == old(products) && filteredProducts == old(filteredProducts)
      ensures selectedBrands == old(selectedBrands) && selectedCategories == old(selectedCategories)
      ensures priceRange == old(priceRange) && minRating == old(minRating)
    {
      sortBy := value;
    }

    /** The price slider: replaces the upper bound with the slider's value. */
    method SlideMaxPrice(value: int)
      requires Valid()
      modifies this
      ensures Valid()
      ensures priceRange == (old(priceRange).0, value)
      ensures products == old(products) && filteredProducts == old(filteredProducts)
      ensures selectedBrands == old(selectedBrands) && selectedCategories == old(selectedCategories)
      ensures minRating == old(minRating) && sortBy == old(sortBy)
    {
      priceRange := (priceRange.0, value);
    }

    /** The Min input: replaces the lower bound, 0 when unparseable. */
    method EditMinPrice(parsed: Option<int>)
      requires Valid()
      modifies this
      ensures Valid()
      ensures priceRange == (MinInputBound(parsed), old(priceRange).1)
      ensures products == old(products) && filteredProducts == old(filteredProducts)
      ensures selectedBrands == old(selectedBrands) && selectedCategories == old(selectedCategories)
      ensures minRating == old(minRating) && sortBy == old(sortBy)
    {
      priceRange := (OrElse(parsed, 0), priceRange.1);
    }

    /** The Max input: replaces the upper bound, 50000 when unparseable or 0. */
    method EditMaxPrice(parsed: Option<int>)
      requires Valid()
      modifies this
      ensures Valid()
      ensures priceRange == (old(priceRange).0, MaxInputBound(parsed))
      ensures products == old(products) && filteredProducts == old(filteredProducts)
      ensures selectedBrands == old(selectedBrands) && selectedCategories == old(selectedCategories)
      ensures minRating == old(minRating) && sortBy == old(sortBy)
    {
      priceRange := (priceRange.0, OrElse(parsed, DefaultMaxPrice));
    }

    /** A rating radio: `setMinRating(rating)` with one of the offered values. */
    method SelectRating(rating: int)
      requires Valid()
      requires rating in RatingChoices
      modifies this
      ensures Valid()
      ensures minRating == rating
      ensures products == old(products) && filteredProducts == old(filteredProducts)
      ensures selectedBrands == old(selectedBrands) && selectedCategories == old(selectedCategories)
      ensures priceRange == old(priceRange) && sortBy == old(sortBy)
    {
      minRating := rating;
    }

    /** One run of the evaluation effect. The category seeding is a state
        update that this run does not see yet: the filters read the
        selection as it was when the run started. */
    method RunEffect(search: Option<string>, categoryParam: Option<string>)
      requires Valid()
      modifies this
      ensures Valid()
      ensures selectedCategories == SeedCategory(old(selectedCategories), categoryParam)
      ensures filteredProducts == Evaluate(products, old(CurrentCriteria(search)))
      ensures products == old(products) && selectedBrands == old(selectedBrands)
      ensures priceRange == old(priceRange) && minRating == old(minRating) && sortBy == old(sortBy)
    {
      var c := CurrentCriteria(search);
      SeedCategoryProperties(selectedCategories, categoryParam);
      if categoryParam.Some? && categoryParam.value != [] && categoryParam.value !in selectedCategories {
        selectedCategories := [categoryParam.value];
      }
      var filtered := ApplyFilters(products, c);
      filtered := SortProducts(SortKeyOf(c.sortBy), filtered);
      filteredProducts := filtered;
    }

    /** The effect until the page is settled. When seeding changed the
        category selection, React runs the effect once more (the selection
        is one of its dependencies); that second run finds the parameter
        selected and only re-evaluates. The shown products are then the
        evaluation of the seeded state. */
    method Refresh(search: Option<string>, categoryParam: Option<string>)
      requires Valid()
      modifies this
      ensures Valid()
      ensures Settled(search, categoryParam)
      ensures selectedCategories == SeedCategory(old(selectedCategories), categoryParam)
      ensures products == old(products) && selectedBrands == old(selectedBrands)
      ensures priceRange == old(priceRange) && minRating == old(minRating) && sortBy == old(sortBy)
    {
      var before := selectedCategories;
      RunEffect(search, categoryParam);
      SeedCategoryProperties(before, categoryParam);
      if selectedCategories != before {
        RunEffect(search, categoryParam);
      }
    }
  }
}
