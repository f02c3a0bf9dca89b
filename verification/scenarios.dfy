/** Worked examples of the listing page's evaluation on a three-product
    catalog: a category filter with the ascending-price sort, a search, a
    price window, a rating floor nobody reaches and an inverted window; and
    a tie on price between two products listed against name order. */
module Scenarios {
  import opened Text
  import opened Catalog
  import opened Facets
  import opened Ordering
  import opened Query

  function Item(name: string, category: string, price: real): Product {
    Product(name, name, price, None, "", 0.0, 0, None, None, Some(category), None)
  }

  const ZenFan: Product := Item("Zen Fan", "Home", 500.0)
  const AirCooler: Product := Item("Air Cooler", "Home", 1500.0)
  const PhoneX: Product := Item("Phone X", "Electronics", 9000.0)
  const Snapshot: seq<Product> := [ZenFan, AirCooler, PhoneX]

  const TableLamp: Product := Item("Table Lamp", "Home", 800.0)
  const DeskLamp: Product := Item("Desk Lamp", "Home", 800.0)
  /** Two equally priced products, listed against name order. */
  const Lamps: seq<Product> := [TableLamp, DeskLamp]

  /** The selection from a three-product catalog, one product at a time. */
  lemma SelectThree(x: Product, y: Product, z: Product, c: Criteria)
    ensures Select([x, y, z], c) ==
      (if Admits(c, x) then [x] else []) +
      (if Admits(c, y) then [y] else []) +
      (if Admits(c, z) then [z] else [])
  {
    var kx, ky, kz := (if Admits(c, x) then [x] else []), (if Admits(c, y) then [y] else []), (if Admits(c, z) then [z] else []);
    SelectCons(z, [], c);
    assert [z] == [z] + [];
    assert Select([z], c) == kz;
    SelectCons(y, [z], c);
    assert [y, z] == [y] + [z];
    assert Select([y, z], c) == ky + kz;
    SelectCons(x, [y, z], c);
    assert [x, y, z] == [x] + [y, z];
    assert kx + (ky + kz) == kx + ky + kz;
  }

  /** A product with neither brand nor description whose name and category
      lack the letter 'p' in both cases does not match "phone". */
  lemma NoPhone(p: Product)
    requires p.brand.None? && p.description.None? && p.category.Some?
    requires 'p' !in p.name && 'P' !in p.name
    requires 'p' !in p.category.value && 'P' !in p.category.value
    ensures !MatchesQuery(p, "phone")
  {
    LowerOmits(p.name, 'p');
    LowerOmits(p.category.value, 'p');
    IncludesNeedsFirstChar(Lower(p.name), "phone");
    IncludesNeedsFirstChar(Lower(p.category.value), "phone");
  }

  /** Ticking "Home" and sorting by ascending price shows the fan, then the
      cooler. */
  lemma HomeByPriceLow()
    ensures Evaluate(Snapshot, DefaultCriteria(None).(categories := ["Home"], sortBy := "price-low")) == [ZenFan, AirCooler]
  {
    var c := DefaultCriteria(None).(categories := ["Home"], sortBy := "price-low");
    assert Admits(c, ZenFan);
    assert Admits(c, AirCooler);
    assert !Admits(c, PhoneX);
    SelectThree(ZenFan, AirCooler, PhoneX, c);
    assert Select(Snapshot, c) == [ZenFan, AirCooler];
    assert SortKeyOf(c.sortBy) == PriceLow;
    assert [ZenFan, AirCooler][..1] == [ZenFan];
    assert SortProducts(PriceLow, [ZenFan]) == [ZenFan];
    assert Insert(PriceLow, AirCooler, [ZenFan]) == [ZenFan, AirCooler];
  }

  /** With no facet touched, both lamps pass, whatever the sort. */
  lemma LampsSelected(sortBy: string)
    ensures Select(Lamps, DefaultCriteria(None).(sortBy := sortBy)) == Lamps
  {
    var c := DefaultCriteria(None).(sortBy := sortBy);
    assert Admits(c, TableLamp) && Admits(c, DeskLamp);
    SelectCons(DeskLamp, [], c);
    assert [DeskLamp] == [DeskLamp] + [];
    SelectCons(TableLamp, [DeskLamp], c);
    assert Lamps == [TableLamp] + [DeskLamp];
  }

  /** Sorting the two lamps, the second one inserted behind or before the
      first. */
  lemma SortLamps(k: SortKey)
    ensures SortProducts(k, Lamps) == Insert(k, DeskLamp, [TableLamp])
  {
    assert Lamps[..1] == [TableLamp];
    assert SortProducts(k, [TableLamp]) == [TableLamp];
  }

  /** Under "price-low" the tied lamps stay in snapshot order. */
  lemma LampsByPrice()
    ensures Evaluate(Lamps, DefaultCriteria(None).(sortBy := "price-low")) == [TableLamp, DeskLamp]
  {
    LampsSelected("price-low");
    assert SortKeyOf("price-low") == PriceLow;
    SortLamps(PriceLow);
    assert Compare(PriceLow, DeskLamp, TableLamp) == 0.0;
    assert Insert(PriceLow, DeskLamp, [TableLamp]) == [TableLamp, DeskLamp];
  }

  /** Under the default name sort the lamps are swapped. */
  lemma LampsByName()
    ensures Evaluate(Lamps, DefaultCriteria(None)) == [DeskLamp, TableLamp]
  {
    var c := DefaultCriteria(None);
    LampsSelected(c.sortBy);
    assert c.(sortBy := c.sortBy) == c;
    assert SortKeyOf(c.sortBy) == ByName;
    SortLamps(ByName);
    assert LexCompare(DeskLamp.name, TableLamp.name) == -1 by {
      assert DeskLamp.name[0] == 'D' && TableLamp.name[0] == 'T';
    }
    assert Insert(ByName, DeskLamp, [TableLamp]) == [DeskLamp, TableLamp];
  }

  /** Equal prices keep the snapshot order under "price-low", although the
      names are in reverse order; the name sort reorders them. */
  lemma EqualPricesKeepSnapshotOrder()
    ensures Evaluate(Lamps, DefaultCriteria(None).(sortBy := "price-low")) == [TableLamp, DeskLamp]
    ensures Evaluate(Lamps, DefaultCriteria(None)) == [DeskLamp, TableLamp]
  {
    LampsByPrice();
    LampsByName();
  }

  // The query is a parameter fixed by `requires q == "phone"` rather than a
  // literal, so that the solver does not try to evaluate the string
  // functions on literal arguments.

  /** The query "phone" matches the phone by its name. */
  lemma PhoneMatches(q: string)
    requires q == "phone"
    ensures MatchesQuery(PhoneX, q)
  {
    var l := Lower(PhoneX.name);
    assert l[0] == 'p' && l[1] == 'h' && l[2] == 'o' && l[3] == 'n' && l[4] == 'e';
    assert l[..|q|] == q;
    assert StartsWith(l, q);
  }

  /** The query "phone" does not match the fan. */
  lemma FanDoesNotMatchPhone(q: string)
    requires q == "phone"
    ensures !MatchesQuery(ZenFan, q)
  {
    NoPhone(ZenFan);
  }

  /** The query "phone" does not match the cooler. */
  lemma CoolerDoesNotMatchPhone(q: string)
    requires q == "phone"
    ensures !MatchesQuery(AirCooler, q)
  {
    NoPhone(AirCooler);
  }

  /** With only a search active and every price in the window, the
      selection from three products keeps exactly those the query matches. */
  lemma SelectBySearchOnly(x: Product, y: Product, z: Product, c: Criteria, query: string)
    requires c.search == Some(query) && query != [] && c.brands == [] && c.categories == [] && c.minRating == 0
    requires c.minPrice as real <= x.price <= c.maxPrice as real
    requires c.minPrice as real <= y.price <= c.maxPrice as real
    requires c.minPrice as real <= z.price <= c.maxPrice as real
    requires !MatchesQuery(x, Lower(query)) && !MatchesQuery(y, Lower(query)) && MatchesQuery(z, Lower(query))
    ensures Select([x, y, z], c) == [z]
  {
    SelectThree(x, y, z, c);
  }

  /** A selection of one product is already sorted. */
  lemma EvaluateSingle(s: seq<Product>, c: Criteria, z: Product)
    requires Select(s, c) == [z]
    ensures Evaluate(s, c) == [z]
  {
    assert [z][..0] == [];
  }

  /** Searching for "phone" selects the phone only. */
  lemma SearchPhoneSelects(q: string)
    requires q == "phone"
    ensures Select(Snapshot, DefaultCriteria(Some(q))) == [PhoneX]
  {
    assert Lower(q) == q by {
      forall i | 0 <= i < |q| ensures Lower(q)[i] == q[i] { }
    }
    PhoneMatches(q);
    FanDoesNotMatchPhone(q);
    CoolerDoesNotMatchPhone(q);
    SelectBySearchOnly(ZenFan, AirCooler, PhoneX, DefaultCriteria(Some(q)), q);
  }

  /** Searching for "phone" finds the phone only: the search ignores case. */
  lemma SearchPhone()
    ensures Evaluate(Snapshot, DefaultCriteria(Some("phone"))) == [PhoneX]
  {
    SearchPhoneSelects("phone");
    EvaluateSingle(Snapshot, DefaultCriteria(Some("phone")), PhoneX);
  }

  /** The price window [0, 1000] keeps the fan only. */
  lemma PriceWindow()
    ensures Evaluate(Snapshot, DefaultCriteria(None).(maxPrice := 1000)) == [ZenFan]
  {
    var c := DefaultCriteria(None).(maxPrice := 1000);
    assert Admits(c, ZenFan);
    assert !Admits(c, AirCooler);
    assert !Admits(c, PhoneX);
    SelectThree(ZenFan, AirCooler, PhoneX, c);
    assert Select(Snapshot, c) == [ZenFan];
    assert SortProducts(SortKeyOf(c.sortBy), [ZenFan]) == [ZenFan];
  }

  /** A four-star floor hides every unrated product. */
  lemma RatingFloor()
    ensures Evaluate(Snapshot, DefaultCriteria(None).(minRating := 4)) == []
  {
    var c := DefaultCriteria(None).(minRating := 4);
    assert !Admits(c, ZenFan);
    assert !Admits(c, AirCooler);
    assert !Admits(c, PhoneX);
    SelectThree(ZenFan, AirCooler, PhoneX, c);
    assert Select(Snapshot, c) == [];
  }

  /** The inverted window (2000, 100) shows nothing. */
  lemma InvertedWindow()
    ensures Evaluate(Snapshot, DefaultCriteria(None).(minPrice := 2000, maxPrice := 100)) == []
  {
    InvertedPriceRangeIsEmpty(Snapshot, DefaultCriteria(None).(minPrice := 2000, maxPrice := 100));
  }
}
