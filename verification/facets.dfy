/** The query criteria of the listing page and the filter predicates of its
    evaluation effect (src/pages/ProductListing.tsx, lines 58-99): a free-text
    search, the brand and category checkboxes, the price window and the
    rating floor, combined with AND. */
module Facets {
  import opened Text
  import opened Catalog

  /** The default price window, `useState([0, 50000])`. */
  const DefaultMinPrice: int := 0
  const DefaultMaxPrice: int := 50000

  /** Everything one evaluation reads: the `search` URL parameter and the
      page's filter state. The price bounds are the integers `parseInt`
      produced; `sortBy` is the raw `<select>` value. */
  datatype Criteria = Criteria(
    search: Option<string>,
    brands: seq<string>,
    categories: seq<string>,
    minPrice: int,
    maxPrice: int,
    minRating: int,
    sortBy: string)

  /** The five filters, in the order the effect applies them. */
  datatype Facet = Search | Brand | Category | Price | Rating

  const FilterOrder: seq<Facet> := [Search, Brand, Category, Price, Rating]

  /** `if (searchQuery)`: an absent or empty parameter skips the search. */
  predicate SearchActive(search: Option<string>) {
    search.Some? && search.value != []
  }

  /** `field?.toLowerCase().includes(query)`: an absent field never matches. */
  predicate FieldIncludes(field: Option<string>, query: string) {
    field.Some? && Includes(Lower(field.value), query)
  }

  /** The search callback, for a query that is already lower-cased. */
  predicate MatchesQuery(p: Product, query: string) {
    || Includes(Lower(p.name), query)
    || FieldIncludes(p.brand, query)
    || FieldIncludes(p.category, query)
    || FieldIncludes(p.description, query)
  }

  /** Whether the effect runs the filter of facet `f` at all. The price
      filter has no guard. */
  predicate Active(c: Criteria, f: Facet) {
    match f
    case Search => SearchActive(c.search)
    case Brand => |c.brands| > 0
    case Category => |c.categories| > 0
    case Price => true
    case Rating => c.minRating > 0
  }

  /** The callback the effect passes to `filter` for facet `f`. */
  predicate Test(c: Criteria, f: Facet, p: Product) {
    match f
    case Search => c.search.Some? && MatchesQuery(p, Lower(c.search.value))
    case Brand => p.brand.Some? && p.brand.value in c.brands
    case Category => p.category.Some? && p.category.value in c.categories
    case Price => c.minPrice as real <= p.price && p.price <= c.maxPrice as real
    case Rating => p.rating >= c.minRating as real
  }

  /** A product survives facet `f`: the facet is skipped or its test holds. */
  predicate Passes(c: Criteria, f: Facet, p: Product) {
    Active(c, f) ==> Test(c, f, p)
  }

  /** A product survives every facet. */
  predicate Admits(c: Criteria, p: Product) {
    && Passes(c, Search, p)
    && Passes(c, Brand, p)
    && Passes(c, Category, p)
    && Passes(c, Price, p)
    && Passes(c, Rating, p)
  }

  /** A product survives the facets `fs`, applied in that order. */
  predicate PassesAll(c: Criteria, fs: seq<Facet>, p: Product)
    decreases |fs|
  {
    fs == [] || (PassesAll(c, fs[..|fs| - 1], p) && Passes(c, fs[|fs| - 1], p))
  }

  /** Running the five filters in the effect's order admits exactly the
      products `Admits` describes. */
  lemma AdmitsIsFilterChain(c: Criteria, p: Product)
    ensures PassesAll(c, FilterOrder, p) == Admits(c, p)
  {
    var fs := FilterOrder;
    assert fs[..4] == [Search, Brand, Category, Price];
    assert fs[..4][..3] == [Search, Brand, Category];
    assert fs[..4][..3][..2] == [Search, Brand];
    assert fs[..4][..3][..2][..1] == [Search];
    assert PassesAll(c, [Search], p) == Passes(c, Search, p) by {
      assert [Search][..0] == [];
    }
    assert PassesAll(c, fs[..4][..3][..2], p) == (Passes(c, Search, p) && Passes(c, Brand, p));
    assert PassesAll(c, fs[..4][..3], p) == (PassesAll(c, fs[..4][..3][..2], p) && Passes(c, Category, p));
    assert PassesAll(c, fs[..4], p) == (PassesAll(c, fs[..4][..3], p) && Passes(c, Price, p));
    assert PassesAll(c, fs, p) == (PassesAll(c, fs[..4], p) && Passes(c, Rating, p));
  }

  /** AND across facets, spelled out on the product's fields: an empty brand
      or category selection restricts nothing, a product without a brand (or
      category) never passes a non-empty selection, the price window is
      inclusive at both ends and always applied, and the rating floor applies
      only when it is positive. */
  lemma AdmitsIff(c: Criteria, p: Product)
    ensures Admits(c, p) <==>
      && (SearchActive(c.search) ==> MatchesQuery(p, Lower(c.search.value)))
      && (|c.brands| > 0 ==> p.brand.Some? && p.brand.value in c.brands)
      && (|c.categories| > 0 ==> p.category.Some? && p.category.value in c.categories)
      && c.minPrice as real <= p.price <= c.maxPrice as real
      && (c.minRating > 0 ==> p.rating >= c.minRating as real)
  {
  }

  /** The search is a case-insensitive substring test: the lower-cased query
      occurs somewhere in the lower-cased name, or in the lower-cased brand,
      category or description when that field is present. */
  lemma MatchesQueryIff(p: Product, query: string)
    ensures MatchesQuery(p, query) <==>
      || Occurs(Lower(p.name), query)
      || (p.brand.Some? && Occurs(Lower(p.brand.value), query))
      || (p.category.Some? && Occurs(Lower(p.category.value), query))
      || (p.description.Some? && Occurs(Lower(p.description.value), query))
  {
    IncludesIffOccurs(Lower(p.name), query);
    if p.brand.Some? {
      IncludesIffOccurs(Lower(p.brand.value), query);
    }
    if p.category.Some? {
      IncludesIffOccurs(Lower(p.category.value), query);
    }
    if p.description.Some? {
      IncludesIffOccurs(Lower(p.description.value), query);
    }
  }

  /** The case of the query does not matter: searching for `q` and for its
      lower-cased form admit the same products. */
  lemma SearchIgnoresQueryCase(c: Criteria, q: string, p: Product)
    ensures Admits(c.(search := Some(q)), p) == Admits(c.(search := Some(Lower(q))), p)
  {
    LowerIdempotent(q);
  }

  /** `w` restricts no more than `c`: the same or no search, a selection that
      is empty or a superset of a non-empty one, a wider price window and a
      lower or inactive rating floor. */
  ghost predicate Widens(c: Criteria, w: Criteria) {
    && (w.search == c.search || !SearchActive(w.search))
    && (w.brands == [] || (c.brands != [] && forall b :: b in c.brands ==> b in w.brands))
    && (w.categories == [] || (c.categories != [] && forall k :: k in c.categories ==> k in w.categories))
    && w.minPrice <= c.minPrice
    && c.maxPrice <= w.maxPrice
    && (w.minRating <= 0 || w.minRating <= c.minRating)
  }

  /** Widening a facet never rejects a product the narrower criteria admit. */
  lemma AdmitsMonotone(c: Criteria, w: Criteria, p: Product)
    requires Widens(c, w)
    requires Admits(c, p)
    ensures Admits(w, p)
  {
  }

  /** Only the members of a selection matter, not their order or repetition. */
  lemma AdmitsBySelectionSets(c: Criteria, d: Criteria, p: Product)
    requires c.search == d.search && c.minPrice == d.minPrice && c.maxPrice == d.maxPrice
    requires c.minRating == d.minRating
    requires forall b :: b in c.brands <==> b in d.brands
    requires forall k :: k in c.categories <==> k in d.categories
    ensures Admits(c, p) == Admits(d, p)
  {
    assert |c.brands| > 0 <==> |d.brands| > 0 by {
      if |c.brands| > 0 { assert c.brands[0] in d.brands; }
      if |d.brands| > 0 { assert d.brands[0] in c.brands; }
    }
    assert |c.categories| > 0 <==> |d.categories| > 0 by {
      if |c.categories| > 0 { assert c.categories[0] in d.categories; }
      if |d.categories| > 0 { assert d.categories[0] in c.categories; }
    }
  }
}
