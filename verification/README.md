# Catalog discovery on the product listing page

This project models the catalog discovery pipeline of the storefront's
product listing page (`src/pages/ProductListing.tsx`). The page holds a
snapshot of the catalog and a set of criteria:

- a free-text `search` URL parameter;
- brand and category checkboxes;
- a price window, `[0, 50000]` by default;
- a rating floor chosen with radios;
- a sort key chosen from a dropdown.

Whenever any of these changes, an effect recomputes the shown products. Each active filter reassigns
`filtered` in turn: search, then brand, then category, then price, then rating.
The survivors are then sorted with one of six comparators: ascending price,
descending price, rating, discount or review count, or by name for anything else.

The model has these modules:

- `Text` covers lower-casing, `includes` and the name comparison.
- `Sequences` has a generic `Filter` standing for `Array.prototype.filter`.
- `Catalog` defines the product record.
- `Facets` holds the criteria, the five filter callbacks and what it means for a product to pass them all.
- `Ordering` has the sort keys, the comparators and a stable insertion sort, with its sortedness, permutation, stability and uniqueness.
- `Query` is the evaluation as a pure function, `Evaluate(snapshot, criteria)`, with its properties.
- `Listing` covers the checkbox toggles, the URL category seeding and the `|| 0` / `|| 50000` price-input fallbacks. Its `ListingState` class has one method per event handler and a method per run of the effect.
- `Scenarios` has worked examples on a three-product catalog.

The effect's staged filtering is a method, `Listing.ApplyFilters`. It reassigns a local
`filtered` once per active facet and is proved equal to the single-pass
selection `Query.Select`. `ListingState.RunEffect` performs one run of the
effect. The category it seeds from the URL is a state update that the same
run does not see, so that run filters with the selection it started with.
`ListingState.Refresh` runs the effect again when seeding changed the
selection, as React does for a changed dependency. It ends in a state where the shown
products are exactly `Evaluate` of the current criteria.

The default price window follows the code: `useState([0, 50000])`, with
both bounds inclusive. A product priced above 50000 is therefore hidden
until the window is widened, even with no filter touched.

While the URL carries a `category` parameter, that category can be neither
cleared nor unticked. "Clear All" and unticking it both empty the selection
of it, and the next effect run seeds it back as the only selected category
(`Listing.UrlCategoryComesBack`, `Listing.ClearAllSettled`).

## Model

| member | source | states |
|---|---|---|
| Text.LowerChar | src/pages/ProductListing.tsx:72 | the result is never an upper-case ASCII letter; other characters are kept, upper-case letters move by 32 |
| Text.Lower | src/pages/ProductListing.tsx:72-77 | `toLowerCase` keeps the length and lower-cases each character in place |
| Text.LowerIdempotent | src/pages/ProductListing.tsx:72 | lower-casing an already lower-cased string changes nothing |
| Text.Includes | src/pages/ProductListing.tsx:74-77 | `String.prototype.includes`; its contract is stated by `Text.IncludesIffOccurs` |
| Text.IncludesIffOccurs | src/pages/ProductListing.tsx:74-77 | `includes` holds exactly when the query is a contiguous window of the text at some position |
| Text.LexCompare | src/pages/ProductListing.tsx:119 | the name comparison returns -1, 0 or 1 |
| Text.LexAntisymmetric | src/pages/ProductListing.tsx:119 | swapping the two names negates the comparison |
| Text.LexZeroIffEqual | src/pages/ProductListing.tsx:119 | two names compare as 0 exactly when they are equal |
| Text.LexTransitive | src/pages/ProductListing.tsx:119 | "not after" on names is transitive |
| Sequences.Filter | src/pages/ProductListing.tsx:68-99 | `filter` never lengthens a list and keeps exactly the members whose callback holds |
| Sequences.FilterConcat | src/pages/ProductListing.tsx:68-99 | filtering a concatenation filters each part, order kept |
| Sequences.FilterCount | src/pages/ProductListing.tsx:68-99 | a kept value keeps all its occurrences; a rejected value keeps none |
| Sequences.FilterKeepsAll | src/pages/ProductListing.tsx:125-139 | a callback that holds on every member returns the list unchanged |
| Facets.MatchesQuery | src/pages/ProductListing.tsx:71-78 | the search callback; its contract is stated by `Facets.MatchesQueryIff` and `Facets.SearchIgnoresQueryCase` |
| Facets.Active | src/pages/ProductListing.tsx:71-97 | the guard of each filter stage; its contract is stated by `Facets.AdmitsIff` and `Query.StageSkipped` |
| Facets.Test | src/pages/ProductListing.tsx:73-98 | the callback of each filter stage; its contract is stated by `Facets.AdmitsIff` and `Query.StageApplied` |
| Facets.Admits | src/pages/ProductListing.tsx:68-99 | passing every active filter; its contract is stated by `Facets.AdmitsIsFilterChain` and `Facets.AdmitsIff` |
| Facets.AdmitsIsFilterChain | src/pages/ProductListing.tsx:68-99 | passing the five filters in the effect's order is the same as passing each facet |
| Facets.AdmitsIff | src/pages/ProductListing.tsx:70-99 | a product passes all filters exactly when: an active search matches it; it has a selected brand (or none are ticked); it has a selected category (or none are ticked); its price is in the inclusive window; and its rating reaches a positive floor |
| Facets.MatchesQueryIff | src/pages/ProductListing.tsx:71-78 | the search holds exactly when the lower-cased query occurs in the lower-cased name, or in the brand, category or description when present |
| Facets.SearchIgnoresQueryCase | src/pages/ProductListing.tsx:72 | a query and its lower-cased form admit the same products |
| Facets.AdmitsMonotone | src/pages/ProductListing.tsx:81-99 | widening any facet never rejects a product the narrower criteria admit |
| Facets.AdmitsBySelectionSets | src/pages/ProductListing.tsx:82-89 | only which brands and categories are ticked matters, not their order or repetition |
| Ordering.SortKeyOf | src/pages/ProductListing.tsx:102-120 | each of the five known dropdown values selects its comparator; every other value selects the name order |
| Ordering.Compare | src/pages/ProductListing.tsx:103-119 | the six comparators; their contract is stated by `Ordering.CompareAntisymmetric`, `Ordering.CompareTransitive`, `Ordering.AbsentDiscountTiesZero` and `Query.EvaluateOrdered` |
| Ordering.AbsentDiscountTiesZero | src/pages/ProductListing.tsx:113 | under the discount order a product without a discount ties with one whose discount is 0, in either order |
| Ordering.CompareAntisymmetric | src/pages/ProductListing.tsx:103-119 | every comparator changes sign when its arguments are swapped |
| Ordering.CompareTransitive | src/pages/ProductListing.tsx:103-119 | "goes no later than" is transitive for every comparator |
| Ordering.CompareStrictTransitive | src/pages/ProductListing.tsx:103-119 | "strictly earlier" followed by "no later" is strictly earlier |
| Ordering.TieTransitive | src/pages/ProductListing.tsx:103-119 | ties are transitive |
| Ordering.TieReflexive | src/pages/ProductListing.tsx:103-119 | every product ties with itself |
| Ordering.Insert | src/pages/ProductListing.tsx:102-120 | inserting adds exactly the one product |
| Ordering.InsertSorted | src/pages/ProductListing.tsx:102-120 | inserting into an ordered list keeps it ordered |
| Ordering.SortProducts | src/pages/ProductListing.tsx:102-120 | `[...filtered].sort(cmp)` is a permutation of its input in which no pair is out of order |
| Ordering.InsertTies | src/pages/ProductListing.tsx:102-120 | insertion places the new product after every product it ties with |
| Ordering.SortStable | src/pages/ProductListing.tsx:102-120 | the sort is stable: products with equal keys keep their relative input order |
| Ordering.SortedTiesUnique | src/pages/ProductListing.tsx:102-120 | two ordered lists that are permutations of each other with the same ties in the same order are equal |
| Ordering.StableSortUnique | src/pages/ProductListing.tsx:102-120 | any stable sort of the filtered list yields exactly `SortProducts`, so the result does not depend on the sorting algorithm |
| Ordering.SortIdempotent | src/pages/ProductListing.tsx:102-120 | sorting a list already in order returns it unchanged |
| Query.Select | src/pages/ProductListing.tsx:68-99 | the filter stages as one selection; its contract is stated by `Query.EvaluateCount`, `Query.SelectCons` and `Listing.ApplyFilters` |
| Query.Evaluate | src/pages/ProductListing.tsx:58-123 | one run of the effect on a snapshot; its contract is stated by `Query.EvaluateCount`, `Query.EvaluateMembership`, `Query.EvaluateOrdered` and `Query.EvaluateStable` |
| Query.DefaultCriteria | src/pages/ProductListing.tsx:24-31 | the initial criteria; their contract is stated by `Query.DefaultCriteriaKeepPriceWindow` |
| Query.SelectThroughCount | src/pages/ProductListing.tsx:68-99 | after some of the filters, a product appears as often as in the snapshot if it passed them, else not at all |
| Query.SelectThroughNothing | src/pages/ProductListing.tsx:68 | before any filter runs, `filtered` is the snapshot |
| Query.SelectCons | src/pages/ProductListing.tsx:68-99 | filtering is per product: the first product is kept exactly when it passes every filter |
| Query.StageApplied | src/pages/ProductListing.tsx:73-98 | reassigning `filtered` with an active facet's callback extends the filtering by that facet |
| Query.StageSkipped | src/pages/ProductListing.tsx:71-97 | a facet whose guard is off removes nothing |
| Query.EvaluateCount | src/pages/ProductListing.tsx:58-123 | the result holds every snapshot product that passes all filters, as often as in the snapshot, and nothing else |
| Query.EvaluateMembership | src/pages/ProductListing.tsx:68-99 | a product is shown exactly when it is in the snapshot and passes every active filter |
| Query.EvaluateOrdered | src/pages/ProductListing.tsx:101-120 | shown products are in ascending price, descending price, rating, discount (absent = 0) or review count, or name order, as the dropdown selects |
| Query.EvaluateStable | src/pages/ProductListing.tsx:101-120 | products with equal keys keep their snapshot order |
| Query.InvertedPriceRangeIsEmpty | src/pages/ProductListing.tsx:91-94 | a window whose lower bound exceeds its upper bound shows nothing, without any error |
| Query.DefaultCriteriaKeepPriceWindow | src/pages/ProductListing.tsx:27-31 | with the initial state, exactly the products priced in [0, 50000] are shown, in name order |
| Query.EvaluateMonotone | src/pages/ProductListing.tsx:68-99 | widening the criteria never hides a shown product |
| Query.SelectExtensional | src/pages/ProductListing.tsx:68-99 | criteria that admit the same snapshot products select the same list |
| Query.EvaluateBySelectionSets | src/pages/ProductListing.tsx:82-89 | the result depends only on which brands and categories are ticked |
| Listing.Toggle | src/pages/ProductListing.tsx:125-139 | a checkbox flips the membership of its own value only; an unticked value is appended at the end; removing a ticked one keeps every other value's occurrences; the selection stays free of repeats |
| Listing.ToggleTwice | src/pages/ProductListing.tsx:125-139 | ticking twice restores the selected set, and the very list when the value was unticked |
| Listing.ToggleTwiceSameResult | src/pages/ProductListing.tsx:125-139 | for the criteria, ticking a brand or category twice leaves `Evaluate` unchanged; on the page, while the URL has a category parameter, ticking that category twice re-seeds the selection to exactly that category (`Listing.UrlCategoryToggleTwice`) |
| Listing.TickingMoreWidens | src/pages/ProductListing.tsx:125-139 | ticking another brand or category next to a ticked one never hides a shown product |
| Listing.ClearFacets | src/pages/ProductListing.tsx:141-146 | the criteria after "Clear All"; their contract is stated by `Listing.ClearedAdmits` and `Listing.ListingState.ClearAllFilters` |
| Listing.ClearedAdmits | src/pages/ProductListing.tsx:141-146 | after "Clear All" a product passes exactly when it matches the search and is priced in [0, 50000] |
| Listing.ClearFacetsAdmits | src/pages/ProductListing.tsx:141-146 | when the URL has no category parameter: after "Clear All" a product is shown exactly when it matches the search and is priced in [0, 50000]; no shown product in that window is hidden |
| Listing.ClearAllSettled | src/pages/ProductListing.tsx:58-99 | after "Clear All" and the next effect run, a product is shown exactly when it is in the snapshot, matches the search, is priced in [0, 50000], and belongs to the URL category when there is one |
| Listing.UrlCategoryComesBack | src/pages/ProductListing.tsx:63-66 | with a non-empty URL category, both the cleared selection and the selection with that category unticked are seeded back to exactly that category |
| Listing.UrlCategoryToggleTwice | src/pages/ProductListing.tsx:63-66 | with a non-empty URL category, ticking it twice with the effect re-seeding after each click leaves it as the only selected category, so other ticked categories are lost |
| Listing.SeedCategory | src/pages/ProductListing.tsx:63-66 | the URL category seeding; its contract is stated by `Listing.SeedCategoryProperties` and `Listing.UrlCategoryComesBack` |
| Listing.SeedCategoryProperties | src/pages/ProductListing.tsx:63-66 | a non-empty URL category ends up selected; the selection is replaced by it (not extended) only when it was unselected; seeding again does nothing; no repeats arise |
| Listing.OrElse | src/pages/ProductListing.tsx:302-309 | the JS fallback `n or d` gives `d` exactly when `n` is NaN, 0 or `d` itself, and `n` otherwise |
| Listing.MinInputBound | src/pages/ProductListing.tsx:302 | the Min input sets the parsed number, or 0 when unparseable |
| Listing.MaxInputBound | src/pages/ProductListing.tsx:309 | the Max input sets the parsed number, or 50000 when unparseable or 0, so it never sets 0 |
| Listing.ApplyFilters | src/pages/ProductListing.tsx:68-99 | the staged reassignments of `filtered` leave exactly the single-pass selection |
| Listing.ListingState.constructor | src/pages/ProductListing.tsx:24-31 | the initial state: no products, nothing ticked, window [0, 50000], no floor, sort by name |
| Listing.ListingState.ReceiveSnapshot | src/pages/ProductListing.tsx:47 | stores the fetched list, or an empty one when there is none; nothing else changes |
| Listing.ListingState.HandleBrandChange | src/pages/ProductListing.tsx:125-131 | toggles one brand, keeps the selection free of repeats, changes nothing else |
| Listing.ListingState.HandleCategoryChange | src/pages/ProductListing.tsx:133-139 | toggles one category, keeps the selection free of repeats, changes nothing else |
| Listing.ListingState.ClearAllFilters | src/pages/ProductListing.tsx:141-146 | resets brands, categories, window and floor to their defaults and leaves the sort, products and search untouched |
| Listing.ListingState.SelectSort | src/pages/ProductListing.tsx:207-209 | stores the dropdown value and nothing else |
| Listing.ListingState.SlideMaxPrice | src/pages/ProductListing.tsx:288-294 | the slider replaces the upper bound and keeps the lower one |
| Listing.ListingState.EditMinPrice | src/pages/ProductListing.tsx:298-302 | the Min input replaces the lower bound with the parsed number, 0 when unparseable or 0 |
| Listing.ListingState.EditMaxPrice | src/pages/ProductListing.tsx:305-309 | the Max input replaces the upper bound with the parsed number, 50000 when unparseable or 0 |
| Listing.ListingState.SelectRating | src/pages/ProductListing.tsx:320-343 | a radio sets the floor to one of 4, 3, 2, 1, 0 |
| Listing.ListingState.RunEffect | src/pages/ProductListing.tsx:58-123 | one effect run seeds the URL category and shows `Evaluate` of the criteria as they were when the run began |
| Listing.ListingState.Refresh | src/pages/ProductListing.tsx:58-123 | after the effect re-runs on a changed selection, the URL category is seeded and the shown products are `Evaluate` of the current state |
| Scenarios.HomeByPriceLow | src/pages/ProductListing.tsx:58-123 | ticking "Home" and sorting by ascending price shows the 500 fan, then the 1500 cooler |
| Scenarios.EqualPricesKeepSnapshotOrder | src/pages/ProductListing.tsx:101-120 | two products of equal price listed against name order keep their snapshot order under "price-low", and the default name sort swaps them |
| Scenarios.SearchPhoneSelects | src/pages/ProductListing.tsx:70-99 | searching "phone" selects "Phone X" only, because the search lower-cases both sides |
| Scenarios.SearchPhone | src/pages/ProductListing.tsx:58-123 | searching "phone" shows "Phone X" only |
| Scenarios.PriceWindow | src/pages/ProductListing.tsx:91-94 | the window [0, 1000] shows the 500 fan only |
| Scenarios.RatingFloor | src/pages/ProductListing.tsx:96-99 | a four-star floor hides every unrated product |
| Scenarios.InvertedWindow | src/pages/ProductListing.tsx:91-94 | the window (2000, 100) shows nothing |

Proof helpers carry no row of their own: `Text.LowerOmits`,
`Text.IncludesNeedsFirstChar`, `Query.PassesAllSnoc`, `Listing.SettledAdmits`, and in `Ordering`
`SortedCons`, `BoundSurvives`, `InsertBehind`, `TiesConcat`, `NoTies`,
`SortedTail`, `NoTiesBehindGreater`, `InsertTiesFront`, `TiesCons`,
`HeadsTie`, `SameHead` and `SameTails`; and the worked-example helpers in
`Scenarios` (`SelectThree`, `NoPhone`, `PhoneMatches`, `FanDoesNotMatchPhone`,
`CoolerDoesNotMatchPhone`, `SelectBySearchOnly`, `EvaluateSingle`, `LampsSelected`,
`SortLamps`, `LampsByPrice`, `LampsByName`). `Catalog.DiscountOrZero` is the
`|| 0` of the discount comparator and is covered by `Ordering.Compare`.

## Left out

- Fetching the catalog from the database, the loading flag and error logging (lines 39-56) are I/O. `ReceiveSnapshot` takes the fetched result as a parameter.
- Rendering is left out: the skeleton, the product grid, "Showing n of m", and the `viewMode` and `showFilters` toggles. None of it affects which products are shown or in what order.
- React's scheduling is not modelled beyond one point. State updates are applied at once and effects run when `RunEffect`/`Refresh` is called. The deferred seeding update is the exception, and it is modelled.
- The search and category URL parameters are inputs (`Option<string>`). How the header and other pages build those URLs is not part of this model.
- `localeCompare` is modelled as lexicographic comparison on character codes. Locale-aware collation (accents, case-insensitive ordering) is not modelled.
- `toLowerCase` is modelled for ASCII letters only. Other scripts' case mappings are not modelled.
- Numbers are exact reals (prices, ratings, discounts) and unbounded integers (review counts, price bounds, rating floor). NaN and floating-point rounding are not modelled. An unparseable input is `None` where the code has NaN.
- `Array.prototype.sort` is modelled as a stable insertion sort. The engine's algorithm differs, but `Ordering.StableSortUnique` shows every stable sort gives the same list.
- The product's `brand` and `category` are typed as strings, but the code reads them with `?.`. They and `description`, which the code also reads, are modelled as optional fields. An absent brand or category never matches a non-empty selection.
- Listing.ListingState.SlideMaxPrice: accepts any integer. The range input's own limits (0 to 50000, step 1000) are browser behaviour and not stated as a precondition.
