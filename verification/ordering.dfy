/** The sort step of the evaluation effect (src/pages/ProductListing.tsx,
    lines 101-120): the `<select>` value picks one of six comparators and the
    filtered products are sorted with it. `Array.prototype.sort` is stable,
    so the model sorts by stable insertion. */
module Ordering {
  import opened Text
  import opened Catalog

  /** The six orders of the sort dropdown. */
  datatype SortKey = ByName | PriceLow | PriceHigh | ByRating | ByDiscount | ByPopularity

  /** The `switch (sortBy)`: five recognised values, and every other string,
      the default "name" included, falls through to the name order. */
  function SortKeyOf(sortBy: string): (k: SortKey)
    ensures k == PriceLow <==> sortBy == "price-low"
    ensures k == PriceHigh <==> sortBy == "price-high"
    ensures k == ByRating <==> sortBy == "rating"
    ensures k == ByDiscount <==> sortBy == "discount"
    ensures k == ByPopularity <==> sortBy == "popularity"
    ensures k == ByName <==> sortBy !in {"price-low", "price-high", "rating", "discount", "popularity"}
  {
    if sortBy == "price-low" then PriceLow
    else if sortBy == "price-high" then PriceHigh
    else if sortBy == "rating" then ByRating
    else if sortBy == "discount" then ByDiscount
    else if sortBy == "popularity" then ByPopularity
    else ByName
  }

  /** The comparator handed to `sort`: negative when `a` goes first. */
  function Compare(k: SortKey, a: Product, b: Product): real {
    match k
    case PriceLow => a.price - b.price
    case PriceHigh => b.price - a.price
    case ByRating => b.rating - a.rating
    case ByDiscount => DiscountOrZero(b) - DiscountOrZero(a)
    case ByPopularity => (b.reviewsCount - a.reviewsCount) as real
    case ByName => LexCompare(a.name, b.name) as real
  }

  /** Under the discount order an absent discount is the same as a zero
      discount: the two products tie, whichever comes first. */
  lemma AbsentDiscountTiesZero(a: Product, b: Product)
    requires a.discountPercentage.None? && b.discountPercentage == Some(0.0)
    ensures Compare(ByDiscount, a, b) == 0.0 && Compare(ByDiscount, b, a) == 0.0
  {
  }

  /** Swapping the arguments negates every comparator. */
  lemma CompareAntisymmetric(k: SortKey, a: Product, b: Product)
    ensures Compare(k, a, b) == -Compare(k, b, a)
  {
    if k == ByName {
      LexAntisymmetric(a.name, b.name);
    }
  }

  /** "Goes no later than" is transitive for every comparator. */
  lemma CompareTransitive(k: SortKey, a: Product, b: Product, c: Product)
    requires Compare(k, a, b) <= 0.0 && Compare(k, b, c) <= 0.0
    ensures Compare(k, a, c) <= 0.0
  {
    if k == ByName {
      LexTransitive(a.name, b.name, c.name);
    }
  }

  /** Products tied with a common product are tied with each other. */
  lemma TieTransitive(k: SortKey, a: Product, b: Product, c: Product)
    requires Compare(k, a, b) == 0.0 && Compare(k, b, c) == 0.0
    ensures Compare(k, a, c) == 0.0
  {
    if k == ByName {
      LexZeroIffEqual(a.name, b.name);
      LexZeroIffEqual(b.name, c.name);
      LexZeroIffEqual(a.name, c.name);
    }
  }

  /** Every product is tied with itself. */
  lemma TieReflexive(k: SortKey, a: Product)
    ensures Compare(k, a, a) == 0.0
  {
    if k == ByName {
      LexZeroIffEqual(a.name, a.name);
    }
  }

  /** No pair of products is out of order. */
  ghost predicate Sorted(k: SortKey, s: seq<Product>) {
    forall i, j :: 0 <= i < j < |s| ==> Compare(k, s[i], s[j]) <= 0.0
  }

  /** Inserts `x` into `s` after every product that does not compare greater
      than `x`: ties keep `x` behind the products already placed. */
  function Insert(k: SortKey, x: Product, s: seq<Product>): (r: seq<Product>)
    ensures |r| == |s| + 1
    ensures multiset(r) == multiset(s) + multiset{x}
  {
    if s == [] then [x]
    else if Compare(k, x, s[0]) < 0.0 then [x] + s
    else
      assert s == [s[0]] + s[1..];
      [s[0]] + Insert(k, x, s[1..])
  }

  /** A product no later than every member of a sorted list can lead it. */
  lemma SortedCons(k: SortKey, h: Product, t: seq<Product>)
    requires Sorted(k, t)
    requires forall j :: 0 <= j < |t| ==> Compare(k, h, t[j]) <= 0.0
    ensures Sorted(k, [h] + t)
  {
    var r := [h] + t;
    forall i, j | 0 <= i < j < |r|
      ensures Compare(k, r[i], r[j]) <= 0.0
    {
      if i > 0 {
        assert r[i] == t[i - 1] && r[j] == t[j - 1];
      }
    }
  }

  /** A product no later than `x` and than every member of `t` is no later
      than every member of a list holding exactly `t` and `x`. */
  lemma BoundSurvives(k: SortKey, h: Product, x: Product, t: seq<Product>, u: seq<Product>)
    requires Compare(k, h, x) <= 0.0
    requires forall j :: 0 <= j < |t| ==> Compare(k, h, t[j]) <= 0.0
    requires multiset(u) == multiset(t) + multiset{x}
    ensures forall j :: 0 <= j < |u| ==> Compare(k, h, u[j]) <= 0.0
  {
    forall j | 0 <= j < |u|
      ensures Compare(k, h, u[j]) <= 0.0
    {
      assert u[j] in multiset(u);
      if u[j] != x {
        assert u[j] in multiset(t);
        var m :| 0 <= m < |t| && t[m] == u[j];
      }
    }
  }

  lemma {:induction false} InsertSorted(k: SortKey, x: Product, s: seq<Product>)
    requires Sorted(k, s)
    ensures Sorted(k, Insert(k, x, s))
  {
    if s == [] {
    } else if Compare(k, x, s[0]) < 0.0 {
      forall j | 0 <= j < |s|
        ensures Compare(k, x, s[j]) <= 0.0
      {
        if j > 0 {
          CompareTransitive(k, x, s[0], s[j]);
        }
      }
      SortedCons(k, x, s);
    } else {
      CompareAntisymmetric(k, x, s[0]);
      SortedTail(k, s);
      InsertSorted(k, x, s[1..]);
      var tail := Insert(k, x, s[1..]);
      forall j | 0 <= j < |s[1..]|
        ensures Compare(k, s[0], s[1..][j]) <= 0.0
      {
        assert s[1..][j] == s[j + 1];
      }
      BoundSurvives(k, s[0], x, s[1..], tail);
      SortedCons(k, s[0], tail);
    }
  }

  /** The stable sort of the filtered products. */
  function SortProducts(k: SortKey, s: seq<Product>): (r: seq<Product>)
    ensures multiset(r) == multiset(s)
    ensures Sorted(k, r)
  {
    if s == [] then []
    else
      assert s == s[..|s| - 1] + [s[|s| - 1]];
      var prefix := SortProducts(k, s[..|s| - 1]);
      InsertSorted(k, s[|s| - 1], prefix);
      Insert(k, s[|s| - 1], prefix)
  }

  /** The products of `s` tied with `p`, in their order in `s`. */
  function Ties(k: SortKey, s: seq<Product>, p: Product): seq<Product> {
    if s == [] then []
    else (if Compare(k, s[0], p) == 0.0 then [s[0]] else []) + Ties(k, s[1..], p)
  }

  lemma {:induction false} TiesConcat(k: SortKey, a: seq<Product>, b: seq<Product>, p: Product)
    ensures Ties(k, a + b, p) == Ties(k, a, p) + Ties(k, b, p)
  {
    if a == [] {
      assert a + b == b;
    } else {
      assert (a + b)[0] == a[0] && (a + b)[1..] == a[1..] + b;
      TiesConcat(k, a[1..], b, p);
    }
  }

  /** Going strictly first and then no later gives going strictly first. */
  lemma CompareStrictTransitive(k: SortKey, a: Product, b: Product, c: Product)
    requires Compare(k, a, b) < 0.0 && Compare(k, b, c) <= 0.0
    ensures Compare(k, a, c) < 0.0
  {
    CompareTransitive(k, a, b, c);
    if Compare(k, a, c) == 0.0 {
      CompareAntisymmetric(k, a, c);
      CompareTransitive(k, b, c, a);
      CompareAntisymmetric(k, a, b);
    }
  }

  /** A sequence in which nothing is tied with `p` has no ties with `p`. */
  lemma {:induction false} NoTies(k: SortKey, s: seq<Product>, p: Product)
    requires forall j :: 0 <= j < |s| ==> Compare(k, s[j], p) != 0.0
    ensures Ties(k, s, p) == []
  {
    if s != [] {
      NoTies(k, s[1..], p);
    }
  }

  /** A sorted sequence without its head is sorted. */
  lemma SortedTail(k: SortKey, s: seq<Product>)
    requires Sorted(k, s) && s != []
    ensures Sorted(k, s[1..])
  {
    forall i, j | 0 <= i < j < |s[1..]|
      ensures Compare(k, s[1..][i], s[1..][j]) <= 0.0
    {
      assert s[1..][i] == s[i + 1] && s[1..][j] == s[j + 1];
    }
  }

  /** When `x` goes strictly before the head of a sorted `s`, nothing in `s`
      ties with a product `x` ties with. */
  lemma NoTiesBehindGreater(k: SortKey, x: Product, s: seq<Product>, p: Product)
    requires Sorted(k, s) && s != [] && Compare(k, x, s[0]) < 0.0
    requires Compare(k, x, p) == 0.0
    ensures Ties(k, s, p) == []
  {
    forall j | 0 <= j < |s|
      ensures Compare(k, s[j], p) != 0.0
    {
      if j > 0 {
        CompareStrictTransitive(k, x, s[0], s[j]);
      }
      if Compare(k, s[j], p) == 0.0 {
        CompareAntisymmetric(k, s[j], p);
        TieTransitive(k, x, p, s[j]);
      }
    }
    NoTies(k, s, p);
  }

  lemma InsertTiesFront(k: SortKey, x: Product, s: seq<Product>, p: Product)
    requires Sorted(k, s) && s != [] && Compare(k, x, s[0]) < 0.0
    ensures Ties(k, Insert(k, x, s), p) == Ties(k, s, p) + Ties(k, [x], p)
  {
    assert Insert(k, x, s) == [x] + s;
    TiesConcat(k, [x], s, p);
    if Compare(k, x, p) == 0.0 {
      NoTiesBehindGreater(k, x, s, p);
    }
  }

  /** Putting the same product in front of two lists keeps a relation
      between their ties. */
  lemma TiesCons(k: SortKey, h: Product, t: seq<Product>, u: seq<Product>, v: seq<Product>, w: seq<Product>, x: Product, p: Product)
    requires v == [h] + t && w == [h] + u
    requires Ties(k, u, p) == Ties(k, t, p) + Ties(k, [x], p)
    ensures Ties(k, w, p) == Ties(k, v, p) + Ties(k, [x], p)
  {
    var head := Ties(k, [h], p);
    var tt, xs := Ties(k, t, p), Ties(k, [x], p);
    TiesConcat(k, [h], u, p);
    TiesConcat(k, [h], t, p);
    SeqAssoc(head, tt, xs);
  }

  /** Concatenation regroups freely; named so the solver need not search for it. */
  lemma SeqAssoc(a: seq<Product>, b: seq<Product>, c: seq<Product>)
    ensures a + (b + c) == (a + b) + c
  {
  }

  /** When `x` does not go before the head, insertion keeps the head and
      inserts into the tail. */
  lemma InsertBehind(k: SortKey, x: Product, s: seq<Product>)
    requires s != [] && !(Compare(k, x, s[0]) < 0.0)
    ensures Insert(k, x, s) == [s[0]] + Insert(k, x, s[1..])
  {
  }

  /** Inserting `x` appends it to the products tied with it: it lands behind
      every product it ties with. */
  lemma {:induction false} InsertTies(k: SortKey, x: Product, s: seq<Product>, p: Product)
    requires Sorted(k, s)
    ensures Ties(k, Insert(k, x, s), p) == Ties(k, s, p) + Ties(k, [x], p)
  {
    if s == [] {
      assert Insert(k, x, s) == [x];
    } else if Compare(k, x, s[0]) < 0.0 {
      InsertTiesFront(k, x, s, p);
    } else {
      SortedTail(k, s);
      InsertTies(k, x, s[1..], p);
      InsertBehind(k, x, s);
      assert s == [s[0]] + s[1..];
      TiesCons(k, s[0], s[1..], Insert(k, x, s[1..]), s, Insert(k, x, s), x, p);
    }
  }

  /** Stability: for every product `p`, the products tied with `p` come out
      of the sort in the order they went in. */
  lemma {:induction false} SortStable(k: SortKey, s: seq<Product>, p: Product)
    ensures Ties(k, SortProducts(k, s), p) == Ties(k, s, p)
  {
    if s != [] {
      var init, last := s[..|s| - 1], s[|s| - 1];
      SortStable(k, init, p);
      InsertTies(k, last, SortProducts(k, init), p);
      TiesConcat(k, init, [last], p);
      assert init + [last] == s;
    }
  }

  /** The heads of two sorted permutations of each other are tied: each
      occurs in the other list, no earlier than its head. */
  lemma HeadsTie(k: SortKey, r: seq<Product>, q: seq<Product>)
    requires Sorted(k, r) && Sorted(k, q) && r != [] && q != []
    requires multiset(r) == multiset(q)
    ensures Compare(k, r[0], q[0]) == 0.0
  {
    var a, b := r[0], q[0];
    assert b in multiset(r) && a in multiset(q);
    var m :| 0 <= m < |r| && r[m] == b;
    var n :| 0 <= n < |q| && q[n] == a;
    if m == 0 {
      TieReflexive(k, a);
    } else {
      assert Compare(k, r[0], r[m]) <= 0.0;
    }
    if n == 0 {
      TieReflexive(k, b);
    } else {
      assert Compare(k, q[0], q[n]) <= 0.0;
    }
    CompareAntisymmetric(k, a, b);
  }

  /** Two sorted sequences with the same elements and the same order among
      ties start with the same product: both heads lead the ties of the
      first head. */
  lemma SameHead(k: SortKey, r: seq<Product>, q: seq<Product>)
    requires Sorted(k, r) && Sorted(k, q) && r != [] && q != []
    requires multiset(r) == multiset(q)
    requires forall p :: Ties(k, r, p) == Ties(k, q, p)
    ensures r[0] == q[0]
  {
    var a, b := r[0], q[0];
    HeadsTie(k, r, q);
    TieReflexive(k, a);
    CompareAntisymmetric(k, a, b);
    assert Ties(k, r, a) == [a] + Ties(k, r[1..], a);
    assert Ties(k, q, a) == [b] + Ties(k, q[1..], a);
    assert Ties(k, r, a)[0] == Ties(k, q, a)[0];
  }

  /** Removing a common head keeps the hypotheses of `SortedTiesUnique`. */
  lemma SameTails(k: SortKey, r: seq<Product>, q: seq<Product>)
    requires r != [] && q != [] && r[0] == q[0]
    requires multiset(r) == multiset(q)
    requires forall p :: Ties(k, r, p) == Ties(k, q, p)
    ensures multiset(r[1..]) == multiset(q[1..])
    ensures forall p :: Ties(k, r[1..], p) == Ties(k, q[1..], p)
  {
    var a := r[0];
    assert r == [a] + r[1..] && q == [a] + q[1..];
    assert multiset(r) == multiset{a} + multiset(r[1..]);
    assert multiset(q) == multiset{a} + multiset(q[1..]);
    assert multiset(r[1..]) == multiset(r) - multiset{a};
    assert multiset(q[1..]) == multiset(q) - multiset{a};
    forall p
      ensures Ties(k, r[1..], p) == Ties(k, q[1..], p)
    {
      TiesConcat(k, [a], r[1..], p);
      TiesConcat(k, [a], q[1..], p);
      var head := Ties(k, [a], p);
      assert Ties(k, r[1..], p) == Ties(k, r, p)[|head|..];
      assert Ties(k, q[1..], p) == Ties(k, q, p)[|head|..];
    }
  }

  /** Two sorted sequences with the same elements and the same order among
      ties are equal. */
  lemma {:induction false} SortedTiesUnique(k: SortKey, r: seq<Product>, q: seq<Product>)
    requires Sorted(k, r) && Sorted(k, q)
    requires multiset(r) == multiset(q)
    requires forall p :: Ties(k, r, p) == Ties(k, q, p)
    ensures r == q
    decreases |r|
  {
    assert |r| == |multiset(r)| == |multiset(q)| == |q|;
    if r != [] {
      SameHead(k, r, q);
      SameTails(k, r, q);
      SortedTail(k, r);
      SortedTail(k, q);
      SortedTiesUnique(k, r[1..], q[1..]);
      assert r == [r[0]] + r[1..] && q == [q[0]] + q[1..];
    }
  }

  /** Whatever algorithm the engine's `sort` uses, a stable sort has exactly
      one possible output: any sorted permutation of `s` that keeps the order
      of ties is `SortProducts(k, s)`. */
  lemma StableSortUnique(k: SortKey, s: seq<Product>, r: seq<Product>)
    requires Sorted(k, r)
    requires multiset(r) == multiset(s)
    requires forall p :: Ties(k, r, p) == Ties(k, s, p)
    ensures r == SortProducts(k, s)
  {
    forall p
      ensures Ties(k, r, p) == Ties(k, SortProducts(k, s), p)
    {
      SortStable(k, s, p);
    }
    SortedTiesUnique(k, r, SortProducts(k, s));
  }

  /** Sorting a list that is already in order changes nothing. */
  lemma SortIdempotent(k: SortKey, s: seq<Product>)
    requires Sorted(k, s)
    ensures SortProducts(k, s) == s
  {
    StableSortUnique(k, s, s);
  }
}
