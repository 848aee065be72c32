/**
 * The query pipeline shared by the Products, Categories and Deals pages:
 * a product list is narrowed by a search term, a category selection and (on
 * the Deals page) a discount condition, then sorted by a comparator chosen
 * from a drop-down; the category drop-down offers "All" and every distinct
 * category. Prices are whole cents and ratings tenths of a star.
 */
module Catalogue {
  import opened Text

  datatype Product = Product(
    id: int, name: string, price: nat, originalPrice: nat,
    rating: int, image: string, inStock: bool, category: string)

  const AllCategories := "All"

  /** The page's filter inputs: search box, category drop-down, and whether only discounted products count. */
  datatype Query = Query(term: string, category: string, discountedOnly: bool)

  /** The product's name contains the search term, ignoring case. */
  predicate SearchMatches(p: Product, term: string) {
    Contains(ToLower(p.name), ToLower(term))
  }

  predicate CategoryMatches(p: Product, selected: string) {
    selected == AllCategories || p.category == selected
  }

  /** The product is sold below its original price. */
  predicate Discounted(p: Product) {
    p.originalPrice > p.price
  }

  predicate Selected(q: Query, p: Product) {
    (q.discountedOnly ==> Discounted(p)) && SearchMatches(p, q.term) && CategoryMatches(p, q.category)
  }

  /** The `filter` step: the selected products, in list order. */
  function Filter(products: seq<Product>, q: Query): (r: seq<Product>)
    ensures |r| <= |products|
    ensures forall p :: p in r <==> p in products && Selected(q, p)
    ensures forall p :: multiset(r)[p] == if Selected(q, p) then multiset(products)[p] else 0
  {
    if products == [] then []
    else
      assert products == [products[0]] + products[1..];
      (if Selected(q, products[0]) then [products[0]] else []) + Filter(products[1..], q)
  }

  /** Filtering distributes over concatenation, so the kept products stay in their order. */
  lemma {:induction false} FilterAppend(a: seq<Product>, b: seq<Product>, q: Query)
    ensures Filter(a + b, q) == Filter(a, q) + Filter(b, q)
  {
    if a == [] {
      assert a + b == b;
    } else {
      assert (a + b)[1..] == a[1..] + b;
      FilterAppend(a[1..], b, q);
    }
  }

  /** When every product is selected the list comes back unchanged. */
  lemma {:induction false} FilterKeepsAll(products: seq<Product>, q: Query)
    requires forall i | 0 <= i < |products| :: Selected(q, products[i])
    ensures Filter(products, q) == products
  {
    if products != [] {
      FilterKeepsAll(products[1..], q);
    }
  }

  /** An empty search with "All" selected hides nothing (except undiscounted products on the Deals page). */
  lemma EmptySearchAllCategories(p: Product)
    ensures Selected(Query("", AllCategories, false), p)
    ensures Selected(Query("", AllCategories, true), p) <==> Discounted(p)
  {
    ContainsEmpty(ToLower(p.name));
  }

  /** The categories of the products, in list order. */
  function CategoriesOf(products: seq<Product>): (r: seq<string>)
    ensures |r| == |products| && forall i | 0 <= i < |products| :: r[i] == products[i].category
  {
    seq(|products|, i requires 0 <= i < |products| => products[i].category)
  }

  /** `[...new Set(s)]`: each element once, in order of first occurrence. */
  function Distinct(s: seq<string>): seq<string> {
    if s == [] then []
    else
      var d := Distinct(s[..|s| - 1]);
      if s[|s| - 1] in d then d else d + [s[|s| - 1]]
  }

  lemma {:induction false} DistinctMeaning(s: seq<string>)
    ensures var r := Distinct(s);
      && (forall i, j | 0 <= i < j < |r| :: r[i] != r[j])
      && (forall x :: x in r <==> x in s)
      && (forall i, j | 0 <= i < j < |r| :: FirstIndexOf(s, r[i]) < FirstIndexOf(s, r[j]))
      && |r| <= |s| && (|r| == 0 <==> |s| == 0)
  {
    if s != [] {
      var init, last := s[..|s| - 1], s[|s| - 1];
      assert s == init + [last];
      DistinctMeaning(init);
      forall x | x in init ensures FirstIndexOf(s, x) == FirstIndexOf(init, x) < |init| {
        FirstIndexOfAppend(init, last, x);
      }
      if last !in init {
        FirstIndexOfAppend(init, last, last);
      }
    }
  }

  /** The category drop-down: "All", then each product category once. */
  function CategoryOptions(products: seq<Product>): (r: seq<string>)
    ensures |r| >= 1 && r[0] == AllCategories
    ensures forall c | c != AllCategories :: c in r <==> exists i | 0 <= i < |products| :: products[i].category == c
  {
    var cats := CategoriesOf(products);
    DistinctMeaning(cats);
    var r := [AllCategories] + Distinct(cats);
    assert forall c :: c in cats <==> exists i | 0 <= i < |products| :: products[i].category == c;
    r
  }

  // ---------------------------------------------------------------------
  // Sorting. The pages pass `sort` a comparator picked by the drop-down's
  // value; a negative result puts the first argument first, zero keeps the
  // two in their current order (the sort is stable).

  datatype Ordering =
    | Unordered     // any key the comparator does not recognise: always 0
    | PriceAsc
    | PriceDesc
    | NameAsc
    | RatingDesc
    | DiscountDesc
    | DiscountAsc

  /**
   * x × n as repeated addition. Keeping the product behind a recursive
   * definition keeps non-linear arithmetic out of every proof about sorting;
   * `TimesIsProduct` connects it to `*` where it is needed.
   */
  function Times(x: int, n: nat): int {
    if n == 0 then 0 else Times(x, n - 1) + x
  }

  lemma {:induction false} TimesIsProduct(x: int, n: nat)
    ensures Times(x, n) == x * n
  {
    if n > 0 {
      TimesIsProduct(x, n - 1);
    }
  }

  /**
   * The sign of discount(a) − discount(b), where discount is
   * (originalPrice − price) / originalPrice, computed by cross-multiplying
   * (both original prices are positive wherever it is used).
   */
  function DiscountCompare(a: Product, b: Product): int {
    Times(a.originalPrice - a.price, b.originalPrice) - Times(b.originalPrice - b.price, a.originalPrice)
  }

  function Compare(o: Ordering, a: Product, b: Product): int {
    match o
    case Unordered => 0
    case PriceAsc => a.price - b.price
    case PriceDesc => b.price - a.price
    case NameAsc => LexCompare(a.name, b.name)
    case RatingDesc => b.rating - a.rating
    case DiscountDesc => DiscountCompare(b, a)
    case DiscountAsc => DiscountCompare(a, b)
  }

  /** The products the ordering is a consistent comparator on: discounts need a positive original price. */
  predicate Admissible(o: Ordering, p: Product) {
    (o.DiscountDesc? || o.DiscountAsc?) ==> p.originalPrice > 0
  }

  predicate AllAdmissible(o: Ordering, s: seq<Product>) {
    forall i | 0 <= i < |s| :: Admissible(o, s[i])
  }

  predicate Sorted(o: Ordering, s: seq<Product>) {
    forall i, j | 0 <= i < j < |s| :: Compare(o, s[i], s[j]) <= 0
  }

  lemma CompareAntisymmetric(o: Ordering, a: Product, b: Product)
    ensures Compare(o, a, b) == -Compare(o, b, a)
  {
    if o.NameAsc? {
      LexCompareAntisymmetric(a.name, b.name);
    }
  }

  lemma DiscountCompareTransitive(a: Product, b: Product, c: Product)
    requires b.originalPrice > 0
    requires DiscountCompare(a, b) <= 0 && DiscountCompare(b, c) <= 0
    ensures DiscountCompare(a, c) <= 0
  {
    var ea, eb, ec := a.originalPrice - a.price, b.originalPrice - b.price, c.originalPrice - c.price;
    var oa, ob, oc := a.originalPrice, b.originalPrice, c.originalPrice;
    TimesIsProduct(ea, ob);
    TimesIsProduct(eb, oa);
    TimesIsProduct(eb, oc);
    TimesIsProduct(ec, ob);
    TimesIsProduct(ea, oc);
    TimesIsProduct(ec, oa);
    CrossTransitive(ea, eb, ec, oa, ob, oc);
  }

  /** a/oa ≤ b/ob and b/ob ≤ c/oc give a/oa ≤ c/oc, all cross-multiplied. */
  lemma CrossTransitive(ea: int, eb: int, ec: int, oa: int, ob: int, oc: int)
    requires oa >= 0 && ob > 0 && oc >= 0
    requires ea * ob <= eb * oa && eb * oc <= ec * ob
    ensures ea * oc <= ec * oa
  {
    MultiplyBoth(ea * ob, eb * oa, oc);
    MultiplyBoth(eb * oc, ec * ob, oa);
    Rearrange(ea, ob, oc);
    Rearrange(eb, oa, oc);
    Rearrange(ec, ob, oa);
    CancelPositive(ea * oc, ec * oa, ob);
  }

  lemma MultiplyBoth(x: int, y: int, k: int)
    requires x <= y && k >= 0
    ensures x * k <= y * k
  {
  }

  lemma Rearrange(x: int, y: int, z: int)
    ensures (x * y) * z == (x * z) * y
  {
  }

  lemma CancelPositive(x: int, y: int, k: int)
    requires k > 0 && x * k <= y * k
    ensures x <= y
  {
  }

  lemma CompareTransitive(o: Ordering, a: Product, b: Product, c: Product)
    requires Admissible(o, b)
    requires Compare(o, a, b) <= 0 && Compare(o, b, c) <= 0
    ensures Compare(o, a, c) <= 0
  {
    match o
    case NameAsc => LexCompareTransitive(a.name, b.name, c.name);
    case DiscountDesc => DiscountCompareTransitive(c, b, a);
    case DiscountAsc => DiscountCompareTransitive(a, b, c);
    case _ =>
  }

  /** Inserts `x` before the first element it does not sort after, so it precedes its equals. */
  function Insert(o: Ordering, x: Product, s: seq<Product>): (r: seq<Product>)
    ensures multiset(r) == multiset(s) + multiset{x}
  {
    if s == [] then [x]
    else if Compare(o, x, s[0]) <= 0 then [x] + s
    else
      assert s == [s[0]] + s[1..];
      [s[0]] + Insert(o, x, s[1..])
  }

  /** `sort` with the ordering's comparator: a stable insertion sort. */
  function Sort(o: Ordering, s: seq<Product>): (r: seq<Product>)
    ensures multiset(r) == multiset(s)
    ensures |r| == |s|
  {
    if s == [] then []
    else
      assert s == [s[0]] + s[1..];
      Insert(o, s[0], Sort(o, s[1..]))
  }

  /** A sorted list stays sorted under a new head that precedes all its elements. */
  lemma SortedCons(o: Ordering, y: Product, t: seq<Product>)
    requires Sorted(o, t)
    requires forall z | z in t :: Compare(o, y, z) <= 0
    ensures Sorted(o, [y] + t)
  {
    var r := [y] + t;
    forall i, j | 0 <= i < j < |r| ensures Compare(o, r[i], r[j]) <= 0 {
      if i == 0 {
        assert r[j] == t[j - 1];
      } else {
        assert r[i] == t[i - 1] && r[j] == t[j - 1];
      }
    }
  }

  lemma {:induction false} InsertSorted(o: Ordering, x: Product, s: seq<Product>)
    requires Sorted(o, s) && AllAdmissible(o, s) && Admissible(o, x)
    ensures Sorted(o, Insert(o, x, s))
    decreases |s|, 1
  {
    if s == [] {
    } else if Compare(o, x, s[0]) <= 0 {
      forall z | z in s ensures Compare(o, x, z) <= 0 {
        var j :| 0 <= j < |s| && s[j] == z;
        if j > 0 {
          CompareTransitive(o, x, s[0], s[j]);
        }
      }
      SortedCons(o, x, s);
    } else {
      InsertAfterHead(o, x, s);
    }
  }

  lemma {:induction false} InsertAfterHead(o: Ordering, x: Product, s: seq<Product>)
    requires Sorted(o, s) && AllAdmissible(o, s) && Admissible(o, x)
    requires s != [] && Compare(o, x, s[0]) > 0
    ensures Sorted(o, Insert(o, x, s))
    decreases |s|, 0
  {
    CompareAntisymmetric(o, x, s[0]);
    var rest := Insert(o, x, s[1..]);
    InsertSorted(o, x, s[1..]);
    forall z | z in rest ensures Compare(o, s[0], z) <= 0 {
      assert z in multiset(rest);
      if z != x {
        var j :| 0 <= j < |s[1..]| && s[1..][j] == z;
        assert s[j + 1] == z;
      }
    }
    SortedCons(o, s[0], rest);
  }

  lemma {:induction false} SortSorts(o: Ordering, s: seq<Product>)
    requires AllAdmissible(o, s)
    ensures Sorted(o, Sort(o, s))
    ensures AllAdmissible(o, Sort(o, s))
  {
    if s != [] {
      SortSorts(o, s[1..]);
      InsertSorted(o, s[0], Sort(o, s[1..]));
      var r := Sort(o, s);
      forall i | 0 <= i < |r| ensures Admissible(o, r[i]) {
        assert r[i] in multiset(s);
      }
    }
  }

  /** Stability: a list already in order comes back unchanged. */
  lemma {:induction false} SortKeepsSorted(o: Ordering, s: seq<Product>)
    requires Sorted(o, s)
    ensures Sort(o, s) == s
  {
    if s != [] {
      var tail := s[1..];
      SortedTail(o, s);
      SortKeepsSorted(o, tail);
      assert Insert(o, s[0], tail) == s by {
        if tail != [] {
          SortedHead(o, s);
        }
      }
    }
  }

  lemma SortedTail(o: Ordering, s: seq<Product>)
    requires Sorted(o, s) && s != []
    ensures Sorted(o, s[1..])
  {
    var tail := s[1..];
    forall i, j | 0 <= i < j < |tail| ensures Compare(o, tail[i], tail[j]) <= 0 {
      assert tail[i] == s[i + 1] && tail[j] == s[j + 1];
    }
  }

  lemma SortedHead(o: Ordering, s: seq<Product>)
    requires Sorted(o, s) && |s| >= 2
    ensures Insert(o, s[0], s[1..]) == s
  {
    assert Compare(o, s[0], s[1]) <= 0;
    assert s == [s[0]] + s[1..];
  }

  /** The products of `s` that compare equal to `x`, in the order of `s`. */
  function TiesWith(o: Ordering, s: seq<Product>, x: Product): seq<Product> {
    if s == [] then []
    else (if Compare(o, s[0], x) == 0 then [s[0]] else []) + TiesWith(o, s[1..], x)
  }

  /** The ties of `x` are exactly the products of `s` that compare equal to it. */
  lemma {:induction false} TiesWithMeaning(o: Ordering, s: seq<Product>, x: Product)
    ensures forall p :: p in TiesWith(o, s, x) <==> p in s && Compare(o, p, x) == 0
  {
    if s != [] {
      TiesWithMeaning(o, s[1..], x);
      assert s == [s[0]] + s[1..];
    }
  }

  /** One step of `TiesWith`: the head is kept in front iff it ties with `x`. */
  lemma TiesCons(o: Ordering, h: Product, t: seq<Product>, x: Product)
    ensures TiesWith(o, [h] + t, x) == (if Compare(o, h, x) == 0 then [h] else []) + TiesWith(o, t, x)
  {
    assert ([h] + t)[0] == h && ([h] + t)[1..] == t;
  }

  /** A product that `y` sorts strictly after cannot tie with what `y` ties with. */
  lemma PassedNotTied(o: Ordering, y: Product, z: Product, x: Product)
    requires Admissible(o, x)
    requires Compare(o, y, x) == 0 && Compare(o, y, z) > 0
    ensures Compare(o, z, x) != 0
  {
    CompareAntisymmetric(o, z, x);
    if Compare(o, z, x) == 0 {
      CompareTransitive(o, y, x, z);
    }
  }

  /**
   * Inserting `y` adds it to the ties of `x` in front of them, or not at all:
   * every product `y` passes on its way in sorts strictly before it, so it
   * cannot tie with `x` when `y` does.
   */
  lemma {:induction false} InsertTies(o: Ordering, y: Product, t: seq<Product>, x: Product)
    requires Admissible(o, x)
    ensures TiesWith(o, Insert(o, y, t), x) == (if Compare(o, y, x) == 0 then [y] else []) + TiesWith(o, t, x)
  {
    if t == [] {
      TiesCons(o, y, [], x);
    } else if Compare(o, y, t[0]) <= 0 {
      TiesCons(o, y, t, x);
    } else {
      var h, rest := t[0], t[1..];
      assert t == [h] + rest;
      assert Insert(o, y, t) == [h] + Insert(o, y, rest);
      InsertTies(o, y, rest, x);
      TiesPastHead(o, y, h, Insert(o, y, rest), rest, x);
    }
  }

  /** The step of `InsertTies` where `y` moves past the head `h`. */
  lemma TiesPastHead(o: Ordering, y: Product, h: Product, inserted: seq<Product>, rest: seq<Product>, x: Product)
    requires Admissible(o, x) && Compare(o, y, h) > 0
    requires TiesWith(o, inserted, x) == (if Compare(o, y, x) == 0 then [y] else []) + TiesWith(o, rest, x)
    ensures TiesWith(o, [h] + inserted, x) == (if Compare(o, y, x) == 0 then [y] else []) + TiesWith(o, [h] + rest, x)
  {
    var ty := if Compare(o, y, x) == 0 then [y] else [];
    var th := if Compare(o, h, x) == 0 then [h] else [];
    TiesCons(o, h, inserted, x);
    TiesCons(o, h, rest, x);
    assert ty == [] || th == [] by {
      if Compare(o, y, x) == 0 {
        PassedNotTied(o, y, h, x);
      }
    }
    assert th + (ty + TiesWith(o, rest, x)) == ty + (th + TiesWith(o, rest, x));
  }

  /**
   * Stability: products that compare equal keep their relative order. For
   * any `x`, the products tied with it appear in the sorted list in the same
   * order as in the input.
   */
  lemma {:induction false} SortStable(o: Ordering, s: seq<Product>, x: Product)
    requires Admissible(o, x)
    ensures TiesWith(o, Sort(o, s), x) == TiesWith(o, s, x)
  {
    if s != [] {
      SortStable(o, s[1..], x);
      InsertTies(o, s[0], Sort(o, s[1..]), x);
      TiesCons(o, s[0], s[1..], x);
      assert s == [s[0]] + s[1..];
    }
  }

  /** With price ascending, [A 5.00, B 3.00, C 5.00] sorts to [B, A, C]: A stays before C. */
  lemma SortStableExample(a: Product, b: Product, c: Product)
    requires a.price == 500 && b.price == 300 && c.price == 500
    ensures Sort(PriceAsc, [a, b, c]) == [b, a, c]
  {
    assert [a, b, c] == [a] + [b, c];
    SortInOrderPair(b, c);
    InsertPastCheaper(a, b, c);
  }

  lemma SortInOrderPair(b: Product, c: Product)
    requires b.price <= c.price
    ensures Sort(PriceAsc, [b, c]) == [b, c]
  {
    assert [b, c][1..] == [c] && [c][1..] == [];
    assert Sort(PriceAsc, [c]) == [c];
  }

  lemma InsertPastCheaper(a: Product, b: Product, c: Product)
    requires b.price < a.price == c.price
    ensures Insert(PriceAsc, a, [b, c]) == [b, a, c]
  {
    assert Compare(PriceAsc, a, b) > 0 && Compare(PriceAsc, a, c) <= 0;
    assert [b, c][0] == b && [b, c][1..] == [c] && [c][0] == c;
    assert Insert(PriceAsc, a, [c]) == [a] + [c];
    assert Insert(PriceAsc, a, [b, c]) == [b] + Insert(PriceAsc, a, [c]);
  }

  /** An unrecognised sort key leaves the filtered order as it is. */
  lemma UnorderedKeepsOrder(s: seq<Product>)
    ensures Sort(Unordered, s) == s
  {
    SortKeepsSorted(Unordered, s);
  }

  /** What each ordering guarantees about neighbours-or-not in a sorted list. */
  lemma SortedMeaning(o: Ordering, s: seq<Product>, i: int, j: int)
    requires Sorted(o, s) && 0 <= i < j < |s|
    ensures o.PriceAsc? ==> s[i].price <= s[j].price
    ensures o.PriceDesc? ==> s[i].price >= s[j].price
    ensures o.RatingDesc? ==> s[i].rating >= s[j].rating
    ensures o.NameAsc? ==> LexCompare(s[i].name, s[j].name) <= 0
    ensures o.DiscountDesc? ==> DiscountCompare(s[i], s[j]) >= 0
    ensures o.DiscountAsc? ==> DiscountCompare(s[i], s[j]) <= 0
  {
    assert Compare(o, s[i], s[j]) <= 0;
  }

  /** The list a page shows: the selected products, sorted. */
  function Visible(products: seq<Product>, q: Query, o: Ordering): seq<Product> {
    Sort(o, Filter(products, q))
  }

  /** The shown list holds exactly the selected products, as often as the catalogue does, in the ordering's order. */
  lemma VisibleIsSortedSelection(products: seq<Product>, q: Query, o: Ordering)
    requires AllAdmissible(o, Filter(products, q))
    ensures multiset(Visible(products, q, o)) == multiset(Filter(products, q))
    ensures forall p :: p in Visible(products, q, o) <==> p in products && Selected(q, p)
    ensures Sorted(o, Visible(products, q, o))
    ensures o.Unordered? ==> Visible(products, q, o) == Filter(products, q)
  {
    var f := Filter(products, q);
    SortSorts(o, f);
    UnorderedKeepsOrder(f);
    assert forall p :: p in Visible(products, q, o) <==> p in multiset(f);
  }
}
