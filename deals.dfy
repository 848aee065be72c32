/**
 * The Deals page: only discounted products, the same search and category
 * filter as the other pages, a sort drop-down that defaults to the largest
 * discount first, and a countdown to the end of the deal shown as hours,
 * minutes and seconds. Prices are whole cents, ratings tenths of a star.
 */
module Deals {
  import opened Text
  import opened Catalogue

  const DefaultSortKey := "discount-desc"

  /** The page's own list: every product on it is discounted. */
  const MockDeals := [
    Product(1, "Smartphone X", 69999, 79999, 45, "https://via.placeholder.com/300x200", true, "Electronics"),
    Product(2, "Leather Jacket", 19999, 24999, 40, "https://via.placeholder.com/300x200", true, "Fashion"),
    Product(3, "Coffee Maker", 8999, 9999, 48, "https://via.placeholder.com/300x200", false, "Home"),
    Product(4, "Running Shoes", 12999, 14999, 42, "https://via.placeholder.com/300x200", true, "Sports"),
    Product(5, "Novel Book", 1999, 2499, 47, "https://via.placeholder.com/300x200", true, "Books"),
    Product(6, "Wireless Earbuds", 5999, 6999, 43, "https://via.placeholder.com/300x200", false, "Electronics")
  ]

  lemma MockDealsAreDiscounted()
    ensures forall i | 0 <= i < |MockDeals| :: Discounted(MockDeals[i])
  {
  }

  /** The comparator the sort drop-down's value selects; any other value compares everything equal. */
  function OrderingFor(sortKey: string): (o: Ordering)
    ensures o.DiscountDesc? <==> sortKey == "discount-desc"
    ensures o.DiscountAsc? <==> sortKey == "discount-asc"
    ensures o.PriceDesc? <==> sortKey == "price-desc"
    ensures o.PriceAsc? <==> sortKey == "price-asc"
    ensures o.NameAsc? <==> sortKey == "name"
    ensures !o.RatingDesc?
  {
    if sortKey == "discount-desc" then DiscountDesc
    else if sortKey == "discount-asc" then DiscountAsc
    else if sortKey == "price-desc" then PriceDesc
    else if sortKey == "price-asc" then PriceAsc
    else if sortKey == "name" then NameAsc
    else Unordered
  }

  /** The filter the page applies: discounted, matching the search, in the chosen category. */
  function DealQuery(term: string, category: string): Query {
    Query(term, category, true)
  }

  /** The product grid. */
  function Shown(products: seq<Product>, term: string, category: string, sortKey: string): seq<Product> {
    Visible(products, DealQuery(term, category), OrderingFor(sortKey))
  }

  /** The share of the original price taken off, as the page computes it (before scaling to a percentage). */
  function DiscountFraction(p: Product): real
    requires p.originalPrice > 0
  {
    (p.originalPrice - p.price) as real / p.originalPrice as real
  }

  /** Comparing two discount fractions is comparing the cross-multiplied whole-cent amounts. */
  lemma CrossMultiplied(a: Product, b: Product)
    requires a.originalPrice > 0 && b.originalPrice > 0
    ensures DiscountFraction(a) >= DiscountFraction(b) <==>
      (a.originalPrice - a.price) * b.originalPrice >= (b.originalPrice - b.price) * a.originalPrice
  {
    var x, y := (a.originalPrice - a.price) as real, (b.originalPrice - b.price) as real;
    var m, n := a.originalPrice as real, b.originalPrice as real;
    var fa, fb := x / m, y / n;
    assert x == fa * m && y == fb * n;
    assert x * n - y * m == (fa - fb) * (m * n);
    assert m * n > 0.0;
    assert (a.originalPrice - a.price) * b.originalPrice - (b.originalPrice - b.price) * a.originalPrice ==
      ((a.originalPrice - a.price) * b.originalPrice - (b.originalPrice - b.price) * a.originalPrice) as real as int;
  }

  /** Everything the discounted-only filter lets through can be ordered by discount. */
  lemma DealsAreAdmissible(products: seq<Product>, term: string, category: string, o: Ordering)
    ensures AllAdmissible(o, Filter(products, DealQuery(term, category)))
  {
    var r := Filter(products, DealQuery(term, category));
    forall i | 0 <= i < |r| ensures Admissible(o, r[i]) {
      assert r[i] in r;
    }
  }

  /**
   * What the grid shows: the discounted products matching the search and
   * category, each as often as in the list, by price or name when chosen, and
   * in list order for a key the drop-down does not offer.
   */
  lemma ShownMeaning(products: seq<Product>, term: string, category: string, sortKey: string)
    ensures var r := Shown(products, term, category, sortKey);
      && multiset(r) == multiset(Filter(products, DealQuery(term, category)))
      && (forall p :: p in r <==>
            p in products && p.originalPrice > p.price && SearchMatches(p, term) && CategoryMatches(p, category))
      && (sortKey == "price-desc" ==> forall i, j | 0 <= i < j < |r| :: r[i].price >= r[j].price)
      && (sortKey == "price-asc" ==> forall i, j | 0 <= i < j < |r| :: r[i].price <= r[j].price)
      && (sortKey == "name" ==> forall i, j | 0 <= i < j < |r| :: LexCompare(r[i].name, r[j].name) <= 0)
      && (OrderingFor(sortKey).Unordered? ==> r == Filter(products, DealQuery(term, category)))
  {
    var o := OrderingFor(sortKey);
    DealsAreAdmissible(products, term, category, o);
    VisibleIsSortedSelection(products, DealQuery(term, category), o);
  }

  /**
   * The grid is sorted by the key's comparator, and every product on it is
   * discounted, so its original price is positive.
   */
  lemma ShownSortedAndDiscounted(products: seq<Product>, term: string, category: string, sortKey: string, r: seq<Product>)
    requires r == Shown(products, term, category, sortKey)
    ensures Sorted(OrderingFor(sortKey), r)
    ensures forall k | 0 <= k < |r| :: Discounted(r[k]) && r[k].originalPrice > 0
  {
    var o := OrderingFor(sortKey);
    DealsAreAdmissible(products, term, category, o);
    VisibleIsSortedSelection(products, DealQuery(term, category), o);
    forall k | 0 <= k < |r| ensures Discounted(r[k]) {
      assert r[k] in r;
    }
  }

  /** With "discount-desc" the grid runs from the largest share off the price to the smallest. */
  lemma ShownByDiscountDesc(products: seq<Product>, term: string, category: string, r: seq<Product>)
    requires r == Shown(products, term, category, "discount-desc")
    ensures forall k | 0 <= k < |r| :: r[k].originalPrice > 0
    ensures forall i, j | 0 <= i < j < |r| :: DiscountFraction(r[i]) >= DiscountFraction(r[j])
  {
    ShownSortedAndDiscounted(products, term, category, "discount-desc", r);
    forall i, j | 0 <= i < j < |r| ensures DiscountFraction(r[i]) >= DiscountFraction(r[j]) {
      SortedFractions(DiscountDesc, r, i, j);
    }
  }

  /** With "discount-asc" the grid runs from the smallest share off the price to the largest. */
  lemma ShownByDiscountAsc(products: seq<Product>, term: string, category: string, r: seq<Product>)
    requires r == Shown(products, term, category, "discount-asc")
    ensures forall k | 0 <= k < |r| :: r[k].originalPrice > 0
    ensures forall i, j | 0 <= i < j < |r| :: DiscountFraction(r[i]) <= DiscountFraction(r[j])
  {
    ShownSortedAndDiscounted(products, term, category, "discount-asc", r);
    forall i, j | 0 <= i < j < |r| ensures DiscountFraction(r[i]) <= DiscountFraction(r[j]) {
      SortedFractions(DiscountAsc, r, i, j);
    }
  }

  /** Two products in a list sorted by a discount key, by their discount fractions. */
  lemma SortedFractions(o: Ordering, r: seq<Product>, i: int, j: int)
    requires o.DiscountDesc? || o.DiscountAsc?
    requires Sorted(o, r) && 0 <= i < j < |r|
    requires r[i].originalPrice > 0 && r[j].originalPrice > 0
    ensures o.DiscountDesc? ==> DiscountFraction(r[i]) >= DiscountFraction(r[j])
    ensures o.DiscountAsc? ==> DiscountFraction(r[i]) <= DiscountFraction(r[j])
  {
    var a, b := r[i], r[j];
    SortedMeaning(o, r, i, j);
    TimesIsProduct(a.originalPrice - a.price, b.originalPrice);
    TimesIsProduct(b.originalPrice - b.price, a.originalPrice);
    CrossMultiplied(a, b);
    CrossMultiplied(b, a);
  }

  // ---------------------------------------------------------------------
  // The countdown. The page reads the clock once a second; here the
  // milliseconds left until the deal ends are the input.

  const MillisPerSecond := 1000
  const MillisPerMinute := 60 * MillisPerSecond
  const MillisPerHour := 60 * MillisPerMinute
  const DealLength := 24 * MillisPerHour

  datatype Countdown = Countdown(hours: nat, minutes: nat, seconds: nat)

  /** The milliseconds a countdown stands for. */
  function Millis(t: Countdown): nat {
    t.hours * MillisPerHour + t.minutes * MillisPerMinute + t.seconds * MillisPerSecond
  }

  /** `updateTimer`: zero once the deal is over, else the time left in whole hours, minutes and seconds. */
  function TimeLeft(diff: int): (t: Countdown)
    ensures diff <= 0 ==> t == Countdown(0, 0, 0)
    ensures t.minutes < 60 && t.seconds < 60
    ensures diff > 0 ==> Millis(t) <= diff < Millis(t) + MillisPerSecond
  {
    if diff <= 0 then Countdown(0, 0, 0)
    else
      SplitMillis(diff);
      Countdown(diff / MillisPerHour, (diff % MillisPerHour) / MillisPerMinute, (diff % MillisPerMinute) / MillisPerSecond)
  }

  lemma SplitMillis(diff: int)
    requires diff > 0
    ensures var h, m, s := diff / MillisPerHour, (diff % MillisPerHour) / MillisPerMinute, (diff % MillisPerMinute) / MillisPerSecond;
      && m < 60 && s < 60
      && h * MillisPerHour + m * MillisPerMinute + s * MillisPerSecond <= diff
      && diff < h * MillisPerHour + m * MillisPerMinute + s * MillisPerSecond + MillisPerSecond
  {
    var h, inHour := diff / 3600000, diff % 3600000;
    QuotientRemainder(diff, 3600000, h, inHour);
    var m, inMinute := inHour / 60000, inHour % 60000;
    QuotientRemainder(inHour, 60000, m, inMinute);
    QuotientRemainder(diff, 60000, h * 60 + m, inMinute);
    var s, ms := inMinute / 1000, inMinute % 1000;
    QuotientRemainder(inMinute, 1000, s, ms);
  }

  /**
   * Division with remainder is unique: n = q·d + r with 0 ≤ r < d fixes q
   * and r. Stated once so that no proof about the countdown needs the
   * solver's non-linear arithmetic.
   */
  lemma QuotientRemainder(n: int, d: int, q: int, r: int)
    requires d > 0 && 0 <= r < d
    ensures n == q * d + r <==> n / d == q && n % d == r
  {
    var q', r' := n / d, n % d;
    assert n == q' * d + r' && 0 <= r' < d;
    if n == q * d + r {
      Distribute(q, q', d);
      if q > q' {
        MultipleAtLeast(q - q', d);
      } else if q < q' {
        MultipleAtLeast(q' - q, d);
      }
    }
  }

  lemma Distribute(a: int, b: int, d: int)
    ensures (a - b) * d == a * d - b * d && (b - a) * d == b * d - a * d
  {
  }

  /** A positive multiple of d is at least d. */
  lemma {:induction false} MultipleAtLeast(k: int, d: int)
    requires k >= 1 && d > 0
    ensures k * d >= d
    decreases k
  {
    if k > 1 {
      MultipleAtLeast(k - 1, d);
      assert k * d == (k - 1) * d + d;
    }
  }

  /** The split is the only one with minutes and seconds below 60 that is at most a second short of `diff`. */
  lemma TimeLeftUnique(diff: int, t: Countdown)
    requires diff > 0 && t.minutes < 60 && t.seconds < 60
    requires Millis(t) <= diff < Millis(t) + MillisPerSecond
    ensures TimeLeft(diff) == t
  {
    var h, m, s := t.hours, t.minutes, t.seconds;
    var ms := diff - Millis(t);
    var inMinute := s * 1000 + ms;
    var inHour := m * 60000 + inMinute;
    QuotientRemainder(diff, 3600000, h, inHour);
    QuotientRemainder(inHour, 60000, m, inMinute);
    QuotientRemainder(diff, 60000, h * 60 + m, inMinute);
    QuotientRemainder(inMinute, 1000, s, ms);
  }

  /** Exactly 24 hours left shows as 24:00:00. */
  lemma DealStartsAtOneDay()
    ensures TimeLeft(DealLength) == Countdown(24, 0, 0)
  {
    TimeLeftUnique(DealLength, Countdown(24, 0, 0));
  }

  /** One component of the display: its decimal digits, left-padded with '0' to two characters. */
  function TwoDigits(n: nat): (r: string)
    ensures AllDigits(r) && DecimalValue(r) == n
    ensures |r| >= 2 && (n < 100 <==> |r| == 2)
  {
    ZeroPaddingKeepsValue(NatToDecimal(n), 2);
    PadStart(NatToDecimal(n), 2, '0')
  }

  lemma TwoDigitsExamples()
    ensures TwoDigits(5) == "05"
    ensures TwoDigits(24) == "24"
  {
    assert NatToDecimal(24) == "24";
  }
}
