/**
 * The product card: a discount badge and a struck-through original price when
 * the product is discounted, five rating stars, a stock label and an Add to
 * Cart button that is disabled when the product is out of stock. Ratings are
 * tenths of a star.
 */
module Card {
  import opened Catalogue

  const StarCount := 5

  /** `Math.round(rating)` for a rating given in tenths: halves round up. */
  function RoundTenths(tenths: int): (r: int)
    ensures 10 * r - 5 <= tenths < 10 * r + 5
  {
    (tenths + 5) / 10
  }

  /** The rounding picks the only whole number within half a star. */
  lemma RoundTenthsUnique(tenths: int, r: int)
    requires 10 * r - 5 <= tenths < 10 * r + 5
    ensures RoundTenths(tenths) == r
  {
    var q := RoundTenths(tenths);
    assert 10 * q - 5 <= tenths < 10 * q + 5;
  }

  /** One star input: coloured or not, and whether it is the checked radio. */
  datatype Star = Star(filled: bool, checked: bool)

  /** The five stars for a rounded rating r: star i is coloured iff i < r and checked iff i == r - 1. */
  function Stars(r: int): seq<Star> {
    seq(StarCount, i => Star(i < r, i == r - 1))
  }

  function CheckedStars(r: int): set<int> {
    set i | 0 <= i < StarCount && Stars(r)[i].checked
  }

  /**
   * A rating between one and five checks exactly one star, the last coloured
   * one; any other rating checks none. The coloured stars come first.
   */
  lemma StarsMeaning(r: int)
    ensures |Stars(r)| == StarCount
    ensures 1 <= r <= StarCount ==> CheckedStars(r) == {r - 1} && |CheckedStars(r)| == 1
    ensures r < 1 || r > StarCount ==> CheckedStars(r) == {}
    ensures forall i, j | 0 <= i < j < StarCount :: Stars(r)[j].filled ==> Stars(r)[i].filled
    ensures forall i | 0 <= i < StarCount :: Stars(r)[i].checked ==> Stars(r)[i].filled
    ensures r >= StarCount ==> forall i | 0 <= i < StarCount :: Stars(r)[i].filled
    ensures r <= 0 ==> forall i | 0 <= i < StarCount :: !Stars(r)[i].filled
  {
    if 1 <= r <= StarCount {
      assert r - 1 in CheckedStars(r);
    }
  }

  predicate ShowsDiscount(p: Product) {
    p.originalPrice > p.price
  }

  function StockLabel(inStock: bool): (text: string)
    ensures text == "In Stock" <==> inStock
    ensures !inStock ==> text == "Out of Stock"
  {
    if inStock then "In Stock" else "Out of Stock"
  }

  /** What the card shows for a product. */
  datatype CardView = CardView(
    badge: bool, struckOriginal: bool, stars: seq<Star>,
    stockLabel: string, addToCartDisabled: bool)

  function View(p: Product): (v: CardView)
    ensures v.badge <==> p.originalPrice > p.price
    ensures v.struckOriginal <==> p.originalPrice > p.price
    ensures v.stars == Stars(RoundTenths(p.rating))
    ensures v.stockLabel == StockLabel(p.inStock)
    ensures v.addToCartDisabled <==> !p.inStock
  {
    CardView(ShowsDiscount(p), ShowsDiscount(p), Stars(RoundTenths(p.rating)),
      StockLabel(p.inStock), !p.inStock)
  }

  /** A 4.5-star product shows five coloured stars with the last one checked; 4.2 shows four. */
  lemma RatingExamples()
    ensures RoundTenths(45) == 5 && RoundTenths(42) == 4 && RoundTenths(40) == 4
    ensures CheckedStars(RoundTenths(42)) == {3}
  {
    StarsMeaning(4);
  }
}
