/**
 * The Products page: search box, category drop-down and a sort drop-down
 * offering "default", "price-asc", "price-desc" and "name".
 */
module Products {
  import opened Text
  import opened Catalogue

  const DefaultSortKey := "default"

  /** The comparator the sort drop-down's value selects; any other value compares everything equal. */
  function OrderingFor(sortKey: string): (o: Ordering)
    ensures o.Unordered? <==> sortKey != "price-asc" && sortKey != "price-desc" && sortKey != "name"
    ensures o.Unordered? || o.PriceAsc? || o.PriceDesc? || o.NameAsc?
    ensures sortKey == "price-asc" ==> o == PriceAsc
    ensures sortKey == "price-desc" ==> o == PriceDesc
    ensures sortKey == "name" ==> o == NameAsc
  {
    if sortKey == "price-asc" then PriceAsc
    else if sortKey == "price-desc" then PriceDesc
    else if sortKey == "name" then NameAsc
    else Unordered
  }

  /** The product grid: the matching products, sorted by the chosen key. */
  function Shown(products: seq<Product>, term: string, category: string, sortKey: string): seq<Product> {
    Visible(products, Query(term, category, false), OrderingFor(sortKey))
  }

  lemma ShownMeaning(products: seq<Product>, term: string, category: string, sortKey: string)
    ensures var r := Shown(products, term, category, sortKey);
      && multiset(r) == multiset(Filter(products, Query(term, category, false)))
      && (forall p :: p in r <==> p in products && SearchMatches(p, term) && CategoryMatches(p, category))
      && (sortKey == "price-asc" ==> forall i, j | 0 <= i < j < |r| :: r[i].price <= r[j].price)
      && (sortKey == "price-desc" ==> forall i, j | 0 <= i < j < |r| :: r[i].price >= r[j].price)
      && (sortKey == "name" ==> forall i, j | 0 <= i < j < |r| :: LexCompare(r[i].name, r[j].name) <= 0)
      && (OrderingFor(sortKey).Unordered? ==> r == Filter(products, Query(term, category, false)))
  {
    var o := OrderingFor(sortKey);
    var q := Query(term, category, false);
    VisibleIsSortedSelection(products, q, o);
  }

  /** With no search text, "All" selected and the default sort, every product is shown in catalogue order. */
  lemma FirstVisitShowsAll(products: seq<Product>)
    ensures Shown(products, "", AllCategories, DefaultSortKey) == products
  {
    var q := Query("", AllCategories, false);
    forall i | 0 <= i < |products| ensures Selected(q, products[i]) {
      EmptySearchAllCategories(products[i]);
    }
    FilterKeepsAll(products, q);
    UnorderedKeepsOrder(products);
  }
}
