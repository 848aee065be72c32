/**
 * The Categories page: the same search and category filter as the Products
 * page, a sort drop-down that adds "rating-desc", and the shown products
 * grouped under one heading per category.
 */
module Categories {
  import opened Text
  import opened Catalogue

  function OrderingFor(sortKey: string): (o: Ordering)
    ensures o.Unordered? <==>
      sortKey != "price-desc" && sortKey != "price-asc" && sortKey != "name" && sortKey != "rating-desc"
    ensures o.Unordered? || o.PriceAsc? || o.PriceDesc? || o.NameAsc? || o.RatingDesc?
    ensures sortKey == "price-desc" ==> o == PriceDesc
    ensures sortKey == "price-asc" ==> o == PriceAsc
    ensures sortKey == "name" ==> o == NameAsc
    ensures sortKey == "rating-desc" ==> o == RatingDesc
  {
    if sortKey == "price-desc" then PriceDesc
    else if sortKey == "price-asc" then PriceAsc
    else if sortKey == "name" then NameAsc
    else if sortKey == "rating-desc" then RatingDesc
    else Unordered
  }

  function Shown(products: seq<Product>, term: string, category: string, sortKey: string): seq<Product> {
    Visible(products, Query(term, category, false), OrderingFor(sortKey))
  }

  lemma ShownMeaning(products: seq<Product>, term: string, category: string, sortKey: string)
    ensures var r := Shown(products, term, category, sortKey);
      && multiset(r) == multiset(Filter(products, Query(term, category, false)))
      && (forall p :: p in r <==> p in products && SearchMatches(p, term) && CategoryMatches(p, category))
      && (sortKey == "rating-desc" ==> forall i, j | 0 <= i < j < |r| :: r[i].rating >= r[j].rating)
      && (sortKey == "price-desc" ==> forall i, j | 0 <= i < j < |r| :: r[i].price >= r[j].price)
      && (sortKey == "price-asc" ==> forall i, j | 0 <= i < j < |r| :: r[i].price <= r[j].price)
      && (sortKey == "name" ==> forall i, j | 0 <= i < j < |r| :: LexCompare(r[i].name, r[j].name) <= 0)
      && (OrderingFor(sortKey).Unordered? ==> r == Filter(products, Query(term, category, false)))
  {
    var q, o := Query(term, category, false), OrderingFor(sortKey);
    var r := Shown(products, term, category, sortKey);
    assert Sorted(o, r) by {
      VisibleIsSortedSelection(products, q, o);
    }
    assert multiset(r) == multiset(Filter(products, q)) && (o.Unordered? ==> r == Filter(products, q)) by {
      VisibleIsSortedSelection(products, q, o);
    }
    assert forall p :: p in r <==> p in products && Selected(q, p) by {
      VisibleIsSortedSelection(products, q, o);
    }
    if sortKey == "rating-desc" {
      forall i, j | 0 <= i < j < |r| ensures r[i].rating >= r[j].rating {
        SortedMeaning(o, r, i, j);
      }
    } else if sortKey == "price-desc" {
      forall i, j | 0 <= i < j < |r| ensures r[i].price >= r[j].price {
        SortedMeaning(o, r, i, j);
      }
    } else if sortKey == "price-asc" {
      forall i, j | 0 <= i < j < |r| ensures r[i].price <= r[j].price {
        SortedMeaning(o, r, i, j);
      }
    } else if sortKey == "name" {
      forall i, j | 0 <= i < j < |r| ensures LexCompare(r[i].name, r[j].name) <= 0 {
        SortedMeaning(o, r, i, j);
      }
    }
  }

  /** The products of one category, in list order. */
  function InCategory(s: seq<Product>, k: string): seq<Product> {
    if s == [] then []
    else
      var init, last := s[..|s| - 1], s[|s| - 1];
      assert s == init + [last];
      InCategory(init, k) + (if last.category == k then [last] else [])
  }

  /** The total size of the groups listed under `keys`. */
  function SumSizes(keys: seq<string>, groups: map<string, seq<Product>>): nat
    requires forall k | k in keys :: k in groups
  {
    if keys == [] then 0
    else SumSizes(keys[..|keys| - 1], groups) + |groups[keys[|keys| - 1]]|
  }

  predicate NoDuplicates(keys: seq<string>) {
    forall i, j | 0 <= i < j < |keys| :: keys[i] != keys[j]
  }

  /** Replacing a group not listed under `keys` leaves their total alone. */
  lemma {:induction false} SumSizesFrame(keys: seq<string>, groups: map<string, seq<Product>>, c: string, v: seq<Product>)
    requires forall k | k in keys :: k in groups
    requires c !in keys
    ensures SumSizes(keys, groups[c := v]) == SumSizes(keys, groups)
  {
    if keys != [] {
      SumSizesFrame(keys[..|keys| - 1], groups, c, v);
    }
  }

  /** Pushing one product onto a listed group adds one to the total. */
  lemma {:induction false} SumSizesGrow(keys: seq<string>, groups: map<string, seq<Product>>, c: string, p: Product)
    requires forall k | k in keys :: k in groups
    requires NoDuplicates(keys) && c in keys
    ensures SumSizes(keys, groups[c := groups[c] + [p]]) == SumSizes(keys, groups) + 1
  {
    var init, last := keys[..|keys| - 1], keys[|keys| - 1];
    if last == c {
      assert c !in init by {
        assert forall i | 0 <= i < |init| :: init[i] == keys[i];
      }
      SumSizesFrame(init, groups, c, groups[c] + [p]);
    } else {
      assert c in init by {
        var i :| 0 <= i < |keys| && keys[i] == c;
        assert init[i] == c;
      }
      SumSizesGrow(init, groups, c, p);
    }
  }

  /**
   * The `reduce` that builds the groups: for each product in order, its
   * category's list is created on first sight and the product pushed onto it.
   * `keys` is the order the groups are created in, the order the page lists
   * them in.
   */
  method GroupByCategory(products: seq<Product>) returns (keys: seq<string>, groups: map<string, seq<Product>>)
    ensures keys == Distinct(CategoriesOf(products))
    ensures groups.Keys == set k | k in keys
    ensures forall k | k in groups :: groups[k] == InCategory(products, k)
    ensures SumSizes(keys, groups) == |products|
  {
    keys, groups := [], map[];
    var i := 0;
    while i < |products|
      invariant 0 <= i <= |products|
      invariant Grouped(products[..i], keys, groups)
    {
      var p := products[i];
      var c := p.category;
      assert products[..i + 1] == products[..i] + [p];
      if c in groups {
        GroupPush(products[..i], p, keys, groups);
        groups := groups[c := groups[c] + [p]];
      } else {
        GroupCreate(products[..i], p, keys, groups);
        keys := keys + [c];
        groups := groups[c := [p]];
      }
      i := i + 1;
    }
    assert products[..i] == products;
  }

  /** The loop's invariant: `keys` and `groups` are the grouping of `s`. */
  ghost predicate Grouped(s: seq<Product>, keys: seq<string>, groups: map<string, seq<Product>>) {
    && keys == Distinct(CategoriesOf(s))
    && groups.Keys == (set k | k in keys)
    && (forall k | k in groups :: groups[k] == InCategory(s, k))
    && SumSizes(keys, groups) == |s|
  }

  /** A step of the `reduce` for a product whose category has a group: the product is pushed onto it. */
  lemma GroupPush(s: seq<Product>, p: Product, keys: seq<string>, groups: map<string, seq<Product>>)
    requires Grouped(s, keys, groups) && p.category in groups
    ensures Grouped(s + [p], keys, groups[p.category := groups[p.category] + [p]])
  {
    var c := p.category;
    var groups' := groups[c := groups[c] + [p]];
    assert groups'.Keys == groups.Keys;
    assert keys == Distinct(CategoriesOf(s + [p])) by {
      CategoriesSnoc(s, p);
    }
    assert SumSizes(keys, groups') == |s| + 1 by {
      DistinctMeaning(CategoriesOf(s));
      SumSizesGrow(keys, groups, c, p);
    }
    assert forall k | k in groups' :: groups'[k] == InCategory(s + [p], k) by {
      forall k | k in groups' ensures groups'[k] == InCategory(s + [p], k) {
        InCategorySnoc(s, p, k);
      }
    }
  }

  /** A step of the `reduce` for a product of a category not seen before: a group is created for it. */
  lemma GroupCreate(s: seq<Product>, p: Product, keys: seq<string>, groups: map<string, seq<Product>>)
    requires Grouped(s, keys, groups) && p.category !in groups
    ensures Grouped(s + [p], keys + [p.category], groups[p.category := [p]])
  {
    var c := p.category;
    var groups' := groups[c := [p]];
    assert groups'.Keys == (set k | k in keys + [c]) by {
      assert groups'.Keys == groups.Keys + {c};
      assert (set k | k in keys + [c]) == (set k | k in keys) + {c};
    }
    assert keys + [c] == Distinct(CategoriesOf(s + [p])) by {
      CategoriesSnoc(s, p);
    }
    assert InCategory(s, c) == [] by {
      NoProductsOfUnseenCategory(s, c);
    }
    assert SumSizes(keys + [c], groups') == |s| + 1 by {
      SumSizesAppend(keys, groups, c, [p]);
    }
    assert forall k | k in groups' :: groups'[k] == InCategory(s + [p], k) by {
      forall k | k in groups' ensures groups'[k] == InCategory(s + [p], k) {
        InCategorySnoc(s, p, k);
      }
    }
  }

  /** Appending a product appends its category. */
  lemma CategoriesSnoc(s: seq<Product>, p: Product)
    ensures CategoriesOf(s + [p]) == CategoriesOf(s) + [p.category]
    ensures Distinct(CategoriesOf(s + [p])) ==
      if p.category in Distinct(CategoriesOf(s)) then Distinct(CategoriesOf(s))
      else Distinct(CategoriesOf(s)) + [p.category]
  {
    var cats := CategoriesOf(s + [p]);
    assert cats[..|s|] == CategoriesOf(s);
  }

  /** Appending a product appends it to its own category's group only. */
  lemma InCategorySnoc(s: seq<Product>, p: Product, k: string)
    ensures InCategory(s + [p], k) == InCategory(s, k) + (if p.category == k then [p] else [])
  {
    assert (s + [p])[..|s|] == s;
  }

  /** A category not among the list's categories has an empty group. */
  lemma NoProductsOfUnseenCategory(s: seq<Product>, c: string)
    requires c !in Distinct(CategoriesOf(s))
    ensures InCategory(s, c) == []
  {
    DistinctMeaning(CategoriesOf(s));
    forall q | q in s ensures q.category != c {
      var j :| 0 <= j < |s| && s[j] == q;
      assert CategoriesOf(s)[j] == q.category;
    }
    InCategoryEmpty(s, c);
  }

  /** A category's group holds exactly the list's products of that category. */
  lemma {:induction false} InCategoryMeaning(s: seq<Product>, k: string)
    ensures forall p | p in InCategory(s, k) :: p.category == k
    ensures forall p :: p in InCategory(s, k) <==> p in s && p.category == k
  {
    if s != [] {
      var init, last := s[..|s| - 1], s[|s| - 1];
      assert s == init + [last];
      InCategoryMeaning(init, k);
    }
  }

  lemma {:induction false} InCategoryEmpty(s: seq<Product>, c: string)
    requires forall q | q in s :: q.category != c
    ensures InCategory(s, c) == []
  {
    if s != [] {
      InCategoryEmpty(s[..|s| - 1], c);
    }
  }

  /** Adding a new group for an unlisted key adds its size to the total. */
  lemma SumSizesAppend(keys: seq<string>, groups: map<string, seq<Product>>, c: string, v: seq<Product>)
    requires forall k | k in keys :: k in groups
    requires c !in keys
    ensures SumSizes(keys + [c], groups[c := v]) == SumSizes(keys, groups) + |v|
  {
    SumSizesFrame(keys, groups, c, v);
    assert (keys + [c])[..|keys|] == keys;
  }

  /** What the grouping promises the page: no product in two groups, and no groups iff nothing matched. */
  lemma GroupsPartition(products: seq<Product>, keys: seq<string>, groups: map<string, seq<Product>>)
    requires keys == Distinct(CategoriesOf(products))
    requires groups.Keys == set k | k in keys
    requires forall k | k in groups :: groups[k] == InCategory(products, k)
    ensures forall k1, k2, p | k1 in groups && k2 in groups && p in groups[k1] && p in groups[k2] :: k1 == k2
    ensures forall p | p in products :: p.category in groups && p in groups[p.category]
    ensures |groups| == 0 <==> products == []
  {
    DistinctMeaning(CategoriesOf(products));
    forall k | k in groups {
      InCategoryMeaning(products, k);
    }
    if products != [] {
      assert products[0].category in CategoriesOf(products);
      assert products[0].category in groups;
    } else {
      assert groups.Keys == {};
    }
  }
}
