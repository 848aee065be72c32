/**
 * The cart page: a list of items with quantities, the handlers that change a
 * quantity or remove an item, and the money shown. Prices are whole cents.
 */
module Cart {

  datatype CartItem = CartItem(id: int, name: string, price: nat, quantity: int, image: string)

  const ShippingCents: nat := 599

  const InitialItems := [
    CartItem(1, "Wireless Headphones", 9999, 1, "https://via.placeholder.com/150"),
    CartItem(2, "Smart Watch", 14999, 2, "https://via.placeholder.com/150")
  ]

  /** Every item in the list has a positive quantity. */
  predicate AllPositive(items: seq<CartItem>) {
    forall i | 0 <= i < |items| :: items[i].quantity > 0
  }

  /** The sum of price × quantity over the items. */
  function Subtotal(items: seq<CartItem>): int {
    if items == [] then 0 else items[0].price * items[0].quantity + Subtotal(items[1..])
  }

  /** The sum of the unit prices. */
  function UnitPrices(items: seq<CartItem>): nat {
    if items == [] then 0 else items[0].price + UnitPrices(items[1..])
  }

  /** The order total: subtotal plus the flat shipping charge. */
  function Total(items: seq<CartItem>): int {
    Subtotal(items) + ShippingCents
  }

  /** A cart of positive quantities costs at least the shipping charge. */
  lemma TotalCoversShipping(items: seq<CartItem>)
    requires AllPositive(items)
    ensures Total(items) >= ShippingCents
    ensures items == [] ==> Total(items) == ShippingCents
  {
    SubtotalOfPositiveIsNonNegative(items);
  }

  function Max(a: int, b: int): int {
    if a < b then b else a
  }

  /** The item with its quantity moved by `change`, never below zero, if it has the given id. */
  function Bump(item: CartItem, id: int, change: int): CartItem {
    if item.id == id then item.(quantity := Max(0, item.quantity + change)) else item
  }

  /** `handleQuantityChange`: every item with the id is bumped, then all items without a positive quantity dropped. */
  function ChangeQuantity(items: seq<CartItem>, id: int, change: int): (r: seq<CartItem>)
    ensures AllPositive(r)
    ensures |r| <= |items|
  {
    if items == [] then []
    else
      var head := Bump(items[0], id, change);
      (if head.quantity > 0 then [head] else []) + ChangeQuantity(items[1..], id, change)
  }

  /** The `map` step of `handleQuantityChange`: every item bumped, position by position. */
  function BumpAll(items: seq<CartItem>, id: int, change: int): (r: seq<CartItem>)
    ensures |r| == |items| && forall i | 0 <= i < |items| :: r[i] == Bump(items[i], id, change)
  {
    seq(|items|, i requires 0 <= i < |items| => Bump(items[i], id, change))
  }

  /** The `filter` step of `handleQuantityChange`: the items with a positive quantity, in order. */
  function KeepPositive(items: seq<CartItem>): seq<CartItem> {
    if items == [] then []
    else (if items[0].quantity > 0 then [items[0]] else []) + KeepPositive(items[1..])
  }

  /**
   * A quantity change is the source's two steps, `map` then `filter`: so the
   * changed item keeps its place among the others.
   */
  lemma {:induction false} ChangeQuantityIsMapThenFilter(items: seq<CartItem>, id: int, change: int)
    ensures ChangeQuantity(items, id, change) == KeepPositive(BumpAll(items, id, change))
  {
    if items != [] {
      var bumped := BumpAll(items, id, change);
      assert bumped[1..] == BumpAll(items[1..], id, change);
      ChangeQuantityIsMapThenFilter(items[1..], id, change);
    }
  }

  /** `removeItem`: the items whose id differs. */
  function RemoveItem(items: seq<CartItem>, id: int): (r: seq<CartItem>)
    ensures |r| <= |items|
    ensures forall x | x in r :: x.id != id
    ensures forall x :: x in r <==> x in items && x.id != id
  {
    if items == [] then []
    else (if items[0].id != id then [items[0]] else []) + RemoveItem(items[1..], id)
  }

  /** The items with the given id. */
  function ItemsWith(items: seq<CartItem>, id: int): seq<CartItem> {
    if items == [] then []
    else (if items[0].id == id then [items[0]] else []) + ItemsWith(items[1..], id)
  }

  lemma {:induction false} SubtotalOfPositiveIsNonNegative(items: seq<CartItem>)
    requires AllPositive(items)
    ensures Subtotal(items) >= 0
  {
    if items != [] {
      SubtotalOfPositiveIsNonNegative(items[1..]);
    }
  }

  lemma {:induction false} SubtotalAppend(a: seq<CartItem>, b: seq<CartItem>)
    ensures Subtotal(a + b) == Subtotal(a) + Subtotal(b)
  {
    if a == [] {
      assert a + b == b;
    } else {
      assert (a + b)[1..] == a[1..] + b;
      SubtotalAppend(a[1..], b);
    }
  }

  /** Removal distributes over concatenation: the kept items stay in their order. */
  lemma {:induction false} RemoveItemAppend(a: seq<CartItem>, b: seq<CartItem>, id: int)
    ensures RemoveItem(a + b, id) == RemoveItem(a, id) + RemoveItem(b, id)
  {
    if a == [] {
      assert a + b == b;
    } else {
      assert (a + b)[1..] == a[1..] + b;
      RemoveItemAppend(a[1..], b, id);
    }
  }

  /** Removing an id no item has leaves the list as it is. */
  lemma {:induction false} RemoveAbsentItem(items: seq<CartItem>, id: int)
    requires forall i | 0 <= i < |items| :: items[i].id != id
    ensures RemoveItem(items, id) == items
  {
    if items != [] {
      RemoveAbsentItem(items[1..], id);
    }
  }

  /** The subtotal splits between the items with an id and the rest. */
  lemma {:induction false} SubtotalSplit(items: seq<CartItem>, id: int)
    ensures Subtotal(items) == Subtotal(RemoveItem(items, id)) + Subtotal(ItemsWith(items, id))
  {
    if items != [] {
      SubtotalSplit(items[1..], id);
      var x := items[0];
      SubtotalAppend(if x.id != id then [x] else [], RemoveItem(items[1..], id));
      SubtotalAppend(if x.id == id then [x] else [], ItemsWith(items[1..], id));
    }
  }

  /**
   * A quantity change touches only the items with that id: dropping them from
   * the list before or after the change gives the same list, so every other
   * item keeps its fields and its place in the order.
   */
  lemma {:induction false} ChangeQuantityKeepsOthers(items: seq<CartItem>, id: int, change: int)
    requires AllPositive(items)
    ensures RemoveItem(ChangeQuantity(items, id, change), id) == RemoveItem(items, id)
  {
    if items != [] {
      ChangeQuantityKeepsOthers(items[1..], id, change);
      var head := Bump(items[0], id, change);
      var rest := ChangeQuantity(items[1..], id, change);
      RemoveItemAppend(if head.quantity > 0 then [head] else [], rest, id);
    }
  }

  /** The changed item: quantity q + change if that is positive, otherwise gone. */
  lemma {:induction false} ChangeQuantityOfTarget(items: seq<CartItem>, id: int, change: int)
    requires AllPositive(items)
    ensures ItemsWith(ChangeQuantity(items, id, change), id) ==
      ChangeQuantity(ItemsWith(items, id), id, change)
  {
    if items != [] {
      var x, rest := items[0], items[1..];
      ChangeQuantityOfTarget(rest, id, change);
      var head := Bump(x, id, change);
      var kept := if head.quantity > 0 then [head] else [];
      assert ChangeQuantity(items, id, change) == kept + ChangeQuantity(rest, id, change);
      ItemsWithAppend(kept, ChangeQuantity(rest, id, change), id);
      if x.id == id {
        var targets := [x] + ItemsWith(rest, id);
        assert ItemsWith(items, id) == targets;
        assert targets[0] == x && targets[1..] == ItemsWith(rest, id);
        assert ItemsWith(kept, id) == kept;
      } else {
        assert ItemsWith(items, id) == ItemsWith(rest, id);
        assert kept == [x];
      }
    }
  }

  lemma {:induction false} ItemsWithAppend(a: seq<CartItem>, b: seq<CartItem>, id: int)
    ensures ItemsWith(a + b, id) == ItemsWith(a, id) + ItemsWith(b, id)
  {
    if a == [] {
      assert a + b == b;
    } else {
      assert (a + b)[0] == a[0] && (a + b)[1..] == a[1..] + b;
      ItemsWithAppend(a[1..], b, id);
      var h := if a[0].id == id then [a[0]] else [];
      assert ItemsWith(a + b, id) == h + (ItemsWith(a[1..], id) + ItemsWith(b, id));
      assert ItemsWith(a, id) == h + ItemsWith(a[1..], id);
    }
  }

  /** The changed item when exactly one item has the id: moved by `change`, or gone. */
  lemma ChangeQuantityOfSingle(items: seq<CartItem>, id: int, change: int, x: CartItem)
    requires AllPositive(items) && ItemsWith(items, id) == [x]
    ensures ItemsWith(ChangeQuantity(items, id, change), id) ==
      if x.quantity + change > 0 then [x.(quantity := x.quantity + change)] else []
  {
    ChangeQuantityOfTarget(items, id, change);
    assert x.id == id by {
      ItemsWithHaveId(items, id);
    }
  }

  lemma {:induction false} ItemsWithHaveId(items: seq<CartItem>, id: int)
    ensures forall i | 0 <= i < |ItemsWith(items, id)| :: ItemsWith(items, id)[i].id == id
  {
    if items != [] {
      ItemsWithHaveId(items[1..], id);
    }
  }

  lemma {:induction false} UnitPricesAppend(a: seq<CartItem>, b: seq<CartItem>)
    ensures UnitPrices(a + b) == UnitPrices(a) + UnitPrices(b)
  {
    if a == [] {
      assert a + b == b;
    } else {
      assert (a + b)[1..] == a[1..] + b;
      UnitPricesAppend(a[1..], b);
    }
  }

  /** Decrementing an item whose quantity is 1 removes it from the cart. */
  lemma {:induction false} DecrementLastUnitRemoves(items: seq<CartItem>, id: int)
    requires AllPositive(items)
    requires forall i | 0 <= i < |items| && items[i].id == id :: items[i].quantity == 1
    ensures ChangeQuantity(items, id, -1) == RemoveItem(items, id)
  {
    if items != [] {
      DecrementLastUnitRemoves(items[1..], id);
    }
  }

  /** A non-negative change adds change × unit price for every item with the id. */
  lemma {:induction false} IncreaseAddsToSubtotal(items: seq<CartItem>, id: int, change: nat)
    requires AllPositive(items)
    ensures Subtotal(ChangeQuantity(items, id, change)) ==
      Subtotal(items) + change * UnitPrices(ItemsWith(items, id))
  {
    if items != [] {
      var x, rest := items[0], items[1..];
      IncreaseAddsToSubtotal(rest, id, change);
      var head := Bump(x, id, change);
      var changed := ChangeQuantity(items, id, change);
      assert changed == [head] + ChangeQuantity(rest, id, change);
      assert changed[0] == head && changed[1..] == ChangeQuantity(rest, id, change);
      if x.id == id {
        assert ItemsWith(items, id) == [x] + ItemsWith(rest, id);
        assert UnitPrices(ItemsWith(items, id)) == x.price + UnitPrices(ItemsWith(rest, id));
        IncreaseStep(x.price, x.quantity, change, UnitPrices(ItemsWith(rest, id)));
      } else {
        assert ItemsWith(items, id) == ItemsWith(rest, id);
      }
    }
  }

  /** One item's share of the increase: its line grows by change × its price. */
  lemma IncreaseStep(price: int, quantity: int, change: int, others: int)
    ensures price * (quantity + change) + change * others == price * quantity + change * (price + others)
  {
    assert price * (quantity + change) == price * quantity + price * change;
    assert change * (price + others) == change * price + change * others;
  }

  lemma InitialTotals()
    ensures AllPositive(InitialItems)
    ensures Subtotal(InitialItems) == 39997
    ensures Total(InitialItems) == 40596
  {
  }

  /** The cart page's state: the list it shows. */
  class CartPage {
    var items: seq<CartItem>

    ghost predicate Valid()
      reads this
    {
      AllPositive(items)
    }

    constructor ()
      ensures Valid() && items == InitialItems
    {
      items := InitialItems;
    }

    function CurrentSubtotal(): int
      reads this
    {
      Subtotal(items)
    }

    method HandleQuantityChange(id: int, change: int)
      modifies this
      ensures Valid()
      ensures items == ChangeQuantity(old(items), id, change)
    {
      items := ChangeQuantity(items, id, change);
    }

    method HandleRemove(id: int)
      requires Valid()
      modifies this
      ensures Valid()
      ensures items == RemoveItem(old(items), id)
      ensures CurrentSubtotal() == old(CurrentSubtotal()) - Subtotal(ItemsWith(old(items), id))
    {
      SubtotalSplit(items, id);
      items := RemoveItem(items, id);
    }
  }
}
