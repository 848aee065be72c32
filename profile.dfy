/**
 * The profile page: the user's details with an Edit/Cancel switch and
 * per-field edits, and the past orders, each shown on a card with its total.
 * Prices are in cents.
 */
module Profile {
  import opened Catalogue
  import Card

  datatype UserInfo = UserInfo(name: string, email: string, phone: string, joined: string)

  const MockUser := UserInfo("John Doe", "john.doe@blinkbuy.com", "+1 (800) 555-0123", "January 2024")

  /** `{ ...userInfo, name: value }`: only the name changes. */
  function WithName(u: UserInfo, value: string): (r: UserInfo)
    ensures r.name == value
    ensures r.(name := u.name) == u
  {
    u.(name := value)
  }

  /** `{ ...userInfo, email: value }`: only the email changes. */
  function WithEmail(u: UserInfo, value: string): (r: UserInfo)
    ensures r.email == value
    ensures r.(email := u.email) == u
  {
    u.(email := value)
  }

  /** `{ ...userInfo, phone: value }`: only the phone changes. */
  function WithPhone(u: UserInfo, value: string): (r: UserInfo)
    ensures r.phone == value
    ensures r.(phone := u.phone) == u
  {
    u.(phone := value)
  }

  /** Edits of different fields do not interfere, and a later edit of the same field wins. */
  lemma EditsCommute(u: UserInfo, n: string, e: string, p: string)
    ensures WithEmail(WithName(u, n), e) == WithName(WithEmail(u, e), n)
    ensures WithPhone(WithName(u, n), p) == WithName(WithPhone(u, p), n)
    ensures WithPhone(WithEmail(u, e), p) == WithEmail(WithPhone(u, p), e)
    ensures WithName(WithName(u, e), n) == WithName(u, n)
    ensures WithName(WithEmail(WithPhone(u, p), e), n).joined == u.joined
  {
  }

  /** The page's two pieces of state. */
  class ProfilePage {
    var isEditing: bool
    var userInfo: UserInfo

    /** The page opens showing the mock user, not editing. */
    constructor ()
      ensures !isEditing && userInfo == MockUser
    {
      isEditing := false;
      userInfo := MockUser;
    }

    /** The Edit/Cancel button: flips the mode and keeps whatever was typed. */
    method ToggleEditing()
      modifies this
      ensures isEditing == !old(isEditing)
      ensures userInfo == old(userInfo)
    {
      isEditing := !isEditing;
    }

    /** The name input's `onChange`; the inputs exist only while editing. */
    method SetName(value: string)
      requires isEditing
      modifies this
      ensures userInfo == WithName(old(userInfo), value)
      ensures isEditing == old(isEditing)
    {
      userInfo := WithName(userInfo, value);
    }

    /** The e-mail input's `onChange`; the inputs exist only while editing. */
    method SetEmail(value: string)
      requires isEditing
      modifies this
      ensures userInfo == WithEmail(old(userInfo), value)
      ensures isEditing == old(isEditing)
    {
      userInfo := WithEmail(userInfo, value);
    }

    /** The phone input's `onChange`; the inputs exist only while editing. */
    method SetPhone(value: string)
      requires isEditing
      modifies this
      ensures userInfo == WithPhone(old(userInfo), value)
      ensures isEditing == old(isEditing)
    {
      userInfo := WithPhone(userInfo, value);
    }

    /** `handleSave`: leaves editing mode; the details stay as edited and nothing is sent anywhere. */
    method HandleSave()
      modifies this
      ensures !isEditing
      ensures userInfo == old(userInfo)
    {
      isEditing := false;
    }
  }

  datatype Order = Order(id: int, product: Product, quantity: nat, orderDate: string, status: string)

  const PastOrders := [
    Order(1, Product(1, "Smartphone X", 69999, 79999, 45, "https://via.placeholder.com/300x200", true, "Electronics"),
      1, "2024-03-15", "Delivered"),
    Order(2, Product(2, "Leather Jacket", 19999, 24999, 40, "https://via.placeholder.com/300x200", true, "Fashion"),
      2, "2024-02-10", "Delivered")
  ]

  /** The order's total: the quantity times the unit price. */
  function OrderTotal(o: Order): nat {
    o.quantity * o.product.price
  }

  /**
   * The total grows by one unit price per extra item: it is zero for no
   * items and splits over a split quantity.
   */
  lemma {:induction false} OrderTotalAdds(o: Order, a: nat, b: nat)
    ensures OrderTotal(o.(quantity := a + b)) == OrderTotal(o.(quantity := a)) + OrderTotal(o.(quantity := b))
    ensures OrderTotal(o.(quantity := 0)) == 0
    ensures OrderTotal(o.(quantity := 1)) == o.product.price
  {
    var p := o.product.price;
    assert (a + b) * p == a * p + b * p;
  }

  lemma PastOrderTotals()
    ensures OrderTotal(PastOrders[0]) == 69999
    ensures OrderTotal(PastOrders[1]) == 39998
  {
  }

  /** What the page's own card shows: the badge, the stars and the struck original price. */
  datatype ProfileCard = ProfileCard(badge: bool, stars: seq<Card.Star>, struckOriginal: bool)

  function CardFor(p: Product): (v: ProfileCard)
    ensures v.badge <==> p.originalPrice > p.price
    ensures v.struckOriginal <==> v.badge
    ensures v.stars == Card.Stars(Card.RoundTenths(p.rating))
  {
    var c := Card.View(p);
    ProfileCard(c.badge, c.stars, c.struckOriginal)
  }

  /** Both past orders were discounted, so both cards carry the badge. */
  lemma PastOrdersShowBadge()
    ensures forall o | o in PastOrders :: CardFor(o.product).badge
  {
  }
}
