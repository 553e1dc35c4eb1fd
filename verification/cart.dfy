/** Cart lines as the storefront keeps them under the `cart` key, and the item count shown for them. */
module Cart {
  import opened Wrappers

  /** One line per product: the product id taken from the button's data attribute, a count, and the time of the first add. */
  datatype CartLine = CartLine(productId: string, quantity: int, addedAt: string)

  /** `cart.reduce((sum, item) => sum + item.quantity, 0)`, folding from the left. */
  function TotalItems(cart: seq<CartLine>): (total: int)
    ensures (forall i :: 0 <= i < |cart| ==> cart[i].quantity >= 0) ==> total >= 0
  {
    if cart == [] then 0 else TotalItems(cart[..|cart| - 1]) + cart[|cart| - 1].quantity
  }

  /** The count of a concatenation is the sum of the counts. */
  lemma {:induction false} TotalItemsConcat(a: seq<CartLine>, b: seq<CartLine>)
    ensures TotalItems(a + b) == TotalItems(a) + TotalItems(b)
    decreases |b|
  {
    if b != [] {
      assert (a + b)[..|a + b| - 1] == a + b[..|b| - 1];
      TotalItemsConcat(a, b[..|b| - 1]);
    } else {
      assert a + b == a;
    }
  }

  /** Every line counts at least one item and no two lines share a product id. */
  predicate CartValid(cart: seq<CartLine>) {
    && (forall i :: 0 <= i < |cart| ==> cart[i].quantity >= 1)
    && (forall i, j :: 0 <= i < j < |cart| ==> cart[i].productId != cart[j].productId)
  }

  /** `cart.find(item => item.productId === productId)`, as the index of the first such line. */
  function FindLine(cart: seq<CartLine>, productId: string): (i: Option<nat>)
    ensures i.Some? ==> i.value < |cart| && cart[i.value].productId == productId
    ensures i.Some? ==> forall j :: 0 <= j < i.value ==> cart[j].productId != productId
    ensures i.None? ==> forall j :: 0 <= j < |cart| ==> cart[j].productId != productId
  {
    if cart == [] then None
    else if cart[0].productId == productId then Some(0)
    else match FindLine(cart[1..], productId)
      case None => None
      case Some(k) => Some(k + 1)
  }

  /**
   * The cart after one add-to-cart, line by line: the first line for the product counts one more,
   * and when there is none a new line with one item and time `now` goes at the end.
   */
  function CartAdd(cart: seq<CartLine>, productId: string, now: string): (r: seq<CartLine>)
    ensures |cart| <= |r| <= |cart| + 1
    ensures forall j :: 0 <= j < |cart| ==> r[j].productId == cart[j].productId
  {
    if cart == [] then [CartLine(productId, 1, now)]
    else if cart[0].productId == productId then
      [cart[0].(quantity := cart[0].quantity + 1)] + cart[1..]
    else [cart[0]] + CartAdd(cart[1..], productId, now)
  }

  /** When the product has a line, only that line changes, and only its quantity, by one. */
  lemma {:induction false} CartAddExisting(cart: seq<CartLine>, productId: string, now: string, i: nat)
    requires i < |cart| && cart[i].productId == productId
    requires forall j :: 0 <= j < i ==> cart[j].productId != productId
    ensures CartAdd(cart, productId, now) == cart[i := cart[i].(quantity := cart[i].quantity + 1)]
  {
    if i > 0 {
      CartAddExisting(cart[1..], productId, now, i - 1);
      assert cart[1..][i - 1 := cart[i].(quantity := cart[i].quantity + 1)]
          == cart[i := cart[i].(quantity := cart[i].quantity + 1)][1..];
    }
  }

  /** When the product has no line, a new one is appended after the unchanged lines. */
  lemma {:induction false} CartAddNew(cart: seq<CartLine>, productId: string, now: string)
    requires forall j :: 0 <= j < |cart| ==> cart[j].productId != productId
    ensures CartAdd(cart, productId, now) == cart + [CartLine(productId, 1, now)]
  {
    if cart != [] {
      CartAddNew(cart[1..], productId, now);
      assert cart == [cart[0]] + cart[1..];
    }
  }

  /** Adding to a valid cart gives a valid cart. */
  lemma CartAddValid(cart: seq<CartLine>, productId: string, now: string)
    requires CartValid(cart)
    ensures CartValid(CartAdd(cart, productId, now))
  {
    match FindLine(cart, productId)
    case Some(i) => CartAddExisting(cart, productId, now, i);
    case None => CartAddNew(cart, productId, now);
  }

  /** The count of a cart is the count before a line, that line's quantity, and the count after it. */
  lemma TotalItemsAround(before: seq<CartLine>, line: CartLine, after: seq<CartLine>)
    ensures TotalItems(before + [line] + after) == TotalItems(before) + line.quantity + TotalItems(after)
  {
    TotalItemsConcat(before + [line], after);
    TotalItemsConcat(before, [line]);
    assert TotalItems([line]) == line.quantity by {
      assert [line][..0] == [];
    }
  }

  /** Raising the quantity of the first line for the product raises the count by one. */
  lemma CartAddExistingTotal(cart: seq<CartLine>, productId: string, now: string, i: nat)
    requires i < |cart| && cart[i].productId == productId
    requires forall j :: 0 <= j < i ==> cart[j].productId != productId
    ensures TotalItems(CartAdd(cart, productId, now)) == TotalItems(cart) + 1
  {
    CartAddExisting(cart, productId, now, i);
    var line := cart[i].(quantity := cart[i].quantity + 1);
    var before, after := cart[..i], cart[i + 1..];
    assert cart == before + [cart[i]] + after;
    assert cart[i := line] == before + [line] + after;
    TotalItemsAround(before, cart[i], after);
    TotalItemsAround(before, line, after);
  }

  /** Every add-to-cart raises the item count by exactly one. */
  lemma CartAddTotal(cart: seq<CartLine>, productId: string, now: string)
    ensures TotalItems(CartAdd(cart, productId, now)) == TotalItems(cart) + 1
  {
    match FindLine(cart, productId)
    case Some(i) =>
      CartAddExistingTotal(cart, productId, now, i);
    case None =>
      CartAddNew(cart, productId, now);
      TotalItemsConcat(cart, [CartLine(productId, 1, now)]);
  }

  /** Adding the same product twice to an empty cart gives one line of two, dated by the first add. */
  lemma AddTwiceFromEmpty(productId: string, first: string, second: string)
    ensures CartAdd(CartAdd([], productId, first), productId, second) == [CartLine(productId, 2, first)]
  {
  }

  /** In a valid cart the item count is at least the number of lines. */
  lemma {:induction false} TotalAtLeastLines(cart: seq<CartLine>)
    requires forall i :: 0 <= i < |cart| ==> cart[i].quantity >= 1
    ensures TotalItems(cart) >= |cart|
  {
    if cart != [] {
      TotalAtLeastLines(cart[..|cart| - 1]);
    }
  }

  /** The cart counter: the item count, hidden when it is zero. */
  datatype Badge = Badge(count: int, hidden: bool)

  function CartBadge(cart: seq<CartLine>): (b: Badge)
    ensures b.count == TotalItems(cart)
    ensures b.hidden <==> b.count == 0
  {
    var total := TotalItems(cart);
    Badge(total, total == 0)
  }

  /** For a valid cart the counter is hidden exactly when the cart has no lines. */
  lemma BadgeHiddenIffEmpty(cart: seq<CartLine>)
    requires CartValid(cart)
    ensures CartBadge(cart).hidden <==> cart == []
  {
    TotalAtLeastLines(cart);
  }
}
