/** The storefront's cart handling: the add-to-cart button and the cart counter. */
module Storefront {
  import opened Wrappers
  import opened Cart
  import opened LocalStore

  /**
   * `addToCart`: read the cart, count one more of the product on its line or append a new line
   * dated `now`, and write the cart back. An unreadable cart or a refused write is caught and
   * logged, and the stored cart stays as it was.
   */
  method AddToCart(store: Store, productId: string, now: string, writeAccepted: bool) returns (added: bool)
    modifies store`cart
    ensures added <==> !old(store.cart).Corrupt? && writeAccepted
    ensures added ==> store.cart == Stored(CartAdd(ReadOrEmpty(old(store.cart)), productId, now))
    ensures !added ==> store.cart == old(store.cart)
  {
    var parsed := ParseOrEmpty(store.cart);
    if parsed.None? {
      return false;
    }
    var cart := parsed.value;
    ghost var before := cart;
    var existing := FindLine(cart, productId);
    if existing.Some? {
      var i := existing.value;
      cart := cart[i := cart[i].(quantity := cart[i].quantity + 1)];
      CartAddExisting(before, productId, now, i);
    } else {
      cart := cart + [CartLine(productId, 1, now)];
      CartAddNew(before, productId, now);
    }
    var written := store.SaveCart(cart, writeAccepted);
    added := written == Ok;
  }

  /** `updateCartCount`: the counter for the stored cart, or no update when the cart is unreadable. */
  function CartCount(store: Store): (badge: Option<Badge>)
    reads store
    ensures badge.None? <==> store.cart.Corrupt?
    ensures badge.Some? ==> badge.value == CartBadge(ReadOrEmpty(store.cart))
  {
    match ParseOrEmpty(store.cart)
    case None => None
    case Some(cart) => Some(CartBadge(cart))
  }
}
