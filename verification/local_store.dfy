/**
 * The browser's `localStorage` as the store's code uses it: three keys, `products`, `cart` and
 * `newsletter-subscribers`, each holding a JSON list, read back fail-soft and written fail-loud.
 */
module LocalStore {
  import opened Wrappers
  import opened Products
  import opened Cart

  /** What a key holds: nothing, text that does not parse as a list, or a list. */
  datatype Slot<T> = Missing | Corrupt | Stored(items: seq<T>)

  /** `getLocalProducts`: a missing key and an unreadable value both read as the empty list. */
  function ReadOrEmpty<T>(slot: Slot<T>): (items: seq<T>)
    ensures slot.Stored? ==> items == slot.items
    ensures !slot.Stored? ==> items == []
  {
    if slot.Stored? then slot.items else []
  }

  /**
   * `JSON.parse(localStorage.getItem(key)) || []`: a missing key reads as the empty list and an
   * unreadable value throws (`None`).
   */
  function ParseOrEmpty<T>(slot: Slot<T>): (r: Option<seq<T>>)
    ensures r.None? <==> slot.Corrupt?
    ensures r.Some? ==> r.value == ReadOrEmpty(slot)
  {
    match slot
    case Missing => Some([])
    case Corrupt => None
    case Stored(items) => Some(items)
  }

  /** Whether a `setItem` went through or threw (for instance over quota). */
  datatype WriteOutcome = Ok | Fail

  class Store {
    var products: Slot<Product>
    var cart: Slot<CartLine>
    var subscribers: Slot<string>

    constructor (products: Slot<Product>, cart: Slot<CartLine>, subscribers: Slot<string>)
      ensures this.products == products && this.cart == cart && this.subscribers == subscribers
    {
      this.products := products;
      this.cart := cart;
      this.subscribers := subscribers;
    }

    /** `getLocalProducts` */
    function LocalProducts(): (ps: seq<Product>)
      reads this
      ensures products.Stored? ==> ps == products.items
      ensures !products.Stored? ==> ps == []
    {
      ReadOrEmpty(products)
    }

    /**
     * `saveLocalProducts`: on success the key holds `ps` and reads back as `ps`; on failure it
     * throws and the key keeps its old value. `writeAccepted` is the browser's verdict.
     */
    method SaveLocalProducts(ps: seq<Product>, writeAccepted: bool) returns (o: WriteOutcome)
      modifies this`products
      ensures o == (if writeAccepted then Ok else Fail)
      ensures products == (if writeAccepted then Stored(ps) else old(products))
      ensures writeAccepted ==> LocalProducts() == ps
    {
      if writeAccepted {
        products := Stored(ps);
        o := Ok;
      } else {
        o := Fail;
      }
    }

    /** `localStorage.setItem('cart', ...)` */
    method SaveCart(lines: seq<CartLine>, writeAccepted: bool) returns (o: WriteOutcome)
      modifies this`cart
      ensures o == (if writeAccepted then Ok else Fail)
      ensures cart == (if writeAccepted then Stored(lines) else old(cart))
    {
      if writeAccepted {
        cart := Stored(lines);
        o := Ok;
      } else {
        o := Fail;
      }
    }

    /** `localStorage.setItem('newsletter-subscribers', ...)` */
    method SaveSubscribers(emails: seq<string>, writeAccepted: bool) returns (o: WriteOutcome)
      modifies this`subscribers
      ensures o == (if writeAccepted then Ok else Fail)
      ensures subscribers == (if writeAccepted then Stored(emails) else old(subscribers))
    {
      if writeAccepted {
        subscribers := Stored(emails);
        o := Ok;
      } else {
        o := Fail;
      }
    }
  }
}
