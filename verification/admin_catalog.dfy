/**
 * The admin panel's product bookkeeping: adding, editing and deleting products in the stored
 * list, the session state the panel keeps between events, the search filter, the stock label,
 * and the dashboard counts.
 */
module AdminCatalog {
  import opened Wrappers
  import opened Text
  import opened Seqs
  import opened Products
  import opened ProductForm
  import opened Reconcile
  import opened Cart
  import opened LocalStore

  /** `p => p.id != id`, the test `deleteProduct` filters with. */
  function DiffersFrom(id: int): Product -> bool {
    (p: Product) => p.id != id
  }

  /**
   * `deleteProduct`'s new list: exactly the products whose id is not `id`, each as often as
   * before, in their old order.
   */
  function WithoutId(ps: seq<Product>, id: int): (r: seq<Product>)
    ensures id !in Ids(r)
    ensures IsSubseq(r, ps)
    ensures forall p | p in ps :: p in r <==> p.id != id
    ensures forall p | p in ps && p.id != id :: multiset(r)[p] == multiset(ps)[p]
  {
    Filter(ps, DiffersFrom(id))
  }

  /** Deleting an id that no stored product has writes the same list back. */
  lemma DeleteAbsentId(ps: seq<Product>, id: int)
    requires id !in Ids(ps)
    ensures WithoutId(ps, id) == ps
  {
    forall p | p in ps ensures DiffersFrom(id)(p) {
      assert p.id in Ids(ps);
    }
    FilterAll(ps, DiffersFrom(id));
  }

  /** `products.findIndex(p => p.id == id)`, with `None` for -1. */
  function FirstIndexOf(ps: seq<Product>, id: int): (i: Option<nat>)
    ensures i.Some? ==> i.value < |ps| && ps[i.value].id == id
    ensures i.Some? ==> forall j :: 0 <= j < i.value ==> ps[j].id != id
    ensures i.None? <==> id !in Ids(ps)
  {
    if ps == [] then None
    else if ps[0].id == id then Some(0)
    else
      assert Ids(ps) == {ps[0].id} + Ids(ps[1..]) by { IdsCons(ps); }
      match FirstIndexOf(ps[1..], id)
      case None => None
      case Some(k) => Some(k + 1)
  }

  /**
   * `{...products[index], ...productData, updatedAt}`: every form field replaced, the id and the
   * creation time kept, the update time set.
   */
  function Edited(p: Product, data: ProductData, updatedAt: string): (q: Product)
    ensures q.id == p.id && q.createdAt == p.createdAt
    ensures q.data == data && q.updatedAt == Some(updatedAt)
  {
    p.(data := data, updatedAt := Some(updatedAt))
  }

  /**
   * `updateProduct`'s new list: the first product with id `id` edited, every other position as
   * it was; the same list when no product has that id.
   */
  function UpdatedProducts(ps: seq<Product>, id: int, data: ProductData, updatedAt: string): (r: seq<Product>)
    ensures |r| == |ps|
    ensures forall j :: 0 <= j < |ps| ==> r[j].id == ps[j].id && r[j].createdAt == ps[j].createdAt
    ensures id !in Ids(ps) ==> r == ps
  {
    match FirstIndexOf(ps, id)
    case None => ps
    case Some(i) => ps[i := Edited(ps[i], data, updatedAt)]
  }

  /** Only the first product with the id changes; products before it have other ids, products after it are untouched. */
  lemma UpdateOnlyFirstMatch(ps: seq<Product>, id: int, data: ProductData, updatedAt: string)
    requires id in Ids(ps)
    ensures exists i :: (0 <= i < |ps| && ps[i].id == id
      && (forall j :: 0 <= j < i ==> ps[j].id != id)
      && UpdatedProducts(ps, id, data, updatedAt) == ps[i := Edited(ps[i], data, updatedAt)])
  {
    var i := FirstIndexOf(ps, id).value;
    assert UpdatedProducts(ps, id, data, updatedAt) == ps[i := Edited(ps[i], data, updatedAt)];
  }

  /** Editing keeps the ids where they were, so an id-unique list stays id-unique. */
  lemma UpdatePreservesIdUnique(ps: seq<Product>, id: int, data: ProductData, updatedAt: string)
    requires IdUnique(ps)
    ensures IdUnique(UpdatedProducts(ps, id, data, updatedAt))
  {
  }

  /** Deleting keeps an id-unique list id-unique. */
  lemma DeletePreservesIdUnique(ps: seq<Product>, id: int)
    requires IdUnique(ps)
    ensures IdUnique(WithoutId(ps, id))
  {
    FilterIdUnique(ps, DiffersFrom(id));
  }

  /** Appending a product whose id is new keeps an id-unique list id-unique. */
  lemma AddPreservesIdUnique(ps: seq<Product>, p: Product)
    requires IdUnique(ps) && p.id !in Ids(ps)
    ensures IdUnique(ps + [p])
  {
    ConcatIdUnique(ps, [p]);
  }

  /**
   * `addProduct`: the stored list with one product appended, its id `Date.now()` and its creation
   * time the current time, both passed in. A failed write throws and leaves the key as it was.
   */
  method AddProduct(store: Store, data: ProductData, id: int, createdAt: string, writeAccepted: bool)
    returns (o: WriteOutcome)
    modifies store`products
    ensures o == (if writeAccepted then Ok else Fail)
    ensures store.products == if writeAccepted
      then Stored(old(store.LocalProducts()) + [Product(id, data, createdAt, None)])
      else old(store.products)
  {
    var products := store.LocalProducts();
    products := products + [Product(id, data, createdAt, None)];
    o := store.SaveLocalProducts(products, writeAccepted);
  }

  /**
   * `updateProduct`: when a stored product has the id, the first such product is edited and the
   * list saved; when none has it, nothing is written and nothing fails (a product that only
   * exists in the fetched catalogue cannot be edited).
   */
  method UpdateProduct(store: Store, id: int, data: ProductData, updatedAt: string, writeAccepted: bool)
    returns (o: WriteOutcome)
    modifies store`products
    ensures id !in Ids(old(store.LocalProducts())) ==> o == Ok && store.products == old(store.products)
    ensures id in Ids(old(store.LocalProducts())) ==>
      && o == (if writeAccepted then Ok else Fail)
      && store.products == if writeAccepted
        then Stored(UpdatedProducts(old(store.LocalProducts()), id, data, updatedAt))
        else old(store.products)
  {
    var products := store.LocalProducts();
    var index := FirstIndexOf(products, id);
    if index.Some? {
      products := products[index.value := Edited(products[index.value], data, updatedAt)];
      o := store.SaveLocalProducts(products, writeAccepted);
    } else {
      o := Ok;
    }
  }

  /** `deleteProduct`: the list without the products that have the id is always written back. */
  method DeleteProduct(store: Store, id: int, writeAccepted: bool) returns (o: WriteOutcome)
    modifies store`products
    ensures o == (if writeAccepted then Ok else Fail)
    ensures store.products == if writeAccepted
      then Stored(WithoutId(old(store.LocalProducts()), id))
      else old(store.products)
  {
    var products := store.LocalProducts();
    o := store.SaveLocalProducts(WithoutId(products, id), writeAccepted);
  }

  /** `getStockStatus`'s three classes; the low and in-stock labels carry the count. */
  datatype StockStatus = OutOfStock | LowStock(left: int) | InStock(count: int)

  /** `getStockStatus(quantity)` */
  function GetStockStatus(quantity: int): (s: StockStatus)
    ensures s.OutOfStock? <==> quantity == 0
    ensures s.LowStock? ==> s.left == quantity && quantity < 10
    ensures s.InStock? ==> s.count == quantity && quantity >= 10
  {
    if quantity == 0 then OutOfStock
    else if quantity < 10 then LowStock(quantity)
    else InStock(quantity)
  }

  /** How good a status is: out of stock, then low, then in stock. */
  function Rank(s: StockStatus): nat {
    match s
    case OutOfStock => 0
    case LowStock(_) => 1
    case InStock(_) => 2
  }

  /**
   * For counts that are not negative, more stock never gives a worse status; 0, 9 and 10 sit on
   * the three sides of the two thresholds, and 10 is already in stock.
   */
  lemma StockStatusMonotone(a: int, b: int)
    requires 0 <= a <= b
    ensures Rank(GetStockStatus(a)) <= Rank(GetStockStatus(b))
    ensures GetStockStatus(0) == OutOfStock
    ensures GetStockStatus(9) == LowStock(9) && GetStockStatus(10) == InStock(10)
  {
  }

  /** Every count gets exactly one status, which carries the count when it is not out of stock. */
  lemma StockStatusClasses(q: int)
    ensures GetStockStatus(q).OutOfStock? <==> q == 0
    ensures GetStockStatus(q).LowStock? <==> q != 0 && q < 10
    ensures GetStockStatus(q).InStock? <==> q >= 10
    ensures !GetStockStatus(q).OutOfStock? ==> Rank(GetStockStatus(q)) > 0
    ensures q != 0 && q < 10 ==> GetStockStatus(q) == LowStock(q)
    ensures q >= 10 ==> GetStockStatus(q) == InStock(q)
  {
  }

  /** The search test: the lower-cased term occurs in the lower-cased name or description. */
  function MatchesSearch(p: Product, term: string): (b: bool)
    ensures term == "" ==> b
    ensures b ==> |term| <= |p.data.name| || |term| <= |p.data.description|
    ensures b <==> Contains(ToLower(p.data.name), term) || Contains(ToLower(p.data.description), term)
  {
    Contains(ToLower(p.data.name), term) || Contains(ToLower(p.data.description), term)
  }

  function SearchFilter(term: string): Product -> bool {
    (p: Product) => MatchesSearch(p, term)
  }

  function CategoryFilter(category: string): Product -> bool {
    (p: Product) => p.data.category == category
  }

  /** A product is shown when an empty term or category does not filter and a non-empty one matches. */
  predicate Shown(p: Product, term: string, category: string) {
    (term == "" || MatchesSearch(p, term)) && (category == "" || p.data.category == category)
  }

  /**
   * `filterProducts`: the products of the list that match the lower-cased search term (in name or
   * description) and the chosen category, in list order; an empty term or category keeps all.
   */
  function FilterProducts(all: seq<Product>, search: string, category: string): (shown: seq<Product>)
    ensures IsSubseq(shown, all)
    ensures forall p | p in shown :: p in all && Shown(p, ToLower(search), category)
    ensures forall p | p in all && Shown(p, ToLower(search), category) :: p in shown
    ensures forall p | p in all && Shown(p, ToLower(search), category) :: multiset(shown)[p] == multiset(all)[p]
  {
    var term := ToLower(search);
    if term != "" && category != "" then
      FilterFilter(all, SearchFilter(term), CategoryFilter(category));
      Filter(Filter(all, SearchFilter(term)), CategoryFilter(category))
    else if term != "" then Filter(all, SearchFilter(term))
    else if category != "" then Filter(all, CategoryFilter(category))
    else
      SubseqRefl(all);
      all
  }

  /** With an empty search box and no category chosen, every product is shown, in its order. */
  lemma NoFilterShowsAll(all: seq<Product>)
    ensures FilterProducts(all, "", "") == all
  {
  }

  /** The dashboard counts. */
  datatype DashboardStats = DashboardStats(totalProducts: nat, cartItems: int, newsletterSubscribers: nat)

  /**
   * `updateDashboardStats`: the number of stored products, the item count of the cart and the
   * number of subscribers; nothing is updated when the cart or the subscriber list is unreadable.
   */
  function DashboardStatsOf(store: Store): (stats: Option<DashboardStats>)
    reads store
    ensures stats.Some? <==> !store.cart.Corrupt? && !store.subscribers.Corrupt?
    ensures stats.Some? ==> stats.value.totalProducts == |store.LocalProducts()|
    ensures stats.Some? ==> stats.value.cartItems == CartBadge(ReadOrEmpty(store.cart)).count
    ensures stats.Some? ==> stats.value.newsletterSubscribers == |ReadOrEmpty(store.subscribers)|
  {
    match (ParseOrEmpty(store.cart), ParseOrEmpty(store.subscribers))
    case (Some(cart), Some(subscribers)) =>
      Some(DashboardStats(|store.LocalProducts()|, TotalItems(cart), |subscribers|))
    case _ => None
  }

  /** What submitting the product form leads to. */
  datatype SubmitResult = Rejected(message: string) | SaveFailed | Added | Updated

  /**
   * Whether saving the product form writes the stored list: always for a new product, and for the
   * product being edited only when a stored product has its id.
   */
  predicate SubmitWrites(editing: Option<int>, ps: seq<Product>) {
    editing.None? || editing.value in Ids(ps)
  }

  /** The stored list a successful save writes: the edited list, or the list with the new product appended. */
  function SubmittedList(editing: Option<int>, ps: seq<Product>, d: ProductData, now: int, nowIso: string): seq<Product> {
    if editing.Some? then UpdatedProducts(ps, editing.value, d, nowIso) else ps + [Product(now, d, nowIso, None)]
  }

  /** What a save of a valid form reports. */
  function SaveResult(editing: Option<int>, ps: seq<Product>, writeAccepted: bool): SubmitResult {
    if SubmitWrites(editing, ps) && !writeAccepted then SaveFailed
    else if editing.Some? then Updated
    else Added
  }

  /** The panel's module-level state: the merged product list on screen and the id being edited or deleted. */
  class AdminSession {
    var allProducts: seq<Product>
    var currentEditingId: Option<int>

    constructor ()
      ensures allProducts == [] && currentEditingId == None
    {
      allProducts := [];
      currentEditingId := None;
    }

    /** `if (currentEditingId)`: an id is set and, being a number, is not 0. */
    predicate IsEditing()
      reads this
    {
      currentEditingId.Some? && currentEditingId.value != 0
    }

    /** The id `handleFormSubmit` updates, or `None` when it adds a new product. */
    function EditingId(): (id: Option<int>)
      reads this
      ensures id.Some? <==> IsEditing()
      ensures id.Some? ==> id == currentEditingId
    {
      if IsEditing() then currentEditingId else None
    }

    /**
     * `loadProducts`, with the fetched catalogue passed in (empty when the fetch failed): the list
     * on screen becomes the merge of the stored products and the catalogue.
     */
    method LoadProducts(store: Store, remote: seq<Product>)
      modifies this`allProducts
      ensures allProducts == MergeProducts(store.LocalProducts(), remote)
    {
      var localProducts := store.LocalProducts();
      allProducts := MergeProducts(localProducts, remote);
    }

    /** The add button and `hideProductForm`: the form is for a new product again. */
    method ResetEditing()
      modifies this`currentEditingId
      ensures currentEditingId == None
    {
      currentEditingId := None;
    }

    /**
     * `editProduct`: for the first product on screen with the id, the filled-in form and the id
     * being edited; for an unknown id nothing changes.
     */
    method EditProduct(id: int) returns (form: Option<FormInput>)
      modifies this`currentEditingId
      ensures id !in Ids(allProducts) ==> form == None && currentEditingId == old(currentEditingId)
      ensures id in Ids(allProducts) ==>
        && currentEditingId == Some(id)
        && form == Some(EditForm(allProducts[FirstIndexOf(allProducts, id).value].data))
    {
      var index := FirstIndexOf(allProducts, id);
      if index.None? {
        form := None;
      } else {
        form := Some(EditForm(allProducts[index.value].data));
        currentEditingId := Some(id);
      }
    }

    /** `confirmDeleteProduct`: remember the id while the confirmation is open. */
    method ConfirmDeleteProduct(id: int)
      modifies this`currentEditingId
      ensures currentEditingId == Some(id)
    {
      currentEditingId := Some(id);
    }

    /**
     * `deleteProductConfirmed`: delete the remembered product, reload and close the confirmation.
     * A failed write throws before the reload, so only the attempt is made; with no id remembered
     * nothing happens.
     */
    method DeleteProductConfirmed(store: Store, remote: seq<Product>, writeAccepted: bool)
      returns (o: Option<WriteOutcome>)
      modifies this, store`products
      ensures !old(IsEditing()) ==>
        && o == None && store.products == old(store.products)
        && allProducts == old(allProducts) && currentEditingId == old(currentEditingId)
      ensures old(IsEditing()) ==>
        && o == Some(if writeAccepted then Ok else Fail)
        && store.products == (if writeAccepted
             then Stored(WithoutId(old(store.LocalProducts()), old(currentEditingId).value))
             else old(store.products))
        && (writeAccepted ==> allProducts == MergeProducts(store.LocalProducts(), remote) && currentEditingId == None)
        && (!writeAccepted ==> allProducts == old(allProducts) && currentEditingId == old(currentEditingId))
    {
      if IsEditing() {
        var written := DeleteProduct(store, currentEditingId.value, writeAccepted);
        o := Some(written);
        if written == Ok {
          LoadProducts(store, remote);
          currentEditingId := None;
        }
      } else {
        o := None;
      }
    }

    /**
     * The saving step of `handleFormSubmit`: `updateProduct` for the product being edited, or
     * `addProduct` with id `now` and creation time `nowIso`. The session itself is not changed.
     */
    method SaveSubmission(store: Store, d: ProductData, now: int, nowIso: string, writeAccepted: bool)
      returns (r: SubmitResult)
      modifies store`products
      ensures r == SaveResult(EditingId(), old(store.LocalProducts()), writeAccepted)
      ensures store.products == if SubmitWrites(EditingId(), old(store.LocalProducts())) && writeAccepted
        then Stored(SubmittedList(EditingId(), old(store.LocalProducts()), d, now, nowIso))
        else old(store.products)
    {
      var written;
      if IsEditing() {
        written := UpdateProduct(store, currentEditingId.value, d, nowIso, writeAccepted);
        r := Updated;
      } else {
        written := AddProduct(store, d, now, nowIso, writeAccepted);
        r := Added;
      }
      if written == Fail {
        r := SaveFailed;
      }
    }

    /**
     * What `handleFormSubmit` does with valid data: save it, and after a successful save close
     * the form (no id being edited) and reload the list; after a failed write the session is as
     * it was.
     */
    method SaveAndReload(store: Store, d: ProductData, now: int, nowIso: string, remote: seq<Product>,
                         writeAccepted: bool)
      returns (r: SubmitResult)
      modifies this, store`products
      ensures r == SaveResult(old(EditingId()), old(store.LocalProducts()), writeAccepted)
      ensures store.products == if SubmitWrites(old(EditingId()), old(store.LocalProducts())) && writeAccepted
        then Stored(SubmittedList(old(EditingId()), old(store.LocalProducts()), d, now, nowIso))
        else old(store.products)
      ensures r == SaveFailed ==> allProducts == old(allProducts) && currentEditingId == old(currentEditingId)
      ensures r != SaveFailed ==> allProducts == MergeProducts(store.LocalProducts(), remote) && currentEditingId == None
    {
      r := SaveSubmission(store, d, now, nowIso, writeAccepted);
      if r != SaveFailed {
        currentEditingId := None;
        LoadProducts(store, remote);
      }
    }

    /**
     * `handleFormSubmit`: normalise the fields and validate them. A rejected form reports the
     * first failing check and changes nothing; a valid one is saved and the list reloaded.
     */
    method SubmitProduct(store: Store, input: FormInput, isValidUrl: string -> bool,
                         now: int, nowIso: string, remote: seq<Product>, writeAccepted: bool)
      returns (r: SubmitResult)
      modifies this, store`products
      ensures var v := ValidateProductData(NormalizeForm(input), isValidUrl);
        v.Invalid? ==>
          && r == Rejected(v.message) && store.products == old(store.products)
          && allProducts == old(allProducts) && currentEditingId == old(currentEditingId)
      ensures ValidateProductData(NormalizeForm(input), isValidUrl).Valid? ==>
        && r == SaveResult(old(EditingId()), old(store.LocalProducts()), writeAccepted)
        && store.products == if SubmitWrites(old(EditingId()), old(store.LocalProducts())) && writeAccepted
             then Stored(SubmittedList(old(EditingId()), old(store.LocalProducts()), NormalizeForm(input), now, nowIso))
             else old(store.products)
      ensures r == SaveFailed ==> allProducts == old(allProducts) && currentEditingId == old(currentEditingId)
      ensures r.Updated? || r.Added? ==>
        allProducts == MergeProducts(store.LocalProducts(), remote) && currentEditingId == None
    {
      var productData := NormalizeForm(input);
      var validation := ValidateProductData(productData, isValidUrl);
      if validation.Invalid? {
        return Rejected(validation.message);
      }
      r := SaveAndReload(store, productData, now, nowIso, remote, writeAccepted);
    }
  }
}
