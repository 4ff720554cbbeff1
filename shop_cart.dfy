/** The shop front's cart (frontend/src/context/ShopContext.jsx): an object
    from item id to either a plain quantity (a catalogue product) or a
    traditional-sweet record carrying its own price and quantity.  Every
    updater returns a new object; the catalogue is a parameter. */
module ShopCart {
  import opened Common
  import opened JsObject
  import Text

  /** A catalogue product as the product list returns it. */
  datatype Product = Product(id: string, name: string, category: string, price: int, image: seq<string>)

  /** The product data given with a traditional sweet (`productData`);
      each field may be missing. */
  datatype SweetData = SweetData(name: Option<string>, price: Option<int>, weight: Option<string>)

  /** A cart value: a quantity, or the sweet's data spread with a quantity. */
  datatype Entry = Qty(n: int) | Sweet(data: SweetData, quantity: int)

  type Cart = Obj<Entry>

  const TRADITIONAL_PREFIX: string := "traditional_"

  /** `products.find((p) => p._id === id)` */
  function FindProduct(products: seq<Product>, id: string): (r: Option<Product>)
    ensures r.Some? ==> r.value in products && r.value.id == id
    ensures r.None? <==> forall i :: 0 <= i < |products| ==> products[i].id != id
  {
    if products == [] then None
    else if products[0].id == id then Some(products[0])
    else FindProduct(products[1..], id)
  }

  /** `prev[itemId]?.quantity || 0`: a plain number has no `quantity`. */
  function PreviousSweetQuantity(e: Option<Entry>): int {
    match e
    case Some(Sweet(_, q)) => q
    case _ => 0
  }

  /** `prev[itemId] || 0` on a key that does not hold a sweet. */
  function PreviousQuantity(e: Option<Entry>): int {
    match e
    case Some(Qty(n)) => n
    case _ => 0
  }

  /** `cart[k]` is truthy: a sweet is an object, a number counts unless it
      is 0. */
  predicate EntryTruthy(e: Option<Entry>) {
    e.Some? && (e.value.Sweet? || e.value.n != 0)
  }

  predicate HoldsSweet(cart: Cart, k: string) {
    Get(cart, k).Some? && Get(cart, k).value.Sweet?
  }

  /** addToCart: with product data the key holds that data and the old
      sweet quantity plus `quantity`; without, the old number plus
      `quantity`.  Every other key keeps its value and place. */
  function AddToCart(cart: Cart, k: string, quantity: int, productData: Option<SweetData>): (r: Cart)
    requires productData.None? ==> !HoldsSweet(cart, k)
    ensures productData.Some? ==>
      Get(r, k) == Some(Sweet(productData.value, PreviousSweetQuantity(Get(cart, k)) + quantity))
    ensures productData.None? ==> Get(r, k) == Some(Qty(PreviousQuantity(Get(cart, k)) + quantity))
    ensures forall k' :: k' != k ==> Get(r, k') == Get(cart, k')
    ensures k in Keys(cart) ==> Keys(r) == Keys(cart)
    ensures k !in Keys(cart) ==> Keys(r) == Keys(cart) + [k]
  {
    var e := match productData
      case Some(d) => Sweet(d, PreviousSweetQuantity(Get(cart, k)) + quantity)
      case None => Qty(PreviousQuantity(Get(cart, k)) + quantity);
    SetGet(cart, k, e);
    SetKeys(cart, k, e);
    Set(cart, k, e)
  }

  /** updateQuantity: a quantity of 0 or less deletes the key; otherwise a
      sweet keeps its data with the new quantity and anything else becomes
      the number.  Every other key keeps its value. */
  function UpdateQuantity(cart: Cart, k: string, quantity: int): (r: Cart)
    ensures quantity <= 0 ==> Get(r, k).None?
    ensures quantity > 0 && HoldsSweet(cart, k) ==>
      Get(r, k) == Some(Sweet(Get(cart, k).value.data, quantity))
    ensures quantity > 0 && !HoldsSweet(cart, k) ==> Get(r, k) == Some(Qty(quantity))
    ensures forall k' :: k' != k ==> Get(r, k') == Get(cart, k')
  {
    if quantity <= 0 then
      DeleteGet(cart, k);
      Delete(cart, k)
    else
      var e := if HoldsSweet(cart, k) then Sweet(Get(cart, k).value.data, quantity) else Qty(quantity);
      SetGet(cart, k, e);
      Set(cart, k, e)
  }

  /** clearCart */
  function ClearCart(): (r: Cart)
    ensures forall k :: Get(r, k).None?
  {
    []
  }

  /** Every updater keeps the keys unique. */
  lemma UpdatersKeepKeysUnique(cart: Cart, k: string, quantity: int, productData: Option<SweetData>)
    requires UniqueKeys(cart)
    ensures productData.None? && !HoldsSweet(cart, k) ==> UniqueKeys(AddToCart(cart, k, quantity, productData))
    ensures productData.Some? ==> UniqueKeys(AddToCart(cart, k, quantity, productData))
    ensures UniqueKeys(UpdateQuantity(cart, k, quantity))
  {
    var e := match productData
      case Some(d) => Sweet(d, PreviousSweetQuantity(Get(cart, k)) + quantity)
      case None => Qty(PreviousQuantity(Get(cart, k)) + quantity);
    SetUnique(cart, k, e);
    if quantity <= 0 {
      DeleteUnique(cart, k);
    } else {
      SetUnique(cart, k, if HoldsSweet(cart, k) then Sweet(Get(cart, k).value.data, quantity) else Qty(quantity));
    }
  }

  /** One value's share of getCartCount. */
  function CountOf(k: string, e: Entry): int {
    match e
    case Qty(n) => n
    case Sweet(_, q) => q
  }

  /** getCartCount: the quantities of both kinds of entry, summed. */
  function GetCartCount(cart: Cart): int {
    SumBy(cart, CountOf)
  }

  /** Adding `quantity` of an item, of the kind the key already holds (or
      to a new key), raises the count by exactly `quantity`. */
  lemma CountAfterAdd(cart: Cart, k: string, quantity: int, productData: Option<SweetData>)
    requires UniqueKeys(cart)
    requires Get(cart, k).None? || HoldsSweet(cart, k) == productData.Some?
    ensures GetCartCount(AddToCart(cart, k, quantity, productData)) == GetCartCount(cart) + quantity
  {
    var e := match productData
      case Some(d) => Sweet(d, PreviousSweetQuantity(Get(cart, k)) + quantity)
      case None => Qty(PreviousQuantity(Get(cart, k)) + quantity);
    SumSet(cart, k, e, CountOf);
  }

  /** Setting a quantity replaces the item's share of the count, and a
      removal takes it away. */
  lemma CountAfterUpdate(cart: Cart, k: string, quantity: int)
    requires UniqueKeys(cart)
    ensures GetCartCount(UpdateQuantity(cart, k, quantity))
      == GetCartCount(cart) - Contribution(cart, k, CountOf) + (if quantity > 0 then quantity else 0)
  {
    if quantity <= 0 {
      SumDelete(cart, k, CountOf);
    } else {
      var e := if HoldsSweet(cart, k) then Sweet(Get(cart, k).value.data, quantity) else Qty(quantity);
      SumSet(cart, k, e, CountOf);
    }
  }

  /** One value's share of getCartAmount: a sweet with a price counts its
      quantity times that price; a number counts only when the product is
      in the catalogue. */
  function AmountOf(products: seq<Product>, k: string, e: Entry): int {
    match e
    case Sweet(d, q) => if d.price.Some? then q * d.price.value else 0
    case Qty(n) =>
      match FindProduct(products, k)
      case Some(p) => n * p.price
      case None => 0
  }

  function GetCartAmount(cart: Cart, products: seq<Product>): int {
    SumBy(cart, (k, e) => AmountOf(products, k, e))
  }

  /** A quantity of a product missing from the catalogue adds nothing to
      the amount, however large. */
  lemma UnknownProductAddsNothing(cart: Cart, products: seq<Product>, k: string, n: int)
    requires UniqueKeys(cart) && !HoldsSweet(cart, k)
    requires FindProduct(products, k).None?
    ensures GetCartAmount(AddToCart(cart, k, n, None), products) == GetCartAmount(cart, products)
  {
    var e := Qty(PreviousQuantity(Get(cart, k)) + n);
    SumSet(cart, k, e, (k', e') => AmountOf(products, k', e'));
  }

  /** Adding `n` of a catalogue product raises the amount by `n` times its
      price. */
  lemma KnownProductAddsPrice(cart: Cart, products: seq<Product>, k: string, n: int)
    requires UniqueKeys(cart) && !HoldsSweet(cart, k)
    requires FindProduct(products, k).Some?
    ensures GetCartAmount(AddToCart(cart, k, n, None), products)
      == GetCartAmount(cart, products) + n * FindProduct(products, k).value.price
  {
    var e := Qty(PreviousQuantity(Get(cart, k)) + n);
    var f := (k', e') => AmountOf(products, k', e');
    SumSet(cart, k, e, f);
    var p := FindProduct(products, k).value.price;
    assert (PreviousQuantity(Get(cart, k)) + n) * p == PreviousQuantity(Get(cart, k)) * p + n * p;
  }

  /** One key's share of getCartTypesCount: `cartItems[key] > 0` holds for
      a positive number only; a sweet object compares false. */
  function TypeOf(k: string, e: Entry): int {
    if e.Qty? && e.n > 0 then 1 else 0
  }

  /** getCartTypesCount: how many keys hold a positive number. */
  function GetCartTypesCount(cart: Cart): int {
    SumBy(cart, TypeOf)
  }

  lemma {:induction false} TypesCountBounds(cart: Cart)
    ensures 0 <= GetCartTypesCount(cart) <= |cart|
  {
    if cart != [] {
      TypesCountBounds(cart[1..]);
    }
  }

  /** Sweets never count as a type: adding one under a new key leaves the
      types count as it was. */
  lemma SweetNotAType(cart: Cart, k: string, d: SweetData)
    requires UniqueKeys(cart) && Get(cart, k).None?
    ensures GetCartTypesCount(AddToCart(cart, k, 1, Some(d))) == GetCartTypesCount(cart)
  {
    SumSet(cart, k, Sweet(d, 1), TypeOf);
  }

  /** isTraditionalItem */
  predicate IsTraditionalItem(k: string) {
    Text.StartsWith(k, TRADITIONAL_PREFIX)
  }

  /** addTraditionalSweet: the id is the prefix, the time stamp and a random
      suffix, and the sweet is added once under it. */
  function AddTraditionalSweet(cart: Cart, d: SweetData, stamp: string, suffix: string): (r: (Cart, string))
    ensures IsTraditionalItem(r.1)
    ensures Get(r.0, r.1) == Some(Sweet(d, PreviousSweetQuantity(Get(cart, r.1)) + 1))
    ensures forall k' :: k' != r.1 ==> Get(r.0, k') == Get(cart, k')
  {
    var id := TRADITIONAL_PREFIX + stamp + "_" + suffix;
    assert id[..|TRADITIONAL_PREFIX|] == TRADITIONAL_PREFIX;
    (AddToCart(cart, id, 1, Some(d)), id)
  }
}
