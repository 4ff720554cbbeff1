/** Shop orders (backend/controllers/orderController.js): the request
    validator, cash-on-delivery and card orders, the status update of the
    admin page and the card payment's return.  The order store is a map from
    order id to order; the Stripe session and the emptying of the user's cart
    are foreign calls, modelled by what the handler would send. */
module OrderController {
  import opened Common
  import Text

  const DELIVERY_CHARGES: int := 10
  const GUEST: string := "guest"
  const ORDER_PLACED: string := "Order Placed"
  const PAYMENT_PENDING: string := "Payment Pending"

  /** The statuses the admin may set. */
  const VALID_STATUSES: seq<string> := ["Order Placed", "Packing", "Shipped", "Out for Delivery", "Delivered"]

  /** One element of the request's `items` array. */
  datatype ItemIn = ItemIn(productId: JsValue, quantity: JsValue, price: JsValue, name: JsValue)

  /** What `validateOrderData` throws. */
  datatype OrderError =
    | BadItems
    | BadAmount
    | BadAddress
    | BadProductId(index: nat)
    | BadQuantity(index: nat)
    | PriceNotANumber(index: nat)

  function Message(e: OrderError): string {
    match e
    case BadItems => "Order items must be a non-empty array"
    case BadAmount => "Amount must be a positive number"
    case BadAddress => "Address is required"
    case BadProductId(i) => "Item at index " + Text.NatToString(i) + " missing valid productId"
    case BadQuantity(i) => "Item at index " + Text.NatToString(i) + " has invalid quantity"
    case PriceNotANumber(i) =>
      "order validation failed: items." + Text.NatToString(i) + ".price: Cast to Number failed"
  }

  predicate ProductIdOk(it: ItemIn) {
    Truthy(it.productId) && it.productId.Str?
  }

  predicate QuantityOk(it: ItemIn) {
    it.quantity.Num? && it.quantity.n > 0
  }

  predicate ItemOk(it: ItemIn) {
    ProductIdOk(it) && QuantityOk(it)
  }

  /** The request the validator lets through. */
  predicate ValidRequest(items: Option<seq<ItemIn>>, amount: JsValue, address: JsValue) {
    && items.Some? && items.value != []
    && amount.Num? && amount.n > 0
    && Truthy(address) && address.Str?
    && forall i :: 0 <= i < |items.value| ==> ItemOk(items.value[i])
  }

  /** The `forEach` over the items from index `from` on: the first item
      that fails, and which of its two checks failed first. */
  function CheckItems(items: seq<ItemIn>, from: nat): (r: Option<OrderError>)
    requires from <= |items|
    ensures r.None? <==> forall i :: from <= i < |items| ==> ItemOk(items[i])
    ensures r.Some? ==> (r.value.BadProductId? || r.value.BadQuantity?)
    ensures r.Some? ==>
      && from <= r.value.index < |items| && !ItemOk(items[r.value.index])
      && (r.value.BadProductId? <==> !ProductIdOk(items[r.value.index]))
      && forall j :: from <= j < r.value.index ==> ItemOk(items[j])
    decreases |items| - from
  {
    if from == |items| then None
    else if !ProductIdOk(items[from]) then Some(BadProductId(from))
    else if !QuantityOk(items[from]) then Some(BadQuantity(from))
    else CheckItems(items, from + 1)
  }

  /** validateOrderData: the items array, then the amount, then the
      address, then each item in order; the first failure is reported. */
  function ValidateOrderData(items: Option<seq<ItemIn>>, amount: JsValue, address: JsValue)
    : (r: Option<OrderError>)
    ensures r.None? <==> ValidRequest(items, amount, address)
    ensures (items.None? || items.value == []) ==> r == Some(BadItems)
    ensures r == Some(BadAmount) <==>
      items.Some? && items.value != [] && !(amount.Num? && amount.n > 0)
    ensures r == Some(BadAddress) <==>
      items.Some? && items.value != [] && amount.Num? && amount.n > 0 && !(Truthy(address) && address.Str?)
    ensures r.Some? && (r.value.BadProductId? || r.value.BadQuantity?) ==>
      && items.Some? && r.value.index < |items.value| && !ItemOk(items.value[r.value.index])
      && forall j :: 0 <= j < r.value.index ==> ItemOk(items.value[j])
  {
    if items.None? || items.value == [] then Some(BadItems)
    else if !amount.Num? || amount.n <= 0 then Some(BadAmount)
    else if !Truthy(address) || !address.Str? then Some(BadAddress)
    else CheckItems(items.value, 0)
  }

  /** Decimal text that `Number(s)` reads as a number: an optional sign,
      digits, and an optional fraction after a point, with at least one
      digit in all. */
  predicate NumericText(s: string) {
    var body := if |s| > 0 && (s[0] == '-' || s[0] == '+') then s[1..] else s;
    var whole := Text.DigitPrefix(body);
    var rest := body[|whole|..];
    if rest == [] then whole != []
    else rest[0] == '.' && Text.AllDigits(rest[1..]) && (whole != [] || |rest| > 1)
  }

  /** What a `Number` path of the schema can store: a number, a boolean
      (as 0 or 1) or numeric text; anything else fails the cast. */
  predicate NumberCastable(v: JsValue) {
    match v
    case Num(_) => true
    case Bool(_) => true
    case Str(s) => NumericText(s)
    case Undefined => false
  }

  /** `item.price || 0` can be stored: a falsy price becomes 0, any other
      must cast. */
  predicate PriceCasts(it: ItemIn) {
    !Truthy(it.price) || NumberCastable(it.price)
  }

  /** The first item from index `from` on whose price the schema cannot
      cast. */
  function CheckPrices(items: seq<ItemIn>, from: nat): (r: Option<nat>)
    requires from <= |items|
    ensures r.None? <==> forall i :: from <= i < |items| ==> PriceCasts(items[i])
    ensures r.Some? ==>
      && from <= r.value < |items| && !PriceCasts(items[r.value])
      && forall j :: from <= j < r.value ==> PriceCasts(items[j])
    decreases |items| - from
  {
    if from == |items| then None
    else if !PriceCasts(items[from]) then Some(from)
    else CheckPrices(items, from + 1)
  }

  /** A validated request whose items the schema can store. */
  predicate Storable(items: Option<seq<ItemIn>>, amount: JsValue, address: JsValue) {
    ValidRequest(items, amount, address)
    && forall i :: 0 <= i < |items.value| ==> PriceCasts(items.value[i])
  }

  /** Why `create` refuses a request: the validator's error, else the
      schema's cast of the first price that is not a number. */
  function Refusal(items: Option<seq<ItemIn>>, amount: JsValue, address: JsValue): (r: Option<OrderError>)
    ensures r.None? <==> Storable(items, amount, address)
    ensures !ValidRequest(items, amount, address) ==> r == ValidateOrderData(items, amount, address)
    ensures ValidRequest(items, amount, address) && r.Some? ==>
      && r.value.PriceNotANumber? && r.value.index < |items.value|
      && !PriceCasts(items.value[r.value.index])
      && forall j :: 0 <= j < r.value.index ==> PriceCasts(items.value[j])
  {
    match ValidateOrderData(items, amount, address)
    case Some(e) => Some(e)
    case None =>
      match CheckPrices(items.value, 0)
      case Some(i) => Some(PriceNotANumber(i))
      case None => None
  }

  /** An item as stored with the order. */
  datatype OrderItem = OrderItem(productId: string, quantity: int, price: JsValue, name: JsValue)

  datatype Order = Order(
    userId: string,
    items: seq<OrderItem>,
    amount: int,
    address: string,
    paymentMethod: string,
    payment: bool,
    status: string)

  /** `item.price || 0` and `item.name || "Unknown"`; the checked fields
      are kept as they came. */
  function NormaliseItem(it: ItemIn): (r: OrderItem)
    requires ItemOk(it)
    ensures r.productId == it.productId.s && r.quantity == it.quantity.n
    ensures Truthy(it.price) ==> r.price == it.price
    ensures !Truthy(it.price) ==> r.price == Num(0)
    ensures Truthy(it.name) ==> r.name == it.name
    ensures !Truthy(it.name) ==> r.name == Str("Unknown")
  {
    OrderItem(
      it.productId.s,
      it.quantity.n,
      if Truthy(it.price) then it.price else Num(0),
      if Truthy(it.name) then it.name else Str("Unknown"))
  }

  function NormaliseItems(items: seq<ItemIn>): (r: seq<OrderItem>)
    requires forall i :: 0 <= i < |items| ==> ItemOk(items[i])
    ensures |r| == |items|
    ensures forall i :: 0 <= i < |items| ==> r[i] == NormaliseItem(items[i])
  {
    seq(|items|, i requires 0 <= i < |items| => NormaliseItem(items[i]))
  }

  /** A falsy `userId` becomes "guest". */
  function UserIdOr(userId: string): (r: string)
    ensures r != ""
    ensures userId != "" ==> r == userId
  {
    if userId == "" then GUEST else userId
  }

  /** What the order schema requires of a stored order: the strings are
      present, every item has a product, a name and a price that casts to a
      number, and the amount is a positive number. */
  predicate OrderSchemaValid(o: Order) {
    && o.userId != "" && o.address != "" && o.paymentMethod != "" && o.status != ""
    && o.amount > 0
    && forall i :: 0 <= i < |o.items| ==>
         && o.items[i].productId != ""
         && Truthy(o.items[i].name)
         && NumberCastable(o.items[i].price)
         && o.items[i].quantity > 0
  }

  /** A created order and the user whose cart is emptied with it. */
  datatype Placed = Placed(order: Order, clearCartOf: Option<string>)

  /** placeOrder: a valid request becomes a cash-on-delivery order, unpaid,
      "Order Placed", for the amount asked (201); a registered user's cart is
      emptied, a guest's is not.  A request the validator refuses, or whose
      item price the schema cannot cast, is refused (400) with that
      error. */
  function PlaceOrder(userId: string, items: Option<seq<ItemIn>>, amount: JsValue, address: JsValue)
    : (r: Result<Placed, OrderError>)
    ensures r.Err? <==> !Storable(items, amount, address)
    ensures r.Err? ==> Some(r.error) == Refusal(items, amount, address)
    ensures r.Ok? ==>
      && r.value.order.userId == UserIdOr(userId)
      && r.value.order.items == NormaliseItems(items.value)
      && r.value.order.amount == amount.n
      && r.value.order.address == address.s
      && r.value.order.paymentMethod == "COD"
      && !r.value.order.payment
      && r.value.order.status == ORDER_PLACED
      && (r.value.clearCartOf.Some? <==> UserIdOr(userId) != GUEST)
      && (r.value.clearCartOf.Some? ==> r.value.clearCartOf.value == userId)
  {
    var uid := UserIdOr(userId);
    match Refusal(items, amount, address)
    case Some(e) => Err(e)
    case None =>
      var order := Order(uid, NormaliseItems(items.value), amount.n, address.s, "COD", false, ORDER_PLACED);
      Ok(Placed(order, if uid != GUEST then Some(uid) else None))
  }

  /** placeOrderStripe: the same validation and item defaults, but the
      stored amount includes the delivery charges and the order waits for
      payment.  A refusal, the validator's or the schema's, is a 500
      here. */
  function PlaceOrderStripe(userId: string, items: Option<seq<ItemIn>>, amount: JsValue, address: JsValue)
    : (r: Result<Order, OrderError>)
    ensures r.Err? <==> !Storable(items, amount, address)
    ensures r.Err? ==> Some(r.error) == Refusal(items, amount, address)
    ensures r.Ok? ==>
      && r.value.userId == UserIdOr(userId)
      && r.value.items == NormaliseItems(items.value)
      && r.value.amount == amount.n + DELIVERY_CHARGES
      && r.value.address == address.s
      && r.value.paymentMethod == "Stripe"
      && !r.value.payment
      && r.value.status == PAYMENT_PENDING
  {
    match Refusal(items, amount, address)
    case Some(e) => Err(e)
    case None =>
      Ok(Order(UserIdOr(userId), NormaliseItems(items.value), amount.n + DELIVERY_CHARGES, address.s,
               "Stripe", false, PAYMENT_PENDING))
  }

  /** Every order either handler creates passes the order schema. */
  lemma PlacedOrdersSchemaValid(userId: string, items: Option<seq<ItemIn>>, amount: JsValue, address: JsValue)
    ensures PlaceOrder(userId, items, amount, address).Ok? ==>
      OrderSchemaValid(PlaceOrder(userId, items, amount, address).value.order)
    ensures PlaceOrderStripe(userId, items, amount, address).Ok? ==>
      OrderSchemaValid(PlaceOrderStripe(userId, items, amount, address).value)
  {
    if Storable(items, amount, address) {
      var its := NormaliseItems(items.value);
      forall i | 0 <= i < |its|
        ensures its[i].productId != "" && Truthy(its[i].name) && NumberCastable(its[i].price)
      {
        assert ItemOk(items.value[i]) && PriceCasts(items.value[i]);
      }
    }
  }

  /** A price sent as text is stored when it reads as a number and refused
      otherwise, although the validator lets both through. */
  lemma TextPrices()
    ensures PlaceOrder("", Some([ItemIn(Str("p1"), Num(1), Str("abc"), Undefined)]), Num(5), Str("x"))
      == Err(PriceNotANumber(0))
    ensures PlaceOrder("", Some([ItemIn(Str("p1"), Num(1), Str("12.5"), Undefined)]), Num(5), Str("x")).Ok?
  {
    var abc := Str("abc").s;
    assert Text.DigitPrefix(abc) == [];
    var price := Str("12.5").s;
    assert price[2..] == ".5" && price[3..] == "5";
    assert Text.DigitPrefix(price[2..]) == [];
    assert Text.DigitPrefix(price) == "12";
  }

  /** The two ways of ordering accept the same requests and store the same
      order but for the delivery charges, the payment method and the
      status. */
  lemma StripeAndCodAgree(userId: string, items: Option<seq<ItemIn>>, amount: JsValue, address: JsValue)
    ensures PlaceOrder(userId, items, amount, address).Ok? <==>
      PlaceOrderStripe(userId, items, amount, address).Ok?
    ensures PlaceOrder(userId, items, amount, address).Ok? ==>
      var cod := PlaceOrder(userId, items, amount, address).value.order;
      var card := PlaceOrderStripe(userId, items, amount, address).value;
      card == cod.(amount := cod.amount + DELIVERY_CHARGES, paymentMethod := "Stripe", status := PAYMENT_PENDING)
  {
  }

  type Store = map<string, Order>

  /** updateStatus: a missing field or a status outside the five is a 400,
      an unknown order a 404, and the store changes only on a 200, where the
      one order takes the new status. */
  function UpdateStatus(store: Store, orderId: string, status: string): (r: (nat, Store))
    ensures r.0 == 400 <==> orderId == "" || status !in VALID_STATUSES
    ensures r.0 == 404 <==> orderId != "" && status in VALID_STATUSES && orderId !in store
    ensures r.0 == 200 <==> orderId != "" && status in VALID_STATUSES && orderId in store
    ensures r.0 != 200 ==> r.1 == store
    ensures r.0 == 200 ==> r.1 == store[orderId := store[orderId].(status := status)]
  {
    if orderId == "" || status == "" then (400, store)
    else if status !in VALID_STATUSES then (400, store)
    else if orderId !in store then (404, store)
    else (200, store[orderId := store[orderId].(status := status)])
  }

  /** An update keeps every stored status among the five and "Payment
      Pending". */
  lemma UpdateStatusKeepsStatuses(store: Store, orderId: string, status: string)
    requires forall id :: id in store ==> store[id].status in VALID_STATUSES + [PAYMENT_PENDING]
    ensures var s := UpdateStatus(store, orderId, status).1;
      forall id :: id in s ==> s[id].status in VALID_STATUSES + [PAYMENT_PENDING]
  {
  }

  /** The outcome of verifyStripe: the status code, the `success` flag of
      the reply, the new store and whose cart is emptied. */
  datatype Verified = Verified(code: nat, success: bool, store: Store, clearCartOf: Option<string>)

  /** verifyStripe: only the exact string "true" marks the order paid and
      "Order Placed" (an unknown order is then an error); anything else
      deletes the order, whether or not it exists. */
  function VerifyStripe(store: Store, orderId: string, success: JsValue): (r: Verified)
    ensures orderId == "" ==> r.code == 500 && r.store == store && r.clearCartOf.None?
    ensures orderId != "" && success != Str("true") ==>
      r.code == 200 && !r.success && r.store == store - {orderId} && r.clearCartOf.None?
    ensures orderId != "" && success == Str("true") && orderId !in store ==>
      r.code == 500 && r.store == store && r.clearCartOf.None?
    ensures orderId != "" && success == Str("true") && orderId in store ==>
      && r.code == 200 && r.success
      && r.store == store[orderId := store[orderId].(payment := true, status := ORDER_PLACED)]
      && (r.clearCartOf.Some? <==> store[orderId].userId != GUEST)
      && (r.clearCartOf.Some? ==> r.clearCartOf.value == store[orderId].userId)
    ensures r.success ==> r.code == 200
  {
    if orderId == "" then Verified(500, false, store, None)
    else if success == Str("true") then
      if orderId !in store then Verified(500, false, store, None)
      else
        var o := store[orderId].(payment := true, status := ORDER_PLACED);
        Verified(200, true, store[orderId := o], if o.userId != GUEST then Some(o.userId) else None)
    else Verified(200, false, store - {orderId}, None)
  }

  /** A card order, once paid, is the cash-on-delivery order of the same
      request, paid, with the delivery charges and the card as its method. */
  lemma PaidCardOrderIsPlaced(
    store: Store, orderId: string, userId: string, items: Option<seq<ItemIn>>, amount: JsValue, address: JsValue)
    requires orderId != ""
    requires PlaceOrderStripe(userId, items, amount, address).Ok?
    requires orderId in store && store[orderId] == PlaceOrderStripe(userId, items, amount, address).value
    ensures var cod := PlaceOrder(userId, items, amount, address).value.order;
      VerifyStripe(store, orderId, Str("true")).store[orderId]
        == cod.(amount := cod.amount + DELIVERY_CHARGES, paymentMethod := "Stripe", payment := true)
    ensures VerifyStripe(store, orderId, Str("true")).clearCartOf
      == PlaceOrder(userId, items, amount, address).value.clearCartOf
  {
    StripeAndCodAgree(userId, items, amount, address);
  }
}
