/** The server-side cart (backend/controllers/cartController.js): a user's
    `cartData` maps an item id to an object from colour to count, and the
    handlers change it in place before writing the user back.  Every thrown
    error becomes a 500; success is a 200.  The user lookup is done by the
    caller: a handler receives the user, or `null` when the id is unknown. */
module ServerCart {
  import opened Common

  type CartData = map<string, map<string, int>>

  /** `cartData[itemId][color]`, 0 when either level is missing. */
  function Count(cart: CartData, item: string, color: string): int {
    if item in cart && color in cart[item] then cart[item][color] else 0
  }

  /** What the handlers keep true: every count is positive and no item is
      left without a colour. */
  predicate WellFormed(cart: CartData) {
    forall item :: item in cart ==>
      cart[item] != map[] && forall color :: color in cart[item] ==> cart[item][color] > 0
  }

  /** validateCartData: `userId`, `itemId` and `color` must all be truthy,
      and `color` must be a string. */
  function ValidateCartData(userId: JsValue, itemId: JsValue, color: JsValue): (err: Option<string>)
    ensures err.None? <==> Truthy(userId) && Truthy(itemId) && Truthy(color) && color.Str?
  {
    if !Truthy(userId) || !Truthy(itemId) || !Truthy(color) then
      Some("Missing required cart fields (userId, itemId, color)")
    else if !color.Str? then Some("Color must be a string")
    else None
  }

  class User {
    /** `undefined` until the first cart write. */
    var cartData: Option<CartData>

    constructor (cartData: Option<CartData>)
      ensures this.cartData == cartData
    {
      this.cartData := cartData;
    }

    function Cart(): CartData
      reads this
    {
      cartData.GetOr(map[])
    }
  }

  /** addToCart: missing levels are created and the count for the item and
      colour goes up by exactly one; every other count and item stays. */
  method AddToCart(user: User?, userId: string, itemId: string, color: JsValue) returns (status: nat)
    modifies user
    ensures status == 200 <==>
      ValidateCartData(Str(userId), Str(itemId), color).None? && user != null
    ensures status != 200 ==> status == 500 && (user != null ==> unchanged(user))
    ensures status == 200 ==>
      && user.cartData.Some?
      && Count(user.Cart(), itemId, color.s) == Count(old(user.Cart()), itemId, color.s) + 1
      && (forall i, c :: (i != itemId || c != color.s) ==>
            Count(user.Cart(), i, c) == Count(old(user.Cart()), i, c))
      && user.Cart().Keys == old(user.Cart()).Keys + {itemId}
      && (old(WellFormed(user.Cart())) ==> WellFormed(user.Cart()))
  {
    if ValidateCartData(Str(userId), Str(itemId), color).Some? {
      return 500;
    }
    if user == null {
      return 500;
    }
    var cartData := user.cartData.GetOr(map[]);
    if itemId !in cartData {
      cartData := cartData[itemId := map[]];
    }
    if color.s !in cartData[itemId] || cartData[itemId][color.s] == 0 {
      cartData := cartData[itemId := cartData[itemId][color.s := 0]];
    }
    cartData := cartData[itemId := cartData[itemId][color.s := cartData[itemId][color.s] + 1]];
    user.cartData := Some(cartData);
    status := 200;
  }

  /** updateCart: the four fields must be present and the quantity a
      non-negative integer; the item and colour must hold a non-zero count.
      Quantity 0 deletes the colour, and the item once it has no colour
      left; any other quantity is set as it is.  A refused request leaves
      the cart as it was. */
  method UpdateCart(user: User?, userId: string, itemId: string, color: string, quantity: FormNumber)
    returns (status: nat)
    modifies user
    ensures status == 200 <==>
      && userId != "" && itemId != "" && color != ""
      && quantity.Number? && quantity.value >= 0
      && user != null && Count(old(user.Cart()), itemId, color) != 0
    ensures status != 200 ==> status == 500 && (user != null ==> unchanged(user))
    ensures status == 200 ==>
      && user.cartData.Some?
      && Count(user.Cart(), itemId, color) == quantity.value
      && (forall i, c :: (i != itemId || c != color) ==>
            Count(user.Cart(), i, c) == Count(old(user.Cart()), i, c))
      && (quantity.value == 0 ==>
            && (itemId in user.Cart() ==> color !in user.Cart()[itemId])
            && (itemId in user.Cart() <==> old(user.Cart())[itemId].Keys != {color})
            && user.Cart().Keys <= old(user.Cart()).Keys)
      && (quantity.value > 0 ==> user.Cart().Keys == old(user.Cart()).Keys)
      && (old(WellFormed(user.Cart())) ==> WellFormed(user.Cart()))
  {
    if userId == "" || itemId == "" || color == "" || quantity.Absent? {
      return 500;
    }
    if quantity.NotANumber? || quantity.value < 0 {
      return 500;
    }
    if user == null {
      return 500;
    }
    var cartData := user.cartData.GetOr(map[]);
    if itemId !in cartData || color !in cartData[itemId] || cartData[itemId][color] == 0 {
      return 500;
    }
    if quantity.value == 0 {
      var colours := cartData[itemId] - {color};
      if colours == map[] {
        assert cartData[itemId].Keys == {color} by {
          assert colours.Keys == cartData[itemId].Keys - {color};
          assert colours.Keys == {};
        }
        cartData := cartData - {itemId};
      } else {
        cartData := cartData[itemId := colours];
      }
    } else {
      cartData := cartData[itemId := cartData[itemId][color := quantity.value]];
    }
    user.cartData := Some(cartData);
    status := 200;
  }

  /** getUserCart: a user without cart data gets `{}`. */
  method GetUserCart(user: User?, userId: string) returns (status: nat, cart: CartData)
    ensures status == 200 <==> userId != "" && user != null
    ensures status != 200 ==> status == 500
    ensures status == 200 && user.cartData.None? ==> cart == map[]
    ensures status == 200 && user.cartData.Some? ==> cart == user.cartData.value
  {
    if userId == "" || user == null {
      return 500, map[];
    }
    status, cart := 200, user.cartData.GetOr(map[]);
  }
}
