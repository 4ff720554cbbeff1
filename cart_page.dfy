/** The cart page (frontend/src/pages/Cart.jsx): the cart is split into
    catalogue lines and traditional-sweet lines, quantities are edited
    through a clamp, and placing an order sends the catalogue lines
    followed by the sweet lines.  The request itself is not modelled; the
    items it would carry are. */
module CartPage {
  import opened Common
  import opened JsObject
  import Text
  import opened ShopCart
  import Seqs

  const DEFAULT_SWEET_NAME: string := "حلوى تقليدية"
  const DEFAULT_WEIGHT: string := "1kg"
  const SWEET_IMAGE: string := "/traditional-sweets.jpg"
  const MAX_QUANTITY: int := 99

  /** A sweet line as the page shows it. */
  datatype SweetLine = SweetLine(id: string, name: string, price: int, quantity: int, weight: string, total: int)

  /** A catalogue line: the product spread with the cart value as its
      quantity.  The value is a number for every key the shop writes; a
      sweet object under a plain key would make the total `NaN`, which is
      `None` here. */
  datatype ProductLine = ProductLine(product: Product, quantity: Entry, total: Option<int>)

  /** `s || d` on an optional string: missing and empty both give `d`. */
  function StringOr(s: Option<string>, d: string): (r: string)
    ensures r != "" || d == ""
  {
    if s.Some? && s.value != "" then s.value else d
  }

  /** The sweet line for key `k`.  A plain number under a traditional key
      has no `name`, `price`, `quantity` or `weight`, so every default
      applies. */
  function SweetLineOf(k: string, e: Entry): (l: SweetLine)
    ensures l.id == k && l.name != "" && l.weight != "" && l.quantity != 0
    ensures l.total == l.price * l.quantity
    ensures e.Sweet? && e.quantity != 0 ==> l.quantity == e.quantity
    ensures e.Sweet? && e.data.price.Some? ==> l.price == e.data.price.value
    ensures e.Qty? ==> l == SweetLine(k, DEFAULT_SWEET_NAME, 0, 1, DEFAULT_WEIGHT, 0)
  {
    match e
    case Sweet(d, q) =>
      var price := d.price.GetOr(0);
      var quantity := if q != 0 then q else 1;
      SweetLine(k, StringOr(d.name, DEFAULT_SWEET_NAME), price, quantity, StringOr(d.weight, DEFAULT_WEIGHT), price * quantity)
    case Qty(_) => SweetLine(k, DEFAULT_SWEET_NAME, 0, 1, DEFAULT_WEIGHT, 0)
  }

  /** The catalogue line for a product and the value under its key. */
  function ProductLineOf(p: Product, e: Entry): (l: ProductLine)
    ensures l.product == p && l.quantity == e
    ensures e.Qty? ==> l.total == Some(e.n * p.price)
    ensures e.Sweet? ==> l.total.None?
  {
    ProductLine(p, e, if e.Qty? then Some(e.n * p.price) else None)
  }

  /** What key `k` adds to the sweet lines. */
  function SweetStep(cart: Cart, k: string): seq<SweetLine> {
    if IsTraditionalItem(k) && Get(cart, k).Some? then [SweetLineOf(k, Get(cart, k).value)] else []
  }

  /** What key `k` adds to the catalogue lines: a key the catalogue does
      not know adds nothing. */
  function ProductStep(cart: Cart, products: seq<Product>, k: string): seq<ProductLine> {
    if !IsTraditionalItem(k) && Get(cart, k).Some? && FindProduct(products, k).Some?
    then [ProductLineOf(FindProduct(products, k).value, Get(cart, k).value)]
    else []
  }

  /** The sweet lines for the keys `ks`, in their order. */
  function SweetsFrom(cart: Cart, ks: seq<string>): seq<SweetLine> {
    if ks == [] then [] else SweetStep(cart, ks[0]) + SweetsFrom(cart, ks[1..])
  }

  /** The catalogue lines for the keys `ks`, in their order. */
  function ProductsFrom(cart: Cart, products: seq<Product>, ks: seq<string>): seq<ProductLine> {
    if ks == [] then [] else ProductStep(cart, products, ks[0]) + ProductsFrom(cart, products, ks[1..])
  }

  /** Every sweet line comes from a traditional key and totals its price
      times its quantity; every catalogue line comes from a plain key the
      catalogue knows.  Neither list is longer than the keys. */
  lemma {:induction false} LinesShape(cart: Cart, products: seq<Product>, ks: seq<string>)
    ensures |SweetsFrom(cart, ks)| <= |ks| && |ProductsFrom(cart, products, ks)| <= |ks|
    ensures forall l :: l in SweetsFrom(cart, ks) ==>
      l.id in ks && IsTraditionalItem(l.id) && l.total == l.price * l.quantity && l.quantity != 0
    ensures forall l :: l in ProductsFrom(cart, products, ks) ==>
      l.product.id in ks && !IsTraditionalItem(l.product.id) && l.product in products
  {
    if ks != [] {
      LinesShape(cart, products, ks[1..]);
    }
  }

  /** The effect that splits the cart: one pass over `Object.keys`, each
      key pushed onto one list or the other. */
  method Partition(cart: Cart, products: seq<Product>) returns (productLines: seq<ProductLine>, sweetLines: seq<SweetLine>)
    ensures sweetLines == SweetsFrom(cart, Keys(cart))
    ensures productLines == ProductsFrom(cart, products, Keys(cart))
  {
    var keys := Keys(cart);
    productLines, sweetLines := [], [];
    var i := 0;
    while i < |keys|
      invariant 0 <= i <= |keys|
      invariant sweetLines == SweetsFrom(cart, keys[..i])
      invariant productLines == ProductsFrom(cart, products, keys[..i])
    {
      var itemId := keys[i];
      LinesSnoc(cart, products, keys, i);
      var details := Get(cart, itemId);
      assert details.Some?;
      if Text.StartsWith(itemId, TRADITIONAL_PREFIX) {
        sweetLines := sweetLines + [SweetLineOf(itemId, details.value)];
      } else {
        var product := FindProduct(products, itemId);
        if product.Some? {
          productLines := productLines + [ProductLineOf(product.value, details.value)];
        }
      }
      i := i + 1;
    }
    assert keys[..i] == keys;
  }

  /** The lines of two runs of keys are the lines of each, in turn. */
  lemma {:induction false} LinesAppend(cart: Cart, products: seq<Product>, a: seq<string>, b: seq<string>)
    ensures SweetsFrom(cart, a + b) == SweetsFrom(cart, a) + SweetsFrom(cart, b)
    ensures ProductsFrom(cart, products, a + b) == ProductsFrom(cart, products, a) + ProductsFrom(cart, products, b)
  {
    if a != [] {
      assert (a + b)[1..] == a[1..] + b;
      LinesAppend(cart, products, a[1..], b);
    } else {
      assert a + b == b;
    }
  }

  /** One more key adds its own step to each list. */
  lemma LinesSnoc(cart: Cart, products: seq<Product>, ks: seq<string>, i: nat)
    requires i < |ks|
    ensures SweetsFrom(cart, ks[..i + 1]) == SweetsFrom(cart, ks[..i]) + SweetStep(cart, ks[i])
    ensures ProductsFrom(cart, products, ks[..i + 1]) == ProductsFrom(cart, products, ks[..i]) + ProductStep(cart, products, ks[i])
  {
    assert ks[..i + 1] == ks[..i] + [ks[i]];
    LinesAppend(cart, products, ks[..i], [ks[i]]);
    assert [ks[i]][1..] == [];
  }

  /** Every traditional key of the cart has its sweet line, and only those
      keys do. */
  lemma {:induction false} SweetsFromKeys(cart: Cart, ks: seq<string>, k: string)
    requires forall j :: 0 <= j < |ks| ==> ks[j] in Keys(cart)
    ensures (exists l :: l in SweetsFrom(cart, ks) && l.id == k) <==> k in ks && IsTraditionalItem(k)
  {
    if ks != [] {
      SweetsFromKeys(cart, ks[1..], k);
      if k == ks[0] && IsTraditionalItem(k) {
        assert SweetsFrom(cart, ks)[0].id == k;
      }
    }
  }

  /** A plain key has a catalogue line exactly when the catalogue knows it. */
  lemma {:induction false} ProductsFromKeys(cart: Cart, products: seq<Product>, ks: seq<string>, k: string)
    requires forall j :: 0 <= j < |ks| ==> ks[j] in Keys(cart)
    ensures (exists l :: l in ProductsFrom(cart, products, ks) && l.product.id == k)
      <==> k in ks && !IsTraditionalItem(k) && FindProduct(products, k).Some?
  {
    if ks != [] {
      ProductsFromKeys(cart, products, ks[1..], k);
      if k == ks[0] && !IsTraditionalItem(k) && FindProduct(products, k).Some? {
        assert ProductsFrom(cart, products, ks)[0].product.id == k;
      }
    }
  }

  /** A cart as the shop writes it: sweets sit under traditional keys with
      a non-zero quantity, and plain keys hold numbers. */
  predicate ShopShaped(cart: Cart) {
    forall k :: k in Keys(cart) ==>
      if IsTraditionalItem(k) then Get(cart, k).value.Sweet? && Get(cart, k).value.quantity != 0
      else Get(cart, k).value.Qty?
  }

  function SweetsTotal(ls: seq<SweetLine>): int {
    if ls == [] then 0 else ls[0].total + SweetsTotal(ls[1..])
  }

  function ProductsTotal(ls: seq<ProductLine>): int {
    if ls == [] then 0 else ls[0].total.GetOr(0) + ProductsTotal(ls[1..])
  }

  /** The cart amount taken key by key. */
  function AmountOver(cart: Cart, products: seq<Product>, ks: seq<string>): int
    requires forall j :: 0 <= j < |ks| ==> ks[j] in Keys(cart)
  {
    if ks == [] then 0
    else AmountOf(products, ks[0], Get(cart, ks[0]).value) + AmountOver(cart, products, ks[1..])
  }

  lemma {:induction false} LinesMatchAmountOver(cart: Cart, products: seq<Product>, ks: seq<string>)
    requires forall j :: 0 <= j < |ks| ==> ks[j] in Keys(cart)
    requires ShopShaped(cart)
    ensures SweetsTotal(SweetsFrom(cart, ks)) + ProductsTotal(ProductsFrom(cart, products, ks))
      == AmountOver(cart, products, ks)
  {
    if ks != [] {
      LinesMatchAmountOver(cart, products, ks[1..]);
      var k := ks[0];
      var e := Get(cart, k).value;
      var sweets, lines := SweetsFrom(cart, ks[1..]), ProductsFrom(cart, products, ks[1..]);
      if IsTraditionalItem(k) {
        assert SweetsFrom(cart, ks) == [SweetLineOf(k, e)] + sweets;
        assert ([SweetLineOf(k, e)] + sweets)[1..] == sweets;
        assert ProductsFrom(cart, products, ks) == lines;
      } else {
        assert SweetsFrom(cart, ks) == sweets;
        if FindProduct(products, k).Some? {
          var l := ProductLineOf(FindProduct(products, k).value, e);
          assert ProductsFrom(cart, products, ks) == [l] + lines;
          assert ([l] + lines)[1..] == lines;
        } else {
          assert ProductsFrom(cart, products, ks) == lines;
        }
      }
    }
  }

  lemma {:induction false} KeysAt<V>(o: Obj<V>, j: int)
    requires 0 <= j < |o|
    ensures Keys(o)[j] == o[j].0
  {
    if j > 0 {
      KeysAt(o[1..], j - 1);
    }
  }

  lemma {:induction false} GetAt<V>(o: Obj<V>, j: int)
    requires UniqueKeys(o) && 0 <= j < |o|
    ensures Get(o, o[j].0) == Some(o[j].1)
  {
    if j > 0 {
      GetAt(o[1..], j - 1);
      KeysAt(o[1..], j - 1);
    }
  }

  /** `SumBy` over a run of the cart's entries equals the amount over
      their keys. */
  lemma {:induction false} SumByIsAmountOver(cart: Cart, products: seq<Product>, o: Cart)
    requires forall j :: 0 <= j < |o| ==> Get(cart, o[j].0) == Some(o[j].1)
    ensures forall j :: 0 <= j < |Keys(o)| ==> Keys(o)[j] in Keys(cart)
    ensures SumBy(o, (k, e) => AmountOf(products, k, e)) == AmountOver(cart, products, Keys(o))
  {
    forall j | 0 <= j < |Keys(o)| ensures Keys(o)[j] in Keys(cart) {
      KeysAt(o, j);
    }
    if o != [] {
      SumByIsAmountOver(cart, products, o[1..]);
    }
  }

  /** On a cart the shop wrote, the line totals add up to `getCartAmount`,
      the amount the page shows beside them. */
  lemma LineTotalsAreCartAmount(cart: Cart, products: seq<Product>)
    requires UniqueKeys(cart) && ShopShaped(cart)
    ensures SweetsTotal(SweetsFrom(cart, Keys(cart))) + ProductsTotal(ProductsFrom(cart, products, Keys(cart)))
      == GetCartAmount(cart, products)
  {
    forall j | 0 <= j < |cart| ensures Get(cart, cart[j].0) == Some(cart[j].1) {
      GetAt(cart, j);
    }
    SumByIsAmountOver(cart, products, cart);
    LinesMatchAmountOver(cart, products, Keys(cart));
  }

  /** handleQuantityChange's value: `parseInt(input) || 1`, clamped to
      [1, 99]. */
  function ClampQuantity(input: string): (q: int)
    ensures 1 <= q <= MAX_QUANTITY
    ensures Text.ParseInt(input).Some? && 1 <= Text.ParseInt(input).value <= MAX_QUANTITY ==>
      q == Text.ParseInt(input).value
    ensures Text.ParseInt(input).Some? && Text.ParseInt(input).value > MAX_QUANTITY ==> q == MAX_QUANTITY
    ensures Text.ParseInt(input).None? || Text.ParseInt(input).value <= 0 ==> q == 1
  {
    var parsed := match Text.ParseInt(input)
      case Some(n) => if n != 0 then n else 1
      case None => 1;
    Max(1, Min(MAX_QUANTITY, parsed))
  }

  /** handleQuantityChange: the item stays in the cart whatever was typed,
      with the clamped quantity, and nothing else changes. */
  function HandleQuantityChange(cart: Cart, id: string, input: string): (r: Cart)
    ensures Get(r, id).Some?
    ensures CountOf(id, Get(r, id).value) == ClampQuantity(input)
    ensures forall k :: k != id ==> Get(r, k) == Get(cart, k)
  {
    UpdateQuantity(cart, id, ClampQuantity(input))
  }

  /** handleRemove: the item is gone and nothing else changes. */
  function HandleRemove(cart: Cart, id: string): (r: Cart)
    ensures Get(r, id).None?
    ensures forall k :: k != id ==> Get(r, k) == Get(cart, k)
  {
    UpdateQuantity(cart, id, 0)
  }

  /** An order item as handlePlaceOrder sends it. */
  datatype PlacedItem = PlacedItem(productId: string, name: string, quantity: Entry, price: int,
                                   image: Option<string>, isTraditional: bool)

  /** A catalogue line's item: the image is the first of the product's
      images (`undefined` when the list is empty). */
  function ProductItem(l: ProductLine): (r: PlacedItem)
    ensures !r.isTraditional && r.productId == l.product.id
  {
    PlacedItem(l.product.id, l.product.name, l.quantity, l.product.price,
               if |l.product.image| > 0 then Some(l.product.image[0]) else None, false)
  }

  /** A sweet line's item: the weight is added to the name in brackets. */
  function SweetItem(l: SweetLine): (r: PlacedItem)
    ensures r.isTraditional && r.productId == l.id
  {
    PlacedItem(l.id, l.name + " (" + l.weight + ")", Qty(l.quantity), l.price, Some(SWEET_IMAGE), true)
  }

  /** handlePlaceOrder's items: nothing is sent when both lists are empty;
      otherwise the catalogue items come first, then each sweet pushed in
      turn. */
  method PlaceOrderItems(productLines: seq<ProductLine>, sweetLines: seq<SweetLine>) returns (items: Option<seq<PlacedItem>>)
    ensures items.None? <==> productLines == [] && sweetLines == []
    ensures items.Some? ==> items.value == Seqs.Map(productLines, ProductItem) + Seqs.Map(sweetLines, SweetItem)
    ensures items.Some? ==> forall i :: 0 <= i < |items.value| ==>
      (items.value[i].isTraditional <==> i >= |productLines|)
  {
    if productLines == [] && sweetLines == [] {
      return None;
    }
    var orderItems := Seqs.Map(productLines, ProductItem);
    var j := 0;
    while j < |sweetLines|
      invariant 0 <= j <= |sweetLines|
      invariant orderItems == Seqs.Map(productLines, ProductItem) + Seqs.Map(sweetLines[..j], SweetItem)
    {
      Seqs.MapSnoc(sweetLines, SweetItem, j);
      orderItems := orderItems + [SweetItem(sweetLines[j])];
      j := j + 1;
    }
    assert sweetLines[..j] == sweetLines;
    items := Some(orderItems);
  }

  /** The sweet part of the order carries each sweet's weight in its name
      and its own id, so every sweet item names a traditional key. */
  lemma SweetItemsNameWeight(l: SweetLine)
    requires IsTraditionalItem(l.id)
    ensures SweetItem(l).isTraditional && IsTraditionalItem(SweetItem(l).productId)
    ensures Text.StartsWith(SweetItem(l).name, l.name)
    ensures SweetItem(l).name[|l.name| + 2..|SweetItem(l).name| - 1] == l.weight
  {
    var n := SweetItem(l).name;
    assert n == l.name + " (" + l.weight + ")";
    assert n[..|l.name|] == l.name;
  }
}
