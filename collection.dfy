/** The catalogue page (frontend/src/pages/Collection.jsx): category
    filters, the search filter, sorting by price, pagination by ten, the
    weight price of a traditional sweet, and "add all to cart", which adds
    every selected product and sweet the cart does not already hold. */
module Collection {
  import opened Common
  import opened JsObject
  import Text
  import opened ShopCart
  import opened Seqs

  const ITEMS_PER_PAGE: nat := 10

  /** `prev.filter((item) => item !== value)` */
  function Remove(s: seq<string>, value: string): (r: seq<string>)
    ensures forall x :: x in r <==> x in s && x != value
  {
    if s == [] then []
    else (if s[0] == value then [] else [s[0]]) + Remove(s[1..], value)
  }

  /** Removing a value that is not there changes nothing, even with the
      value appended. */
  lemma {:induction false} RemoveAppended(s: seq<string>, value: string)
    requires value !in s
    ensures Remove(s + [value], value) == s
  {
    if s == [] {
      assert [value][1..] == [];
    } else {
      assert (s + [value])[1..] == s[1..] + [value];
      RemoveAppended(s[1..], value);
      assert [s[0]] + s[1..] == s;
    }
  }

  /** toggleFilter: a selected value is removed (every copy of it), another
      one is appended. */
  function ToggleFilter(prev: seq<string>, value: string): (r: seq<string>)
    ensures value in r <==> value !in prev
    ensures forall x :: x != value ==> (x in r <==> x in prev)
  {
    if value in prev then Remove(prev, value) else prev + [value]
  }

  /** Toggling twice gives back the selection; starting from an unselected
      value, it gives back the very same list. */
  lemma ToggleTwice(prev: seq<string>, value: string)
    ensures forall x :: x in ToggleFilter(ToggleFilter(prev, value), value) <==> x in prev
    ensures value !in prev ==> ToggleFilter(ToggleFilter(prev, value), value) == prev
  {
    if value !in prev {
      RemoveAppended(prev, value);
    }
  }

  /** The name contains the search text, both lower-cased. */
  predicate NameMatches(p: Product, search: string) {
    Text.Contains(Text.ToLower(p.name), Text.ToLower(search))
  }

  /** applyFilter: with a search text, the products whose name contains it
      whatever the case; with categories selected, those of a selected
      category. */
  function ApplyFilter(products: seq<Product>, search: string, category: seq<string>): (r: seq<Product>)
    ensures forall p :: p in r <==>
      && p in products
      && (search != "" ==> NameMatches(p, search))
      && (category != [] ==> p.category in category)
  {
    var bySearch := if search != "" then Filter(products, p => NameMatches(p, search)) else products;
    if |category| > 0 then Filter(bySearch, (p: Product) => p.category in category) else bySearch
  }

  /** The filtered list keeps the products in the catalogue's order. */
  lemma ApplyFilterSubsequence(products: seq<Product>, search: string, category: seq<string>)
    ensures IsSubsequence(ApplyFilter(products, search, category), products)
  {
    var s := (p: Product) => NameMatches(p, search);
    var c := (p: Product) => p.category in category;
    if search != "" && |category| > 0 {
      var both := (p: Product) => s(p) && c(p);
      FilterFilter(products, s, c, both);
      FilterIsSubsequence(products, both);
    } else if search != "" {
      FilterIsSubsequence(products, s);
    } else if |category| > 0 {
      FilterIsSubsequence(products, c);
    } else {
      IdentitySubsequence(products);
    }
  }

  /** `a` may stand before `b`: by price ascending, or descending. */
  predicate InOrder(a: Product, b: Product, ascending: bool) {
    if ascending then a.price <= b.price else a.price >= b.price
  }

  predicate SortedBy(s: seq<Product>, ascending: bool) {
    forall i, j :: 0 <= i < j < |s| ==> InOrder(s[i], s[j], ascending)
  }

  /** Inserts `x` after every element it does not strictly precede, so
      equal prices keep their order. */
  function Insert(x: Product, s: seq<Product>, ascending: bool): (r: seq<Product>)
    ensures multiset(r) == multiset(s) + multiset{x}
  {
    if s == [] then [x]
    else if InOrder(x, s[0], ascending) && x.price != s[0].price then [x] + s
    else
      assert s == [s[0]] + s[1..];
      [s[0]] + Insert(x, s[1..], ascending)
  }

  lemma {:induction false} InsertSorted(x: Product, s: seq<Product>, ascending: bool)
    requires SortedBy(s, ascending)
    ensures SortedBy(Insert(x, s, ascending), ascending)
  {
    if s != [] && !(InOrder(x, s[0], ascending) && x.price != s[0].price) {
      var rest := Insert(x, s[1..], ascending);
      InsertSorted(x, s[1..], ascending);
      forall j | 0 <= j < |rest| ensures InOrder(s[0], rest[j], ascending) {
        assert rest[j] in multiset(rest);
        assert rest[j] == x || rest[j] in multiset(s[1..]);
        if rest[j] != x {
          var k :| 0 <= k < |s[1..]| && s[1..][k] == rest[j];
          assert s[k + 1] == rest[j];
        }
      }
      var r := [s[0]] + rest;
      forall i, j | 0 <= i < j < |r| ensures InOrder(r[i], r[j], ascending) {
        if i > 0 {
          assert r[i] == rest[i - 1] && r[j] == rest[j - 1];
        } else {
          assert r[j] == rest[j - 1];
        }
      }
    }
  }

  /** `[...list].sort(...)` with a stable insertion. */
  function SortBy(s: seq<Product>, ascending: bool): (r: seq<Product>)
    ensures multiset(r) == multiset(s)
    ensures SortedBy(r, ascending)
  {
    if s == [] then []
    else
      var front := SortBy(s[..|s| - 1], ascending);
      InsertSorted(s[|s| - 1], front, ascending);
      assert s == s[..|s| - 1] + [s[|s| - 1]];
      Insert(s[|s| - 1], front, ascending)
  }

  /** applySorting: "low" ascending by price, "high" descending, anything
      else the list as it is; always a rearrangement of the same products. */
  function ApplySorting(list: seq<Product>, sortType: string): (r: seq<Product>)
    ensures multiset(r) == multiset(list)
    ensures sortType == "low" ==> SortedBy(r, true)
    ensures sortType == "high" ==> SortedBy(r, false)
    ensures sortType != "low" && sortType != "high" ==> r == list
  {
    if sortType == "low" then SortBy(list, true)
    else if sortType == "high" then SortBy(list, false)
    else list
  }

  /** getPaginatedProducts: `slice((page - 1) * 10, page * 10)`; pages are
      counted from 1. */
  function GetPaginatedProducts(list: seq<Product>, currentPage: nat): (r: seq<Product>)
    requires currentPage >= 1
    ensures |r| <= ITEMS_PER_PAGE
    ensures (currentPage - 1) * ITEMS_PER_PAGE >= |list| ==> r == []
    ensures (currentPage - 1) * ITEMS_PER_PAGE < |list| ==>
      r == list[(currentPage - 1) * ITEMS_PER_PAGE..Min(currentPage * ITEMS_PER_PAGE, |list|)]
  {
    var start := (currentPage - 1) * ITEMS_PER_PAGE;
    var end := start + ITEMS_PER_PAGE;
    if start >= |list| then [] else list[start..Min(end, |list|)]
  }

  /** totalPages: `Math.ceil(n / 10)`. */
  function TotalPages(n: nat): (t: nat)
    ensures (t - 1) * ITEMS_PER_PAGE < n <= t * ITEMS_PER_PAGE || (n == 0 && t == 0)
  {
    (n + ITEMS_PER_PAGE - 1) / ITEMS_PER_PAGE
  }

  /** Pages `from` to `last`, one after the other. */
  function PagesFrom(list: seq<Product>, from: nat, last: nat): seq<Product>
    requires from >= 1
    decreases last + 1 - from
  {
    if from > last then [] else GetPaginatedProducts(list, from) + PagesFrom(list, from + 1, last)
  }

  lemma {:induction false} PagesFromRest(list: seq<Product>, from: nat)
    requires 1 <= from <= TotalPages(|list|) + 1
    ensures PagesFrom(list, from, TotalPages(|list|)) == list[Min((from - 1) * ITEMS_PER_PAGE, |list|)..]
    decreases TotalPages(|list|) + 1 - from
  {
    var last := TotalPages(|list|);
    if from <= last {
      PagesFromRest(list, from + 1);
      var start := (from - 1) * ITEMS_PER_PAGE;
      assert start < |list|;
      assert list[start..] == list[start..Min(from * ITEMS_PER_PAGE, |list|)] + list[Min(from * ITEMS_PER_PAGE, |list|)..];
    }
  }

  /** The pages, read in order, are the whole list once each; every page up
      to the last is non-empty and every page after it is empty. */
  lemma PagesCoverList(list: seq<Product>, page: nat)
    requires page >= 1
    ensures PagesFrom(list, 1, TotalPages(|list|)) == list
    ensures GetPaginatedProducts(list, page) != [] <==> page <= TotalPages(|list|)
  {
    PagesFromRest(list, 1);
  }

  /** calculateSweetPrice: the price of `weightValue` grams at `basePrice`
      the kilogram, 0 for an empty input or a weight that is not a positive
      number.  `weightValue` is what `parseFloat` reads once everything but
      digits and dots is removed; `None` stands for `NaN`. */
  function CalculateSweetPrice(basePrice: int, weightInput: string, weightValue: Option<real>): (r: real)
    ensures weightInput == "" || weightValue.None? || weightValue.value <= 0.0 ==> r == 0.0
    ensures weightInput != "" && weightValue.Some? && weightValue.value > 0.0 ==>
      r * 1000.0 == weightValue.value * basePrice as real
  {
    if weightInput == "" then 0.0
    else if weightValue.None? || weightValue.value <= 0.0 then 0.0
    else (weightValue.value / 1000.0) * basePrice as real
  }

  /** A heavier weight never costs less. */
  lemma SweetPriceMonotone(basePrice: nat, input: string, w1: real, w2: real)
    requires input != "" && 0.0 < w1 <= w2
    ensures CalculateSweetPrice(basePrice, input, Some(w1)) <= CalculateSweetPrice(basePrice, input, Some(w2))
  {
    assert w1 * basePrice as real <= w2 * basePrice as real;
  }

  /** A traditional sweet of the page's list. */
  datatype TraditionalSweet = TraditionalSweet(id: nat, name: string, basePrice: int)

  /** The weight and quantity chosen for a sweet. */
  datatype SweetChoice = SweetChoice(selectedWeight: string, quantity: int)

  /** `traditionalSweets.find(s => s.id.toString() === sweetId)` */
  function FindSweet(sweets: seq<TraditionalSweet>, sweetId: string): (r: Option<TraditionalSweet>)
    ensures r.Some? ==> r.value in sweets && Text.NatToString(r.value.id) == sweetId
    ensures r.None? ==> forall i :: 0 <= i < |sweets| ==> Text.NatToString(sweets[i].id) != sweetId
  {
    if sweets == [] then None
    else if Text.NatToString(sweets[0].id) == sweetId then Some(sweets[0])
    else FindSweet(sweets[1..], sweetId)
  }

  /** What a selected product's key holds after the first loop: the
      snapshot's entry when it is truthy, the quantity added otherwise. */
  function ProductOutcome(snapshot: Cart, k: string, qty: int): Option<Entry> {
    if EntryTruthy(Get(snapshot, k)) then Get(snapshot, k)
    else Some(Qty(PreviousQuantity(Get(snapshot, k)) + qty))
  }

  /** The first loop of handleAddAllToCart: each selected product goes into
      the cart unless the cart, as it was when the button was pressed
      (`snapshot`), already holds it. */
  function AddSelectedProducts(snapshot: Cart, acc: Cart, selected: Obj<int>): Cart
    requires UniqueKeys(selected)
    requires forall k :: k in Keys(selected) ==> Get(acc, k) == Get(snapshot, k)
    decreases |selected|
  {
    if selected == [] then acc
    else
      var (id, qty) := selected[0];
      var next := if !EntryTruthy(Get(snapshot, id)) then AddToCart(acc, id, qty, None) else acc;
      assert forall k :: k in Keys(selected[1..]) ==> k != id && k in Keys(selected);
      AddSelectedProducts(snapshot, next, selected[1..])
  }

  /** Keys that are not selected are untouched by the first loop. */
  lemma {:induction false} AddSelectedProductsOthers(snapshot: Cart, acc: Cart, selected: Obj<int>, k: string)
    requires UniqueKeys(selected)
    requires forall k :: k in Keys(selected) ==> Get(acc, k) == Get(snapshot, k)
    requires k !in Keys(selected)
    ensures Get(AddSelectedProducts(snapshot, acc, selected), k) == Get(acc, k)
    decreases |selected|
  {
    if selected != [] {
      var (id, qty) := selected[0];
      var next := if !EntryTruthy(Get(snapshot, id)) then AddToCart(acc, id, qty, None) else acc;
      assert forall k :: k in Keys(selected[1..]) ==> k != id && k in Keys(selected);
      assert k != id;
      AddSelectedProductsOthers(snapshot, next, selected[1..], k);
    }
  }

  /** The skip rule of the first loop: a product the snapshot holds keeps
      its entry, any other selected product gets its quantity added. */
  lemma {:induction false} AddSelectedProductsChosen(snapshot: Cart, acc: Cart, selected: Obj<int>, k: string)
    requires UniqueKeys(selected)
    requires forall k :: k in Keys(selected) ==> Get(acc, k) == Get(snapshot, k)
    requires k in Keys(selected)
    ensures Get(AddSelectedProducts(snapshot, acc, selected), k) == ProductOutcome(snapshot, k, Get(selected, k).value)
    decreases |selected|
  {
    var (id, qty) := selected[0];
    var next := if !EntryTruthy(Get(snapshot, id)) then AddToCart(acc, id, qty, None) else acc;
    var rest := selected[1..];
    assert forall k :: k in Keys(rest) ==> k != id && k in Keys(selected);
    if k == id {
      assert Get(selected, k) == Some(qty);
      AddSelectedProductsOthers(snapshot, next, rest, k);
    } else {
      assert Keys(selected) == [id] + Keys(rest);
      assert Get(selected, k) == Get(rest, k);
      AddSelectedProductsChosen(snapshot, next, rest, k);
    }
  }

  /** The cart key of a traditional sweet. */
  function SweetKey(sweetId: string): string {
    TRADITIONAL_PREFIX + sweetId
  }

  lemma SweetKeyInjective(a: string, b: string)
    ensures SweetKey(a) == SweetKey(b) ==> a == b
  {
    if SweetKey(a) == SweetKey(b) {
      assert a == SweetKey(a)[|TRADITIONAL_PREFIX|..];
      assert b == SweetKey(b)[|TRADITIONAL_PREFIX|..];
    }
  }

  /** What a chosen sweet is added with: its name followed by the weight,
      the weight price and the weight. */
  function SweetDataOf(sweet: TraditionalSweet, choice: SweetChoice, price: int): SweetData {
    SweetData(Some(sweet.name + " (" + choice.selectedWeight + ")"), Some(price), Some(choice.selectedWeight))
  }

  /** `details.selectedWeight || "0"`, the weight the price is read from. */
  function WeightOr0(choice: SweetChoice): string {
    if choice.selectedWeight == "" then "0" else choice.selectedWeight
  }

  /** Whether the second loop adds the sweet with the id: it is in the list
      and the cart did not hold its key. */
  predicate AddsSweet(snapshot: Cart, sweetId: string, sweets: seq<TraditionalSweet>) {
    FindSweet(sweets, sweetId).Some? && !EntryTruthy(Get(snapshot, SweetKey(sweetId)))
  }

  /** The entry the second loop gives the sweet's key. */
  function SweetOutcome(
    snapshot: Cart, sweetId: string, choice: SweetChoice, sweets: seq<TraditionalSweet>,
    priceOf: (TraditionalSweet, string) -> int): Option<Entry>
  {
    if AddsSweet(snapshot, sweetId, sweets) then
      var sweet := FindSweet(sweets, sweetId).value;
      Some(Sweet(SweetDataOf(sweet, choice, priceOf(sweet, WeightOr0(choice))),
                 PreviousSweetQuantity(Get(snapshot, SweetKey(sweetId))) + choice.quantity))
    else Get(snapshot, SweetKey(sweetId))
  }

  /** One pass of the second loop. */
  function AddChosenSweet(
    snapshot: Cart, acc: Cart, sweetId: string, choice: SweetChoice, sweets: seq<TraditionalSweet>,
    priceOf: (TraditionalSweet, string) -> int): (r: Cart)
    ensures forall k :: k != SweetKey(sweetId) ==> Get(r, k) == Get(acc, k)
    ensures Get(acc, SweetKey(sweetId)) == Get(snapshot, SweetKey(sweetId)) ==>
      Get(r, SweetKey(sweetId)) == SweetOutcome(snapshot, sweetId, choice, sweets, priceOf)
  {
    if AddsSweet(snapshot, sweetId, sweets) then
      var sweet := FindSweet(sweets, sweetId).value;
      AddToCart(acc, SweetKey(sweetId), choice.quantity, Some(SweetDataOf(sweet, choice, priceOf(sweet, WeightOr0(choice)))))
    else acc
  }

  /** The second loop of handleAddAllToCart: each chosen sweet of the list
      goes in under `traditional_<id>` unless the cart, as it was when the
      button was pressed, already held that key.  `priceOf` gives
      `calculateSweetPrice` for a sweet and a weight. */
  function AddSelectedSweets(
    snapshot: Cart, acc: Cart, chosen: Obj<SweetChoice>, sweets: seq<TraditionalSweet>,
    priceOf: (TraditionalSweet, string) -> int): Cart
    decreases |chosen|
  {
    if chosen == [] then acc
    else AddSelectedSweets(snapshot, AddChosenSweet(snapshot, acc, chosen[0].0, chosen[0].1, sweets, priceOf),
                           chosen[1..], sweets, priceOf)
  }

  /** Keys of no chosen sweet keep their entry. */
  lemma {:induction false} AddSelectedSweetsOthers(
    snapshot: Cart, acc: Cart, chosen: Obj<SweetChoice>, sweets: seq<TraditionalSweet>,
    priceOf: (TraditionalSweet, string) -> int, k: string)
    requires forall c :: c in Keys(chosen) ==> k != SweetKey(c)
    ensures Get(AddSelectedSweets(snapshot, acc, chosen, sweets, priceOf), k) == Get(acc, k)
    decreases |chosen|
  {
    if chosen != [] {
      AddSelectedSweetsOthers(snapshot, AddChosenSweet(snapshot, acc, chosen[0].0, chosen[0].1, sweets, priceOf),
                              chosen[1..], sweets, priceOf, k);
    }
  }

  /** A chosen sweet's key ends up with the sweet's outcome: added when the
      cart did not hold it, as it was otherwise. */
  lemma {:induction false} AddSelectedSweetsChosen(
    snapshot: Cart, acc: Cart, chosen: Obj<SweetChoice>, sweets: seq<TraditionalSweet>,
    priceOf: (TraditionalSweet, string) -> int, c: string)
    requires UniqueKeys(chosen) && c in Keys(chosen)
    requires Get(acc, SweetKey(c)) == Get(snapshot, SweetKey(c))
    ensures Get(AddSelectedSweets(snapshot, acc, chosen, sweets, priceOf), SweetKey(c))
      == SweetOutcome(snapshot, c, Get(chosen, c).value, sweets, priceOf)
    decreases |chosen|
  {
    var next := AddChosenSweet(snapshot, acc, chosen[0].0, chosen[0].1, sweets, priceOf);
    if chosen[0].0 == c {
      forall c' | c' in Keys(chosen[1..]) ensures SweetKey(c) != SweetKey(c') {
        SweetKeyInjective(c, c');
      }
      AddSelectedSweetsOthers(snapshot, next, chosen[1..], sweets, priceOf, SweetKey(c));
    } else {
      SweetKeyInjective(c, chosen[0].0);
      AddSelectedSweetsChosen(snapshot, next, chosen[1..], sweets, priceOf, c);
    }
  }

  /** handleAddAllToCart: the products, then the sweets on the cart the
      first loop left; a key that is neither a selected product nor a
      chosen sweet's keeps its entry. */
  function AddAllToCart(
    cart: Cart, selected: Obj<int>, chosen: Obj<SweetChoice>, sweets: seq<TraditionalSweet>,
    priceOf: (TraditionalSweet, string) -> int): (r: Cart)
    requires UniqueKeys(selected)
    ensures forall k :: k !in Keys(selected) && (forall c :: c in Keys(chosen) ==> k != SweetKey(c)) ==>
      Get(r, k) == Get(cart, k)
  {
    var afterProducts := AddSelectedProducts(cart, cart, selected);
    AddAllUntouched(cart, afterProducts, selected, chosen, sweets, priceOf);
    AddSelectedSweets(cart, afterProducts, chosen, sweets, priceOf)
  }

  lemma AddAllUntouched(
    cart: Cart, afterProducts: Cart, selected: Obj<int>, chosen: Obj<SweetChoice>,
    sweets: seq<TraditionalSweet>, priceOf: (TraditionalSweet, string) -> int)
    requires UniqueKeys(selected) && afterProducts == AddSelectedProducts(cart, cart, selected)
    ensures forall k :: k !in Keys(selected) && (forall c :: c in Keys(chosen) ==> k != SweetKey(c)) ==>
      Get(AddSelectedSweets(cart, afterProducts, chosen, sweets, priceOf), k) == Get(cart, k)
  {
    forall k | k !in Keys(selected) && (forall c :: c in Keys(chosen) ==> k != SweetKey(c))
      ensures Get(AddSelectedSweets(cart, afterProducts, chosen, sweets, priceOf), k) == Get(cart, k)
    {
      AddSelectedProductsOthers(cart, cart, selected, k);
      AddSelectedSweetsOthers(cart, afterProducts, chosen, sweets, priceOf, k);
    }
  }

  /** A selected product ends the whole pass with its first-loop outcome:
      the second loop only writes traditional keys. */
  lemma AddAllProduct(
    cart: Cart, selected: Obj<int>, chosen: Obj<SweetChoice>, sweets: seq<TraditionalSweet>,
    priceOf: (TraditionalSweet, string) -> int, k: string)
    requires UniqueKeys(selected)
    requires forall k :: k in Keys(selected) ==> !IsTraditionalItem(k)
    requires k in Keys(selected)
    ensures Get(AddAllToCart(cart, selected, chosen, sweets, priceOf), k) == ProductOutcome(cart, k, Get(selected, k).value)
  {
    AddSelectedProductsChosen(cart, cart, selected, k);
    forall c | c in Keys(chosen) ensures k != SweetKey(c) {
      SweetKeyTraditional(c);
    }
    AddSelectedSweetsOthers(cart, AddSelectedProducts(cart, cart, selected), chosen, sweets, priceOf, k);
  }

  /** A chosen sweet ends the whole pass with its second-loop outcome: the
      first loop only writes plain keys. */
  lemma AddAllSweet(
    cart: Cart, selected: Obj<int>, chosen: Obj<SweetChoice>, sweets: seq<TraditionalSweet>,
    priceOf: (TraditionalSweet, string) -> int, c: string)
    requires UniqueKeys(selected) && UniqueKeys(chosen)
    requires forall k :: k in Keys(selected) ==> !IsTraditionalItem(k)
    requires c in Keys(chosen)
    ensures Get(AddAllToCart(cart, selected, chosen, sweets, priceOf), SweetKey(c))
      == SweetOutcome(cart, c, Get(chosen, c).value, sweets, priceOf)
  {
    SweetKeyTraditional(c);
    AddSelectedProductsOthers(cart, cart, selected, SweetKey(c));
    AddSelectedSweetsChosen(cart, AddSelectedProducts(cart, cart, selected), chosen, sweets, priceOf, c);
  }

  lemma SweetKeyTraditional(c: string)
    ensures IsTraditionalItem(SweetKey(c))
  {
    assert SweetKey(c)[..|TRADITIONAL_PREFIX|] == TRADITIONAL_PREFIX;
  }

  /** Nothing the cart already holds is added again: a held product or
      sweet keeps its entry, an unheld product gets its quantity added and
      an unheld sweet of the list comes in with its data. */
  lemma AddAllSkipsHeld(
    cart: Cart, selected: Obj<int>, chosen: Obj<SweetChoice>, sweets: seq<TraditionalSweet>,
    priceOf: (TraditionalSweet, string) -> int)
    requires UniqueKeys(selected) && UniqueKeys(chosen)
    requires forall k :: k in Keys(selected) ==> !IsTraditionalItem(k)
    ensures forall k :: k in Keys(selected) && EntryTruthy(Get(cart, k)) ==>
      Get(AddAllToCart(cart, selected, chosen, sweets, priceOf), k) == Get(cart, k)
    ensures forall k :: k in Keys(selected) && !EntryTruthy(Get(cart, k)) ==>
      Get(AddAllToCart(cart, selected, chosen, sweets, priceOf), k)
        == Some(Qty(PreviousQuantity(Get(cart, k)) + Get(selected, k).value))
    ensures forall c :: c in Keys(chosen) && EntryTruthy(Get(cart, SweetKey(c))) ==>
      Get(AddAllToCart(cart, selected, chosen, sweets, priceOf), SweetKey(c)) == Get(cart, SweetKey(c))
    ensures forall c :: c in Keys(chosen) && AddsSweet(cart, c, sweets) ==>
      Get(AddAllToCart(cart, selected, chosen, sweets, priceOf), SweetKey(c))
        == SweetOutcome(cart, c, Get(chosen, c).value, sweets, priceOf)
  {
    forall k | k in Keys(selected)
      ensures Get(AddAllToCart(cart, selected, chosen, sweets, priceOf), k) == ProductOutcome(cart, k, Get(selected, k).value)
    {
      AddAllProduct(cart, selected, chosen, sweets, priceOf, k);
    }
    forall c | c in Keys(chosen)
      ensures Get(AddAllToCart(cart, selected, chosen, sweets, priceOf), SweetKey(c))
        == SweetOutcome(cart, c, Get(chosen, c).value, sweets, priceOf)
    {
      AddAllSweet(cart, selected, chosen, sweets, priceOf, c);
    }
  }
}
