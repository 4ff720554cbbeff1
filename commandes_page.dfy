/** The order page of the shop front (frontend/src/pages/Commandes.jsx):
    the new-order form and its running total, the search box, the delete
    confirmation and the "pay" button of the order list.  Its code generator
    is `OrderCode.GenerateCode` and its date formatter `DateFormat.FormatDate`;
    requests to the server are modelled by what the page decides to send. */
module CommandesPage {
  import opened Common
  import Text
  import OrderCode
  import opened Commande
  import CommandeController

  const DELETE_CONFIRMATION_CODE: string := "2003"

  /** The line `addItemField` appends and the form starts with. */
  const BLANK_ITEM: Item := Item("", 0, 1)

  /** addItemField: the blank line at the end, the others kept. */
  function AddItemField(items: seq<Item>): (r: seq<Item>)
    ensures |r| == |items| + 1 && r[..|items|] == items && r[|items|] == BLANK_ITEM
  {
    items + [BLANK_ITEM]
  }

  /** A blank line (price 0) does not change the total. */
  lemma AddItemKeepsTotal(items: seq<Item>)
    ensures Total(AddItemField(items)) == Total(items)
  {
    TotalAppend(items, [BLANK_ITEM]);
    assert [BLANK_ITEM][1..] == [];
  }

  /** `items.filter((_, i) => i !== index)`, the index counted from the
      head of `items`. */
  function KeepOthers(items: seq<Item>, index: int): seq<Item>
    decreases |items|
  {
    if items == [] then []
    else (if index == 0 then [] else [items[0]]) + KeepOthers(items[1..], index - 1)
  }

  /** The filter keeps everything when no item sits at `index`. */
  lemma {:induction false} KeepOthersMiss(items: seq<Item>, index: int)
    requires !(0 <= index < |items|)
    ensures KeepOthers(items, index) == items
    decreases |items|
  {
    if items != [] {
      KeepOthersMiss(items[1..], index - 1);
      assert [items[0]] + items[1..] == items;
    }
  }

  /** The filter drops exactly the item at `index`. */
  lemma {:induction false} KeepOthersHit(items: seq<Item>, index: int)
    requires 0 <= index < |items|
    ensures KeepOthers(items, index) == items[..index] + items[index + 1..]
    decreases |items|
  {
    var tail := items[1..];
    if index == 0 {
      KeepOthersMiss(tail, -1);
      assert KeepOthers(items, 0) == KeepOthers(tail, -1);
      assert items[..0] + items[1..] == tail;
    } else {
      KeepOthersHit(tail, index - 1);
      assert KeepOthers(items, index) == [items[0]] + KeepOthers(tail, index - 1);
      assert items[..index] == [items[0]] + tail[..index - 1];
      assert items[index + 1..] == tail[index..];
    }
  }

  /** removeItemField: the line goes only when more than one is left. */
  function RemoveItemField(items: seq<Item>, index: int): (r: seq<Item>)
    ensures |items| <= 1 ==> r == items
    ensures |items| > 1 && 0 <= index < |items| ==> r == items[..index] + items[index + 1..]
    ensures |items| > 1 && !(0 <= index < |items|) ==> r == items
  {
    if |items| > 1 then
      if 0 <= index < |items| then KeepOthersHit(items, index); KeepOthers(items, index)
      else KeepOthersMiss(items, index); KeepOthers(items, index)
    else items
  }

  /** The form never loses its last line. */
  lemma RemoveKeepsOneLine(items: seq<Item>, index: int)
    requires |items| >= 1
    ensures |RemoveItemField(items, index)| >= 1
  {
  }

  /** Removing a line lowers the total by exactly that line. */
  lemma RemoveItemTotal(items: seq<Item>, index: nat)
    requires |items| > 1 && index < |items|
    ensures Total(RemoveItemField(items, index)) == Total(items) - items[index].price * items[index].quantity
  {
    TotalWithout(items, index);
  }

  /** calculateReste: the form's total minus the advance, the value the
      server computes for the same form. */
  function CalculateReste(items: seq<Item>, avance: int): int {
    Total(items) - avance
  }

  /** Blank lines left in the form change neither the total nor what is
      still owed. */
  lemma BlankLinesKeepReste(items: seq<Item>, avance: int, extra: seq<Item>)
    requires forall i :: 0 <= i < |extra| ==> extra[i] == BLANK_ITEM
    ensures CalculateReste(items + extra, avance) == Total(items) - avance
  {
    BlankLinesTotal(extra);
    TotalAppend(items, extra);
  }

  lemma {:induction false} BlankLinesTotal(extra: seq<Item>)
    requires forall i :: 0 <= i < |extra| ==> extra[i] == BLANK_ITEM
    ensures Total(extra) == 0
  {
    if extra != [] {
      BlankLinesTotal(extra[1..]);
    }
  }

  /** searchCommande: no request for a blank code or for one that is not six
      characters from A–Z0–9. */
  predicate SearchAllowed(searchCode: string) {
    Text.Trim(searchCode) != "" && |searchCode| == 6 && OrderCode.ValidCode(searchCode)
  }

  /** The page's two checks together are exactly the format check, so a
      search the page sends is never turned down by the server for its
      format. */
  lemma SearchAllowedIffValid(searchCode: string, stored: set<string>)
    ensures SearchAllowed(searchCode) <==> OrderCode.ValidCode(searchCode)
    ensures SearchAllowed(searchCode) ==> CommandeController.GetCommandeByCode(searchCode, stored) != 400
  {
    if OrderCode.ValidCode(searchCode) {
      assert !Text.IsSpace(searchCode[0]);
    }
  }

  /** What the page keeps about the orders: the listed order ids and the
      order on display, if any. */
  datatype Listing = Listing(ids: seq<nat>, shown: Option<nat>)

  /** `prevCommandes.filter((cmd) => cmd._id !== id)` */
  function DropId(ids: seq<nat>, id: nat): (r: seq<nat>)
    ensures |r| <= |ids|
    ensures forall x :: x in r <==> x in ids && x != id
  {
    if ids == [] then []
    else (if ids[0] == id then [] else [ids[0]]) + DropId(ids[1..], id)
  }

  /** deleteCommande: without the confirmation code "2003" no request is
      sent and nothing changes; after a successful deletion the order leaves
      the list and, when it was on display, the display is cleared; a failed
      request changes nothing either. */
  function DeleteCommande(page: Listing, confirmation: string, id: nat, deleted: bool)
    : (r: (Listing, bool))
    ensures r.1 <==> confirmation == DELETE_CONFIRMATION_CODE
    ensures !(r.1 && deleted) ==> r.0 == page
    ensures r.1 && deleted ==>
      && (forall x :: x in r.0.ids <==> x in page.ids && x != id)
      && r.0.shown == (if page.shown == Some(id) then None else page.shown)
  {
    if confirmation != DELETE_CONFIRMATION_CODE then (page, false)
    else if !deleted then (page, true)
    else (Listing(DropId(page.ids, id), if page.shown == Some(id) then None else page.shown), true)
  }

  /** The list's "pay" button: it asks for `avance = total` only while
      something is owed. */
  function PayRequest(reste: int, total: int): (r: Option<int>)
    ensures r.Some? <==> reste > 0
    ensures r.Some? ==> r.value == total
  {
    if reste > 0 then Some(total) else None
  }

  /** On a stored order that still owes something, the button's request
      passes both of the server's checks (not above the total, a valid
      advance), so by `CommandeController.UpdateAvance` the order is saved
      with `avance = total` and owes nothing. */
  lemma PayButtonSettles(code: string, clientPhone: string, items: seq<Item>, total: int, avance: int)
    requires FieldsValid(code, clientPhone, items, avance) && total - avance > 0
    ensures PayRequest(total - avance, total) == Some(total)
    ensures !(total > total) && FieldsValid(code, clientPhone, items, total)
  {
  }

  /** One edited field of a form line; `Number(value)` for price and
      quantity. */
  datatype ItemField = NameField(name: string) | PriceField(price: int) | QuantityField(quantity: int)

  /** The new-order form's state. */
  class OrderForm {
    var clientPhone: string
    var description: string
    var avance: int
    var items: seq<Item>

    /** The empty form: one blank line and no advance. */
    constructor ()
      ensures clientPhone == "" && description == "" && avance == 0 && items == [BLANK_ITEM]
    {
      clientPhone := "";
      description := "";
      avance := 0;
      items := [BLANK_ITEM];
    }

    /** handleItemChange: one field of one line is assigned in place. */
    method ChangeItem(index: nat, field: ItemField)
      requires index < |items|
      modifies this
      ensures |items| == |old(items)|
      ensures forall i :: 0 <= i < |items| && i != index ==> items[i] == old(items[i])
      ensures match field
        case NameField(v) => items[index] == old(items[index]).(name := v)
        case PriceField(v) => items[index] == old(items[index]).(price := v)
        case QuantityField(v) => items[index] == old(items[index]).(quantity := v)
      ensures clientPhone == old(clientPhone) && description == old(description) && avance == old(avance)
    {
      var it := items[index];
      match field {
        case NameField(v) => it := it.(name := v);
        case PriceField(v) => it := it.(price := v);
        case QuantityField(v) => it := it.(quantity := v);
      }
      items := items[index := it];
    }

    /** Editing a line moves the total by the change in that line alone. */
    lemma ChangeItemTotal(before: seq<Item>, index: nat, it: Item)
      requires index < |before|
      ensures Total(before[index := it])
        == Total(before) - before[index].price * before[index].quantity + it.price * it.quantity
    {
      var after := before[index := it];
      TotalWithout(before, index);
      TotalWithout(after, index);
      assert after[..index] + after[index + 1..] == before[..index] + before[index + 1..];
    }
  }
}
