/** The bakery's custom orders ("commandes", backend/models/CommandeModel.js):
    a six-character pickup code, the client's phone, a list of items, the
    total, the advance paid ("avance"), what is still owed ("reste") and a
    status.  Amounts are integers.  The code draws and the set of codes
    already in the store are parameters of the save. */
module Commande {
  import opened Common
  import OrderCode

  datatype Item = Item(name: string, price: int, quantity: int)

  /** `items.reduce((sum, item) => sum + item.price * item.quantity, 0)` */
  function Total(items: seq<Item>): int {
    if items == [] then 0 else items[0].price * items[0].quantity + Total(items[1..])
  }

  lemma {:induction false} TotalAppend(a: seq<Item>, b: seq<Item>)
    ensures Total(a + b) == Total(a) + Total(b)
  {
    if a != [] {
      assert (a + b)[1..] == a[1..] + b;
      TotalAppend(a[1..], b);
    } else {
      assert a + b == b;
    }
  }

  /** Removing one item lowers the total by exactly that item's line,
      price times quantity. */
  lemma TotalWithout(items: seq<Item>, k: nat)
    requires k < |items|
    ensures Total(items[..k] + items[k + 1..]) == Total(items) - items[k].price * items[k].quantity
  {
    var before, after := items[..k], items[k + 1..];
    assert items == before + ([items[k]] + after);
    TotalAppend(before, [items[k]] + after);
    assert ([items[k]] + after)[1..] == after;
    TotalAppend(before, after);
  }

  /** The `status` enumeration; `pending` is the default. */
  datatype Status = Pending | Preparing | Ready | Completed | Cancelled

  function StatusName(s: Status): string {
    match s
    case Pending => "pending"
    case Preparing => "preparing"
    case Ready => "ready"
    case Completed => "completed"
    case Cancelled => "cancelled"
  }

  /** The enum validator: a status string is accepted exactly when it names
      one of the five statuses. */
  function ParseStatus(s: string): (r: Option<Status>)
    ensures r.Some? ==> StatusName(r.value) == s
    ensures r.None? ==> forall st: Status :: StatusName(st) != s
  {
    if s == "pending" then Some(Pending)
    else if s == "preparing" then Some(Preparing)
    else if s == "ready" then Some(Ready)
    else if s == "completed" then Some(Completed)
    else if s == "cancelled" then Some(Cancelled)
    else None
  }

  lemma StatusNameParses(s: Status)
    ensures ParseStatus(StatusName(s)) == Some(s)
  {
  }

  /** The schema's validators over the fields they constrain: `code`,
      `clientPhone` and every item `name` are required (an empty string
      fails `required`), and `avance` has the minimum 0.  The numeric
      fields are always present in this model. */
  predicate FieldsValid(code: string, clientPhone: string, items: seq<Item>, avance: int) {
    && code != "" && clientPhone != ""
    && (forall i :: 0 <= i < |items| ==> items[i].name != "")
    && avance >= 0
  }

  /** An order document. */
  class Order {
    var code: string
    var clientPhone: string
    var description: string
    var items: seq<Item>
    var total: int
    var avance: int
    var reste: int
    var status: Status
    /** Mongoose's `isNew`: true until the first successful save. */
    var isNew: bool

    /** What every saved order satisfies: `reste` is `total - avance`. */
    predicate Settled()
      reads this
    {
      reste == total - avance
    }

    predicate SchemaValid()
      reads this
    {
      FieldsValid(code, clientPhone, items, avance)
    }

    /** `new Commande({...})`: `description` defaults to '', `avance` to 0
        and `status` to pending; nothing is saved yet. */
    constructor (code: string, clientPhone: string, description: Option<string>, items: seq<Item>,
                 total: int, avance: Option<int>, reste: int)
      ensures this.code == code && this.clientPhone == clientPhone
      ensures this.description == description.GetOr("") && this.items == items
      ensures this.total == total && this.avance == avance.GetOr(0) && this.reste == reste
      ensures status == Pending && isNew
    {
      this.code := code;
      this.clientPhone := clientPhone;
      this.description := description.GetOr("");
      this.items := items;
      this.total := total;
      this.avance := avance.GetOr(0);
      this.reste := reste;
      status := Pending;
      isNew := true;
    }

    /** The two pre-save hooks, in the order the schema registers them.
        The first gives a new document without a code one drawn with the
        bounded retry, and fails (leaving the document as it was) when all
        ten draws are taken; the second recomputes `reste`, overriding
        whatever was supplied. */
    method PreSave(draws: seq<seq<nat>>, taken: set<string>) returns (err: Option<string>)
      requires isNew && code == "" ==> OrderCode.ValidDraws(draws)
      modifies this
      ensures var needsCode := old(isNew) && old(code) == "";
        && (err.Some? <==> needsCode && OrderCode.FirstFree(OrderCode.Candidates(draws), taken).None?)
        && (err.Some? ==> unchanged(this))
        && (err.None? ==>
              && Settled() && reste == total - avance
              && (needsCode ==> code == OrderCode.FirstFree(OrderCode.Candidates(draws), taken).value
                                && OrderCode.ValidCode(code) && code !in taken)
              && (!needsCode ==> code == old(code)))
      ensures clientPhone == old(clientPhone) && description == old(description) && items == old(items)
      ensures total == old(total) && avance == old(avance) && status == old(status) && isNew == old(isNew)
    {
      if isNew && code == "" {
        var picked := OrderCode.PickUniqueCode(draws, taken);
        if picked.None? {
          return Some("Could not generate a unique code after multiple attempts");
        }
        code := picked.value;
      }
      reste := total - avance;
      err := None;
    }

    /** `save()`: the schema's validators run first, then the pre-save
        hooks; a successful save clears `isNew`.  A failed save leaves the
        document as it was. */
    method Save(draws: seq<seq<nat>>, taken: set<string>) returns (err: Option<string>)
      modifies this
      ensures err.None? <==> old(SchemaValid())
      ensures err.Some? ==> unchanged(this)
      ensures err.None? ==> Settled() && SchemaValid() && !isNew
      ensures err.None? ==>
        (&& code == old(code) && clientPhone == old(clientPhone)
         && description == old(description) && items == old(items)
         && total == old(total) && avance == old(avance) && status == old(status))
    {
      if !SchemaValid() {
        return Some("Validation failed");
      }
      err := PreSave(draws, taken);
      if err.None? {
        isNew := false;
      }
    }
  }

  /** Validation runs before the hooks and `code` is required, so the hook
      that draws a code never gets to run on a document without one: saving
      it always fails. */
  lemma CodeHookUnreachable(code: string, clientPhone: string, items: seq<Item>, avance: int)
    requires code == ""
    ensures !FieldsValid(code, clientPhone, items, avance)
  {
  }
}
