/** The custom-order handlers (backend/controllers/commandeController.js).
    The store lookups by id are done by the caller: a handler receives the
    loaded order, or `null` when no order has that id.  The codes already in
    the store and the random draws are parameters. */
module CommandeController {
  import opened Common
  import OrderCode
  import opened Commande

  /** createCommande: `avance` defaults to 0, the total is the sum of the
      item lines and `reste` is `total - avance`; the pickup code comes from
      the bounded retry (500 when all ten draws are taken), and a document
      the schema rejects is a 500 as well. */
  method CreateCommande(clientPhone: string, description: Option<string>, items: seq<Item>,
                        avance: Option<int>, draws: seq<seq<nat>>, taken: set<string>)
    returns (status: nat, order: Order?)
    requires OrderCode.ValidDraws(draws)
    ensures status == 201 || status == 500
    ensures var picked := OrderCode.FirstFree(OrderCode.Candidates(draws), taken);
      status == 201 <==> picked.Some? && FieldsValid(picked.value, clientPhone, items, avance.GetOr(0))
    ensures status == 500 ==> order == null
    ensures status == 201 ==>
      && order != null && fresh(order)
      && order.code == OrderCode.FirstFree(OrderCode.Candidates(draws), taken).value
      && OrderCode.ValidCode(order.code) && order.code !in taken
      && order.clientPhone == clientPhone && order.description == description.GetOr("")
      && order.items == items && order.total == Total(items)
      && order.avance == avance.GetOr(0) && order.reste == Total(items) - avance.GetOr(0)
      && order.status == Pending && !order.isNew
  {
    var total := Total(items);
    var av := avance.GetOr(0);
    var reste := total - av;
    var code := OrderCode.PickUniqueCode(draws, taken);
    if code.None? {
      return 500, null;
    }
    order := new Order(code.value, clientPhone, description, items, total, Some(av), reste);
    var err := order.Save(draws, taken);
    if err.Some? {
      return 500, null;
    }
    status := 201;
  }

  /** getCommandeByCode: anything but six characters from A–Z0–9 is a 400
      before any lookup; a well-formed code no order carries is a 404. */
  function GetCommandeByCode(code: string, stored: set<string>): (status: nat)
    ensures status == 400 <==> !OrderCode.ValidCode(code)
    ensures status == 404 <==> OrderCode.ValidCode(code) && code !in stored
    ensures status == 200 <==> OrderCode.ValidCode(code) && code in stored
  {
    if code == [] || |code| != 6 || !OrderCode.ValidCode(code) then 400
    else
      OrderCode.UpperOfValidCode(code);
      if OrderCode.ToUpper(code) !in stored then 404 else 200
  }

  /** updateCommandeAvance: an unknown id is a 404; an advance above the
      total is a 400; otherwise `avance` and `reste = total - avance` are
      set and saved, and a save the schema rejects (a negative advance) is a
      500 that leaves the stored order as it was. */
  method UpdateAvance(c: Order?, avance: int) returns (status: nat)
    modifies c
    ensures c == null ==> status == 404
    ensures c != null ==>
      (status == 400 <==> avance > old(c.total))
      && (status == 200 <==>
            avance <= old(c.total) && FieldsValid(old(c.code), old(c.clientPhone), old(c.items), avance))
      && (status == 400 || status == 200 || status == 500)
    ensures c != null && status != 200 ==> unchanged(c)
    ensures c != null && status == 200 ==>
      && c.avance == avance && c.reste == c.total - avance && 0 <= c.reste <= c.total
      && c.code == old(c.code) && c.clientPhone == old(c.clientPhone)
      && c.description == old(c.description) && c.items == old(c.items)
      && c.total == old(c.total) && c.status == old(c.status)
  {
    if c == null {
      return 404;
    }
    if avance > c.total {
      return 400;
    }
    var oldAvance, oldReste := c.avance, c.reste;
    c.avance := avance;
    c.reste := c.total - avance;
    var err := c.Save([], {});
    if err.Some? {
      c.avance, c.reste := oldAvance, oldReste;
      return 500;
    }
    status := 200;
  }

  /** updateCommandeStatus: the update runs with the schema's validators, so
      a value outside the status enumeration is a 500 whether or not the id
      exists; a valid status on an unknown id is a 404. */
  method UpdateStatus(c: Order?, status: string) returns (code: nat)
    modifies c
    ensures ParseStatus(status).None? ==> code == 500
    ensures ParseStatus(status).Some? && c == null ==> code == 404
    ensures ParseStatus(status).Some? && c != null ==> code == 200 && StatusName(c.status) == status
    ensures c != null && code != 200 ==> unchanged(c)
    ensures c != null ==>
      && c.code == old(c.code) && c.clientPhone == old(c.clientPhone)
      && c.description == old(c.description) && c.items == old(c.items)
      && c.total == old(c.total) && c.avance == old(c.avance) && c.reste == old(c.reste)
  {
    var parsed := ParseStatus(status);
    if parsed.None? {
      return 500;
    }
    if c == null {
      return 404;
    }
    c.status := parsed.value;
    code := 200;
  }

  /** deleteCommande: an unknown id is a 404 and nothing is removed;
      otherwise exactly that order goes. */
  function DeleteCommande(ids: set<nat>, id: nat): (r: (nat, set<nat>))
    ensures r.0 == 404 <==> id !in ids
    ensures r.0 == 404 ==> r.1 == ids
    ensures r.0 != 404 ==> r.0 == 200 && id !in r.1 && r.1 + {id} == ids
  {
    if id !in ids then (404, ids) else (200, ids - {id})
  }
}
