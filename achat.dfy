/** The purchase history page (frontend/src/pages/achat.jsx): the stored
    purchases, their synchronisation with the orders the admin still
    holds, their total and the label each status is shown with.  Local
    storage and the request are not modelled: the stored list is a value
    and the server's answer is a parameter. */
module Achat {
  import opened Common
  import opened Seqs

  /** A stored purchase: an order id when the order was placed on the
      server, the amount and the status. */
  datatype Purchase = Purchase(id: Option<string>, amount: Option<int>, status: string)

  /** `p._id` is truthy. */
  predicate HasId(p: Purchase) {
    p.id.Some? && p.id.value != ""
  }

  /** `purchases.map(p => p._id).filter(id => id)` */
  function PurchaseIds(ps: seq<Purchase>): (ids: seq<string>)
    ensures |ids| <= |ps|
    ensures forall id :: id in ids <==> exists p :: p in ps && HasId(p) && p.id.value == id
  {
    if ps == [] then []
    else
      assert forall p :: p in ps <==> p == ps[0] || p in ps[1..];
      (if HasId(ps[0]) then [ps[0].id.value] else []) + PurchaseIds(ps[1..])
  }

  /** The ids sent to the server, or `None` when no purchase has one and no
      request is made. */
  function SyncRequest(ps: seq<Purchase>): (r: Option<seq<string>>)
    ensures r.None? <==> forall p :: p in ps ==> !HasId(p)
    ensures r.Some? ==> r.value == PurchaseIds(ps)
  {
    var ids := PurchaseIds(ps);
    if ids == [] then
      assert forall p :: p in ps && HasId(p) ==> p.id.value in ids;
      None
    else
      assert ids[0] in ids;
      Some(ids)
  }

  /** The server's answer: a failed response, or the ids it still knows
      (`existingOrders`, possibly missing). */
  datatype Response = Failed | Answered(existingOrders: Option<seq<string>>)

  /** The filter condition: no id, or an id the server still knows. */
  predicate StillExists(existing: seq<string>, p: Purchase) {
    !HasId(p) || p.id.value in existing
  }

  /** The filter as a function value, for `existing` or `[]`. */
  function Keeps(existing: Option<seq<string>>): Purchase -> bool {
    p => StillExists(existing.GetOr([]), p)
  }

  /** syncWithAdmin: without a request, or when the response is not ok,
      the list stays; otherwise the purchases without an id and those whose
      order still exists are kept. */
  function SyncWithAdmin(ps: seq<Purchase>, response: Response): (r: seq<Purchase>)
    ensures SyncRequest(ps).None? || response.Failed? ==> r == ps
    ensures SyncRequest(ps).Some? && response.Answered? ==>
      forall p :: p in r <==> p in ps && StillExists(response.existingOrders.GetOr([]), p)
    ensures |r| <= |ps|
  {
    if SyncRequest(ps).None? then ps
    else match response
      case Failed => ps
      case Answered(existing) => Filter(ps, Keeps(existing))
  }

  /** The synchronised list keeps the purchases in their stored order. */
  lemma SyncKeepsOrder(ps: seq<Purchase>, response: Response)
    ensures IsSubsequence(SyncWithAdmin(ps, response), ps)
  {
    if SyncRequest(ps).None? || response.Failed? {
      IdentitySubsequence(ps);
    } else {
      FilterIsSubsequence(ps, Keeps(response.existingOrders));
    }
  }

  /** Synchronising again with the same answer changes nothing. */
  lemma SyncIdempotent(ps: seq<Purchase>, response: Response)
    ensures SyncWithAdmin(SyncWithAdmin(ps, response), response) == SyncWithAdmin(ps, response)
  {
    var r := SyncWithAdmin(ps, response);
    if SyncRequest(ps).Some? && response.Answered? && SyncRequest(r).Some? {
      var keep := Keeps(response.existingOrders);
      assert r == Filter(ps, keep);
      FilterFilter(ps, keep, keep, keep);
    }
  }

  /** `order.amount || 0` */
  function AmountOr0(p: Purchase): int {
    p.amount.GetOr(0)
  }

  /** totalAllPurchases */
  function TotalAllPurchases(ps: seq<Purchase>): int {
    if ps == [] then 0 else AmountOr0(ps[0]) + TotalAllPurchases(ps[1..])
  }

  /** Dropping purchases never raises a total of non-negative amounts. */
  lemma {:induction false} FilterLowersTotal(ps: seq<Purchase>, keep: Purchase -> bool)
    requires forall p :: p in ps ==> AmountOr0(p) >= 0
    ensures 0 <= TotalAllPurchases(Filter(ps, keep)) <= TotalAllPurchases(ps)
  {
    if ps != [] {
      FilterLowersTotal(ps[1..], keep);
      if keep(ps[0]) {
        assert Filter(ps, keep) == [ps[0]] + Filter(ps[1..], keep);
        assert Filter(ps, keep)[1..] == Filter(ps[1..], keep);
      } else {
        assert Filter(ps, keep) == Filter(ps[1..], keep);
      }
    }
  }

  /** With non-negative amounts the total after a synchronisation is at
      most the total before it. */
  lemma SyncNeverRaisesTotal(ps: seq<Purchase>, response: Response)
    requires forall p :: p in ps ==> AmountOr0(p) >= 0
    ensures TotalAllPurchases(SyncWithAdmin(ps, response)) <= TotalAllPurchases(ps)
  {
    if SyncRequest(ps).Some? && response.Answered? {
      FilterLowersTotal(ps, Keeps(response.existingOrders));
    }
  }

  /** The style a status is shown with; the icon is left out. */
  datatype StatusStyle = StatusStyle(bgClass: string, textClass: string, labelText: string)

  const PURCHASED_LABEL: string := "تم الشراء"

  /** getStatusStyle */
  function GetStatusStyle(status: string): (r: StatusStyle)
    ensures status == "completed" ==> r.labelText == "مكتمل" && r.bgClass == "bg-green-100"
    ensures status == "pending" ==> r.labelText == "قيد الانتظار" && r.bgClass == "bg-yellow-100"
    ensures status == "cancelled" ==> r.labelText == "ملغي" && r.bgClass == "bg-red-100"
    ensures r.labelText == PURCHASED_LABEL <==> status !in {"completed", "pending", "cancelled"}
  {
    match status
    case "completed" => StatusStyle("bg-green-100", "text-green-800", "مكتمل")
    case "pending" => StatusStyle("bg-yellow-100", "text-yellow-800", "قيد الانتظار")
    case "cancelled" => StatusStyle("bg-red-100", "text-red-800", "ملغي")
    case _ => StatusStyle("bg-blue-100", "text-blue-800", PURCHASED_LABEL)
  }

  /** The four styles are told apart by their labels. */
  lemma StatusLabelsDistinct(s: string, t: string)
    ensures GetStatusStyle(s).labelText == GetStatusStyle(t).labelText <==> GetStatusStyle(s) == GetStatusStyle(t)
  {
  }
}
