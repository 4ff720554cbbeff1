/** The admin page of the supplier ledger (admin/src/pages/Fournisseur.jsx):
    the weekly statistics, the balance column, the per-voucher "Payer"
    action and the input checks made before a request is sent.  Dates are
    millisecond time stamps and `now` is a parameter. */
module FournisseurAdmin {
  import opened Common
  import opened Fournisseur
  import FournisseurController
  import opened Seqs

  /** One week in milliseconds. */
  const WEEK: int := 7 * 24 * 60 * 60 * 1000

  /** The weekly window: on or after one week ago, with no upper bound. */
  predicate InWindow(date: int, now: int) {
    date >= now - WEEK
  }

  function VoucherDate(v: Voucher): int { v.date }
  function PaymentDate(p: Payment): int { p.date }

  /** The weekly filter both lists go through (vouchers by `VoucherDate`,
      payments by `PaymentDate`): the entries dated in the window, in their
      order. */
  function Recent<T(==,!new)>(xs: seq<T>, date: T -> int, now: int): (r: seq<T>)
    ensures |r| <= |xs|
    ensures forall x :: x in r <==> x in xs && InWindow(date(x), now)
    ensures IsSubsequence(r, xs)
  {
    if xs == [] then []
    else if InWindow(date(xs[0]), now) then
      var r := [xs[0]] + Recent(xs[1..], date, now);
      assert r[0] == xs[0] && r[1..] == Recent(xs[1..], date, now);
      r
    else Recent(xs[1..], date, now)
  }

  datatype WeeklyStats = WeeklyStats(
    totalBonnes: int,
    totalPaiements: int,
    resteAPayer: int,
    countBonnes: nat,
    countPaiements: nat)

  /** calculateWeeklyStats: sums and counts over the vouchers and payments in
      the window; the rest to pay is their difference, not clamped. */
  function CalculateWeeklyStats(vs: seq<Voucher>, ps: seq<Payment>, now: int): (r: WeeklyStats)
    ensures r.resteAPayer == r.totalBonnes - r.totalPaiements
    ensures r.countBonnes <= |vs| && r.countPaiements <= |ps|
  {
    var bonnes := Recent(vs, VoucherDate, now);
    var paiements := Recent(ps, PaymentDate, now);
    var totalBonnes := TotalAmount(bonnes);
    var totalPaiements := TotalPayments(paiements);
    WeeklyStats(totalBonnes, totalPaiements, totalBonnes - totalPaiements, |bonnes|, |paiements|)
  }

  lemma {:induction false} RecentAppend<T(!new)>(xs: seq<T>, x: T, date: T -> int, now: int)
    ensures Recent(xs + [x], date, now)
      == Recent(xs, date, now) + (if InWindow(date(x), now) then [x] else [])
  {
    if xs == [] {
      assert xs + [x] == [x];
    } else {
      assert (xs + [x])[1..] == xs[1..] + [x];
      RecentAppend(xs[1..], x, date, now);
    }
  }

  /** A new voucher counts in the weekly figures exactly when it is dated in
      the window (a future date included), and then with its whole amount. */
  lemma WeeklyStatsNewVoucher(vs: seq<Voucher>, ps: seq<Payment>, v: Voucher, now: int)
    ensures var before := CalculateWeeklyStats(vs, ps, now);
            var after := CalculateWeeklyStats(vs + [v], ps, now);
            if InWindow(v.date, now) then
              after.totalBonnes == before.totalBonnes + v.amount
              && after.countBonnes == before.countBonnes + 1
              && after.resteAPayer == before.resteAPayer + v.amount
            else after == before
  {
    RecentAppend(vs, v, VoucherDate, now);
    TotalAmountAppend(Recent(vs, VoucherDate, now), if InWindow(v.date, now) then [v] else []);
  }

  /** A new payment counts in the weekly figures exactly when it is dated in
      the window, and then lowers the weekly rest by its amount. */
  lemma WeeklyStatsNewPayment(vs: seq<Voucher>, ps: seq<Payment>, p: Payment, now: int)
    ensures var before := CalculateWeeklyStats(vs, ps, now);
            var after := CalculateWeeklyStats(vs, ps + [p], now);
            if InWindow(p.date, now) then
              after.totalPaiements == before.totalPaiements + p.amount
              && after.countPaiements == before.countPaiements + 1
              && after.resteAPayer == before.resteAPayer - p.amount
            else after == before
  {
    RecentAppend(ps, p, PaymentDate, now);
    TotalPaymentsAppend(Recent(ps, PaymentDate, now), if InWindow(p.date, now) then [p] else []);
  }

  lemma {:induction false} AllRecent<T(!new)>(xs: seq<T>, date: T -> int, now: int)
    requires forall i :: 0 <= i < |xs| ==> InWindow(date(xs[i]), now)
    ensures Recent(xs, date, now) == xs
  {
    if xs != [] {
      AllRecent(xs[1..], date, now);
      assert [xs[0]] + xs[1..] == xs;
    }
  }

  /** When everything is recent the weekly figures are the all-time ones. */
  lemma WeeklyStatsAllRecent(vs: seq<Voucher>, ps: seq<Payment>, now: int)
    requires forall i :: 0 <= i < |vs| ==> InWindow(vs[i].date, now)
    requires forall i :: 0 <= i < |ps| ==> InWindow(ps[i].date, now)
    ensures CalculateWeeklyStats(vs, ps, now)
      == WeeklyStats(TotalAmount(vs), TotalPayments(ps), TotalAmount(vs) - TotalPayments(ps), |vs|, |ps|)
  {
    AllRecent(vs, VoucherDate, now);
    AllRecent(ps, PaymentDate, now);
  }

  /** The weekly rest is not clamped: a payment larger than the week's
      vouchers makes it negative. */
  lemma WeeklyRestCanBeNegative(now: int)
    ensures CalculateWeeklyStats([], [Payment(100, now, "")], now).resteAPayer == -100
  {
    var ps := [Payment(100, now, "")];
    assert ps[1..] == [];
    assert InWindow(now, now);
    assert Recent(ps, PaymentDate, now) == ps;
    assert TotalPayments(ps) == 100;
    assert TotalAmount(Recent([], VoucherDate, now)) == 0;
  }

  /** The list's "Reste à Payer" column. */
  function Balance(s: Supplier): (b: int)
    reads s
    ensures s.Valid() ==> b == TotalAmount(s.vouchers) - TotalPayments(s.payments)
  {
    s.totalPurchased - s.totalPaid
  }

  /** The "Payer" button is shown for unpaid vouchers only. */
  predicate PayButtonShown(v: Voucher) {
    !v.isPaid
  }

  /** The amount the "Payer" prompt proposes. */
  function DefaultPayment(v: Voucher): int {
    v.amount - v.paidAmount
  }

  /** Accepting the proposed amount settles the voucher exactly: it ends
      paid in full and flagged paid, and the whole proposal is applied. */
  lemma DefaultPaymentSettles(v: Voucher)
    requires Sound(v) && PayButtonShown(v)
    ensures DefaultPayment(v) >= 0
    ensures FournisseurController.PayTargeted(v, DefaultPayment(v)).paidAmount == v.amount
    ensures FournisseurController.PayTargeted(v, DefaultPayment(v)).isPaid
    ensures FournisseurController.PayTargeted(v, DefaultPayment(v)).paidAmount - v.paidAmount
         == DefaultPayment(v)
  {
  }

  /** A text input as the page sees it: empty, not a number, or a number. */
  datatype AmountInput = Empty | NotNumeric | Numeric(value: int)

  /** The add-voucher form: no request unless the amount is a number and a
      date was chosen; the request carries the parsed amount. */
  function AddVoucherRequest(amount: AmountInput, date: string): (r: Option<FormNumber>)
    ensures r.Some? <==> amount.Numeric? && date != ""
    ensures r.Some? ==> r.value == Number(amount.value)
  {
    if amount.Numeric? && date != "" then Some(Number(amount.value)) else None
  }

  /** The general payment prompt: no request unless a number was typed. */
  function PaymentRequest(amount: AmountInput): (r: Option<int>)
    ensures r.Some? <==> amount.Numeric?
    ensures r.Some? ==> r.value == amount.value
  {
    match amount
    case Numeric(v) => Some(v)
    case _ => None
  }
}
