/** The supplier ledger's handlers (backend/controllers/fournisseurController.js).
    Each handler works on the supplier document already loaded from the
    store (the 404 for an unknown supplier id happens before, in the store
    lookup) and updates it in place.  Generated image names are parameters. */
module FournisseurController {
  import opened Common
  import opened Fournisseur
  import Text

  /** What is still owed on a voucher. */
  function Needed(v: Voucher): int {
    v.amount - v.paidAmount
  }

  /** Only `paidAmount` and `isPaid` of a voucher are touched by a payment. */
  predicate SameVoucher(a: Voucher, b: Voucher) {
    a.amount == b.amount && a.images == b.images && a.description == b.description && a.date == b.date
  }

  /** Adds `pay` to the paid part and sets `isPaid` once it covers the
      amount; `isPaid` is never reset. */
  function Credit(v: Voucher, pay: int): Voucher {
    var paid := v.paidAmount + pay;
    v.(paidAmount := paid, isPaid := if paid >= v.amount then true else v.isPaid)
  }

  /** Targeted payment of one voucher: what is applied is
      `min(amount - paidAmount, payment)`. */
  function PayTargeted(v: Voucher, payment: int): (r: Voucher)
    ensures SameVoucher(r, v)
    ensures r.paidAmount <= r.amount
    ensures r.paidAmount - v.paidAmount <= payment
    ensures v.isPaid ==> r.isPaid
    ensures payment >= Needed(v) ==> r.paidAmount == r.amount && r.isPaid
    ensures payment < Needed(v) ==> r.paidAmount == v.paidAmount + payment && r.isPaid == v.isPaid
  {
    Credit(v, Min(Needed(v), payment))
  }

  /** The general payment: vouchers in stored order, already paid ones
      skipped, each unpaid one credited with `min(needed, remaining)`, and the
      walk stops as soon as nothing remains. */
  function Sweep(vs: seq<Voucher>, remaining: int): (r: seq<Voucher>)
    ensures |r| == |vs|
    ensures remaining <= 0 ==> r == vs
    decreases |vs|
  {
    if vs == [] || remaining <= 0 then vs
    else [SweepHead(vs[0], remaining)] + Sweep(vs[1..], SweepRest(vs[0], remaining))
  }

  /** One step of the sweep on a voucher while money remains: a paid one is
      skipped, an unpaid one gets `min(needed, remaining)`. */
  function SweepHead(v: Voucher, remaining: int): Voucher {
    if v.isPaid then v else Credit(v, Min(Needed(v), remaining))
  }

  /** What remains after that step. */
  function SweepRest(v: Voucher, remaining: int): int {
    if v.isPaid then remaining else remaining - Min(Needed(v), remaining)
  }

  /** What is left of the payment once the sweep stops. */
  function Leftover(vs: seq<Voucher>, remaining: int): (left: int)
    ensures remaining >= 0 ==> left >= 0
    ensures remaining <= 0 ==> left == remaining
    decreases |vs|
  {
    if vs == [] || remaining <= 0 then remaining
    else Leftover(vs[1..], SweepRest(vs[0], remaining))
  }

  /** How a payment is spread over the vouchers: a resolved target gets a
      targeted payment, an unresolved target gets nothing (no fallback to the
      sweep), and no target means the sweep. */
  function Allocate(vs: seq<Voucher>, target: Option<nat>, amount: int): (r: seq<Voucher>)
    ensures |r| == |vs|
    ensures forall i :: 0 <= i < |vs| ==> SameVoucher(r[i], vs[i])
  {
    match target
    case None => SweepKeepsVouchers(vs, amount); Sweep(vs, amount)
    case Some(k) => if k < |vs| then vs[k := PayTargeted(vs[k], amount)] else vs
  }

  // ---------------------------------------------------------------------
  // Properties of the allocation

  /** A targeted payment of a non-negative amount keeps the voucher sound. */
  lemma PayTargetedSound(v: Voucher, payment: int)
    requires Sound(v) && payment >= 0
    ensures Sound(PayTargeted(v, payment))
    ensures PayTargeted(v, payment).paidAmount >= v.paidAmount
    ensures PayTargeted(v, payment).isPaid <==> PayTargeted(v, payment).paidAmount >= v.amount || v.isPaid
  {
  }

  /** The sweep changes only the paid part and flag of each voucher. */
  lemma {:induction false} SweepKeepsVouchers(vs: seq<Voucher>, remaining: int)
    ensures forall i :: 0 <= i < |vs| ==> SameVoucher(Sweep(vs, remaining)[i], vs[i])
    decreases |vs|
  {
    if vs != [] && remaining > 0 {
      var rest := SweepRest(vs[0], remaining);
      SweepKeepsVouchers(vs[1..], rest);
      var r := Sweep(vs, remaining);
      assert r[1..] == Sweep(vs[1..], rest);
      forall i | 0 <= i < |vs| ensures SameVoucher(r[i], vs[i]) {
        if i > 0 {
          assert r[i] == Sweep(vs[1..], rest)[i - 1] && vs[i] == vs[1..][i - 1];
        }
      }
    }
  }

  /** The sweep keeps every voucher sound. */
  lemma {:induction false} SweepSound(vs: seq<Voucher>, remaining: int)
    requires AllSound(vs)
    ensures AllSound(Sweep(vs, remaining))
    decreases |vs|
  {
    if vs != [] && remaining > 0 {
      var rest := SweepRest(vs[0], remaining);
      SweepSound(vs[1..], rest);
      var r := Sweep(vs, remaining);
      assert r[1..] == Sweep(vs[1..], rest);
      forall i | 0 <= i < |r| ensures Sound(r[i]) {
        if i > 0 {
          assert r[i] == Sweep(vs[1..], rest)[i - 1];
        }
      }
    }
  }

  /** The sweep only raises paid parts, and leaves vouchers already flagged
      paid exactly as they were. */
  lemma {:induction false} SweepOnlyRaises(vs: seq<Voucher>, remaining: int)
    requires AllSound(vs)
    ensures forall i :: 0 <= i < |vs| ==>
      Sweep(vs, remaining)[i].paidAmount >= vs[i].paidAmount
      && (vs[i].isPaid ==> Sweep(vs, remaining)[i] == vs[i])
    decreases |vs|
  {
    if vs != [] && remaining > 0 {
      var rest := SweepRest(vs[0], remaining);
      SweepOnlyRaises(vs[1..], rest);
      var r := Sweep(vs, remaining);
      assert r[1..] == Sweep(vs[1..], rest);
      forall i | 0 <= i < |vs|
        ensures r[i].paidAmount >= vs[i].paidAmount && (vs[i].isPaid ==> r[i] == vs[i])
      {
        if i > 0 {
          assert r[i] == Sweep(vs[1..], rest)[i - 1] && vs[i] == vs[1..][i - 1];
        }
      }
    }
  }

  /** The money applied by the sweep is the payment minus the leftover, and
      on sound vouchers the leftover never exceeds the payment: the sweep
      applies between 0 and the payment amount. */
  lemma {:induction false} SweepApplied(vs: seq<Voucher>, remaining: int)
    requires AllSound(vs)
    ensures TotalPaid(Sweep(vs, remaining)) == TotalPaid(vs) + (remaining - Leftover(vs, remaining))
    ensures remaining >= 0 ==> 0 <= Leftover(vs, remaining) <= remaining
    decreases |vs|
  {
    if vs != [] && remaining > 0 {
      var r := Sweep(vs, remaining);
      if vs[0].isPaid {
        SweepApplied(vs[1..], remaining);
        assert r[1..] == Sweep(vs[1..], remaining);
      } else {
        var pay := Min(Needed(vs[0]), remaining);
        SweepApplied(vs[1..], remaining - pay);
        assert r[1..] == Sweep(vs[1..], remaining - pay);
      }
    }
  }

  /** Oldest first: a voucher is changed by the sweep only if every voucher
      before it ends up flagged paid and paid in full. */
  lemma {:induction false} SweepInOrder(vs: seq<Voucher>, remaining: int, j: nat)
    requires AllSound(vs)
    requires j < |vs| && Sweep(vs, remaining)[j] != vs[j]
    ensures forall i :: 0 <= i < j ==>
      Sweep(vs, remaining)[i].isPaid && Sweep(vs, remaining)[i].paidAmount == vs[i].amount
    decreases |vs|
  {
    var r := Sweep(vs, remaining);
    assert remaining > 0;
    var rest := SweepRest(vs[0], remaining);
    assert r[1..] == Sweep(vs[1..], rest);
    if j > 0 {
      assert r[j] == Sweep(vs[1..], rest)[j - 1] && vs[j] == vs[1..][j - 1];
      SweepInOrder(vs[1..], rest, j - 1);
      assert rest > 0;
      forall i | 0 <= i < j ensures r[i].isPaid && r[i].paidAmount == vs[i].amount {
        if i > 0 {
          assert r[i] == Sweep(vs[1..], rest)[i - 1] && vs[i] == vs[1..][i - 1];
        }
      }
    }
  }

  /** Money left over after the sweep means every voucher is paid off. */
  lemma {:induction false} LeftoverMeansAllPaid(vs: seq<Voucher>, remaining: int)
    requires AllSound(vs) && Leftover(vs, remaining) > 0
    ensures forall i :: 0 <= i < |vs| ==>
      Sweep(vs, remaining)[i].isPaid && Sweep(vs, remaining)[i].paidAmount == vs[i].amount
    decreases |vs|
  {
    if vs != [] {
      var r := Sweep(vs, remaining);
      var rest := SweepRest(vs[0], remaining);
      assert r[1..] == Sweep(vs[1..], rest);
      LeftoverMeansAllPaid(vs[1..], rest);
      forall i | 0 <= i < |vs| ensures r[i].isPaid && r[i].paidAmount == vs[i].amount {
        if i > 0 {
          assert r[i] == Sweep(vs[1..], rest)[i - 1] && vs[i] == vs[1..][i - 1];
        }
      }
    }
  }

  /** Any allocation of a non-negative amount keeps every voucher sound and
      never unsets `isPaid`. */
  lemma AllocateSound(vs: seq<Voucher>, target: Option<nat>, amount: int)
    requires AllSound(vs) && amount >= 0
    ensures AllSound(Allocate(vs, target, amount))
    ensures forall i :: 0 <= i < |vs| && vs[i].isPaid ==> Allocate(vs, target, amount)[i].isPaid
  {
    match target
    case None =>
      SweepSound(vs, amount);
      SweepOnlyRaises(vs, amount);
    case Some(k) =>
      if k < |vs| {
        PayTargetedSound(vs[k], amount);
      }
  }

  /** An allocation touches at most the targeted voucher when a target is
      given. */
  lemma AllocateTargetedOnly(vs: seq<Voucher>, k: nat, amount: int)
    ensures forall i :: 0 <= i < |vs| && i != k ==> Allocate(vs, Some(k), amount)[i] == vs[i]
    ensures k >= |vs| ==> Allocate(vs, Some(k), amount) == vs
  {
  }

  /** The worked example of the sweep: A(50) and B(30), unpaid, a payment of
      60 pays A in full and 10 of B. */
  lemma SweepExample()
    ensures
      var a := NewVoucher(50, [], "", 0);
      var b := NewVoucher(30, [], "", 0);
      Sweep([a, b], 60) == [a.(paidAmount := 50, isPaid := true), b.(paidAmount := 10)]
  {
  }

  // ---------------------------------------------------------------------
  // Handlers

  /** The sweep branch of addPaiement: the stored vouchers walked in
      order, each unpaid one credited in place, until nothing remains. */
  method SweepVouchers(s: Supplier, amount: int)
    modifies s`vouchers
    ensures s.vouchers == Sweep(old(s.vouchers), amount)
  {
    var vs := s.vouchers;
    ghost var orig := vs;
    var remaining := amount;
    var i := 0;
    assert orig[0..] == orig && vs[..0] == [];
    while i < |vs|
      invariant 0 <= i <= |vs| == |orig|
      invariant vs[i..] == orig[i..]
      invariant vs[..i] + Sweep(orig[i..], remaining) == Sweep(orig, amount)
    {
      if remaining <= 0 {
        break;
      }
      var v := vs[i];
      assert v == vs[i..][0] == orig[i..][0] == orig[i];
      ghost var before := remaining;
      ghost var done := vs[..i];
      assert done + Sweep(orig[i..], before) == Sweep(orig, amount);
      if !v.isPaid {
        var needed := v.amount - v.paidAmount;
        var pay := Min(needed, remaining);
        var paid := v.paidAmount + pay;
        vs := vs[i := v.(paidAmount := paid, isPaid := if paid >= v.amount then true else v.isPaid)];
        remaining := remaining - pay;
      }
      assert vs[i] == SweepHead(v, before) && remaining == SweepRest(v, before);
      assert vs[i + 1..] == orig[i + 1..];
      SweepStep(orig, i, before);
      assert vs[..i + 1] == done + [vs[i]];
      calc {
        vs[..i + 1] + Sweep(orig[i + 1..], remaining);
        (done + [vs[i]]) + Sweep(orig[i + 1..], remaining);
        { AppendAssoc(done, [vs[i]], Sweep(orig[i + 1..], remaining)); }
        done + ([vs[i]] + Sweep(orig[i + 1..], remaining));
        done + Sweep(orig[i..], before);
        Sweep(orig, amount);
      }

      i := i + 1;
    }
    assert vs[..i] + vs[i..] == vs;
    if i == |vs| {
      assert orig[i..] == [] == vs[i..];
    }
    assert Sweep(orig[i..], remaining) == vs[i..];
    s.vouchers := vs;
  }

  lemma SweepStep(vs: seq<Voucher>, i: nat, remaining: int)
    requires i < |vs| && remaining > 0
    ensures Sweep(vs[i..], remaining)
      == [SweepHead(vs[i], remaining)] + Sweep(vs[i + 1..], SweepRest(vs[i], remaining))
  {
    assert vs[i..][0] == vs[i] && vs[i..][1..] == vs[i + 1..];
  }

  lemma AppendAssoc<T>(a: seq<T>, b: seq<T>, c: seq<T>)
    ensures (a + b) + c == a + (b + c)
  {
  }

  /** addPaiement: `parseFloat(amount)` that is not a number (the field
      missing or not numeric) makes the running total NaN, which the save
      refuses: the answer is 400 and the document is as it was.  Otherwise
      see `ApplyPayment`. */
  method RecordPayment(s: Supplier, amount: FormNumber, target: Option<nat>, description: string, now: int)
    returns (status: int)
    modifies s
    ensures status == (if amount.Number? then 200 else 400)
    ensures status == 400 ==> unchanged(s)
    ensures amount.Number? ==>
      s.vouchers == Allocate(old(s.vouchers), target, amount.value)
      && s.payments == old(s.payments) + [Payment(amount.value, now, description)]
      && s.totalPaid == old(s.totalPaid) + amount.value
      && s.totalPurchased == old(s.totalPurchased)
      && s.fullName == old(s.fullName) && s.phone == old(s.phone)
      && s.category == old(s.category) && s.isHidden == old(s.isHidden)
    ensures old(s.Valid()) ==> s.Valid()
    ensures old(s.VouchersSound()) && AmountOrZero(amount) >= 0 ==> s.VouchersSound()
  {
    if !amount.Number? {
      return 400;
    }
    ApplyPayment(s, amount.value, target, description, now);
    return 200;
  }

  /** The payment proper: the raw amount always goes to the running total
      and to a new payment record; the allocation follows `Allocate`. */
  method ApplyPayment(s: Supplier, amount: int, target: Option<nat>, description: string, now: int)
    modifies s
    ensures s.vouchers == Allocate(old(s.vouchers), target, amount)
    ensures s.payments == old(s.payments) + [Payment(amount, now, description)]
    ensures s.totalPaid == old(s.totalPaid) + amount
    ensures s.totalPurchased == old(s.totalPurchased)
    ensures s.fullName == old(s.fullName) && s.phone == old(s.phone)
    ensures s.category == old(s.category) && s.isHidden == old(s.isHidden)
    ensures old(s.Valid()) ==> s.Valid()
    ensures old(s.VouchersSound()) && amount >= 0 ==> s.VouchersSound()
  {
    s.totalPaid := s.totalPaid + amount;
    match target {
      case Some(k) =>
        if k < |s.vouchers| {
          var v := s.vouchers[k];
          var needed := v.amount - v.paidAmount;
          var pay := Min(needed, amount);
          var paid := v.paidAmount + pay;
          s.vouchers := s.vouchers[k := v.(paidAmount := paid, isPaid := if paid >= v.amount then true else v.isPaid)];
        }
      case None =>
        SweepVouchers(s, amount);
    }
    TotalPaymentsAppend(s.payments, [Payment(amount, now, description)]);
    s.payments := s.payments + [Payment(amount, now, description)];
    if amount >= 0 && AllSound(old(s.vouchers)) {
      AllocateSound(old(s.vouchers), target, amount);
    }
    assert s.vouchers == Allocate(old(s.vouchers), target, amount);
    assert forall i :: 0 <= i < |s.vouchers| ==> SameVoucher(s.vouchers[i], old(s.vouchers)[i]);
    SameAmountsSameTotal(old(s.vouchers), s.vouchers);
  }

  lemma {:induction false} SameAmountsSameTotal(a: seq<Voucher>, b: seq<Voucher>)
    requires |a| == |b| && forall i :: 0 <= i < |a| ==> a[i].amount == b[i].amount
    ensures TotalAmount(a) == TotalAmount(b)
  {
    if a != [] {
      SameAmountsSameTotal(a[1..], b[1..]);
    }
  }

  /** `parseFloat(amount) || 0` */
  function AmountOrZero(amount: FormNumber): int {
    match amount
    case Number(v) => v
    case _ => 0
  }

  /** addBonne: one new voucher at the end, carrying the uploaded image
      names in upload order, dated `date` or now; the purchase total grows by
      its amount. */
  method AddVoucher(s: Supplier, store: BlobStore, amount: FormNumber, date: Option<int>,
                    description: string, uploads: seq<string>, now: int)
    modifies s, store
    ensures s.vouchers == old(s.vouchers)
      + [NewVoucher(AmountOrZero(amount), uploads, description, date.GetOr(now))]
    ensures s.totalPurchased == old(s.totalPurchased) + AmountOrZero(amount)
    ensures s.payments == old(s.payments) && s.totalPaid == old(s.totalPaid)
    ensures s.fullName == old(s.fullName) && s.phone == old(s.phone)
    ensures s.category == old(s.category) && s.isHidden == old(s.isHidden)
    ensures store.files == old(store.files) + set x | x in uploads
    ensures old(s.Valid()) ==> s.Valid()
    ensures old(s.VouchersSound()) && AmountOrZero(amount) >= 0 ==> s.VouchersSound()
  {
    var value := AmountOrZero(amount);
    var voucher := NewVoucher(value, [], description, date.GetOr(now));
    for j := 0 to |uploads|
      modifies store
      invariant voucher == NewVoucher(value, uploads[..j], description, date.GetOr(now))
      invariant store.files == old(store.files) + set x | x in uploads[..j]
    {
      store.files := store.files + {uploads[j]};
      voucher := voucher.(images := voucher.images + [uploads[j]]);
      assert uploads[..j + 1] == uploads[..j] + [uploads[j]];
    }
    assert uploads[..|uploads|] == uploads;
    TotalAmountAppend(s.vouchers, [voucher]);
    s.totalPurchased := s.totalPurchased + value;
    s.vouchers := s.vouchers + [voucher];
  }

  /** The vouchers created from an upload batch at creation or update time:
      one per image, each with a one-element image list and the shared
      amount and description. */
  function OnePerImage(uploads: seq<string>, amount: int, description: string, now: int): (r: seq<Voucher>)
    ensures |r| == |uploads|
    ensures forall i :: 0 <= i < |uploads| ==>
      r[i] == NewVoucher(amount, [uploads[i]], description, now)
  {
    seq(|uploads|, i requires 0 <= i < |uploads| => NewVoucher(amount, [uploads[i]], description, now))
  }

  /** Appending a batch with a non-negative amount keeps the vouchers sound. */
  lemma OnePerImageSound(vs: seq<Voucher>, uploads: seq<string>, amount: int, description: string, now: int)
    requires AllSound(vs) && amount >= 0
    ensures AllSound(vs + OnePerImage(uploads, amount, description, now))
  {
    var r := vs + OnePerImage(uploads, amount, description, now);
    forall i | 0 <= i < |r| ensures Sound(r[i]) {
      if i < |vs| {
        assert r[i] == vs[i];
      }
    }
  }

  /** The batch amount `req.body.amount || 0`, cast by the schema: text that
      is not a number fails validation. */
  function BatchAmount(amount: FormNumber): Option<int> {
    match amount
    case Absent => Some(0)
    case Number(v) => Some(v)
    case NotANumber => None
  }

  /** The upload loop shared by creation and update: appends one voucher
      per image and stores the image. */
  method AppendOnePerImage(s: Supplier, store: BlobStore, amount: int, description: string,
                           uploads: seq<string>, now: int)
    modifies s`vouchers, store
    ensures s.vouchers == old(s.vouchers) + OnePerImage(uploads, amount, description, now)
    ensures store.files == old(store.files) + set x | x in uploads
  {
    for j := 0 to |uploads|
      invariant s.vouchers == old(s.vouchers) + OnePerImage(uploads[..j], amount, description, now)
      invariant store.files == old(store.files) + set x | x in uploads[..j]
    {
      store.files := store.files + {uploads[j]};
      s.vouchers := s.vouchers + [NewVoucher(amount, [uploads[j]], description, now)];
      assert uploads[..j + 1] == uploads[..j] + [uploads[j]];
    }
    assert uploads[..|uploads|] == uploads;
  }

  /** createFournisseur: a new supplier with one voucher per uploaded image;
      the purchase total is recomputed from the vouchers when images were
      uploaded.  A failed validation answers 400 and creates nothing (the
      moved images stay in the store). */
  method CreateSupplier(store: BlobStore, fullName: string, phone: string, category: string,
                        isHidden: bool, amount: FormNumber, description: string,
                        uploads: seq<string>, now: int)
    returns (status: int, s: Supplier?)
    modifies store
    ensures store.files == old(store.files) + set x | x in uploads
    ensures status == 201 <==> s != null
    ensures status == 201 || status == 400
    ensures s == null <==>
      ValidateSupplier(fullName, phone, category).Err? || (uploads != [] && BatchAmount(amount).None?)
    ensures s != null ==> fresh(s) && s.Valid() && s.payments == [] && s.totalPaid == 0
    ensures s != null ==>
      var fields := ValidateSupplier(fullName, phone, category).value;
      s.fullName == fields.0 && s.phone == fields.1 && s.category == fields.2
      && s.isHidden == isHidden
      && s.vouchers == OnePerImage(uploads, BatchAmount(amount).GetOr(0), description, now)
    ensures s != null && BatchAmount(amount).GetOr(0) >= 0 ==> s.VouchersSound()
  {
    var value := BatchAmount(amount).GetOr(0);
    var fields := ValidateSupplier(fullName, phone, category);
    var name, tel, cat := fullName, phone, Packaging;
    if fields.Ok? {
      name, tel, cat := fields.value.0, fields.value.1, fields.value.2;
    }
    var doc := new Supplier(name, tel, cat, isHidden);
    if uploads != [] {
      AppendOnePerImage(doc, store, value, description, uploads, now);
      doc.totalPurchased := TotalAmount(doc.vouchers);
    }
    if fields.Err? || (uploads != [] && BatchAmount(amount).None?) {
      return 400, null;
    }
    status, s := 201, doc;
  }

  /** `sent || current` on a text field. */
  function OrElse(sent: string, current: string): (r: string)
    ensures r == sent || r == current
    ensures r == "" <==> sent == "" && current == ""
  {
    if sent != "" then sent else current
  }

  /** The fields an update asks to save: every text field is assigned (the
      sent value, or the current one), so every one goes through the
      schema's trimming and checks again. */
  function UpdatedFields(s: Supplier, fullName: string, phone: string, category: string)
    : Result<(string, string, Category), string>
    reads s
  {
    ValidateSupplier(OrElse(fullName, s.fullName), OrElse(phone, s.phone),
                     OrElse(category, CategoryName(s.category)))
  }

  /** updateFournisseur: `fullName`, `phone` and `category` change only
      when a non-empty value is sent, `isHidden` only when it is defined; an
      upload batch appends one voucher per image and recomputes the purchase
      total.  A failed validation answers 400 and leaves the document as it
      was. */
  method UpdateSupplier(s: Supplier, store: BlobStore, fullName: string, phone: string,
                        category: string, isHidden: Option<bool>, amount: FormNumber,
                        description: string, uploads: seq<string>, now: int)
    returns (status: int)
    modifies s, store
    ensures store.files == old(store.files) + set x | x in uploads
    ensures status == 200 || status == 400
    ensures status == 400 <==>
      old(UpdatedFields(s, fullName, phone, category)).Err? || (uploads != [] && BatchAmount(amount).None?)
    ensures status == 400 ==>
      s.vouchers == old(s.vouchers) && s.fullName == old(s.fullName) && s.phone == old(s.phone)
      && s.category == old(s.category) && s.isHidden == old(s.isHidden)
      && s.totalPurchased == old(s.totalPurchased)
    ensures status == 200 ==>
      (s.fullName, s.phone, s.category) == old(UpdatedFields(s, fullName, phone, category)).value
    ensures status == 200 ==> s.isHidden == isHidden.GetOr(old(s.isHidden))
    ensures status == 200 ==>
      s.vouchers == old(s.vouchers) + OnePerImage(uploads, BatchAmount(amount).GetOr(0), description, now)
    ensures status == 200 ==>
      s.totalPurchased == (if uploads != [] then TotalAmount(s.vouchers) else old(s.totalPurchased))
    ensures s.payments == old(s.payments) && s.totalPaid == old(s.totalPaid)
    ensures old(s.Valid()) ==> s.Valid()
    ensures old(s.VouchersSound()) && BatchAmount(amount).GetOr(0) >= 0 ==> s.VouchersSound()
  {
    var value := BatchAmount(amount).GetOr(0);
    var fields := UpdatedFields(s, fullName, phone, category);
    if fields.Err? || (uploads != [] && BatchAmount(amount).None?) {
      // The document is not saved; the moved images stay in the store.
      store.files := store.files + set x | x in uploads;
      return 400;
    }
    ApplyUpdate(s, store, fields.value.0, fields.value.1, fields.value.2, isHidden, value,
                description, uploads, now);
    status := 200;
  }

  /** The saving branch of updateFournisseur, once the fields passed. */
  method ApplyUpdate(s: Supplier, store: BlobStore, fullName: string, phone: string, category: Category,
                     isHidden: Option<bool>, value: int, description: string, uploads: seq<string>, now: int)
    modifies s, store
    ensures s.fullName == fullName && s.phone == phone && s.category == category
    ensures s.isHidden == isHidden.GetOr(old(s.isHidden))
    ensures s.vouchers == old(s.vouchers) + OnePerImage(uploads, value, description, now)
    ensures s.totalPurchased == (if uploads != [] then TotalAmount(s.vouchers) else old(s.totalPurchased))
    ensures store.files == old(store.files) + set x | x in uploads
    ensures s.payments == old(s.payments) && s.totalPaid == old(s.totalPaid)
    ensures old(s.Valid()) ==> s.Valid()
    ensures old(s.VouchersSound()) && value >= 0 ==> s.VouchersSound()
  {
    s.fullName, s.phone, s.category := fullName, phone, category;
    s.isHidden := isHidden.GetOr(s.isHidden);
    if uploads != [] {
      ghost var before := s.vouchers;
      AppendOnePerImage(s, store, value, description, uploads, now);
      s.totalPurchased := TotalAmount(s.vouchers);
      if value >= 0 && AllSound(before) {
        OnePerImageSound(before, uploads, value, description, now);
      }
    } else {
      assert OnePerImage(uploads, value, description, now) == [];
      assert s.vouchers + [] == s.vouchers;
    }
  }

  /** Sending nothing but an upload batch keeps the text fields of a
      document whose fields already passed the schema. */
  lemma UpdateKeepsUnsentFields(s: Supplier)
    requires Text.Trim(s.fullName) == s.fullName != "" && Text.Trim(s.phone) == s.phone != ""
    ensures UpdatedFields(s, "", "", "") == Ok((s.fullName, s.phone, s.category))
  {
    CategoryNameParses(s.category);
  }

  /** addImagesToBonne: appends the uploaded names to the voucher's image
      list; the amounts are untouched.  An unknown voucher answers 404. */
  method AddImagesToVoucher(s: Supplier, store: BlobStore, k: nat, uploads: seq<string>)
    returns (status: int)
    modifies s, store
    ensures status == (if k < |old(s.vouchers)| then 200 else 404)
    ensures status == 404 ==> s.vouchers == old(s.vouchers) && store.files == old(store.files)
    ensures status == 200 ==>
      s.vouchers == old(s.vouchers)[k := old(s.vouchers)[k].(images := old(s.vouchers)[k].images + uploads)]
      && store.files == old(store.files) + set x | x in uploads
    ensures s.payments == old(s.payments)
    ensures s.totalPurchased == old(s.totalPurchased) && s.totalPaid == old(s.totalPaid)
    ensures s.fullName == old(s.fullName) && s.phone == old(s.phone)
    ensures s.category == old(s.category) && s.isHidden == old(s.isHidden)
    ensures old(s.Valid()) ==> s.Valid()
    ensures old(s.VouchersSound()) ==> s.VouchersSound()
  {
    if k >= |s.vouchers| {
      return 404;
    }
    ghost var before := s.vouchers;
    assert before[k].images + uploads[..0] == before[k].images;
    for j := 0 to |uploads|
      modifies s`vouchers, store
      invariant |s.vouchers| == |before|
      invariant s.vouchers == before[k := before[k].(images := before[k].images + uploads[..j])]
      invariant store.files == old(store.files) + set x | x in uploads[..j]
    {
      store.files := store.files + {uploads[j]};
      var v := s.vouchers[k];
      s.vouchers := s.vouchers[k := v.(images := v.images + [uploads[j]])];
      assert uploads[..j + 1] == uploads[..j] + [uploads[j]];
      assert v.images + [uploads[j]] == before[k].images + uploads[..j + 1];
    }
    assert uploads[..|uploads|] == uploads;
    assert forall i :: 0 <= i < |before| ==> before[i].amount == s.vouchers[i].amount;
    SameAmountsSameTotal(before, s.vouchers);
    status := 200;
  }

  /** `images.filter(img => img !== name)`: every occurrence of `name` goes,
      everything else stays in order. */
  function RemoveAll(xs: seq<string>, name: string): (r: seq<string>)
    ensures multiset(r) == multiset(xs)[name := 0]
    ensures name !in xs ==> r == xs
  {
    if xs == [] then []
    else
      assert xs == [xs[0]] + xs[1..];
      if xs[0] == name then RemoveAll(xs[1..], name)
    else [xs[0]] + RemoveAll(xs[1..], name)
  }

  /** Deleting an image twice is the same as deleting it once. */
  lemma RemoveAllIdempotent(xs: seq<string>, name: string)
    ensures RemoveAll(RemoveAll(xs, name), name) == RemoveAll(xs, name)
  {
    assert name !in RemoveAll(xs, name) by {
      if name in RemoveAll(xs, name) {
        assert multiset(RemoveAll(xs, name))[name] > 0;
      }
    }
  }

  /** deleteBonneImage: drops the name from the voucher's image list and
      deletes the file of that name from the store (whether or not the
      voucher listed it).  An unknown voucher answers 404 and deletes
      nothing. */
  method DeleteVoucherImage(s: Supplier, store: BlobStore, k: nat, name: string)
    returns (status: int)
    modifies s, store
    ensures status == (if k < |old(s.vouchers)| then 200 else 404)
    ensures status == 404 ==> s.vouchers == old(s.vouchers) && store.files == old(store.files)
    ensures status == 200 ==>
      s.vouchers == old(s.vouchers)[k := old(s.vouchers)[k].(images := RemoveAll(old(s.vouchers)[k].images, name))]
      && store.files == old(store.files) - {name}
    ensures s.payments == old(s.payments)
    ensures s.totalPurchased == old(s.totalPurchased) && s.totalPaid == old(s.totalPaid)
    ensures s.fullName == old(s.fullName) && s.phone == old(s.phone)
    ensures s.category == old(s.category) && s.isHidden == old(s.isHidden)
    ensures old(s.Valid()) ==> s.Valid()
    ensures old(s.VouchersSound()) ==> s.VouchersSound()
  {
    if k >= |s.vouchers| {
      return 404;
    }
    ghost var before := s.vouchers;
    var v := s.vouchers[k];
    s.vouchers := s.vouchers[k := v.(images := RemoveAll(v.images, name))];
    if name in store.files {
      store.files := store.files - {name};
    }
    assert forall i :: 0 <= i < |before| ==> before[i].amount == s.vouchers[i].amount;
    SameAmountsSameTotal(before, s.vouchers);
    status := 200;
  }

  /** Every image name referenced by a list of vouchers. */
  function ImagesOf(vs: seq<Voucher>): set<string> {
    set i, j | 0 <= i < |vs| && 0 <= j < |vs[i].images| :: vs[i].images[j]
  }

  /** deleteFournisseur's clean-up: every file referenced by a voucher of the
      supplier is removed from the store, and no other file. */
  method DeleteSupplierImages(s: Supplier, store: BlobStore)
    modifies store
    ensures store.files == old(store.files) - ImagesOf(s.vouchers)
  {
    var vs := s.vouchers;
    for i := 0 to |vs|
      invariant store.files == old(store.files) - ImagesOf(vs[..i])
    {
      var images := vs[i].images;
      for j := 0 to |images|
        invariant store.files == old(store.files) - ImagesOf(vs[..i]) - set x | x in images[..j]
      {
        if images[j] in store.files {
          store.files := store.files - {images[j]};
        }
        assert images[..j + 1] == images[..j] + [images[j]];
      }
      assert images[..|images|] == images;
      ImagesOfSnoc(vs, i);
    }
    assert vs[..|vs|] == vs;
  }

  lemma ImagesOfSnoc(vs: seq<Voucher>, i: nat)
    requires i < |vs|
    ensures ImagesOf(vs[..i + 1]) == ImagesOf(vs[..i]) + set x | x in vs[i].images
  {
    var a, b := vs[..i + 1], vs[..i];
    forall x | x in ImagesOf(a) ensures x in ImagesOf(b) + set y | y in vs[i].images {
      var p, q :| 0 <= p < |a| && 0 <= q < |a[p].images| && a[p].images[q] == x;
      if p < i {
        assert b[p] == a[p];
      }
    }
    forall x | x in ImagesOf(b) + set y | y in vs[i].images ensures x in ImagesOf(a) {
      if x in ImagesOf(b) {
        var p, q :| 0 <= p < |b| && 0 <= q < |b[p].images| && b[p].images[q] == x;
        assert a[p] == b[p];
      } else {
        var q :| 0 <= q < |vs[i].images| && vs[i].images[q] == x;
        assert a[i] == vs[i];
      }
    }
  }
}
