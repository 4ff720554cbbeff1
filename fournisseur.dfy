/** The supplier ledger's records (backend/models/Fournisseur.js): a supplier
    ("fournisseur") owns an ordered list of purchase vouchers ("bonnes") and
    an ordered list of payments ("paiements"), and keeps two running totals.
    Amounts are integers (centimes); dates are integer time stamps. */
module Fournisseur {
  import opened Common
  import Text

  /** The `category` enumeration. */
  datatype Category = Packaging | Fruits | Vegetables | Meat | Dairy | Other

  function CategoryName(c: Category): string {
    match c
    case Packaging => "emballage"
    case Fruits => "fruits"
    case Vegetables => "légumes"
    case Meat => "viande"
    case Dairy => "produits laitiers"
    case Other => "autres"
  }

  /** The schema's enum check: a category string is accepted exactly when it
      is the name of one of the six categories. */
  function ParseCategory(s: string): (r: Option<Category>)
    ensures r.Some? ==> CategoryName(r.value) == s
    ensures r.None? ==> forall c: Category :: CategoryName(c) != s
  {
    if s == "emballage" then Some(Packaging)
    else if s == "fruits" then Some(Fruits)
    else if s == "légumes" then Some(Vegetables)
    else if s == "viande" then Some(Meat)
    else if s == "produits laitiers" then Some(Dairy)
    else if s == "autres" then Some(Other)
    else None
  }

  /** Every category name is accepted as that category. */
  lemma CategoryNameParses(c: Category)
    ensures ParseCategory(CategoryName(c)) == Some(c)
  {
  }

  /** A purchase voucher ("bonne").  Its `_id` is its position in the
      supplier's list: vouchers are only ever appended, never removed or
      reordered. */
  datatype Voucher = Voucher(
    amount: int,
    images: seq<string>,
    description: string,
    date: int,
    isPaid: bool,
    paidAmount: int)

  /** A payment record ("paiement"): no reference to a voucher. */
  datatype Payment = Payment(amount: int, date: int, description: string)

  /** A voucher as the schema creates it: `isPaid` false and `paidAmount` 0
      by default. */
  function NewVoucher(amount: int, images: seq<string>, description: string, date: int): Voucher {
    Voucher(amount, images, description, date, false, 0)
  }

  /** The per-voucher ledger invariant: the paid part lies between 0 and the
      amount, a voucher flagged paid is paid in full, and a voucher paid in
      full but not flagged is a zero-amount voucher no payment has touched
      yet (the flag is only ever set by a payment). */
  predicate Sound(v: Voucher) {
    && 0 <= v.paidAmount <= v.amount
    && (v.isPaid ==> v.paidAmount == v.amount)
    && (v.paidAmount == v.amount && !v.isPaid ==> v.amount == 0)
  }

  predicate AllSound(vs: seq<Voucher>) {
    forall i :: 0 <= i < |vs| ==> Sound(vs[i])
  }

  /** A new voucher with a non-negative amount satisfies the invariant. */
  lemma NewVoucherSound(amount: int, images: seq<string>, description: string, date: int)
    requires amount >= 0
    ensures Sound(NewVoucher(amount, images, description, date))
    ensures !NewVoucher(amount, images, description, date).isPaid
  {
  }

  function TotalAmount(vs: seq<Voucher>): int {
    if vs == [] then 0 else vs[0].amount + TotalAmount(vs[1..])
  }

  function TotalPaid(vs: seq<Voucher>): int {
    if vs == [] then 0 else vs[0].paidAmount + TotalPaid(vs[1..])
  }

  function TotalPayments(ps: seq<Payment>): int {
    if ps == [] then 0 else ps[0].amount + TotalPayments(ps[1..])
  }

  lemma {:induction false} TotalAmountAppend(a: seq<Voucher>, b: seq<Voucher>)
    ensures TotalAmount(a + b) == TotalAmount(a) + TotalAmount(b)
  {
    if a != [] {
      assert (a + b)[1..] == a[1..] + b;
      TotalAmountAppend(a[1..], b);
    } else {
      assert a + b == b;
    }
  }

  lemma {:induction false} TotalPaymentsAppend(a: seq<Payment>, b: seq<Payment>)
    ensures TotalPayments(a + b) == TotalPayments(a) + TotalPayments(b)
  {
    if a != [] {
      assert (a + b)[1..] == a[1..] + b;
      TotalPaymentsAppend(a[1..], b);
    } else {
      assert a + b == b;
    }
  }

  /** `required: true, trim: true` on `fullName` and `phone`, and the enum on
      `category`: the document saves exactly when both trimmed strings are
      non-empty and the category is one of the six. */
  function ValidateSupplier(fullName: string, phone: string, category: string)
    : (r: Result<(string, string, Category), string>)
    ensures r.Ok? <==>
      Text.Trim(fullName) != "" && Text.Trim(phone) != "" && ParseCategory(category).Some?
    ensures r.Ok? ==>
      r.value.0 == Text.Trim(fullName) && r.value.1 == Text.Trim(phone)
      && CategoryName(r.value.2) == category
  {
    var name := Text.Trim(fullName);
    var tel := Text.Trim(phone);
    if name == "" then Err("fullName is required")
    else if tel == "" then Err("phone is required")
    else match ParseCategory(category)
      case None => Err("category is not one of the allowed values")
      case Some(c) => Ok((name, tel, c))
  }

  /** The supplier document, updated in place by the controller. */
  class Supplier {
    var fullName: string
    var phone: string
    var category: Category
    var isHidden: bool
    /** `totalBonnesAchat` */
    var totalPurchased: int
    /** `bonnesPayer`: raw sum of payment amounts */
    var totalPaid: int
    /** `bonnes` */
    var vouchers: seq<Voucher>
    /** `paiements` */
    var payments: seq<Payment>

    /** The running totals are the sums of the two lists. */
    predicate Valid()
      reads this
    {
      totalPurchased == TotalAmount(vouchers) && totalPaid == TotalPayments(payments)
    }

    predicate VouchersSound()
      reads this
    {
      AllSound(vouchers)
    }

    /** A new document: no vouchers, no payments, both totals 0. */
    constructor (fullName: string, phone: string, category: Category, isHidden: bool)
      ensures this.fullName == fullName && this.phone == phone
      ensures this.category == category && this.isHidden == isHidden
      ensures vouchers == [] && payments == []
      ensures totalPurchased == 0 && totalPaid == 0
      ensures Valid() && VouchersSound()
    {
      this.fullName := fullName;
      this.phone := phone;
      this.category := category;
      this.isHidden := isHidden;
      totalPurchased := 0;
      totalPaid := 0;
      vouchers := [];
      payments := [];
    }
  }

  /** The file store holding the uploaded voucher images, by name. */
  class BlobStore {
    var files: set<string>

    constructor (files: set<string>)
      ensures this.files == files
    {
      this.files := files;
    }
  }
}
