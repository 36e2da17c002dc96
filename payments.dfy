/** Mess fee payments (backend/controllers/paymentController.js over
    backend/models/Payment.js): the admin records a payment, the admin lists
    every payment and a student lists their own, newest first. */
module Payments {
  import opened Base
  import opened Sorting

  datatype PayStatus = Paid | Partial | Unpaid

  datatype PayMethod = Cash | Online | UPI | BankTransfer

  function StatusName(s: PayStatus): string
  {
    match s
    case Paid => "Paid"
    case Partial => "Partial"
    case Unpaid => "Unpaid"
  }

  function MethodName(m: PayMethod): string
  {
    match m
    case Cash => "Cash"
    case Online => "Online"
    case UPI => "UPI"
    case BankTransfer => "Bank Transfer"
  }

  /** The schema's `enum` on `status`. */
  function ParseStatus(s: string): (r: Option<PayStatus>)
    ensures r.Some? ==> StatusName(r.value) == s
    ensures forall t: PayStatus :: s == StatusName(t) ==> r == Some(t)
  {
    if s == "Paid" then Some(Paid)
    else if s == "Partial" then Some(Partial)
    else if s == "Unpaid" then Some(Unpaid)
    else None
  }

  /** The schema's `enum` on `method`. */
  function ParseMethod(s: string): (r: Option<PayMethod>)
    ensures r.Some? ==> MethodName(r.value) == s
    ensures forall t: PayMethod :: s == MethodName(t) ==> r == Some(t)
  {
    if s == "Cash" then Some(Cash)
    else if s == "Online" then Some(Online)
    else if s == "UPI" then Some(UPI)
    else if s == "Bank Transfer" then Some(BankTransfer)
    else None
  }

  /** A Payment document (`payMethod` is its `method` field). */
  datatype Payment = Payment(
    id: Id,
    student: Id,
    amount: real,
    month: string,
    year: real,
    status: PayStatus,
    payMethod: PayMethod,
    notes: string,
    paymentDate: int)

  function IdOf(p: Payment): Id { p.id }

  /** The body of addPayment; text fields that are missing are "".
      (`payMethod` is the document's and the body's `method`.) */
  datatype PaymentRequest = PaymentRequest(
    studentId: Option<Id>,
    amount: NumberInput,
    month: string,
    year: NumberInput,
    status: string,
    payMethod: string,
    notes: string)

  const RECORD_ERROR := "Error recording payment"

  /** `Number(x)`: a number, or NaN (None) for a missing or non-numeric field. */
  function NumberOf(x: NumberInput): (r: Option<real>)
    ensures r.Some? <==> x.Num?
  {
    match x
    case Num(v) => Some(v)
    case _ => None
  }

  /** addPayment: status 'Paid', method 'Cash' and notes '' when they are
      not sent, amount and year through `Number`, the date now. The schema
      refuses a missing student or month, a NaN amount or year and a status
      or method outside its enum, all as 500. */
  function AddOutcome(req: PaymentRequest, id: Id, now: int): (r: Outcome<Payment>)
    ensures !r.Unhandled?
    ensures r.Fail? ==> r == Fail(500, RECORD_ERROR)
    ensures r.Done? <==>
      req.studentId.Some? && req.amount.Num? && req.month != "" && req.year.Num?
      && (req.status == "" || ParseStatus(req.status).Some?)
      && (req.payMethod == "" || ParseMethod(req.payMethod).Some?)
    ensures r.Done? ==>
      var p := r.value;
      p.id == id && p.student == req.studentId.value && p.amount == req.amount.value
      && p.month == req.month && p.year == req.year.value && p.paymentDate == now
      && (req.status == "" ==> p.status == Paid) && (req.status != "" ==> StatusName(p.status) == req.status)
      && (req.payMethod == "" ==> p.payMethod == Cash) && (req.payMethod != "" ==> MethodName(p.payMethod) == req.payMethod)
      && p.notes == req.notes
  {
    var status := ParseStatus(if req.status != "" then req.status else "Paid");
    var payMethod := ParseMethod(if req.payMethod != "" then req.payMethod else "Cash");
    var amount := NumberOf(req.amount);
    var year := NumberOf(req.year);
    if req.studentId.None? || amount.None? || req.month == "" || year.None? || status.None? || payMethod.None? then
      Fail(500, RECORD_ERROR)
    else
      Done(Payment(id, req.studentId.value, amount.value, req.month, year.value, status.value, payMethod.value,
                   if req.notes != "" then req.notes else "", now))
  }

  function NewestFirst(p: Payment): real
  {
    -(p.paymentDate as real)
  }

  /** getPayments: every payment once, newest first. */
  function AllPayments(docs: seq<Payment>): (r: seq<Payment>)
    ensures multiset(r) == multiset(docs)
    ensures forall i, j :: 0 <= i < j < |r| ==> r[i].paymentDate >= r[j].paymentDate
  {
    var r := SortBy(docs, NewestFirst);
    assert forall i, j :: 0 <= i < j < |r| ==> NewestFirst(r[i]) <= NewestFirst(r[j]);
    r
  }

  /** getMyPayments: every copy of the requester's payments and nothing
      else, newest first. */
  function MyPayments(docs: seq<Payment>, sid: Id): (r: seq<Payment>)
    ensures forall p :: p in r <==> p in docs && p.student == sid
    ensures forall p :: multiset(r)[p] == if p.student == sid then multiset(docs)[p] else 0
    ensures forall i, j :: 0 <= i < j < |r| ==> r[i].paymentDate >= r[j].paymentDate
  {
    var mine := Filter(docs, (p: Payment) => p.student == sid);
    FilterMultiset(docs, (p: Payment) => p.student == sid);
    SortByMembers(mine, NewestFirst);
    var r := SortBy(mine, NewestFirst);
    assert forall i, j :: 0 <= i < j < |r| ==> NewestFirst(r[i]) <= NewestFirst(r[j]);
    r
  }

  /** A recorded payment shows up in the admin's list and in its student's
      own list. */
  lemma RecordedPaymentListed(docs: seq<Payment>, req: PaymentRequest, id: Id, now: int)
    requires AddOutcome(req, id, now).Done?
    ensures var p := AddOutcome(req, id, now).value;
      p in AllPayments(docs + [p]) && p in MyPayments(docs + [p], req.studentId.value)
  {
    var p := AddOutcome(req, id, now).value;
    var all := docs + [p];
    assert p in multiset(all);
    assert p in multiset(AllPayments(all));
  }

  /** The Payment collection. */
  class PaymentStore {
    var docs: seq<Payment>

    ghost predicate Valid()
      reads this
    {
      KeysUnique(docs, IdOf)
    }

    constructor ()
      ensures Valid() && docs == []
    {
      docs := [];
    }

    /** addPayment; `id` is the new payment's fresh id and `now` the clock. */
    method Add(req: PaymentRequest, id: Id, now: int) returns (out: Outcome<Payment>)
      requires Valid() && id !in KeySet(docs, IdOf)
      modifies this
      ensures Valid()
      ensures out == AddOutcome(req, id, now)
      ensures out.Done? ==> docs == old(docs) + [out.value]
      ensures out.Fail? ==> docs == old(docs)
    {
      out := AddOutcome(req, id, now);
      if out.Done? {
        AppendKeysUnique(docs, IdOf, out.value);
        docs := docs + [out.value];
      }
    }
  }
}
