/** The admin's fee page: the search box and status pills over the payment
    list, and the two totals at its top. */
module PaymentManagement {
  import opened Base
  import opened Payments
  import StudentManagement

  /** The student fields getPayments populates. */
  datatype StudentRef = StudentRef(name: string, rollNo: string, roomNo: string, phone: Option<string>)

  /** One payment as the page receives it. `student` is None when that
      student has since been deleted: populate then yields null. */
  datatype PaymentRow = PaymentRow(payment: Payment, student: Option<StudentRef>)

  /** The page's `MONTHS`, January first (`getMonth()` order). */
  const MONTHS: seq<string> := ["January", "February", "March", "April", "May", "June",
                                 "July", "August", "September", "October", "November", "December"]

  // ---------------------------------------------------------------------------
  // filtered
  // ---------------------------------------------------------------------------

  predicate Orphan(p: PaymentRow)
  {
    p.student.None?
  }

  /** The filter's test on a row whose student is present. */
  function Kept(term: string, filter: string): PaymentRow -> bool
  {
    (p: PaymentRow) => p.student.Some?
      && StudentManagement.MatchesSearch(p.student.value.name, p.student.value.rollNo, term)
      && StudentManagement.MatchesStatus(StatusName(p.payment.status), filter)
  }

  /** filtered: the rows whose student matches the search and whose status
      matches the pill. The test reads `p.student.name` on every row, so a
      single row without a student throws (None). */
  function FilteredPayments(rows: seq<PaymentRow>, term: string, filter: string): (r: Option<seq<PaymentRow>>)
    ensures r.None? <==> exists i :: 0 <= i < |rows| && Orphan(rows[i])
    ensures r.Some? ==> |r.value| <= |rows|
    ensures r.Some? ==> forall p :: p in r.value <==>
      p in rows && StudentManagement.MatchesSearch(p.student.value.name, p.student.value.rollNo, term)
      && StudentManagement.MatchesStatus(StatusName(p.payment.status), filter)
  {
    if Count(rows, Orphan) > 0 then None else Some(Filter(rows, Kept(term, filter)))
  }

  /** The table keeps the list's order (newest first, as the server sent it). */
  lemma FilteredKeepsOrder(rows: seq<PaymentRow>, term: string, filter: string)
    requires FilteredPayments(rows, term, filter).Some?
    ensures IsSubsequence(FilteredPayments(rows, term, filter).value, rows)
  {
    FilterIsSubsequence(rows, Kept(term, filter));
  }

  /** With an empty search and the 'All' pill every payment is listed, as
      long as every payment still has its student. */
  lemma EmptySearchShowsAll(rows: seq<PaymentRow>)
    requires forall i :: 0 <= i < |rows| ==> rows[i].student.Some?
    ensures FilteredPayments(rows, "", "All") == Some(rows)
  {
    assert Lower("") == "";
    forall j | 0 <= j < |rows|
      ensures Kept("", "All")(rows[j])
    {
      IncludesEmpty(Lower(rows[j].student.value.name));
    }
    FilterKeepsAll(rows, Kept("", "All"));
  }

  // ---------------------------------------------------------------------------
  // totalCollected and monthTotal
  // ---------------------------------------------------------------------------

  function AmountOf(p: PaymentRow): real { p.payment.amount }

  /** totalCollected: the amounts of every payment, whatever its status. */
  function TotalCollected(rows: seq<PaymentRow>): (t: real)
    ensures rows == [] ==> t == 0.0
  {
    Sum(rows, AmountOf)
  }

  function InMonth(month: string): PaymentRow -> bool
  {
    (p: PaymentRow) => p.payment.month == month
  }

  function OutsideMonth(month: string): PaymentRow -> bool
  {
    (p: PaymentRow) => p.payment.month != month
  }

  /** monthTotal: the amounts of the payments recorded for the current
      month's name (`getMonth()` is 0 to 11), whatever their year. */
  function MonthTotal(rows: seq<PaymentRow>, currentMonth: nat): (t: real)
    requires currentMonth < 12
    ensures (forall i :: 0 <= i < |rows| ==> rows[i].payment.month != MONTHS[currentMonth]) ==> t == 0.0
  {
    FilterDropsAllSum(rows, InMonth(MONTHS[currentMonth]));
    Sum(Filter(rows, InMonth(MONTHS[currentMonth])), AmountOf)
  }

  lemma FilterDropsAllSum(rows: seq<PaymentRow>, p: PaymentRow -> bool)
    ensures (forall i :: 0 <= i < |rows| ==> !p(rows[i])) ==> Sum(Filter(rows, p), AmountOf) == 0.0
  {
    if forall i :: 0 <= i < |rows| ==> !p(rows[i]) {
      FilterDropsAll(rows, p);
    }
  }

  /** The month's total is part of the overall total: the rest is what the
      other months' payments add. */
  lemma TotalSplitsByMonth(rows: seq<PaymentRow>, currentMonth: nat)
    requires currentMonth < 12
    ensures TotalCollected(rows)
      == MonthTotal(rows, currentMonth) + Sum(Filter(rows, OutsideMonth(MONTHS[currentMonth])), AmountOf)
  {
    SumFilterSplit(rows, AmountOf, InMonth(MONTHS[currentMonth]), OutsideMonth(MONTHS[currentMonth]));
  }

  /** Rows that differ only in their years give the same month total: the
      year is never looked at. */
  lemma {:induction false} MonthTotalIgnoresYear(rows: seq<PaymentRow>, other: seq<PaymentRow>, currentMonth: nat)
    requires currentMonth < 12 && |rows| == |other|
    requires forall i :: 0 <= i < |rows| ==>
      other[i] == rows[i].(payment := rows[i].payment.(year := other[i].payment.year))
    ensures MonthTotal(rows, currentMonth) == MonthTotal(other, currentMonth)
  {
    if rows != [] {
      var m := InMonth(MONTHS[currentMonth]);
      MonthTotalIgnoresYear(rows[1..], other[1..], currentMonth);
      var hr := if m(rows[0]) then [rows[0]] else [];
      var ho := if m(other[0]) then [other[0]] else [];
      assert m(rows[0]) == m(other[0]);
      assert Sum(hr, AmountOf) == Sum(ho, AmountOf);
      SumAppend(hr, Filter(rows[1..], m), AmountOf);
      SumAppend(ho, Filter(other[1..], m), AmountOf);
    }
  }

  /** A March fee of 2024 counts toward March's total in any year, and an
      unpaid fee counts in the collected total. */
  lemma MonthTotalExample(a: Payment)
    requires a.month == "March" && a.year == 2024.0 && a.status == Unpaid && a.amount == 3000.0
    ensures MonthTotal([PaymentRow(a, None)], 2) == 3000.0
    ensures TotalCollected([PaymentRow(a, None)]) == 3000.0
  {
    var rows := [PaymentRow(a, None)];
    assert MONTHS[2] == "March";
    assert Filter(rows, InMonth(MONTHS[2])) == rows by {
      assert rows[1..] == [];
    }
    assert Sum(rows, AmountOf) == 3000.0 + Sum(rows[1..], AmountOf);
  }
}
