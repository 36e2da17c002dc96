/** The admin's expense page (backend/models/Expense.js for the records):
    the per-category pie chart, the category filter, and the overall and
    this-month totals. */
module ExpenseTracker {
  import opened Base

  /** The schema's `enum` on `category`. */
  datatype Category = Grocery | Maintenance | Electricity | Water | Other

  function CategoryName(c: Category): string
  {
    match c
    case Grocery => "Grocery"
    case Maintenance => "Maintenance"
    case Electricity => "Electricity"
    case Water => "Water"
    case Other => "Other"
  }

  /** An Expense document; `date` is in milliseconds. */
  datatype Expense = Expense(id: Id, title: string, amount: real, category: Category, date: int, description: string)

  function AmountOf(e: Expense): real { e.amount }

  function CategoryOf(e: Expense): Category { e.category }

  /** One slice of the pie: `{ name: key, value: data[key] }`. */
  datatype Slice = Slice(name: Category, value: real)

  function ValueOf(s: Slice): real { s.value }

  /** totalExpenses: the sum of every amount. */
  function TotalExpenses(expenses: seq<Expense>): (t: real)
    ensures expenses == [] ==> t == 0.0
  {
    Sum(expenses, AmountOf)
  }

  /** The test "has category name `name`" (`e.category === filterCategory`). */
  function Named(name: string): Expense -> bool
  {
    (e: Expense) => CategoryName(e.category) == name
  }

  /** The summed amounts of one category. */
  function CategoryTotal(expenses: seq<Expense>, c: Category): real
  {
    Sum(Filter(expenses, Named(CategoryName(c))), AmountOf)
  }

  // ---------------------------------------------------------------------------
  // getChartData
  // ---------------------------------------------------------------------------

  /** Each category's name is its own: the filter's test by name holds for
      exactly the expenses of that category. */
  lemma NamedIsCategory(c: Category)
    ensures forall e :: Named(CategoryName(c))(e) == (e.category == c)
  {
    forall e: Expense
      ensures Named(CategoryName(c))(e) == (e.category == c)
    {
      assert CategoryName(e.category)[0] == CategoryName(c)[0] ==> e.category == c;
    }
  }

  /** getChartData: the `forEach` adds each amount into the dictionary entry
      of its category, creating the entry on first use; `Object.keys` then
      lists the categories in the order they were first met. The chart has
      one slice per category met, worth that category's total, and the slices
      add up to the total of all expenses. */
  method ChartData(expenses: seq<Expense>) returns (chart: seq<Slice>)
    ensures |chart| == |DistinctKeys(expenses, CategoryOf)|
    ensures forall j :: 0 <= j < |chart| ==>
      chart[j] == Slice(DistinctKeys(expenses, CategoryOf)[j], CategoryTotal(expenses, DistinctKeys(expenses, CategoryOf)[j]))
    ensures Sum(chart, ValueOf) == TotalExpenses(expenses)
  {
    var keys, data := TotalsByKey(expenses, CategoryOf, AmountOf);
    forall c | c in keys
      ensures c in data && data[c] == CategoryTotal(expenses, c)
    {
      TotalsDomain(expenses, CategoryOf, AmountOf, c);
      NamedIsCategory(c);
      TotalsEntry(expenses, CategoryOf, AmountOf, c, Named(CategoryName(c)));
    }
    chart := Slices(keys, data);
    TotalsSum(expenses, CategoryOf, AmountOf);
  }

  /** `Object.keys(data).map(key => ({ name: key, value: data[key] }))` */
  method Slices(keys: seq<Category>, data: map<Category, real>) returns (chart: seq<Slice>)
    requires forall c :: c in keys ==> c in data
    ensures |chart| == |keys|
    ensures forall t :: 0 <= t < |keys| ==> chart[t] == Slice(keys[t], data[keys[t]])
    ensures Sum(chart, ValueOf) == ValuesSum(keys, data)
  {
    chart := [];
    for j := 0 to |keys|
      invariant |chart| == j
      invariant forall t :: 0 <= t < j ==> chart[t] == Slice(keys[t], data[keys[t]])
      invariant Sum(chart, ValueOf) == ValuesSum(keys[..j], data)
    {
      var slice := Slice(keys[j], data[keys[j]]);
      SumAppend(chart, [slice], ValueOf);
      assert Sum([slice], ValueOf) == data[keys[j]] + Sum([], ValueOf);
      assert keys[..j + 1][..j] == keys[..j];
      chart := chart + [slice];
    }
    assert keys[..|keys|] == keys;
  }

  // ---------------------------------------------------------------------------
  // filteredExpenses
  // ---------------------------------------------------------------------------

  /** filteredExpenses: everything under 'All', else the expenses of that
      category name. */
  function FilteredExpenses(expenses: seq<Expense>, filter: string): (r: seq<Expense>)
    ensures filter == "All" ==> r == expenses
    ensures filter != "All" ==> forall e :: e in r <==> e in expenses && CategoryName(e.category) == filter
  {
    if filter == "All" then expenses else Filter(expenses, Named(filter))
  }

  /** The filtered table keeps the list's order. */
  lemma FilteredKeepsOrder(expenses: seq<Expense>, filter: string)
    ensures IsSubsequence(FilteredExpenses(expenses, filter), expenses)
  {
    if filter == "All" {
      SubsequenceOfItself(expenses);
    } else {
      FilterIsSubsequence(expenses, Named(filter));
    }
  }

  lemma {:induction false} SubsequenceOfItself(s: seq<Expense>)
    ensures IsSubsequence(s, s)
  {
    if s != [] {
      SubsequenceOfItself(s[1..]);
    }
  }

  /** The amounts listed under a category's filter add up to that category's
      slice of the pie. */
  lemma FilteredTotalIsSlice(expenses: seq<Expense>, c: Category)
    ensures Sum(FilteredExpenses(expenses, CategoryName(c)), AmountOf) == CategoryTotal(expenses, c)
  {
  }

  // ---------------------------------------------------------------------------
  // thisMonth and thisMonthTotal
  // ---------------------------------------------------------------------------

  /** `new Date(e.date).getMonth() === new Date().getMonth()`; `monthOf` is
      the local month index of a time, `now` the current time. */
  function InThisMonth(monthOf: int -> int, now: int): Expense -> bool
  {
    (e: Expense) => monthOf(e.date) == monthOf(now)
  }

  function NotThisMonth(monthOf: int -> int, now: int): Expense -> bool
  {
    (e: Expense) => monthOf(e.date) != monthOf(now)
  }

  /** thisMonth: the expenses dated in the current month index, of any year. */
  function ThisMonth(expenses: seq<Expense>, monthOf: int -> int, now: int): (r: seq<Expense>)
    ensures forall e :: e in r <==> e in expenses && monthOf(e.date) == monthOf(now)
  {
    Filter(expenses, InThisMonth(monthOf, now))
  }

  function ThisMonthTotal(expenses: seq<Expense>, monthOf: int -> int, now: int): real
  {
    Sum(ThisMonth(expenses, monthOf, now), AmountOf)
  }

  /** This month's total and the other months' together make the overall
      total. */
  lemma MonthSplitsTotal(expenses: seq<Expense>, monthOf: int -> int, now: int)
    ensures TotalExpenses(expenses)
      == ThisMonthTotal(expenses, monthOf, now) + Sum(Filter(expenses, NotThisMonth(monthOf, now)), AmountOf)
  {
    SumFilterSplit(expenses, AmountOf, InThisMonth(monthOf, now), NotThisMonth(monthOf, now));
  }
}
