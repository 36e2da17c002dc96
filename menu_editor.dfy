/** The ingredient-row editor of the menu planner page: the `ingredients`
    state is a list of row objects; adding appends a blank row, removing
    drops one position, and editing writes one field of one row object in
    place (on a shallow copy of the list, so the row object is shared with
    the previous state). The page also totals the quantities and badges
    each day with the number of its meals that have a menu. */
module MenuEditor {
  import opened Base
  import opened Week
  import opened Menu

  /** One row object of the editor's `ingredients` state. The quantity is
      what the number input holds: a number, the empty string (`Missing`),
      or, for a row loaded from elsewhere, something not numeric. */
  class RowObject {
    var name: string
    var quantityPerStudent: NumberInput
    var unit: string

    constructor (name: string, quantityPerStudent: NumberInput, unit: string)
      ensures this.name == name && this.quantityPerStudent == quantityPerStudent && this.unit == unit
    {
      this.name := name;
      this.quantityPerStudent := quantityPerStudent;
      this.unit := unit;
    }
  }

  /** The plain value a row object holds (what a save request sends). */
  function RowValue(o: RowObject): IngredientRow
    reads o
  {
    IngredientRow(o.name, o.quantityPerStudent, o.unit)
  }

  /** The values of the rows, position by position. */
  function Values(ings: seq<RowObject>): (r: seq<IngredientRow>)
    reads ings
    ensures |r| == |ings|
    ensures forall i :: 0 <= i < |ings| ==> r[i] == RowValue(ings[i])
  {
    if ings == [] then [] else [RowValue(ings[0])] + Values(ings[1..])
  }

  /** No row object appears twice in the list. */
  predicate Distinct(ings: seq<RowObject>)
  {
    forall i, j :: 0 <= i < j < |ings| ==> ings[i] != ings[j]
  }

  /** The row addIngredient appends. */
  const BLANK_ROW: IngredientRow := IngredientRow("", Num(0.0), "kg")

  // ---------------------------------------------------------------------------
  // addIngredient, updateIngredient, removeIngredient
  // ---------------------------------------------------------------------------

  /** addIngredient: a new list with one new blank row object at the end. */
  method AddIngredient(ings: seq<RowObject>) returns (newIngs: seq<RowObject>)
    ensures |newIngs| == |ings| + 1 && newIngs[..|ings|] == ings
    ensures fresh(newIngs[|ings|])
    ensures Values(newIngs) == Values(ings) + [BLANK_ROW]
    ensures Distinct(ings) ==> Distinct(newIngs)
  {
    var row := new RowObject("", Num(0.0), "kg");
    newIngs := ings + [row];
    assert newIngs[..|ings|] == ings;
  }

  /** The field updateIngredient writes and the value the input gives it. */
  datatype Edit =
    | EditName(name: string)
    | EditQuantity(quantity: NumberInput)
    | EditUnit(unit: string)

  /** A row's value after writing one field. */
  function Edited(row: IngredientRow, e: Edit): (r: IngredientRow)
  {
    match e
    case EditName(s) => row.(name := s)
    case EditQuantity(q) => row.(quantityPerStudent := q)
    case EditUnit(s) => row.(unit := s)
  }

  /** Writing a field changes that field to the written value and leaves the
      other two as they were. */
  lemma EditedChangesOneField(row: IngredientRow, e: Edit)
    ensures Edited(row, e).name == (if e.EditName? then e.name else row.name)
    ensures Edited(row, e).quantityPerStudent == (if e.EditQuantity? then e.quantity else row.quantityPerStudent)
    ensures Edited(row, e).unit == (if e.EditUnit? then e.unit else row.unit)
  {
  }

  /** updateIngredient: the new list holds the same row objects in the same
      order, and the row object at `idx` has the one field written. Since
      that object is shared, the previous list sees the change as well, and
      so does every other position holding the same object. */
  method UpdateIngredient(ings: seq<RowObject>, idx: nat, e: Edit) returns (newIngs: seq<RowObject>)
    requires idx < |ings|
    modifies ings[idx]
    ensures newIngs == ings
    ensures RowValue(ings[idx]) == Edited(old(RowValue(ings[idx])), e)
    ensures forall j :: 0 <= j < |ings| && ings[j] != ings[idx] ==> RowValue(ings[j]) == old(RowValue(ings[j]))
    ensures Distinct(ings) ==> Values(newIngs) == old(Values(ings))[idx := Edited(old(RowValue(ings[idx])), e)]
  {
    newIngs := ings;
    var row := newIngs[idx];
    match e
    case EditName(s) => row.name := s;
    case EditQuantity(q) => row.quantityPerStudent := q;
    case EditUnit(s) => row.unit := s;
  }

  /** `ings.filter((_, i) => i !== idx)`, the position of the first element
      being `from`. */
  function KeepOthers<T>(s: seq<T>, idx: int, from: int): (r: seq<T>)
    decreases |s|
  {
    if s == [] then []
    else (if from != idx then [s[0]] else []) + KeepOthers(s[1..], idx, from + 1)
  }

  /** removeIngredient: drops exactly the row at `idx` and keeps the rest in
      order; an index outside the list removes nothing. */
  function RemoveIngredient<T>(s: seq<T>, idx: int): (r: seq<T>)
    ensures 0 <= idx < |s| ==> r == s[..idx] + s[idx + 1..] && |r| == |s| - 1
    ensures !(0 <= idx < |s|) ==> r == s
  {
    if 0 <= idx < |s| then
      KeepOthersInside(s, idx, 0);
      KeepOthers(s, idx, 0)
    else
      KeepOthersOutside(s, idx, 0);
      KeepOthers(s, idx, 0)
  }

  lemma {:induction false} KeepOthersOutside<T>(s: seq<T>, idx: int, from: int)
    requires idx < from || idx >= from + |s|
    ensures KeepOthers(s, idx, from) == s
  {
    if s != [] {
      KeepOthersOutside(s[1..], idx, from + 1);
    }
  }

  lemma {:induction false} KeepOthersInside<T>(s: seq<T>, idx: int, from: int)
    requires from <= idx < from + |s|
    ensures KeepOthers(s, idx, from) == s[..idx - from] + s[idx - from + 1..]
  {
    if from == idx {
      KeepOthersOutside(s[1..], idx, from + 1);
    } else {
      KeepOthersInside(s[1..], idx, from + 1);
      ConsAround(s, idx - from);
    }
  }

  /** Dropping position `m > 0` of `s` is keeping the head and dropping
      position `m - 1` of the tail. */
  lemma ConsAround<T>(s: seq<T>, m: nat)
    requires 0 < m < |s|
    ensures [s[0]] + (s[1..][..m - 1] + s[1..][m..]) == s[..m] + s[m + 1..]
  {
    assert s[..m] == [s[0]] + s[1..][..m - 1];
    assert s[m + 1..] == s[1..][m..];
  }

  /** Removing a row object removes its value. */
  lemma ValuesOfRemoved(ings: seq<RowObject>, idx: int)
    requires 0 <= idx < |ings|
    ensures Values(RemoveIngredient(ings, idx)) == Values(ings)[..idx] + Values(ings)[idx + 1..]
  {
    var v := Values(ings);
    var w := Values(ings[..idx] + ings[idx + 1..]);
    var u := v[..idx] + v[idx + 1..];
    forall i | 0 <= i < |w|
      ensures w[i] == u[i]
    {
      if i < idx {
        assert u[i] == v[i];
      } else {
        assert u[i] == v[i + 1];
      }
    }
    assert w == u;
  }

  // ---------------------------------------------------------------------------
  // totalQty
  // ---------------------------------------------------------------------------

  /** `Number(q || 0)`: an empty input counts as 0, a non-numeric one as NaN
      (`None`). */
  function QtyNumber(q: NumberInput): Option<real>
  {
    match q
    case Num(v) => Some(v)
    case Missing => Some(0.0)
    case NotANumber => None
  }

  /** A row's contribution when it is a number. */
  function QtyOrZero(row: IngredientRow): real
  {
    if row.quantityPerStudent.Num? then row.quantityPerStudent.value else 0.0
  }

  /** One step of the reduce: NaN stays NaN. */
  function AddQty(acc: Option<real>, q: NumberInput): Option<real>
  {
    match (acc, QtyNumber(q))
    case (Some(a), Some(v)) => Some(a + v)
    case _ => None
  }

  /** totalQty: the reduce from 0, left to right. The total is a number
      exactly when no row is non-numeric, and then it is the sum of the
      numeric quantities, empty rows adding nothing. */
  function TotalQty(rows: seq<IngredientRow>): (r: Option<real>)
    ensures r.Some? <==> forall i :: 0 <= i < |rows| ==> !rows[i].quantityPerStudent.NotANumber?
    ensures r.Some? ==> r.value == Sum(rows, QtyOrZero)
  {
    if rows == [] then Some(0.0)
    else
      var init := rows[..|rows| - 1];
      var last := rows[|rows| - 1];
      assert rows == init + [last];
      SumAppend(init, [last], QtyOrZero);
      AddQty(TotalQty(init), last.quantityPerStudent)
  }

  /** A new blank row leaves the total as it was. */
  lemma AddedKeepsTotal(rows: seq<IngredientRow>)
    ensures TotalQty(rows + [BLANK_ROW]) == TotalQty(rows)
  {
    assert (rows + [BLANK_ROW])[..|rows|] == rows;
  }

  /** The sum splits around one position. */
  lemma SumAround(rows: seq<IngredientRow>, idx: nat)
    requires idx < |rows|
    ensures Sum(rows, QtyOrZero) == Sum(rows[..idx], QtyOrZero) + QtyOrZero(rows[idx]) + Sum(rows[idx + 1..], QtyOrZero)
  {
    assert rows == rows[..idx] + ([rows[idx]] + rows[idx + 1..]);
    SumAppend(rows[..idx], [rows[idx]] + rows[idx + 1..], QtyOrZero);
    SumAppend([rows[idx]], rows[idx + 1..], QtyOrZero);
  }

  /** Removing a row takes its quantity off the total. */
  lemma RemovedSubtractsRow(rows: seq<IngredientRow>, idx: nat)
    requires idx < |rows| && TotalQty(rows).Some?
    ensures TotalQty(RemoveIngredient(rows, idx)).Some?
    ensures TotalQty(RemoveIngredient(rows, idx)).value == TotalQty(rows).value - QtyOrZero(rows[idx])
  {
    var rest := rows[..idx] + rows[idx + 1..];
    forall i | 0 <= i < |rest|
      ensures !rest[i].quantityPerStudent.NotANumber?
    {
      assert rest[i] == rows[if i < idx then i else i + 1];
    }
    SumWithout(rows, idx);
  }

  /** The sum without one position. */
  lemma SumWithout(rows: seq<IngredientRow>, idx: nat)
    requires idx < |rows|
    ensures Sum(rows[..idx] + rows[idx + 1..], QtyOrZero) == Sum(rows, QtyOrZero) - QtyOrZero(rows[idx])
  {
    SumAround(rows, idx);
    SumAppend(rows[..idx], rows[idx + 1..], QtyOrZero);
  }

  /** Editing a name or a unit leaves the total as it was; editing a
      quantity to a number `v` moves the total by `v` minus the old one;
      editing it to something non-numeric makes it NaN. */
  lemma EditedTotal(rows: seq<IngredientRow>, idx: nat, e: Edit)
    requires idx < |rows| && TotalQty(rows).Some?
    ensures !e.EditQuantity? ==> TotalQty(rows[idx := Edited(rows[idx], e)]) == TotalQty(rows)
    ensures e.EditQuantity? && !e.quantity.NotANumber? ==>
      TotalQty(rows[idx := Edited(rows[idx], e)]) == Some(TotalQty(rows).value - QtyOrZero(rows[idx]) + QtyOrZero(Edited(rows[idx], e)))
    ensures e.EditQuantity? && e.quantity.NotANumber? ==> TotalQty(rows[idx := Edited(rows[idx], e)]) == None
  {
    var row := Edited(rows[idx], e);
    var after := rows[idx := row];
    if e.EditQuantity? && e.quantity.NotANumber? {
      assert after[idx].quantityPerStudent.NotANumber?;
    } else {
      assert forall i :: 0 <= i < |after| ==> !after[i].quantityPerStudent.NotANumber? by {
        forall i | 0 <= i < |after|
          ensures !after[i].quantityPerStudent.NotANumber?
        {
          if i != idx {
            assert after[i] == rows[i];
          }
        }
      }
      assert Sum(after, QtyOrZero) == Sum(rows, QtyOrZero) - QtyOrZero(rows[idx]) + QtyOrZero(row) by {
        SumAround(rows, idx);
        SumAround(after, idx);
        assert after[..idx] == rows[..idx];
        assert after[idx + 1..] == rows[idx + 1..];
      }
    }
  }

  // ---------------------------------------------------------------------------
  // hasCurrentMenu and the day badge
  // ---------------------------------------------------------------------------

  /** The entry is that day's meal and names some dishes. */
  predicate Serves(m: MenuEntry, day: Day, meal: Meal)
  {
    m.day == day && m.mealType == meal && m.foodItems != ""
  }

  /** hasCurrentMenu: `menu.some(…)`. */
  function HasCurrentMenu(menu: seq<MenuEntry>, day: Day, meal: Meal): (b: bool)
    ensures b <==> exists i :: 0 <= i < |menu| && Serves(menu[i], day, meal)
  {
    var i := FirstWhere(menu, (m: MenuEntry) => Serves(m, day, meal));
    assert i >= 0 ==> Serves(menu[i], day, meal);
    i >= 0
  }

  /** No meal of the day has a menu exactly when no entry of that day
      names a dish. */
  lemma NoMealServed(menu: seq<MenuEntry>, day: Day)
    ensures (!HasCurrentMenu(menu, day, Breakfast) && !HasCurrentMenu(menu, day, Lunch) && !HasCurrentMenu(menu, day, Dinner))
      <==> forall i :: 0 <= i < |menu| ==> menu[i].day != day || menu[i].foodItems == ""
  {
    if !HasCurrentMenu(menu, day, Breakfast) && !HasCurrentMenu(menu, day, Lunch) && !HasCurrentMenu(menu, day, Dinner) {
      forall i | 0 <= i < |menu|
        ensures menu[i].day != day || menu[i].foodItems == ""
      {
        assert !Serves(menu[i], day, menu[i].mealType);
      }
    }
  }

  /** The day's badge: how many of the three meals have a current menu. */
  function DayBadgeCount(menu: seq<MenuEntry>, day: Day): (n: nat)
    ensures n <= 3
    ensures n == 0 <==> forall i :: 0 <= i < |menu| ==> menu[i].day != day || menu[i].foodItems == ""
    ensures n == 3 <==> HasCurrentMenu(menu, day, Breakfast) && HasCurrentMenu(menu, day, Lunch) && HasCurrentMenu(menu, day, Dinner)
    ensures n == (if HasCurrentMenu(menu, day, Breakfast) then 1 else 0)
      + (if HasCurrentMenu(menu, day, Lunch) then 1 else 0)
      + (if HasCurrentMenu(menu, day, Dinner) then 1 else 0)
  {
    var n := Count(MEALS, (m: Meal) => HasCurrentMenu(menu, day, m));
    assert n == (if HasCurrentMenu(menu, day, Breakfast) then 1 else 0)
      + (if HasCurrentMenu(menu, day, Lunch) then 1 else 0)
      + (if HasCurrentMenu(menu, day, Dinner) then 1 else 0);
    NoMealServed(menu, day);
    n
  }
}
