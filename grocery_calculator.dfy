/** The weekly grocery requirement (frontend/src/pages/GroceryCalculator.jsx):
    every ingredient row of every menu entry, times the number of active
    students, summed per name-and-unit key into rows kept in the order the
    keys first appear. */
module GroceryCalculator {
  import opened Base
  import opened Students
  import opened Menu

  /** One line of the result table. */
  datatype Row = Row(name: string, total: real, unit: string)

  /** The key of the `totals` object: `${name}-${unit}`. */
  function Key(ing: Ingredient): string
  {
    ing.name + "-" + ing.unit
  }

  /** `x` taken `n` times (n-fold addition, so that the sums below stay
      linear; ScaledIsProduct shows it is `x * n`). */
  function Scaled(x: real, n: nat): real
  {
    if n == 0 then 0.0 else Scaled(x, n - 1) + x
  }

  lemma {:induction false} ScaledIsProduct(x: real, n: nat)
    ensures Scaled(x, n) == x * n as real
  {
    if n > 0 {
      ScaledIsProduct(x, n - 1);
    }
  }

  lemma {:induction false} ScaledAdd(a: real, b: real, n: nat)
    ensures Scaled(a + b, n) == Scaled(a, n) + Scaled(b, n)
  {
    if n > 0 {
      ScaledAdd(a, b, n - 1);
    }
  }

  lemma {:induction false} ScaledZero(n: nat)
    ensures Scaled(0.0, n) == 0.0
  {
    if n > 0 {
      ScaledZero(n - 1);
    }
  }

  /** `ing.quantityPerStudent * activeCount`. */
  method Multiply(q: real, n: nat) returns (p: real)
    ensures p == Scaled(q, n)
  {
    p := q * n as real;
    ScaledIsProduct(q, n);
  }

  /** What one ingredient row asks for, given the number of active students. */
  function Needed(active: nat): Ingredient -> real
  {
    (ing: Ingredient) => Scaled(ing.quantityPerStudent, active)
  }

  function Quantity(ing: Ingredient): real
  {
    ing.quantityPerStudent
  }

  predicate IsActive(s: PublicStudent)
  {
    s.status == Active
  }

  /** `students.filter(s => s.status === 'Active').length` */
  function ActiveCount(students: seq<PublicStudent>): (n: nat)
    ensures n == Count(students, IsActive) && n <= |students|
  {
    FilterLength(students, IsActive);
    |Filter(students, IsActive)|
  }

  predicate IsActiveDoc(d: StudentDoc)
  {
    d.status == Active
  }

  /** The count the calculator takes from the getStudents response is the
      number of stored students whose status is Active. */
  lemma RosterActiveCount(docs: seq<StudentDoc>)
    ensures ActiveCount(Roster(docs)) == Count(docs, IsActiveDoc)
  {
    CountMap(docs, Public, IsActive, IsActiveDoc);
  }

  /** The ingredient rows of the whole menu, entry after entry. */
  function Flatten(menu: seq<MenuEntry>): (r: seq<Ingredient>)
  {
    if menu == [] then [] else Flatten(menu[..|menu| - 1]) + menu[|menu| - 1].ingredients
  }

  // ---------------------------------------------------------------------------
  // The requirement, stated key by key
  // ---------------------------------------------------------------------------

  /** The row of key `k` when each ingredient row asks for `need(ing)`: the
      name and unit of the first ingredient with that key, and the summed
      need of every ingredient with that key (a key no ingredient carries
      has no row; RowsFor asks only for present keys). */
  function RowFor(ings: seq<Ingredient>, k: string, need: Ingredient -> real): Row
  {
    var i := KeyIndex(ings, Key, k);
    if i < 0 then Row("", 0.0, "")
    else Row(ings[i].name, Sum(Filter(ings, HasKey(Key, k)), need), ings[i].unit)
  }

  function RowsFor(ings: seq<Ingredient>, ks: seq<string>, need: Ingredient -> real): (r: seq<Row>)
    ensures |r| == |ks|
  {
    if ks == [] then [] else [RowFor(ings, ks[0], need)] + RowsFor(ings, ks[1..], need)
  }

  lemma {:induction false} RowsForAt(ings: seq<Ingredient>, ks: seq<string>, need: Ingredient -> real, i: nat)
    requires i < |ks|
    ensures RowsFor(ings, ks, need)[i] == RowFor(ings, ks[i], need)
  {
    if i > 0 {
      RowsForAt(ings, ks[1..], need, i - 1);
    }
  }

  /** One row per distinct key, in order of first appearance. */
  function Requirements(ings: seq<Ingredient>, need: Ingredient -> real): (r: seq<Row>)
    ensures |r| == |DistinctKeys(ings, Key)|
  {
    RowsFor(ings, DistinctKeys(ings, Key), need)
  }

  /** Row `i` of the requirement is the row of the `i`-th distinct key. */
  lemma RequirementAt(ings: seq<Ingredient>, need: Ingredient -> real, i: nat)
    requires i < |DistinctKeys(ings, Key)|
    ensures Requirements(ings, need)[i] == RowFor(ings, DistinctKeys(ings, Key)[i], need)
  {
    RowsForAt(ings, DistinctKeys(ings, Key), need, i);
  }

  /** Every listed key is carried by some ingredient. */
  lemma KeyPresent(ings: seq<Ingredient>, a: nat)
    requires a < |DistinctKeys(ings, Key)|
    ensures KeyIndex(ings, Key, DistinctKeys(ings, Key)[a]) >= 0
  {
    var k := DistinctKeys(ings, Key)[a];
    assert k in DistinctKeys(ings, Key);
    var j :| 0 <= j < |ings| && Key(ings[j]) == k;
  }

  // ---------------------------------------------------------------------------
  // calculateTotal
  // ---------------------------------------------------------------------------

  /** The position of `k` in `ks`, or -1 (the lookup `totals[key]`). */
  function IndexOf(ks: seq<string>, k: string): (i: int)
    ensures -1 <= i < |ks|
    ensures i >= 0 ==> ks[i] == k
    ensures i < 0 <==> k !in ks
  {
    FirstWhere(ks, (x: string) => x == k)
  }

  /** calculateTotal: the nested `forEach` over the menu and its ingredient
      rows, with `keys` and `rows` for the insertion-ordered `totals` object
      (`Object.values(totals)` is `rows`). */
  method CalculateTotal(students: seq<PublicStudent>, menu: seq<MenuEntry>) returns (rows: seq<Row>)
    ensures rows == Requirements(Flatten(menu), Needed(ActiveCount(students)))
  {
    var active := |Filter(students, IsActive)|;
    var keys: seq<string> := [];
    rows := [];
    var i := 0;
    while i < |menu|
      invariant 0 <= i <= |menu|
      invariant keys == DistinctKeys(Flatten(menu[..i]), Key)
      invariant rows == Requirements(Flatten(menu[..i]), Needed(active))
    {
      assert menu[..i + 1][..i] == menu[..i];
      keys, rows := AddMeal(keys, rows, menu[i], active, Flatten(menu[..i]));
      i := i + 1;
    }
    assert menu[..i] == menu;
  }

  /** The callback of the outer `forEach`: every ingredient row of one menu
      entry, in order. */
  method AddMeal(keys: seq<string>, rows: seq<Row>, meal: MenuEntry, active: nat, ghost seen: seq<Ingredient>)
    returns (keys': seq<string>, rows': seq<Row>)
    requires keys == DistinctKeys(seen, Key) && rows == Requirements(seen, Needed(active))
    ensures keys' == DistinctKeys(seen + meal.ingredients, Key)
    ensures rows' == Requirements(seen + meal.ingredients, Needed(active))
  {
    var ings := meal.ingredients;
    keys', rows' := keys, rows;
    assert seen + ings[..0] == seen;
    var j := 0;
    while j < |ings|
      invariant 0 <= j <= |ings|
      invariant keys' == DistinctKeys(seen + ings[..j], Key)
      invariant rows' == Requirements(seen + ings[..j], Needed(active))
    {
      AppendNext(seen, ings, j);
      keys', rows' := AddIngredient(keys', rows', ings[j], active, seen + ings[..j]);
      j := j + 1;
    }
    assert ings[..j] == ings;
  }

  /** The callback of the inner `forEach`: the row of the ingredient's key
      is created at 0 if missing, then grows by the ingredient's need. */
  method AddIngredient(keys: seq<string>, rows: seq<Row>, ing: Ingredient, active: nat, ghost seen: seq<Ingredient>)
    returns (keys': seq<string>, rows': seq<Row>)
    requires keys == DistinctKeys(seen, Key) && rows == Requirements(seen, Needed(active))
    ensures keys' == DistinctKeys(seen + [ing], Key)
    ensures rows' == Requirements(seen + [ing], Needed(active))
  {
    var key := Key(ing);
    var amount := Multiply(ing.quantityPerStudent, active);
    var k := IndexOf(keys, key);
    if k < 0 {
      keys' := keys + [key];
      rows' := rows + [Row(ing.name, 0.0, ing.unit)];
      ghost var created := rows';
      var last := |rows'| - 1;
      rows' := rows'[last := rows'[last].(total := rows'[last].total + amount)];
      assert keys' == DistinctKeys(seen + [ing], Key) by { KeysStep(seen, ing); }
      assert rows' == Requirements(seen + [ing], Needed(active)) by {
        assert amount == Needed(active)(ing);
        KeysStep(seen, ing);
        AbsorbNew(seen, ing, Needed(active), created, amount);
      }
    } else {
      keys' := keys;
      rows' := rows[k := rows[k].(total := rows[k].total + amount)];
      assert keys' == DistinctKeys(seen + [ing], Key) by { KeysStep(seen, ing); }
      assert rows' == Requirements(seen + [ing], Needed(active)) by {
        assert amount == Needed(active)(ing);
        KeysStep(seen, ing);
        RowsStepKnown(seen, ing, Needed(active), k, rows, amount);
      }
    }
  }

  lemma AppendNext(done: seq<Ingredient>, ings: seq<Ingredient>, j: nat)
    requires j < |ings|
    ensures done + ings[..j + 1] == (done + ings[..j]) + [ings[j]]
  {
    assert ings[..j + 1] == ings[..j] + [ings[j]];
  }

  /** The new-key branch of the loop body: a row created at 0 and then
      given the ingredient's need is the new requirement. */
  lemma AbsorbNew(seen: seq<Ingredient>, x: Ingredient, need: Ingredient -> real, r: seq<Row>, amount: real)
    requires Key(x) !in DistinctKeys(seen, Key)
    requires r == Requirements(seen, need) + [Row(x.name, 0.0, x.unit)]
    requires amount == need(x)
    ensures r[|r| - 1 := r[|r| - 1].(total := r[|r| - 1].total + amount)] == Requirements(seen + [x], need)
  {
    RowsStepNew(seen, x, need);
    var before := Requirements(seen, need);
    assert r[|r| - 1 := Row(x.name, 0.0 + need(x), x.unit)] == before + [Row(x.name, 0.0 + need(x), x.unit)];
  }

  /** The keys after one more ingredient row: a new key goes to the end. */
  lemma KeysStep(ings: seq<Ingredient>, x: Ingredient)
    ensures DistinctKeys(ings + [x], Key) ==
      if Key(x) in DistinctKeys(ings, Key) then DistinctKeys(ings, Key) else DistinctKeys(ings, Key) + [Key(x)]
  {
    var t := ings + [x];
    assert t[..|t| - 1] == ings;
  }

  /** The row of one key after one more ingredient row. */
  lemma RowStep(ings: seq<Ingredient>, x: Ingredient, k: string, need: Ingredient -> real)
    requires KeyIndex(ings, Key, k) >= 0
    ensures Key(x) == k ==>
      RowFor(ings + [x], k, need) == RowFor(ings, k, need).(total := RowFor(ings, k, need).total + need(x))
    ensures Key(x) != k ==> RowFor(ings + [x], k, need) == RowFor(ings, k, need)
  {
    var i := KeyIndex(ings, Key, k);
    var p := HasKey(Key, k);
    KeyAppendKnown(ings, Key, x, k, need);
    assert RowFor(ings, k, need) == Row(ings[i].name, Sum(Filter(ings, p), need), ings[i].unit);
    assert RowFor(ings + [x], k, need) == Row(ings[i].name, Sum(Filter(ings + [x], p), need), ings[i].unit);
  }

  /** The row of a key that only the new ingredient row carries. */
  lemma RowStepFresh(ings: seq<Ingredient>, x: Ingredient, need: Ingredient -> real)
    requires KeyIndex(ings, Key, Key(x)) < 0
    ensures RowFor(ings + [x], Key(x), need) == Row(x.name, 0.0 + need(x), x.unit)
  {
    KeyAppendFresh(ings, Key, x, need);
  }

  /** One more row of a key already listed at `k` adds its need to row `k`
      and leaves the other rows. */
  lemma RowsStepKnownAt(ings: seq<Ingredient>, x: Ingredient, need: Ingredient -> real, k: nat, a: nat)
    requires k < |DistinctKeys(ings, Key)| && DistinctKeys(ings, Key)[k] == Key(x)
    requires a < |DistinctKeys(ings, Key)|
    ensures DistinctKeys(ings + [x], Key) == DistinctKeys(ings, Key)
    ensures a == k ==>
      Requirements(ings + [x], need)[a]
      == Requirements(ings, need)[a].(total := Requirements(ings, need)[a].total + need(x))
    ensures a != k ==> Requirements(ings + [x], need)[a] == Requirements(ings, need)[a]
  {
    var d := DistinctKeys(ings, Key);
    KeysStep(ings, x);
    assert DistinctKeys(ings + [x], Key) == d;
    KeyPresent(ings, a);
    RowStep(ings, x, d[a], need);
    RequirementAt(ings, need, a);
    RequirementAt(ings + [x], need, a);
    if a == k {
      assert RowFor(ings + [x], d[a], need) == RowFor(ings, d[a], need).(total := RowFor(ings, d[a], need).total + need(x));
    } else {
      assert d[a] != d[k];
      assert RowFor(ings + [x], d[a], need) == RowFor(ings, d[a], need);
    }
  }

  lemma RowsStepKnown(ings: seq<Ingredient>, x: Ingredient, need: Ingredient -> real, k: nat, r: seq<Row>, amount: real)
    requires k < |DistinctKeys(ings, Key)| && DistinctKeys(ings, Key)[k] == Key(x)
    requires r == Requirements(ings, need) && amount == need(x)
    ensures r[k := r[k].(total := r[k].total + amount)] == Requirements(ings + [x], need)
  {
    var r' := Requirements(ings + [x], need);
    var u := r[k := r[k].(total := r[k].total + amount)];
    RowsStepKnownAt(ings, x, need, k, k);
    assert |r'| == |u|;
    forall a | 0 <= a < |u|
      ensures r'[a] == u[a]
    {
      RowsStepKnownAt(ings, x, need, k, a);
    }
  }

  /** One row of a key not yet listed keeps every listed key's row. */
  lemma RowsStepOld(ings: seq<Ingredient>, x: Ingredient, need: Ingredient -> real, a: nat)
    requires Key(x) !in DistinctKeys(ings, Key) && a < |DistinctKeys(ings, Key)|
    ensures DistinctKeys(ings + [x], Key) == DistinctKeys(ings, Key) + [Key(x)]
    ensures Requirements(ings + [x], need)[a] == Requirements(ings, need)[a]
  {
    var d := DistinctKeys(ings, Key);
    KeysStep(ings, x);
    KeyPresent(ings, a);
    RowStep(ings, x, d[a], need);
    RequirementAt(ings, need, a);
    RequirementAt(ings + [x], need, a);
  }

  /** One row of a key not yet listed appends that key's row. */
  lemma RowsStepNew(ings: seq<Ingredient>, x: Ingredient, need: Ingredient -> real)
    requires Key(x) !in DistinctKeys(ings, Key)
    ensures Requirements(ings + [x], need) ==
      Requirements(ings, need) + [Row(x.name, 0.0 + need(x), x.unit)]
  {
    var d := DistinctKeys(ings, Key);
    KeysStep(ings, x);
    var r := Requirements(ings, need);
    var r' := Requirements(ings + [x], need);
    var u := r + [Row(x.name, 0.0 + need(x), x.unit)];
    assert |r'| == |u|;
    forall a | 0 <= a < |u|
      ensures r'[a] == u[a]
    {
      if a < |d| {
        RowsStepOld(ings, x, need, a);
      } else {
        RowStepFresh(ings, x, need);
        RequirementAt(ings + [x], need, a);
      }
    }
  }

  // ---------------------------------------------------------------------------
  // What the requirement means
  // ---------------------------------------------------------------------------

  lemma {:induction false} SumNeeded(s: seq<Ingredient>, active: nat)
    ensures Sum(s, Needed(active)) == Scaled(Sum(s, Quantity), active)
  {
    if s == [] {
      ScaledZero(active);
    } else {
      SumNeeded(s[1..], active);
      ScaledAdd(Quantity(s[0]), Sum(s[1..], Quantity), active);
    }
  }

  /** A key's total is the number of active students times the summed
      quantity per student of every ingredient row with that key, and the
      row carries the name and unit that make up its key. */
  lemma RowTotal(ings: seq<Ingredient>, n: nat, k: string)
    requires KeyIndex(ings, Key, k) >= 0
    ensures RowFor(ings, k, Needed(n)).total == Scaled(Sum(Filter(ings, HasKey(Key, k)), Quantity), n)
    ensures Key(Ingredient(RowFor(ings, k, Needed(n)).name, 0.0, RowFor(ings, k, Needed(n)).unit)) == k
  {
    var mine := Filter(ings, HasKey(Key, k));
    assert RowFor(ings, k, Needed(n)).total == Sum(mine, Needed(n));
    SumNeeded(mine, n);
  }

  /** With no active student every total is 0. */
  lemma NoActiveNoNeed(students: seq<PublicStudent>, menu: seq<MenuEntry>)
    requires ActiveCount(students) == 0
    ensures forall r :: r in Requirements(Flatten(menu), Needed(ActiveCount(students))) ==> r.total == 0.0
  {
    var ings := Flatten(menu);
    var rows := Requirements(ings, Needed(0));
    forall r | r in rows ensures r.total == 0.0 {
      var i :| 0 <= i < |rows| && rows[i] == r;
      KeyPresent(ings, i);
      RequirementAt(ings, Needed(0), i);
      RowTotal(ings, 0, DistinctKeys(ings, Key)[i]);
    }
  }

  /** Keys are not injective: ("a-b", "c") and ("a", "b-c") both give
      "a-b-c", so they land in one row that keeps the first name and unit. */
  lemma KeysCollide()
    ensures Key(Ingredient("a-b", 1.0, "c")) == Key(Ingredient("a", 2.0, "b-c"))
    ensures Requirements([Ingredient("a-b", 1.0, "c"), Ingredient("a", 2.0, "b-c")], Needed(1))
         == [Row("a-b", 3.0, "c")]
  {
    var x, y := Ingredient("a-b", 1.0, "c"), Ingredient("a", 2.0, "b-c");
    assert [] + [x] == [x];
    KeysStep([], x);
    RowsStepNew([], x, Needed(1));
    assert Requirements([x], Needed(1)) == [Row("a-b", 1.0, "c")];
    assert [x] + [y] == [x, y];
    RowsStepKnown([x], y, Needed(1), 0, Requirements([x], Needed(1)), Needed(1)(y));
  }

  /** The badge of a row. */
  function Volume(total: real): (badge: string)
    ensures badge == "Sufficient" <==> total > 10.0
    ensures badge != "Sufficient" ==> badge == "Low Volume"
  {
    if total > 10.0 then "Sufficient" else "Low Volume"
  }
}
