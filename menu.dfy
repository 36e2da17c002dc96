/** The weekly menu (backend/controllers/menuController.js over
    backend/models/Menu.js): one entry per (day, meal type) with the dishes
    and the ingredient rows per student. The handler has no try/catch, so a
    document the schema refuses leaves the request Unhandled. */
module Menu {
  import opened Base
  import opened Week

  datatype Ingredient = Ingredient(name: string, quantityPerStudent: real, unit: string)

  datatype MenuEntry = MenuEntry(id: Id, day: Day, mealType: Meal, foodItems: string, ingredients: seq<Ingredient>)

  function IdOf(m: MenuEntry): Id { m.id }

  /** The (day, meal type) pair an entry is for. */
  datatype Slot = Slot(day: Day, mealType: Meal)

  function SlotOf(m: MenuEntry): Slot { Slot(m.day, m.mealType) }

  /** An ingredient row as the request sends it. */
  datatype IngredientRow = IngredientRow(name: string, quantityPerStudent: NumberInput, unit: string)

  datatype MealRequest = MealRequest(day: string, mealType: string, foodItems: string, ingredients: seq<IngredientRow>)

  /** The ingredient sub-schema's cast and checks, row by row: every row
      needs a name, a number and a unit, and the rows are kept as sent, in
      order, blank ones included (a blank row makes the whole save fail). */
  function CastIngredients(rows: seq<IngredientRow>): (r: Option<seq<Ingredient>>)
    ensures r.Some? <==> forall k :: 0 <= k < |rows| ==>
      rows[k].name != "" && rows[k].quantityPerStudent.Num? && rows[k].unit != ""
    ensures r.Some? ==> |r.value| == |rows| && forall k :: 0 <= k < |rows| ==>
      r.value[k] == Ingredient(rows[k].name, rows[k].quantityPerStudent.value, rows[k].unit)
  {
    if rows == [] then Some([])
    else
      var row := rows[0];
      match CastIngredients(rows[1..])
      case None => None
      case Some(rest) =>
        if row.name != "" && row.quantityPerStudent.Num? && row.unit != "" then
          Some([Ingredient(row.name, row.quantityPerStudent.value, row.unit)] + rest)
        else None
  }

  /** `findOne({ day, mealType })`: the day and meal type as sent. */
  predicate AtSlot(m: MenuEntry, req: MealRequest)
  {
    DayName(m.day) == req.day && MealName(m.mealType) == req.mealType
  }

  function SlotIndex(entries: seq<MenuEntry>, req: MealRequest): (i: int)
    ensures -1 <= i < |entries|
    ensures i >= 0 ==> AtSlot(entries[i], req)
    ensures i < 0 <==> forall k :: 0 <= k < |entries| ==> !AtSlot(entries[k], req)
  {
    FirstWhere(entries, (m: MenuEntry) => AtSlot(m, req))
  }

  /** updateMeal: the entry of that day and meal type gets the sent dishes
      and ingredients wholesale, or a new entry is created; the dishes are
      required, and a new entry needs a day and a meal type from the enums. */
  function MealOutcome(entries: seq<MenuEntry>, req: MealRequest, id: Id): (r: Outcome<MenuEntry>)
    ensures !r.Fail?
    ensures r.Done? ==>
      CastIngredients(req.ingredients).Some?
      && r.value.foodItems == req.foodItems && r.value.ingredients == CastIngredients(req.ingredients).value
      && DayName(r.value.day) == req.day && MealName(r.value.mealType) == req.mealType
    ensures var i := SlotIndex(entries, req);
      (i >= 0 ==>
         (r.Done? <==> req.foodItems != "" && CastIngredients(req.ingredients).Some?)
         && (r.Done? ==> r.value.id == entries[i].id && SlotOf(r.value) == SlotOf(entries[i])))
      && (i < 0 ==>
         (r.Done? <==> req.foodItems != "" && CastIngredients(req.ingredients).Some?
                       && ParseDay(req.day).Some? && ParseMeal(req.mealType).Some?)
         && (r.Done? ==> r.value.id == id))
  {
    var i := SlotIndex(entries, req);
    match CastIngredients(req.ingredients)
    case None => Unhandled
    case Some(ings) =>
      if req.foodItems == "" then Unhandled
      else if i >= 0 then Done(entries[i].(foodItems := req.foodItems, ingredients := ings))
      else
        match (ParseDay(req.day), ParseMeal(req.mealType))
        case (Some(day), Some(meal)) => Done(MenuEntry(id, day, meal, req.foodItems, ings))
        case _ => Unhandled
  }

  /** The menu after updateMeal. */
  function AfterMeal(entries: seq<MenuEntry>, req: MealRequest, id: Id): (r: seq<MenuEntry>)
    ensures !MealOutcome(entries, req, id).Done? ==> r == entries
    ensures MealOutcome(entries, req, id).Done? ==>
      MealOutcome(entries, req, id).value in r
      && |r| == (if SlotIndex(entries, req) >= 0 then |entries| else |entries| + 1)
    ensures forall j :: 0 <= j < |entries| && j != SlotIndex(entries, req) ==> r[j] == entries[j]
  {
    var i := SlotIndex(entries, req);
    match MealOutcome(entries, req, id)
    case Done(m) => if i >= 0 then assert entries[i := m][i] == m; entries[i := m] else entries + [m]
    case _ => entries
  }

  /** An update of an existing slot adds no entry and changes no other
      entry; a new slot is one entry appended. */
  lemma MealTouchesOneSlot(entries: seq<MenuEntry>, req: MealRequest, id: Id)
    requires MealOutcome(entries, req, id).Done?
    ensures var after := AfterMeal(entries, req, id);
      var i := SlotIndex(entries, req);
      (i >= 0 ==> |after| == |entries| && forall k :: 0 <= k < |entries| && k != i ==> after[k] == entries[k])
      && (i < 0 ==> after == entries + [MealOutcome(entries, req, id).value])
  {
  }

  /** At most one entry per slot stays so. */
  lemma MealKeepsSlotsUnique(entries: seq<MenuEntry>, req: MealRequest, id: Id)
    requires KeysUnique(entries, SlotOf)
    ensures KeysUnique(AfterMeal(entries, req, id), SlotOf)
  {
    var i := SlotIndex(entries, req);
    match MealOutcome(entries, req, id)
    case Done(m) =>
      if i >= 0 {
        ReplaceKeysUnique(entries, SlotOf, i, m);
      } else {
        forall k | 0 <= k < |entries|
          ensures SlotOf(entries[k]) != SlotOf(m)
        {
          assert !AtSlot(entries[k], req);
        }
        AppendKeysUnique(entries, SlotOf, m);
      }
    case _ =>
  }

  /** Sending the same plan twice leaves the menu as sending it once. */
  lemma MealIdempotent(entries: seq<MenuEntry>, req: MealRequest, id: Id, id2: Id)
    requires KeysUnique(entries, SlotOf)
    ensures AfterMeal(AfterMeal(entries, req, id), req, id2) == AfterMeal(entries, req, id)
  {
    var once := AfterMeal(entries, req, id);
    var i := SlotIndex(entries, req);
    match MealOutcome(entries, req, id)
    case Done(m) =>
      var j := if i >= 0 then i else |entries|;
      assert once[j] == m && AtSlot(m, req);
      MealKeepsSlotsUnique(entries, req, id);
      var k := SlotIndex(once, req);
      assert k <= j;
      assert k == j;
      assert once[j := m] == once;
    case _ =>
  }

  /** The Menu collection; getFullMenu returns `entries` as it is. */
  class MenuStore {
    var entries: seq<MenuEntry>

    ghost predicate Valid()
      reads this
    {
      KeysUnique(entries, IdOf) && KeysUnique(entries, SlotOf)
    }

    constructor ()
      ensures Valid() && entries == []
    {
      entries := [];
    }

    /** updateMeal; `id` is the fresh id a new entry gets. */
    method UpdateMeal(req: MealRequest, id: Id) returns (out: Outcome<MenuEntry>)
      requires Valid() && id !in KeySet(entries, IdOf)
      modifies this
      ensures Valid()
      ensures out == MealOutcome(old(entries), req, id)
      ensures entries == AfterMeal(old(entries), req, id)
    {
      out := MealOutcome(entries, req, id);
      var i := SlotIndex(entries, req);
      MealKeepsSlotsUnique(entries, req, id);
      if out.Done? {
        if i >= 0 {
          ReplaceKeysUnique(entries, IdOf, i, out.value);
          entries := entries[i := out.value];
        } else {
          AppendKeysUnique(entries, IdOf, out.value);
          entries := entries + [out.value];
        }
      }
    }
  }
}
