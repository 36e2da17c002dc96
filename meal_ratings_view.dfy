/** The meal feedback page: it lays the analytics' per-meal groups out by
    weekday and meal, picks the three best and three worst rated meals, and
    labels each meal by its average. */
module MealRatingsView {
  import opened Base
  import opened Week
  import opened Sorting
  import opened Feedback

  // ---------------------------------------------------------------------------
  // sortedMeals
  // ---------------------------------------------------------------------------

  /** `mealOrders[mealType]`: 0, 1, 2 for the three meal types; any other
      string has no order (the comparator then yields NaN, a tie). */
  function MealOrder(mealType: string): (r: Option<nat>)
    ensures r.Some? <==> ParseMeal(mealType).Some?
    ensures r.Some? ==> r.value < 3 && MealName(MEALS[r.value]) == mealType
  {
    match ParseMeal(mealType)
    case Some(m) => Some(MealIndex(m))
    case None => None
  }

  /** The comparator's order as one number: weekday position first
      (`dayOrder.indexOf`, -1 for an unknown day), then the meal. */
  function SlotRank(g: MealGroup): real
  {
    var d := DayIndex(g.key.day);
    var m := MealOrder(g.key.mealType);
    (3 * d + (if m.Some? then m.value else 0)) as real
  }

  /** sortedMeals: a copy of `perMeal` sorted by weekday, then meal. */
  function SortedMeals(perMeal: seq<MealGroup>): (r: seq<MealGroup>)
    ensures multiset(r) == multiset(perMeal)
    ensures forall i, j :: 0 <= i < j < |r| ==> SlotRank(r[i]) <= SlotRank(r[j])
  {
    SortBy(perMeal, SlotRank)
  }

  /** The one-number rank orders by weekday, and within a weekday by meal
      whenever both meal types are known. */
  lemma RankOrdersSlots(a: MealGroup, b: MealGroup)
    requires SlotRank(a) <= SlotRank(b)
    ensures DayIndex(a.key.day) <= DayIndex(b.key.day)
    ensures DayIndex(a.key.day) == DayIndex(b.key.day) && MealOrder(a.key.mealType).Some? && MealOrder(b.key.mealType).Some?
      ==> MealOrder(a.key.mealType).value <= MealOrder(b.key.mealType).value
  {
    var ma := MealOrder(a.key.mealType);
    var mb := MealOrder(b.key.mealType);
    assert (3 * DayIndex(a.key.day) + (if ma.Some? then ma.value else 0)) as real
      <= (3 * DayIndex(b.key.day) + (if mb.Some? then mb.value else 0)) as real;
  }

  /** The page's table runs Monday to Sunday, and Breakfast, Lunch, Dinner
      within a day; it lists every group once. */
  lemma SortedMealsByDayThenMeal(perMeal: seq<MealGroup>)
    ensures var r := SortedMeals(perMeal);
      forall i, j :: 0 <= i < j < |r| ==>
        DayIndex(r[i].key.day) <= DayIndex(r[j].key.day)
        && (DayIndex(r[i].key.day) == DayIndex(r[j].key.day)
            && MealOrder(r[i].key.mealType).Some? && MealOrder(r[j].key.mealType).Some?
            ==> MealOrder(r[i].key.mealType).value <= MealOrder(r[j].key.mealType).value)
    ensures forall g :: g in SortedMeals(perMeal) <==> g in perMeal
  {
    var r := SortedMeals(perMeal);
    forall i, j | 0 <= i < j < |r|
      ensures DayIndex(r[i].key.day) <= DayIndex(r[j].key.day)
      ensures DayIndex(r[i].key.day) == DayIndex(r[j].key.day)
            && MealOrder(r[i].key.mealType).Some? && MealOrder(r[j].key.mealType).Some?
            ==> MealOrder(r[i].key.mealType).value <= MealOrder(r[j].key.mealType).value
    {
      RankOrdersSlots(r[i], r[j]);
    }
    SortByMembers(perMeal, SlotRank);
  }

  // ---------------------------------------------------------------------------
  // bestMeals and worstMeals
  // ---------------------------------------------------------------------------

  const SHOWN := 3

  predicate IsGood(g: MealGroup) { g.avgRating >= 4.0 }

  predicate IsPoor(g: MealGroup) { g.avgRating <= 3.0 }

  function Ascending(g: MealGroup): real { g.avgRating }

  function Descending(g: MealGroup): real { -g.avgRating }

  /** bestMeals: the groups rated 4 or more, highest first, at most three,
      each at most as often as it occurs, and all of them when there are at
      most three. */
  function BestMeals(perMeal: seq<MealGroup>): (r: seq<MealGroup>)
    ensures |r| <= SHOWN
    ensures forall g :: g in r ==> g in perMeal && g.avgRating >= 4.0
    ensures forall i, j :: 0 <= i < j < |r| ==> r[i].avgRating >= r[j].avgRating
    ensures multiset(r) <= multiset(Filter(perMeal, IsGood)) <= multiset(perMeal)
    ensures |Filter(perMeal, IsGood)| <= SHOWN ==> multiset(r) == multiset(Filter(perMeal, IsGood))
  {
    var good := Filter(perMeal, IsGood);
    var sorted := SortBy(good, Descending);
    SortByMembers(good, Descending);
    LimitElements(sorted, SHOWN);
    LimitSorted(sorted, SHOWN, Descending);
    LimitMultiset(good, sorted, SHOWN);
    FilterSubMultiset(perMeal, IsGood);
    Limit(sorted, SHOWN)
  }

  /** worstMeals: the groups rated 3 or less, lowest first, at most three,
      each at most as often as it occurs, and all of them when there are at
      most three. */
  function WorstMeals(perMeal: seq<MealGroup>): (r: seq<MealGroup>)
    ensures |r| <= SHOWN
    ensures forall g :: g in r ==> g in perMeal && g.avgRating <= 3.0
    ensures forall i, j :: 0 <= i < j < |r| ==> r[i].avgRating <= r[j].avgRating
    ensures multiset(r) <= multiset(Filter(perMeal, IsPoor)) <= multiset(perMeal)
    ensures |Filter(perMeal, IsPoor)| <= SHOWN ==> multiset(r) == multiset(Filter(perMeal, IsPoor))
  {
    var poor := Filter(perMeal, IsPoor);
    var sorted := SortBy(poor, Ascending);
    SortByMembers(poor, Ascending);
    LimitElements(sorted, SHOWN);
    LimitSorted(sorted, SHOWN, Ascending);
    LimitMultiset(poor, sorted, SHOWN);
    FilterSubMultiset(perMeal, IsPoor);
    Limit(sorted, SHOWN)
  }

  /** A good meal left out of bestMeals is rated no higher than any meal in
      it, and the list is full: the list holds the best rated ones. */
  lemma BestMealsAreTheBest(perMeal: seq<MealGroup>, g: MealGroup)
    requires g in perMeal && g.avgRating >= 4.0 && g !in BestMeals(perMeal)
    ensures |BestMeals(perMeal)| == SHOWN
    ensures forall b :: b in BestMeals(perMeal) ==> g.avgRating <= b.avgRating
  {
    var good := Filter(perMeal, IsGood);
    var sorted := SortBy(good, Descending);
    SortByMembers(good, Descending);
    assert g in sorted;
    var j :| 0 <= j < |sorted| && sorted[j] == g;
    assert j >= SHOWN;
    forall b | b in BestMeals(perMeal)
      ensures g.avgRating <= b.avgRating
    {
      var i :| 0 <= i < |Limit(sorted, SHOWN)| && Limit(sorted, SHOWN)[i] == b;
      assert Descending(sorted[i]) <= Descending(sorted[j]);
    }
  }

  /** A poor meal left out of worstMeals is rated no lower than any meal in
      it, and the list is full. */
  lemma WorstMealsAreTheWorst(perMeal: seq<MealGroup>, g: MealGroup)
    requires g in perMeal && g.avgRating <= 3.0 && g !in WorstMeals(perMeal)
    ensures |WorstMeals(perMeal)| == SHOWN
    ensures forall b :: b in WorstMeals(perMeal) ==> b.avgRating <= g.avgRating
  {
    var poor := Filter(perMeal, IsPoor);
    var sorted := SortBy(poor, Ascending);
    SortByMembers(poor, Ascending);
    assert g in sorted;
    var j :| 0 <= j < |sorted| && sorted[j] == g;
    assert j >= SHOWN;
    forall b | b in WorstMeals(perMeal)
      ensures b.avgRating <= g.avgRating
    {
      var i :| 0 <= i < |Limit(sorted, SHOWN)| && Limit(sorted, SHOWN)[i] == b;
      assert Ascending(sorted[i]) <= Ascending(sorted[j]);
    }
  }

  /** A meal rated strictly between 3 and 4 is in neither list, and no meal
      is in both. */
  lemma MiddleMealsInNeither(perMeal: seq<MealGroup>, g: MealGroup)
    ensures 3.0 < g.avgRating < 4.0 ==> g !in BestMeals(perMeal) && g !in WorstMeals(perMeal)
    ensures !(g in BestMeals(perMeal) && g in WorstMeals(perMeal))
  {
  }

  // ---------------------------------------------------------------------------
  // The status label
  // ---------------------------------------------------------------------------

  /** The badge of a meal's row. */
  function StatusLabel(avg: real): (s: string)
    ensures s == "Popular" <==> avg >= 4.0
    ensures s == "Average" <==> 3.0 <= avg < 4.0
    ensures s == "Below Average" <==> avg < 3.0
  {
    if avg >= 4.0 then "Popular" else if avg >= 3.0 then "Average" else "Below Average"
  }

  /** Every meal in bestMeals is labelled Popular, and none in worstMeals
      is. */
  lemma ListsAgreeWithLabels(perMeal: seq<MealGroup>)
    ensures forall g :: g in BestMeals(perMeal) ==> StatusLabel(g.avgRating) == "Popular"
    ensures forall g :: g in WorstMeals(perMeal) ==> StatusLabel(g.avgRating) != "Popular"
  {
  }
}
