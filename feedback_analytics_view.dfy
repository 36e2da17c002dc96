/** The feedback analytics page: a chart of the average rating of each
    meal on each weekday, the query string of the feedback list's filter,
    and the top rated panel. */
module FeedbackAnalyticsView {
  import opened Base
  import opened Week
  import opened Sorting
  import opened Feedback

  // ---------------------------------------------------------------------------
  // chartData
  // ---------------------------------------------------------------------------

  /** One chart row: the day's first three letters and one value per meal. */
  datatype ChartRow = ChartRow(day: string, meals: map<Meal, real>)

  /** The labels of the chart's rows, Monday first. */
  const SHORT_DAYS: seq<string> := ["Mon", "Tue", "Wed", "Thu", "Fri", "Sat", "Sun"]

  /** `p._id.day === day && p._id.mealType === meal`. */
  function InSlot(day: Day, meal: Meal): MealGroup -> bool
  {
    (g: MealGroup) => g.key == MealKey(DayName(day), MealName(meal))
  }

  /** The chart's value for one day and meal: the average of the first
      `perMeal` entry for that slot, or 0 when there is none. */
  function CellValue(perMeal: seq<MealGroup>, day: Day, meal: Meal): real
  {
    var i := FirstWhere(perMeal, InSlot(day, meal));
    if i >= 0 then perMeal[i].avgRating else 0.0
  }

  /** The first three letters of a weekday's name (`day.slice(0, 3)`). */
  function ShortName(day: Day): (s: string)
  {
    DayName(day)[..3]
  }

  /** The row of one weekday: its short name and, for each meal, that
      slot's value. */
  function RowOf(perMeal: seq<MealGroup>, day: Day): (row: ChartRow)
    ensures row.day == ShortName(day)
    ensures row.meals.Keys == {Breakfast, Lunch, Dinner}
    ensures forall m :: m in row.meals ==> row.meals[m] == CellValue(perMeal, day, m)
  {
    ChartRow(ShortName(day), map m | m in {Breakfast, Lunch, Dinner} :: CellValue(perMeal, day, m))
  }

  /** The inner `MEALS.forEach`: fills the day's dictionary meal by meal. */
  method BuildRow(perMeal: seq<MealGroup>, day: Day) returns (row: ChartRow)
    ensures row == RowOf(perMeal, day)
  {
    var meals: map<Meal, real> := map[];
    var k := 0;
    while k < |MEALS|
      invariant 0 <= k <= |MEALS|
      invariant forall m :: m in meals <==> MealIndex(m) < k
      invariant forall m :: m in meals ==> meals[m] == CellValue(perMeal, day, m)
    {
      var meal := MEALS[k];
      var i := FirstWhere(perMeal, InSlot(day, meal));
      meals := meals[meal := if i >= 0 then perMeal[i].avgRating else 0.0];
      k := k + 1;
    }
    row := ChartRow(ShortName(day), meals);
    FilledRow(perMeal, day, meals);
  }

  /** A dictionary with every meal, each holding its slot's value, makes
      the weekday's row. */
  lemma FilledRow(perMeal: seq<MealGroup>, day: Day, meals: map<Meal, real>)
    requires forall m :: m in meals <==> MealIndex(m) < 3
    requires forall m :: m in meals ==> meals[m] == CellValue(perMeal, day, m)
    ensures ChartRow(ShortName(day), meals) == RowOf(perMeal, day)
  {
    assert meals.Keys == {Breakfast, Lunch, Dinner};
  }

  /** chartData: one row per weekday, Monday to Sunday. */
  method ChartData(perMeal: seq<MealGroup>) returns (rows: seq<ChartRow>)
    ensures |rows| == |DAYS| == 7
    ensures forall i :: 0 <= i < 7 ==> rows[i] == RowOf(perMeal, DAYS[i])
  {
    rows := [];
    var d := 0;
    while d < |DAYS|
      invariant 0 <= d <= |DAYS| && |rows| == d
      invariant forall i :: 0 <= i < d ==> rows[i] == RowOf(perMeal, DAYS[i])
    {
      var row := BuildRow(perMeal, DAYS[d]);
      forall i | 0 <= i < d + 1
        ensures (rows + [row])[i] == RowOf(perMeal, DAYS[i])
      {
        if i < d {
          assert (rows + [row])[i] == rows[i];
        }
      }
      rows := rows + [row];
      d := d + 1;
    }
  }

  /** The chart's rows are labelled Mon to Sun, in that order. */
  lemma ChartLabels(perMeal: seq<MealGroup>)
    ensures forall i :: 0 <= i < 7 ==> RowOf(perMeal, DAYS[i]).day == SHORT_DAYS[i]
  {
    assert ShortName(Monday) == "Mon" && ShortName(Tuesday) == "Tue" && ShortName(Wednesday) == "Wed";
    assert ShortName(Thursday) == "Thu" && ShortName(Friday) == "Fri";
    assert ShortName(Saturday) == "Sat" && ShortName(Sunday) == "Sun";
  }

  /** A slot with an entry in the analytics' `perMeal` has feedback, and its
      cell is that feedback's group average. */
  lemma CellFromEntry(docs: seq<FeedbackDoc>, day: Day, meal: Meal, perMeal: seq<MealGroup>)
    requires perMeal == PerMeal(docs) && FirstWhere(perMeal, InSlot(day, meal)) >= 0
    ensures exists i :: 0 <= i < |docs| && MealOf(docs[i]) == MealKey(DayName(day), MealName(meal))
    ensures CellValue(perMeal, day, meal) == GroupOf(docs, MealKey(DayName(day), MealName(meal))).avgRating
  {
    var j := FirstWhere(perMeal, InSlot(day, meal));
    assert perMeal[j] in perMeal;
    PerMealEntries(docs, perMeal[j]);
  }

  /** A slot with feedback has an entry in the analytics' `perMeal`. */
  lemma EntryForFeedback(docs: seq<FeedbackDoc>, day: Day, meal: Meal, perMeal: seq<MealGroup>, i: nat)
    requires perMeal == PerMeal(docs)
    requires i < |docs| && MealOf(docs[i]) == MealKey(DayName(day), MealName(meal))
    ensures FirstWhere(perMeal, InSlot(day, meal)) >= 0
  {
    PerMealCoversKeys(docs, i);
    EntryForKey(perMeal, day, meal);
  }

  /** A list with a group for the slot has an entry for it. */
  lemma EntryForKey(perMeal: seq<MealGroup>, day: Day, meal: Meal)
    requires exists g :: g in perMeal && g.key == MealKey(DayName(day), MealName(meal))
    ensures FirstWhere(perMeal, InSlot(day, meal)) >= 0
  {
    var g :| g in perMeal && g.key == MealKey(DayName(day), MealName(meal));
    var n :| 0 <= n < |perMeal| && perMeal[n] == g;
    assert InSlot(day, meal)(perMeal[n]);
  }

  /** A cell of the chart of the analytics' `perMeal` is the mean rating of
      the feedback for that slot, and 0 when the slot has none. */
  lemma CellIsSlotAverage(docs: seq<FeedbackDoc>, day: Day, meal: Meal, k: MealKey)
    requires k == MealKey(DayName(day), MealName(meal))
    ensures Count(docs, InMeal(k)) > 0 ==>
      CellValue(PerMeal(docs), day, meal) == Sum(Filter(docs, InMeal(k)), RatingOf) / (Count(docs, InMeal(k)) as real)
    ensures Count(docs, InMeal(k)) == 0 ==> CellValue(PerMeal(docs), day, meal) == 0.0
  {
    var perMeal := PerMeal(docs);
    if Count(docs, InMeal(k)) > 0 {
      var i :| 0 <= i < |docs| && InMeal(k)(docs[i]);
      EntryForFeedback(docs, day, meal, perMeal, i);
      CellFromEntry(docs, day, meal, perMeal);
    } else if FirstWhere(perMeal, InSlot(day, meal)) >= 0 {
      CellFromEntry(docs, day, meal, perMeal);
      assert false;
    }
  }

  /** Before any feedback exists every cell is 0. */
  lemma EmptyChart(day: Day, meal: Meal)
    ensures CellValue([], day, meal) == 0.0
  {
  }

  // ---------------------------------------------------------------------------
  // The feedback list's query string
  // ---------------------------------------------------------------------------

  /** The filter's `URLSearchParams`: `day`, then `mealType`, each appended
      only when it is not empty. */
  method BuildParams(day: string, mealType: string) returns (params: seq<(string, string)>)
    ensures |params| <= 2
    ensures forall p :: p in params ==> p.1 != ""
    ensures Param(params, "day") == day && Param(params, "mealType") == mealType
    ensures |params| == (if day != "" then 1 else 0) + (if mealType != "" then 1 else 0)
  {
    params := [];
    if day != "" {
      params := params + [("day", day)];
    }
    if mealType != "" {
      params := params + [("mealType", mealType)];
    }
  }

  /** `req.query[name]` on the server: the first value under that name, and
      an absent parameter reads as empty. */
  function Param(params: seq<(string, string)>, name: string): string
  {
    if params == [] then ""
    else if params[0].0 == name then params[0].1
    else Param(params[1..], name)
  }

  // ---------------------------------------------------------------------------
  // The top rated panel
  // ---------------------------------------------------------------------------

  const TOP_SHOWN := 5

  /** `perMeal.slice(0, 5)`. */
  function TopRated(perMeal: seq<MealGroup>): (r: seq<MealGroup>)
    ensures |r| <= TOP_SHOWN && |r| <= |perMeal| && r == perMeal[..|r|]
    ensures |r| == TOP_SHOWN || r == perMeal
  {
    Limit(perMeal, TOP_SHOWN)
  }

  /** On the analytics' `perMeal`, which the server sorts by average, the
      panel shows the best rated meals: none left out is rated above one
      shown. */
  lemma TopRatedAreBest(docs: seq<FeedbackDoc>, i: nat, j: nat)
    requires i < |TopRated(PerMeal(docs))| <= j < |PerMeal(docs)|
    ensures TopRated(PerMeal(docs))[i].avgRating >= PerMeal(docs)[j].avgRating
  {
  }
}
