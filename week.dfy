/** The weekday and meal enumerations shared by the Menu, Feedback and
    MealRating schemas and by the pages that lay a week out
    (`['Monday', …, 'Sunday']` and `['Breakfast', 'Lunch', 'Dinner']`). */
module Week {
  import opened Base

  datatype Day = Monday | Tuesday | Wednesday | Thursday | Friday | Saturday | Sunday

  datatype Meal = Breakfast | Lunch | Dinner

  function DayName(d: Day): string
  {
    match d
    case Monday => "Monday"
    case Tuesday => "Tuesday"
    case Wednesday => "Wednesday"
    case Thursday => "Thursday"
    case Friday => "Friday"
    case Saturday => "Saturday"
    case Sunday => "Sunday"
  }

  function MealName(m: Meal): string
  {
    match m
    case Breakfast => "Breakfast"
    case Lunch => "Lunch"
    case Dinner => "Dinner"
  }

  /** The `DAYS` / `dayOrder` constant of the pages, Monday first. */
  const DAYS: seq<Day> := [Monday, Tuesday, Wednesday, Thursday, Friday, Saturday, Sunday]

  /** The `MEALS` / `meals` constant of the pages. */
  const MEALS: seq<Meal> := [Breakfast, Lunch, Dinner]

  /** The schema's enum check for a day sent as a string. */
  function ParseDay(s: string): (r: Option<Day>)
    ensures r.Some? ==> DayName(r.value) == s
    ensures forall d :: DayName(d) == s ==> r == Some(d)
  {
    if s == "Monday" then Some(Monday)
    else if s == "Tuesday" then Some(Tuesday)
    else if s == "Wednesday" then Some(Wednesday)
    else if s == "Thursday" then Some(Thursday)
    else if s == "Friday" then Some(Friday)
    else if s == "Saturday" then Some(Saturday)
    else if s == "Sunday" then Some(Sunday)
    else None
  }

  /** The schema's enum check for a meal type sent as a string. */
  function ParseMeal(s: string): (r: Option<Meal>)
    ensures r.Some? ==> MealName(r.value) == s
    ensures forall m :: MealName(m) == s ==> r == Some(m)
  {
    if s == "Breakfast" then Some(Breakfast)
    else if s == "Lunch" then Some(Lunch)
    else if s == "Dinner" then Some(Dinner)
    else None
  }

  /** `DAYS.indexOf(name)`: the weekday position 0..6, or -1 for any other string. */
  function DayIndex(name: string): (i: int)
    ensures -1 <= i < 7
    ensures i >= 0 ==> DayName(DAYS[i]) == name
    ensures i == -1 <==> ParseDay(name).None?
  {
    match ParseDay(name)
    case None => -1
    case Some(d) =>
      match d
      case Monday => 0
      case Tuesday => 1
      case Wednesday => 2
      case Thursday => 3
      case Friday => 4
      case Saturday => 5
      case Sunday => 6
  }

  /** The position of a meal in `MEALS` (the `mealOrders` table of the ratings page). */
  function MealIndex(m: Meal): (i: nat)
    ensures i < 3 && MEALS[i] == m
  {
    match m
    case Breakfast => 0
    case Lunch => 1
    case Dinner => 2
  }

  lemma DayNameInjective(a: Day, b: Day)
    ensures DayName(a) == DayName(b) ==> a == b
  {
  }
}
