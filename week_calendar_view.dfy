/** The seven-day grid of components/app/week-calendar-view.tsx: one card per day from the week
    start, each showing the plan's lunch and dinner of that day or an empty placeholder slot.
    Local time is UTC in this model. */
module WeekCalendarView {
  import opened Wrappers
  import Text
  import opened Time
  import opened WeekMeals

  /** The seven days of the grid: the week start and the six following days, same time of day. */
  method WeekDays(weekStart: int) returns (days: seq<int>)
    ensures |days| == 7
    ensures forall i :: 0 <= i < 7 ==> Day(days[i]) == Day(weekStart) + i && TimeInDay(days[i]) == TimeInDay(weekStart)
  {
    days := [];
    for i := 0 to 7
      invariant |days| == i
      invariant forall j :: 0 <= j < i ==> Day(days[j]) == Day(weekStart) + j && TimeInDay(days[j]) == TimeInDay(weekStart)
    {
      DayOfShift(weekStart, i);
      days := days + [weekStart + i * MsPerDay];
    }
  }

  /** Same getDate(), getMonth() and getFullYear(). */
  predicate SameCalendarDate(a: int, b: int) {
    CivilFromDays(Day(a)) == CivilFromDays(Day(b))
  }

  /** Comparing day, month and year is comparing days. */
  lemma SameCalendarDateIsSameDay(a: int, b: int)
    ensures SameCalendarDate(a, b) <==> Day(a) == Day(b)
  {
    CivilRoundTrip(Day(a));
    CivilRoundTrip(Day(b));
  }

  predicate InSlot(meal: ShownMeal, date: int, mealType: string) {
    SameCalendarDate(meal.date, date) && meal.mealType == mealType
  }

  /** Array.prototype.find: the position of the first element satisfying p, if any. */
  function FindFirst<T>(xs: seq<T>, p: T -> bool): (r: Option<nat>)
    ensures r.Some? ==>
      r.value < |xs| && p(xs[r.value]) && forall j :: 0 <= j < r.value ==> !p(xs[j])
    ensures r.None? ==> forall j :: 0 <= j < |xs| ==> !p(xs[j])
  {
    if xs == [] then None
    else if p(xs[0]) then Some(0)
    else
      match FindFirst(xs[1..], p)
      case None => None
      case Some(i) => Some(i + 1)
  }

  /** getMealForSlot: the position of the first meal of the given date and type, if any. */
  function FindMeal(meals: seq<ShownMeal>, date: int, mealType: string): Option<nat> {
    FindFirst(meals, meal => InSlot(meal, date, mealType))
  }

  /** The placeholder of an empty slot: its id is the meal type, "-" and the ISO instant. */
  function VirtualSlot(day: int, mealType: string): ShownMeal {
    ShownMeal(mealType + "-" + IsoString(day), day, mealType, None)
  }

  /** The meal a slot shows: the plan's first meal of that day and type, else the placeholder.
      Either way it has the slot's type and day. */
  function SlotMeal(meals: seq<ShownMeal>, day: int, mealType: string): (r: ShownMeal)
    ensures r.mealType == mealType && Day(r.date) == Day(day)
    ensures (exists j :: 0 <= j < |meals| && InSlot(meals[j], day, mealType)) ==>
      exists j :: 0 <= j < |meals| && r == meals[j] && forall i :: 0 <= i < j ==> !InSlot(meals[i], day, mealType)
    ensures (forall j :: 0 <= j < |meals| ==> !InSlot(meals[j], day, mealType)) ==>
      r.recipe.None? && r.date == day
  {
    match FindMeal(meals, day, mealType)
    case Some(j) =>
      SameCalendarDateIsSameDay(meals[j].date, day);
      meals[j]
    case None => VirtualSlot(day, mealType)
  }

  /** The placeholders of the lunch and dinner slots are exactly what a meal card treats as a
      slot without a row. */
  lemma VirtualSlotsRecognised(day: int)
    ensures IsVirtualSlot(VirtualSlot(day, "lunch").id)
    ensures IsVirtualSlot(VirtualSlot(day, "dinner").id)
  {
    var iso := IsoString(day);
    assert ("lunch" + "-" + iso)[..6] == "lunch-";
    assert ("dinner" + "-" + iso)[..7] == "dinner-";
  }

  /** One card of the grid. */
  datatype DayCard = DayCard(date: int, lunch: ShownMeal, dinner: ShownMeal)

  /** The grid: for each day its lunch slot then its dinner slot; a breakfast row is never shown. */
  function Cards(meals: seq<ShownMeal>, days: seq<int>): (r: seq<DayCard>)
    ensures |r| == |days|
    ensures forall i :: 0 <= i < |r| ==>
      r[i].date == days[i] &&
      r[i].lunch.mealType == "lunch" && Day(r[i].lunch.date) == Day(days[i]) &&
      r[i].dinner.mealType == "dinner" && Day(r[i].dinner.date) == Day(days[i])
  {
    seq(|days|, i requires 0 <= i < |days| => DayCard(days[i], SlotMeal(meals, days[i], "lunch"), SlotMeal(meals, days[i], "dinner")))
  }
}
