/** The per-day layout of components/week/week-view.tsx: meals grouped under the UTC ISO date of
    their timestamp, and the days in increasing order. */
module WeekView {
  import opened Wrappers
  import Sorting
  import opened Time
  import opened WeekMeals

  /** `new Date(meal.date).toISOString().split("T")[0]`. */
  function DayKey(meal: ShownMeal): string {
    IsoDateKey(meal.date)
  }

  /** What the view lays out: the groups by day key and the sorted day keys. */
  datatype Layout = Layout(mealsByDay: map<string, seq<ShownMeal>>, days: seq<string>)

  /** The view: nothing for a missing plan or a plan without meals, else the meals grouped by
      day key and the sorted keys. */
  method Render(plan: Option<seq<ShownMeal>>) returns (r: Option<Layout>)
    ensures r.None? <==> plan.None? || plan.value == []
    ensures r.Some? ==> r.value.mealsByDay == Sorting.GroupBy(plan.value, DayKey)
    ensures r.Some? ==> r.value.days == Sorting.SortedKeys(plan.value, DayKey)
  {
    if plan.None? || plan.value == [] {
      return None;
    }
    var byDay, keys := Sorting.Group(plan.value, DayKey);
    r := Some(Layout(byDay, Sorting.SortBy(keys, Sorting.StrLeq)));
  }

  /** Every meal is in exactly one group, that of its own day key; each group keeps the input
      order; and the days are the group keys in strictly increasing order. */
  lemma LayoutShape(meals: seq<ShownMeal>, m: ShownMeal)
    requires m in meals
    ensures var g := Sorting.GroupBy(meals, DayKey);
      DayKey(m) in g && m in g[DayKey(m)] && (forall k :: k in g && k != DayKey(m) ==> m !in g[k]) &&
      forall k :: k in g ==> g[k] == Sorting.FilterKey(meals, DayKey, k)
    ensures var days := Sorting.SortedKeys(meals, DayKey);
      (forall k :: k in days <==> k in Sorting.GroupBy(meals, DayKey)) &&
      forall i, j :: 0 <= i < j < |days| ==> Sorting.StrLeq(days[i], days[j]) && !Sorting.StrLeq(days[j], days[i])
  {
    LayoutGroups(meals, m);
    LayoutDays(meals);
  }

  lemma LayoutGroups(meals: seq<ShownMeal>, m: ShownMeal)
    requires m in meals
    ensures var g := Sorting.GroupBy(meals, DayKey);
      DayKey(m) in g && m in g[DayKey(m)] && (forall k :: k in g && k != DayKey(m) ==> m !in g[k]) &&
      forall k :: k in g ==> g[k] == Sorting.FilterKey(meals, DayKey, k)
  {
    var g := Sorting.GroupBy(meals, DayKey);
    forall k ensures k in g <==> exists x :: x in meals && DayKey(x) == k
      ensures k in g ==> g[k] == Sorting.FilterKey(meals, DayKey, k)
    {
      Sorting.GroupByFilters(meals, DayKey, k);
    }
  }

  lemma LayoutDays(meals: seq<ShownMeal>)
    ensures var days := Sorting.SortedKeys(meals, DayKey);
      (forall k :: k in days <==> k in Sorting.GroupBy(meals, DayKey)) &&
      forall i, j :: 0 <= i < j < |days| ==> Sorting.StrLeq(days[i], days[j]) && !Sorting.StrLeq(days[j], days[i])
  {
    var g := Sorting.GroupBy(meals, DayKey);
    forall k ensures k in g <==> exists x :: x in meals && DayKey(x) == k {
      Sorting.GroupByFilters(meals, DayKey, k);
    }
    Sorting.SortedKeysIncreasing(meals, DayKey);
  }

  /** Two meals share a group exactly when they fall on the same UTC day (years 0000 to 9999,
      where the ISO date is four digits). */
  lemma SameGroupSameDay(a: ShownMeal, b: ShownMeal)
    requires 0 <= CivilFromDays(Day(a.date)).0 <= 9999 && 0 <= CivilFromDays(Day(b.date)).0 <= 9999
    ensures DayKey(a) == DayKey(b) <==> Day(a.date) == Day(b.date)
  {
    IsoDateKeyIsDay(a.date);
    IsoDateKeyIsDay(b.date);
    if Day(a.date) != Day(b.date) {
      IsoDayInjective(Day(a.date), Day(b.date));
    }
  }
}
