/** The list of components/app/week-list-view.tsx: a sorted copy of the plan's meals and the
    label of each meal type. */
module WeekListView {
  import opened Wrappers
  import Sorting
  import opened WeekMeals

  /** The `order` table: the rank of the three known meal types. */
  function TypeOrder(mealType: string): Option<int> {
    if mealType == "breakfast" then Some(0)
    else if mealType == "lunch" then Some(1)
    else if mealType == "dinner" then Some(2)
    else None
  }

  /** `order[type] || 1`: the 0 of breakfast is falsy like a missing entry, so everything but
      dinner ranks 1. */
  function Rank(mealType: string): (r: int)
    ensures r == (if mealType == "dinner" then 2 else 1)
  {
    var o := TypeOrder(mealType);
    if o.None? || o.value == 0 then 1 else o.value
  }

  /** The comparator returns at most 0: earlier timestamp first, the rank only between equal
      timestamps. */
  predicate MealLeq(a: ShownMeal, b: ShownMeal) {
    if a.date != b.date then a.date - b.date < 0 else Rank(a.mealType) - Rank(b.mealType) <= 0
  }

  lemma MealLeqTotalPreorder()
    ensures Sorting.TotalPreorder(MealLeq)
  {
  }

  /** sortedMeals: a sorted copy of the meals, by timestamp and then by rank. */
  function SortedMeals(meals: seq<ShownMeal>): (r: seq<ShownMeal>)
    ensures multiset(r) == multiset(meals)
    ensures forall i, j :: 0 <= i < j < |r| ==> r[i].date <= r[j].date
    ensures forall i, j :: 0 <= i < j < |r| && r[i].date == r[j].date ==> Rank(r[i].mealType) <= Rank(r[j].mealType)
  {
    MealLeqTotalPreorder();
    Sorting.SortBySorted(meals, MealLeq);
    Sorting.SortBy(meals, MealLeq)
  }

  /** getMealTypeLabel: the French label of a known type, any other type unchanged. */
  function MealTypeLabel(mealType: string): (r: string)
    ensures TypeOrder(mealType).None? ==> r == mealType
    ensures TypeOrder(mealType).Some? ==> r in {"🍳 Petit-déjeuner", "🍽️ Déjeuner", "🌙 Dîner"}
  {
    match mealType
    case "breakfast" => "🍳 Petit-déjeuner"
    case "lunch" => "🍽️ Déjeuner"
    case "dinner" => "🌙 Dîner"
    case _ => mealType
  }

  /** The three known types have three different labels. */
  lemma LabelsDistinct()
    ensures MealTypeLabel("breakfast") != MealTypeLabel("lunch")
    ensures MealTypeLabel("lunch") != MealTypeLabel("dinner")
    ensures MealTypeLabel("breakfast") != MealTypeLabel("dinner")
  {
  }
}
