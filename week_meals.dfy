/** The meal cards the week views display (components/week/meal-slot.tsx): a meal row of a plan
    as the views receive it, and the test a card uses for a slot that has no row yet. */
module WeekMeals {
  import opened Wrappers
  import Text

  /** A meal of a plan: its id, its date (ms since the epoch), its type and its recipe name. */
  datatype ShownMeal = ShownMeal(id: string, date: int, mealType: string, recipe: Option<string>)

  /** A slot with no meal row yet: its id starts with "lunch-" or "dinner-". */
  predicate IsVirtualSlot(id: string)
    ensures IsVirtualSlot(id) <==> (|id| >= 6 && id[..6] == "lunch-") || (|id| >= 7 && id[..7] == "dinner-")
  {
    Text.StartsWith(id, "lunch-") || Text.StartsWith(id, "dinner-")
  }
}
