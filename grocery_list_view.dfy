/** The grocery list of components/groceries/grocery-list-view.tsx: ingredient rows are merged by
    ingredient id (no recipe tracking), sorted by aisle then name, and rendered by aisle with
    each item's notes. The rendering of a quantity (Number.prototype.toString) is a parameter. */
module GroceryListView {
  import opened Wrappers
  import Text
  import Sorting
  import opened Groceries

  function IdKey(row: Row): string {
    row.line.ingredient.id
  }

  /** Merging by id gives exactly one item per ingredient id of the rows. */
  lemma OneItemPerIngredient(rows: seq<Row>)
    ensures var a := AggregateRows(rows, IdKey, false);
      var items := Values(a.order, a.items);
      (forall i, j :: 0 <= i < j < |items| ==> items[i].ingredientId != items[j].ingredientId) &&
      forall id :: (exists i :: 0 <= i < |items| && items[i].ingredientId == id) <==> HasKey(rows, IdKey, id)
  {
    var a := AggregateRows(rows, IdKey, false);
    var items := Values(a.order, a.items);
    forall i | 0 <= i < |items| ensures items[i].ingredientId == a.order[i] {
      AggregateFirstRowFixes(rows, IdKey, false, a.order[i]);
    }
    forall id ensures (exists i :: 0 <= i < |items| && items[i].ingredientId == id) <==> HasKey(rows, IdKey, id) {
      AggregateKeys(rows, IdKey, false, id);
      if id in a.items {
        var i :| 0 <= i < |a.order| && a.order[i] == id;
        assert items[i].ingredientId == id;
      }
    }
  }

  /** The initial state of the list: no plan gives no items; otherwise the merged items, sorted
      by aisle then name. */
  method InitialItems(plan: Option<seq<PlanMeal>>) returns (items: seq<GroceryItem>)
    ensures plan.None? ==> items == []
    ensures plan.Some? ==>
      var a := AggregateRows(Rows(plan.value), IdKey, false);
      multiset(items) == multiset(Values(a.order, a.items)) && Sorting.SortedBy(items, AisleThenName)
  {
    if plan.None? {
      return [];
    }
    var a := AggregateMeals(plan.value, IdKey, false);
    items := SortItems(Values(a.order, a.items));
  }

  /** The notes of an item in parentheses, separated by ", ", or nothing when it has none. */
  function NotesSuffix(notes: seq<string>): (r: string)
    ensures notes == [] <==> r == ""
    ensures notes != [] ==> |r| >= 3 && r[..2] == " (" && r[|r| - 1] == ')'
  {
    if |notes| > 0 then " (" + Text.Join(notes, ", ") + ")" else ""
  }

  /** One line of the list: check mark, quantity, unit, name and notes. */
  function ItemLine(item: GroceryItem, quantity: real -> string): string {
    CheckMark(item) + " " + quantity(item.totalQuantity) + " " + item.unit + " " + item.name
      + NotesSuffix(item.notes) + "\n"
  }

  /** generateListText: the items grouped by aisle, in aisle order. */
  method GenerateListText(items: seq<GroceryItem>, quantity: real -> string) returns (text: string)
    ensures text == ListText(items, item => ItemLine(item, quantity))
  {
    text := RenderList(items, item => ItemLine(item, quantity));
  }
}
