/** The grocery list both grocery views build from a meal plan
    (components/app/groceries-view.tsx and components/groceries/grocery-list-view.tsx): every
    ingredient row of every meal with a recipe is merged into one item per key in a Map, the
    items are sorted by aisle then name, an item's checked flag can be toggled, and the list is
    rendered as text grouped by aisle. The two views differ in the merge key, in whether an item
    keeps the names of its recipes, and in the text of one line; those are parameters here.
    Quantities are JavaScript numbers, modelled as reals. */
module Groceries {
  import opened Wrappers
  import Text
  import Sorting

  datatype IngredientInfo = IngredientInfo(id: string, name: string, category: string, aisle: Option<string>)

  /** One ingredient line of a recipe. */
  datatype RecipeIngredient = RecipeIngredient(quantity: real, unit: string, notes: Option<string>,
                                               ingredient: IngredientInfo)

  datatype Recipe = Recipe(name: string, ingredients: seq<RecipeIngredient>)

  datatype PlanMeal = PlanMeal(recipe: Option<Recipe>)

  /** An ingredient line together with the name of the recipe it belongs to. */
  datatype Row = Row(line: RecipeIngredient, recipeName: string)

  datatype GroceryItem = GroceryItem(
    ingredientId: string,
    name: string,
    category: string,
    aisle: Option<string>,
    totalQuantity: real,
    unit: string,
    notes: seq<string>,
    checked: bool,
    fromRecipes: seq<string>)

  /** The rows of one meal: none without a recipe. */
  function MealRows(m: PlanMeal): (r: seq<Row>)
    ensures m.recipe.None? ==> r == []
    ensures m.recipe.Some? ==> r == RecipeRows(m.recipe.value.ingredients, m.recipe.value.name)
  {
    if m.recipe.None? then [] else RecipeRows(m.recipe.value.ingredients, m.recipe.value.name)
  }

  function RecipeRows(lines: seq<RecipeIngredient>, recipeName: string): (r: seq<Row>)
    ensures |r| == |lines| && forall i :: 0 <= i < |lines| ==> r[i] == Row(lines[i], recipeName)
  {
    if lines == [] then [] else [Row(lines[0], recipeName)] + RecipeRows(lines[1..], recipeName)
  }

  /** The rows of all meals, in the order the two nested forEach visit them. */
  function Rows(meals: seq<PlanMeal>): seq<Row> {
    if meals == [] then [] else Rows(meals[..|meals| - 1]) + MealRows(meals[|meals| - 1])
  }

  predicate Distinct<T(==)>(s: seq<T>) {
    forall i, j :: 0 <= i < j < |s| ==> s[i] != s[j]
  }

  /** The Map under construction: its keys in insertion order and its entries. */
  datatype Aggregate = Aggregate(order: seq<string>, items: map<string, GroceryItem>)

  ghost predicate WellFormed(a: Aggregate) {
    Distinct(a.order) && forall k :: k in a.items <==> k in a.order
  }

  /** The item a key's first row creates. */
  function NewItem(row: Row, trackRecipes: bool): GroceryItem {
    GroceryItem(row.line.ingredient.id, row.line.ingredient.name, row.line.ingredient.category,
                row.line.ingredient.aisle, row.line.quantity, row.line.unit,
                if Text.Truthy(row.line.notes) then [row.line.notes.value] else [],
                false, if trackRecipes then [row.recipeName] else [])
  }

  /** A later row of the same key: its quantity is added whatever its unit, its note and its
      recipe name are appended when new. */
  function Merge(item: GroceryItem, row: Row, trackRecipes: bool): GroceryItem {
    item.(totalQuantity := item.totalQuantity + row.line.quantity,
          notes := if Text.Truthy(row.line.notes) && row.line.notes.value !in item.notes
                   then item.notes + [row.line.notes.value] else item.notes,
          fromRecipes := if trackRecipes && row.recipeName !in item.fromRecipes
                         then item.fromRecipes + [row.recipeName] else item.fromRecipes)
  }

  function Step(a: Aggregate, row: Row, key: Row -> string, trackRecipes: bool): Aggregate {
    var k := key(row);
    if k in a.items then Aggregate(a.order, a.items[k := Merge(a.items[k], row, trackRecipes)])
    else Aggregate(a.order + [k], a.items[k := NewItem(row, trackRecipes)])
  }

  /** The Map after all rows, built by one Step per row in order. */
  function AggregateRows(rows: seq<Row>, key: Row -> string, trackRecipes: bool): (a: Aggregate)
    ensures WellFormed(a)
  {
    if rows == [] then Aggregate([], map[])
    else Step(AggregateRows(rows[..|rows| - 1], key, trackRecipes), rows[|rows| - 1], key, trackRecipes)
  }

  /** Two rows of one key make one item: the first row's unit, both quantities added, and the
      second recipe name appended when it differs. */
  lemma TwoRowsMerge(r0: Row, r1: Row, key: Row -> string, trackRecipes: bool)
    requires key(r0) == key(r1)
    ensures var a := AggregateRows([r0, r1], key, trackRecipes);
      a.order == [key(r0)] &&
      a.items[key(r0)].totalQuantity == r0.line.quantity + r1.line.quantity &&
      a.items[key(r0)].unit == r0.line.unit &&
      a.items[key(r0)].fromRecipes ==
        (if !trackRecipes then [] else if r1.recipeName == r0.recipeName then [r0.recipeName]
         else [r0.recipeName, r1.recipeName])
  {
    var k := key(r0);
    assert [r0, r1][..1] == [r0];
    assert [r0][..0] == [];
    assert AggregateRows([], key, trackRecipes) == Aggregate([], map[]);
    var a0 := AggregateRows([r0], key, trackRecipes);
    assert a0 == Step(Aggregate([], map[]), r0, key, trackRecipes);
    assert a0.order == [k] && a0.items[k] == NewItem(r0, trackRecipes);
    var a := AggregateRows([r0, r1], key, trackRecipes);
    assert a == Step(a0, r1, key, trackRecipes);
    assert a.items[k] == Merge(a0.items[k], r1, trackRecipes);
  }

  lemma AggregateSnoc(rows: seq<Row>, row: Row, key: Row -> string, trackRecipes: bool)
    ensures AggregateRows(rows + [row], key, trackRecipes) ==
            Step(AggregateRows(rows, key, trackRecipes), row, key, trackRecipes)
  {
    assert (rows + [row])[..|rows|] == rows;
  }

  /** Some row has key k. */
  ghost predicate HasKey(rows: seq<Row>, key: Row -> string, k: string) {
    exists i :: 0 <= i < |rows| && key(rows[i]) == k
  }

  lemma HasKeySnoc(rows: seq<Row>, key: Row -> string, k: string)
    requires rows != []
    ensures HasKey(rows, key, k) <==> HasKey(rows[..|rows| - 1], key, k) || key(rows[|rows| - 1]) == k
  {
    var init := rows[..|rows| - 1];
    if HasKey(rows, key, k) && key(rows[|rows| - 1]) != k {
      var i :| 0 <= i < |rows| && key(rows[i]) == k;
      assert key(init[i]) == k;
    }
    if HasKey(init, key, k) {
      var i :| 0 <= i < |init| && key(init[i]) == k;
      assert key(rows[i]) == k;
    }
  }

  /** Each key yields exactly one item: there is an entry for exactly the keys of the rows. */
  lemma {:induction false} AggregateKeys(rows: seq<Row>, key: Row -> string, trackRecipes: bool, k: string)
    ensures k in AggregateRows(rows, key, trackRecipes).items <==> HasKey(rows, key, k)
  {
    if rows != [] {
      AggregateKeys(rows[..|rows| - 1], key, trackRecipes, k);
      HasKeySnoc(rows, key, k);
    }
  }

  /** Array.from(map.values()): the entries in insertion order. */
  function Values(order: seq<string>, items: map<string, GroceryItem>): (r: seq<GroceryItem>)
    requires forall k :: k in order ==> k in items
    ensures |r| == |order| && forall i :: 0 <= i < |order| ==> r[i] == items[order[i]]
  {
    if order == [] then [] else Values(order[..|order| - 1], items) + [items[order[|order| - 1]]]
  }

  function SumQuantities(items: seq<GroceryItem>): real {
    if items == [] then 0.0 else SumQuantities(items[..|items| - 1]) + items[|items| - 1].totalQuantity
  }

  function RowsQuantity(rows: seq<Row>): real {
    if rows == [] then 0.0 else RowsQuantity(rows[..|rows| - 1]) + rows[|rows| - 1].line.quantity
  }

  lemma RowsSnoc(meals: seq<PlanMeal>, i: nat)
    requires i < |meals|
    ensures Rows(meals[..i + 1]) == Rows(meals[..i]) + MealRows(meals[i])
  {
    assert meals[..i + 1][..i] == meals[..i];
  }

  /** The nested forEach of the views' initial state: each row either adds to the item of its
      key in place or creates that item. */
  method AggregateMeals(meals: seq<PlanMeal>, key: Row -> string, trackRecipes: bool) returns (a: Aggregate)
    ensures a == AggregateRows(Rows(meals), key, trackRecipes)
  {
    a := Aggregate([], map[]);
    for i := 0 to |meals|
      invariant a == AggregateRows(Rows(meals[..i]), key, trackRecipes)
    {
      RowsSnoc(meals, i);
      a := AddMealRows(a, Rows(meals[..i]), meals[i], key, trackRecipes);
    }
    assert meals[..|meals|] == meals;
  }

  /** The inner forEach over one meal's ingredients. */
  method AddMealRows(a: Aggregate, ghost seen: seq<Row>, meal: PlanMeal, key: Row -> string, trackRecipes: bool)
    returns (b: Aggregate)
    requires a == AggregateRows(seen, key, trackRecipes)
    ensures b == AggregateRows(seen + MealRows(meal), key, trackRecipes)
  {
    b := a;
    ghost var rows := MealRows(meal);
    if meal.recipe.None? {
      assert seen + rows == seen;
      return;
    }
    var recipe := meal.recipe.value;
    assert seen + rows[..0] == seen;
    for j := 0 to |recipe.ingredients|
      invariant b == AggregateRows(seen + rows[..j], key, trackRecipes)
    {
      var row := Row(recipe.ingredients[j], recipe.name);
      AggregateExtend(seen, rows, j, key, trackRecipes);
      b := AddRow(b, row, key, trackRecipes);
    }
    assert rows[..|recipe.ingredients|] == rows;
  }

  lemma AggregateExtend(seen: seq<Row>, rows: seq<Row>, j: nat, key: Row -> string, trackRecipes: bool)
    requires j < |rows|
    ensures AggregateRows(seen + rows[..j + 1], key, trackRecipes) ==
            Step(AggregateRows(seen + rows[..j], key, trackRecipes), rows[j], key, trackRecipes)
  {
    assert (seen + rows[..j]) + [rows[j]] == seen + rows[..j + 1];
    AggregateSnoc(seen + rows[..j], rows[j], key, trackRecipes);
  }

  /** One ingredient row: the item of its key is updated in place (quantity added, note and
      recipe name pushed when new), or a new item is set. */
  method AddRow(a: Aggregate, row: Row, key: Row -> string, trackRecipes: bool) returns (b: Aggregate)
    ensures b == Step(a, row, key, trackRecipes)
  {
    var k := key(row);
    if k in a.items {
      var existing := a.items[k];
      existing := existing.(totalQuantity := existing.totalQuantity + row.line.quantity);
      if Text.Truthy(row.line.notes) && row.line.notes.value !in existing.notes {
        existing := existing.(notes := existing.notes + [row.line.notes.value]);
      }
      if trackRecipes && row.recipeName !in existing.fromRecipes {
        existing := existing.(fromRecipes := existing.fromRecipes + [row.recipeName]);
      }
      b := a.(items := a.items[k := existing]);
    } else {
      b := Aggregate(a.order + [k], a.items[k := NewItem(row, trackRecipes)]);
    }
  }

  // ---------------------------------------------------------------- what the aggregation keeps

  /** The total of the entries over some distinct keys after one entry changed. */
  lemma {:induction false} SumAfterUpdate(order: seq<string>, items: map<string, GroceryItem>, k: string,
                                          item: GroceryItem)
    requires forall x :: x in order ==> x in items
    requires Distinct(order)
    ensures SumQuantities(Values(order, items[k := item])) ==
            SumQuantities(Values(order, items)) +
            (if k in order then item.totalQuantity - items[k].totalQuantity else 0.0)
  {
    if order != [] {
      var init := order[..|order| - 1];
      SumAfterUpdate(init, items, k, item);
      assert k in init ==> order[|order| - 1] != k;
      assert k in order ==> k in init || order[|order| - 1] == k;
    }
  }

  lemma SumSnoc(items: seq<GroceryItem>, x: GroceryItem)
    ensures SumQuantities(items + [x]) == SumQuantities(items) + x.totalQuantity
  {
    assert (items + [x])[..|items|] == items;
  }

  lemma ValuesSnoc(order: seq<string>, k: string, items: map<string, GroceryItem>)
    requires forall x :: x in order ==> x in items
    requires k in items
    ensures Values(order + [k], items) == Values(order, items) + [items[k]]
  {
    assert (order + [k])[..|order|] == order;
  }

  /** One row adds its quantity to the total of the entries. */
  lemma StepTotal(a: Aggregate, row: Row, key: Row -> string, trackRecipes: bool)
    requires WellFormed(a)
    ensures var b := Step(a, row, key, trackRecipes);
      SumQuantities(Values(b.order, b.items)) == SumQuantities(Values(a.order, a.items)) + row.line.quantity
  {
    var k := key(row);
    if k in a.items {
      SumAfterUpdate(a.order, a.items, k, Merge(a.items[k], row, trackRecipes));
    } else {
      var item := NewItem(row, trackRecipes);
      SumAfterUpdate(a.order, a.items, k, item);
      ValuesSnoc(a.order, k, a.items[k := item]);
      SumSnoc(Values(a.order, a.items[k := item]), item);
    }
  }

  /** The total quantity is preserved: the items' quantities add up to the quantities of all
      the rows. */
  lemma {:induction false} AggregateKeepsTotal(rows: seq<Row>, key: Row -> string, trackRecipes: bool)
    ensures SumQuantities(Values(AggregateRows(rows, key, trackRecipes).order, AggregateRows(rows, key, trackRecipes).items))
            == RowsQuantity(rows)
  {
    if rows != [] {
      AggregateKeepsTotal(rows[..|rows| - 1], key, trackRecipes);
      StepTotal(AggregateRows(rows[..|rows| - 1], key, trackRecipes), rows[|rows| - 1], key, trackRecipes);
    }
  }

  /** The first row with key k among the rows. */
  ghost predicate FirstOf(rows: seq<Row>, key: Row -> string, k: string, i: int) {
    0 <= i < |rows| && key(rows[i]) == k && forall j :: 0 <= j < i ==> key(rows[j]) != k
  }

  /** The fields of an item that its first row sets once and for all. */
  predicate Fixes(item: GroceryItem, row: Row) {
    item.ingredientId == row.line.ingredient.id && item.name == row.line.ingredient.name &&
    item.category == row.line.ingredient.category && item.aisle == row.line.ingredient.aisle &&
    item.unit == row.line.unit && !item.checked
  }

  ghost predicate FixedByFirst(a: Aggregate, rows: seq<Row>, key: Row -> string, k: string) {
    k in a.items ==> exists i :: FirstOf(rows, key, k, i) && Fixes(a.items[k], rows[i])
  }

  lemma StepFirstRow(a: Aggregate, init: seq<Row>, row: Row, key: Row -> string, trackRecipes: bool, k: string)
    requires FixedByFirst(a, init, key, k)
    requires k !in a.items ==> !HasKey(init, key, k)
    ensures FixedByFirst(Step(a, row, key, trackRecipes), init + [row], key, k)
  {
    var rows := init + [row];
    if k in a.items {
      var i :| FirstOf(init, key, k, i) && Fixes(a.items[k], init[i]);
      assert rows[i] == init[i];
      assert FirstOf(rows, key, k, i);
    } else if key(row) == k {
      forall j | 0 <= j < |init| ensures key(rows[j]) != k {
        assert rows[j] == init[j];
      }
      assert FirstOf(rows, key, k, |init|);
    }
  }

  /** The first row seen fixes the item's id, name, category, aisle and unit, and no item starts
      checked. */
  lemma {:induction false} AggregateFirstRowFixes(rows: seq<Row>, key: Row -> string, trackRecipes: bool, k: string)
    ensures FixedByFirst(AggregateRows(rows, key, trackRecipes), rows, key, k)
  {
    if rows != [] {
      var init := rows[..|rows| - 1];
      AggregateFirstRowFixes(init, key, trackRecipes, k);
      AggregateKeys(init, key, trackRecipes, k);
      StepFirstRow(AggregateRows(init, key, trackRecipes), init, rows[|rows| - 1], key, trackRecipes, k);
      assert init + [rows[|rows| - 1]] == rows;
    }
  }

  /** Some row of key k carries the note n. */
  ghost predicate NoteOf(rows: seq<Row>, key: Row -> string, k: string, n: string) {
    exists i :: 0 <= i < |rows| && key(rows[i]) == k && rows[i].line.notes == Some(n) && n != ""
  }

  ghost predicate NotesCollected(a: Aggregate, rows: seq<Row>, key: Row -> string, k: string) {
    k in a.items ==>
      Distinct(a.items[k].notes) && forall n :: n in a.items[k].notes <==> NoteOf(rows, key, k, n)
  }

  lemma StepNotes(a: Aggregate, init: seq<Row>, row: Row, key: Row -> string, trackRecipes: bool, k: string)
    requires NotesCollected(a, init, key, k)
    requires k !in a.items ==> !HasKey(init, key, k)
    ensures NotesCollected(Step(a, row, key, trackRecipes), init + [row], key, k)
  {
    var rows := init + [row];
    var b := Step(a, row, key, trackRecipes);
    if k in b.items {
      forall n ensures n in b.items[k].notes <==> NoteOf(rows, key, k, n) {
        if NoteOf(rows, key, k, n) {
          var i :| 0 <= i < |rows| && key(rows[i]) == k && rows[i].line.notes == Some(n) && n != "";
          if i < |init| {
            assert init[i] == rows[i];
            assert NoteOf(init, key, k, n);
          }
        }
        if k in a.items && n in a.items[k].notes {
          var i :| 0 <= i < |init| && key(init[i]) == k && init[i].line.notes == Some(n) && n != "";
          assert rows[i] == init[i];
        }
        if key(row) == k && row.line.notes == Some(n) && n != "" {
          assert rows[|init|] == row;
        }
      }
    }
  }

  /** The notes of an item are the distinct notes of its rows, each once; rows without a note
      (or with an empty one) add none. */
  lemma {:induction false} AggregateNotes(rows: seq<Row>, key: Row -> string, trackRecipes: bool, k: string)
    ensures NotesCollected(AggregateRows(rows, key, trackRecipes), rows, key, k)
  {
    if rows != [] {
      var init := rows[..|rows| - 1];
      AggregateNotes(init, key, trackRecipes, k);
      AggregateKeys(init, key, trackRecipes, k);
      StepNotes(AggregateRows(init, key, trackRecipes), init, rows[|rows| - 1], key, trackRecipes, k);
      assert init + [rows[|rows| - 1]] == rows;
    }
  }

  /** Some row of key k belongs to the recipe named n. */
  ghost predicate RecipeOf(rows: seq<Row>, key: Row -> string, k: string, n: string) {
    exists i :: 0 <= i < |rows| && key(rows[i]) == k && rows[i].recipeName == n
  }

  ghost predicate RecipesCollected(a: Aggregate, rows: seq<Row>, key: Row -> string, trackRecipes: bool, k: string) {
    k in a.items ==>
      Distinct(a.items[k].fromRecipes) &&
      (!trackRecipes ==> a.items[k].fromRecipes == []) &&
      (trackRecipes ==> forall n :: n in a.items[k].fromRecipes <==> RecipeOf(rows, key, k, n))
  }

  lemma StepRecipes(a: Aggregate, init: seq<Row>, row: Row, key: Row -> string, trackRecipes: bool, k: string)
    requires RecipesCollected(a, init, key, trackRecipes, k)
    requires k !in a.items ==> !HasKey(init, key, k)
    ensures RecipesCollected(Step(a, row, key, trackRecipes), init + [row], key, trackRecipes, k)
  {
    var rows := init + [row];
    var b := Step(a, row, key, trackRecipes);
    if k in b.items && trackRecipes {
      forall n ensures n in b.items[k].fromRecipes <==> RecipeOf(rows, key, k, n) {
        if RecipeOf(rows, key, k, n) {
          var i :| 0 <= i < |rows| && key(rows[i]) == k && rows[i].recipeName == n;
          if i < |init| {
            assert init[i] == rows[i];
            assert RecipeOf(init, key, k, n);
          }
        }
        if k in a.items && n in a.items[k].fromRecipes {
          var i :| 0 <= i < |init| && key(init[i]) == k && init[i].recipeName == n;
          assert rows[i] == init[i];
        }
        if key(row) == k && row.recipeName == n {
          assert rows[|init|] == row;
        }
      }
    }
  }

  /** With recipe tracking, an item names each recipe that uses it, once; without, it names
      none. */
  lemma {:induction false} AggregateRecipes(rows: seq<Row>, key: Row -> string, trackRecipes: bool, k: string)
    ensures RecipesCollected(AggregateRows(rows, key, trackRecipes), rows, key, trackRecipes, k)
  {
    if rows != [] {
      var init := rows[..|rows| - 1];
      AggregateRecipes(init, key, trackRecipes, k);
      AggregateKeys(init, key, trackRecipes, k);
      StepRecipes(AggregateRows(init, key, trackRecipes), init, rows[|rows| - 1], key, trackRecipes, k);
      assert init + [rows[|rows| - 1]] == rows;
    }
  }

  // ---------------------------------------------------------------- order of the items

  /** The aisle an item sorts under: its aisle, or "zzz" when it has none. */
  function SortAisle(item: GroceryItem): string {
    if Text.Truthy(item.aisle) then item.aisle.value else "zzz"
  }

  /** The comparator as the views write it, as `cmp(a, b) <= 0`: it compares the sort aisles
      only when the raw aisles differ, so an item without aisle and an item in an aisle named
      "zzz" (or "") compare equal without looking at their names. */
  predicate SourceLeq(a: GroceryItem, b: GroceryItem) {
    if a.aisle != b.aisle then Sorting.StrLeq(SortAisle(a), SortAisle(b))
    else Sorting.StrLeq(a.name, b.name)
  }

  /** The written comparator is not transitive, so Array.prototype.sort may return the items
      out of (aisle, name) order: a (no aisle, "b") <= b ("zzz", "a") <= c (no aisle, "a"), yet
      a > c. */
  lemma SourceLeqNotTransitive()
    ensures var a := GroceryItem("1", "b", "other", None, 1.0, "g", [], false, []);
            var b := GroceryItem("2", "a", "other", Some("zzz"), 1.0, "g", [], false, []);
            var c := GroceryItem("3", "a", "other", None, 1.0, "g", [], false, []);
            SourceLeq(a, b) && SourceLeq(b, c) && !SourceLeq(a, c)
    ensures !Sorting.TotalPreorder(SourceLeq)
  {
    var a := GroceryItem("1", "b", "other", None, 1.0, "g", [], false, []);
    var b := GroceryItem("2", "a", "other", Some("zzz"), 1.0, "g", [], false, []);
    var c := GroceryItem("3", "a", "other", None, 1.0, "g", [], false, []);
    assert Sorting.StrLeq("zzz", "zzz") by { Sorting.StrLeqTotal("zzz", "zzz"); }
    assert !Sorting.StrLeq("b", "a") by {
      assert "b"[0] != "a"[0];
    }
    assert SortAisle(a) == "zzz" && SortAisle(b) == "zzz" && SortAisle(c) == "zzz";
    assert SourceLeq(a, b) && SourceLeq(b, c);
    assert !SourceLeq(a, c);
    assert !(SourceLeq(a, b) && SourceLeq(b, c) ==> SourceLeq(a, c));
  }

  /** The intended order: by sort aisle, then by name. */
  predicate AisleThenName(a: GroceryItem, b: GroceryItem) {
    if SortAisle(a) != SortAisle(b) then Sorting.StrLeq(SortAisle(a), SortAisle(b))
    else Sorting.StrLeq(a.name, b.name)
  }

  lemma AisleThenNameTotalPreorder()
    ensures Sorting.TotalPreorder(AisleThenName)
  {
    forall a, b ensures AisleThenName(a, b) || AisleThenName(b, a) {
      Sorting.StrLeqTotal(SortAisle(a), SortAisle(b));
      Sorting.StrLeqTotal(a.name, b.name);
    }
    forall a, b, c | AisleThenName(a, b) && AisleThenName(b, c) ensures AisleThenName(a, c) {
      var x, y, z := SortAisle(a), SortAisle(b), SortAisle(c);
      if x == y && y == z {
        Sorting.StrLeqTrans(a.name, b.name, c.name);
      } else if x != y && y != z {
        Sorting.StrLeqTrans(x, y, z);
        StrLeqAntisymImplies(x, y);
      }
    }
  }

  lemma StrLeqAntisymImplies(a: string, b: string)
    ensures Sorting.StrLeq(a, b) && Sorting.StrLeq(b, a) ==> a == b
  {
    if Sorting.StrLeq(a, b) && Sorting.StrLeq(b, a) {
      Sorting.StrLeqAntisym(a, b);
    }
  }

  /** Whether two of the items have different aisles that sort as the same one (missing, empty
      or "zzz"): only then do the written and the intended comparator disagree. */
  predicate AislesClash(items: seq<GroceryItem>) {
    exists i, j :: 0 <= i < |items| && 0 <= j < |items| &&
      items[i].aisle != items[j].aisle && SortAisle(items[i]) == SortAisle(items[j])
  }

  /** Without such a pair, the views' sort with the written comparator gives exactly the items
      sorted by aisle then name. */
  lemma SourceSortAgrees(items: seq<GroceryItem>)
    requires !AislesClash(items)
    ensures Sorting.SortBy(items, SourceLeq) == SortItems(items)
  {
    forall a, b | a in items && b in items ensures SourceLeq(a, b) == AisleThenName(a, b) {
      var i :| 0 <= i < |items| && items[i] == a;
      var j :| 0 <= j < |items| && items[j] == b;
      assert !(items[i].aisle != items[j].aisle && SortAisle(items[i]) == SortAisle(items[j]));
    }
    Sorting.SortByAgree(items, SourceLeq, AisleThenName);
  }

  /** The items sorted by aisle then name: a permutation of them, in that order. */
  function SortItems(items: seq<GroceryItem>): (r: seq<GroceryItem>)
    ensures multiset(r) == multiset(items)
    ensures Sorting.SortedBy(r, AisleThenName)
  {
    AisleThenNameTotalPreorder();
    Sorting.SortBySorted(items, AisleThenName);
    Sorting.SortBy(items, AisleThenName)
  }

  // ---------------------------------------------------------------- toggleItem

  /** toggleItem: the items of that ingredient have their checked flag flipped, all others and
      every other field stay as they were. */
  function Toggle(items: seq<GroceryItem>, ingredientId: string): (r: seq<GroceryItem>)
    ensures |r| == |items|
    ensures forall i :: 0 <= i < |items| ==>
      r[i] == items[i].(checked := r[i].checked) &&
      (r[i].checked <==> (items[i].checked != (items[i].ingredientId == ingredientId)))
  {
    if items == [] then []
    else
      var item := items[0];
      [if item.ingredientId == ingredientId then item.(checked := !item.checked) else item] +
      Toggle(items[1..], ingredientId)
  }

  /** Toggling the same ingredient twice gives the list back. */
  lemma ToggleTwice(items: seq<GroceryItem>, ingredientId: string)
    ensures Toggle(Toggle(items, ingredientId), ingredientId) == items
  {
    var r := Toggle(Toggle(items, ingredientId), ingredientId);
    assert forall i :: 0 <= i < |items| ==> r[i] == items[i];
  }

  // ---------------------------------------------------------------- generateListText

  /** The heading an item is listed under: its aisle, or "Autres" when it has none. */
  function AisleLabel(item: GroceryItem): string {
    if Text.Truthy(item.aisle) then item.aisle.value else "Autres"
  }

  function Header(): string {
    "Liste de courses - WeekEat\n" + Text.Repeat('=', 30) + "\n\n"
  }

  function SectionHead(aisle: string): string {
    "\n" + Text.ToUpper(aisle) + "\n" + Text.Repeat('-', |aisle|) + "\n"
  }

  function Lines(items: seq<GroceryItem>, line: GroceryItem -> string): string {
    if items == [] then "" else Lines(items[..|items| - 1], line) + line(items[|items| - 1])
  }

  function Sections(aisles: seq<string>, items: seq<GroceryItem>, line: GroceryItem -> string): string {
    if aisles == [] then ""
    else
      var a := aisles[|aisles| - 1];
      Sections(aisles[..|aisles| - 1], items, line) + SectionHead(a) +
      Lines(Sorting.FilterKey(items, AisleLabel, a), line)
  }

  /** The headings of the text: the distinct aisle labels, sorted. */
  function Aisles(items: seq<GroceryItem>): seq<string> {
    Sorting.SortedKeys(items, AisleLabel)
  }

  /** The list as text: the header, then one section per aisle label in increasing order, each
      listing the items of that aisle in list order. */
  function ListText(items: seq<GroceryItem>, line: GroceryItem -> string): string {
    Header() + Sections(Aisles(items), items, line)
  }

  /** Every item is listed under exactly one heading, that of its own aisle label. */
  lemma ItemsUnderOwnAisle(items: seq<GroceryItem>, x: GroceryItem)
    requires x in items
    ensures AisleLabel(x) in Aisles(items)
    ensures x in Sorting.FilterKey(items, AisleLabel, AisleLabel(x))
    ensures forall a :: a != AisleLabel(x) ==> x !in Sorting.FilterKey(items, AisleLabel, a)
  {
    var keys := Sorting.KeysInOrder(items, AisleLabel);
    assert AisleLabel(x) in keys;
    assert AisleLabel(x) in multiset(keys);
    assert AisleLabel(x) in multiset(Aisles(items));
  }

  lemma SectionsSnoc(aisles: seq<string>, j: nat, items: seq<GroceryItem>, line: GroceryItem -> string)
    requires j < |aisles|
    ensures Sections(aisles[..j + 1], items, line) ==
            Sections(aisles[..j], items, line) + SectionHead(aisles[j]) +
            Lines(Sorting.FilterKey(items, AisleLabel, aisles[j]), line)
  {
    assert aisles[..j + 1][..j] == aisles[..j];
  }

  lemma Associate(a: string, b: string, c: string, d: string)
    ensures a + b + c + d == a + (b + c + d)
  {
  }

  /** generateListText in its shop mode: the items are grouped by aisle label in a Map, and the
      groups are written in increasing label order. */
  method RenderList(items: seq<GroceryItem>, line: GroceryItem -> string) returns (text: string)
    ensures text == ListText(items, line)
  {
    var byAisle, order := Sorting.Group(items, AisleLabel);
    var aisles := Sorting.SortBy(order, Sorting.StrLeq);
    text := Header();
    for j := 0 to |aisles|
      invariant text == Header() + Sections(aisles[..j], items, line)
    {
      var aisle := aisles[j];
      assert aisle in multiset(order);
      assert aisle in order;
      Sorting.GroupByFilters(items, AisleLabel, aisle);
      SectionsSnoc(aisles, j, items, line);
      ghost var before := Sections(aisles[..j], items, line);
      text := WriteSection(text, aisle, byAisle[aisle], line);
      Associate(Header(), before, SectionHead(aisle), Lines(byAisle[aisle], line));
    }
    assert aisles[..|aisles|] == aisles;
  }

  /** One section: the heading, its underline, and one line per item. */
  method WriteSection(text: string, aisle: string, group: seq<GroceryItem>, line: GroceryItem -> string)
    returns (r: string)
    ensures r == text + SectionHead(aisle) + Lines(group, line)
  {
    r := text + SectionHead(aisle);
    for m := 0 to |group|
      invariant r == text + SectionHead(aisle) + Lines(group[..m], line)
    {
      assert group[..m + 1][..m] == group[..m];
      r := r + line(group[m]);
    }
    assert group[..|group|] == group;
  }

  /** The check mark of a line. */
  function CheckMark(item: GroceryItem): string {
    if item.checked then "✓" else "☐"
  }

  /** The text the "cuisine" mode of generateListText returns, whatever the items. */
  const KitchenPlaceholder := "Mode cuisine (à implémenter)"
}
