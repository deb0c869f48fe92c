/** The grocery view of components/app/groceries-view.tsx: ingredient rows are merged by their
    normalised name and unit category, each item remembers the recipes it comes from, and the
    list can be rendered in shop mode (by aisle) or kitchen mode (a placeholder). The rendering
    of a quantity (Number.prototype.toString) is a parameter. */
module GroceriesView {
  import opened Wrappers
  import Text
  import Sorting
  import opened Groceries

  /** A combining diacritical mark (U+0300 to U+036F), which the view removes after NFD. */
  predicate IsCombiningMark(c: char) {
    '\U{0300}' <= c <= '\U{036F}'
  }

  /** The base letter NFD leaves of a lower-case Latin-1 letter with a diacritic, the character
      itself for every other character. */
  function BaseLetter(c: char): char {
    if '\U{00E0}' <= c <= '\U{00E5}' then 'a'
    else if c == '\U{00E7}' then 'c'
    else if '\U{00E8}' <= c <= '\U{00EB}' then 'e'
    else if '\U{00EC}' <= c <= '\U{00EF}' then 'i'
    else if c == '\U{00F1}' then 'n'
    else if '\U{00F2}' <= c <= '\U{00F6}' then 'o'
    else if '\U{00F9}' <= c <= '\U{00FC}' then 'u'
    else if c == '\U{00FD}' || c == '\U{00FF}' then 'y'
    else c
  }

  /** toLowerCase, then normalize("NFD") and the removal of the combining marks, character by
      character. */
  function Fold(s: string): (r: string)
    ensures AllFolded(r)
  {
    if s == [] then []
    else if IsCombiningMark(s[0]) then Fold(s[1..])
    else [BaseLetter(Text.LowerChar(s[0]))] + Fold(s[1..])
  }

  /** A character folding leaves unchanged. */
  predicate Folded(c: char) {
    !IsCombiningMark(c) && BaseLetter(Text.LowerChar(c)) == c
  }

  predicate AllFolded(s: string) {
    forall c :: c in s ==> Folded(c)
  }

  lemma {:induction false} FoldFolded(s: string)
    requires AllFolded(s)
    ensures Fold(s) == s
  {
    if s != [] {
      assert s == [s[0]] + s[1..];
      assert Folded(s[0]);
      assert AllFolded(s[1..]);
      FoldFolded(s[1..]);
    }
  }

  lemma TrimKeepsFolded(s: string)
    requires AllFolded(s)
    ensures AllFolded(Text.Trim(s))
  {
    var t := Text.Trim(s);
    var a := Text.TrimLead(s);
    forall c | c in t ensures c in s {
      var i :| 0 <= i < |t| && t[i] == c;
      assert s[a + i] == c;
    }
  }

  /** normalizeName: lower case, without diacritics, trimmed. */
  function NormalizeName(name: string): string {
    Text.Trim(Fold(name))
  }

  /** Normalising a normalised name changes nothing, so names that normalise alike merge
      whatever spelling came first. */
  lemma NormalizeNameIdempotent(name: string)
    ensures NormalizeName(NormalizeName(name)) == NormalizeName(name)
  {
    var f := Fold(name);
    TrimKeepsFolded(f);
    FoldFolded(Text.Trim(f));
    Text.TrimIdempotent(f);
  }

  /** The unit part of the merge key: "weight" for g, kg and mg, "volume" for ml, l and cl,
      whatever the case, else the lower-cased unit itself. */
  function UnitCategory(unit: string): (r: string)
    ensures r == "weight" <==> Text.ToLower(unit) in {"g", "kg", "mg", "weight"}
    ensures r == "volume" <==> Text.ToLower(unit) in {"ml", "l", "cl", "volume"}
    ensures r != "weight" && r != "volume" ==> r == Text.ToLower(unit)
  {
    var u := Text.ToLower(unit);
    if u in {"g", "kg", "mg"} then "weight"
    else if u in {"ml", "l", "cl"} then "volume"
    else u
  }

  /** createKey: the normalised name and the unit category joined by "_". */
  function CreateKey(name: string, unit: string): string {
    NormalizeName(name) + "_" + UnitCategory(unit)
  }

  function RowKey(row: Row): string {
    CreateKey(row.line.ingredient.name, row.line.unit)
  }

  /** An item's own name and unit give back the key it is stored under: the first row fixes
      both. So the items of the view have pairwise distinct keys, one per key of the rows. */
  lemma ItemsHaveDistinctKeys(rows: seq<Row>)
    ensures var a := AggregateRows(rows, RowKey, true);
      var items := Values(a.order, a.items);
      (forall i, j :: 0 <= i < j < |items| ==>
        CreateKey(items[i].name, items[i].unit) != CreateKey(items[j].name, items[j].unit)) &&
      forall k :: (exists i :: 0 <= i < |items| && CreateKey(items[i].name, items[i].unit) == k) <==> HasKey(rows, RowKey, k)
  {
    var a := AggregateRows(rows, RowKey, true);
    var items := Values(a.order, a.items);
    forall i | 0 <= i < |items| ensures CreateKey(items[i].name, items[i].unit) == a.order[i] {
      AggregateFirstRowFixes(rows, RowKey, true, a.order[i]);
    }
    forall k ensures (exists i :: 0 <= i < |items| && CreateKey(items[i].name, items[i].unit) == k) <==> HasKey(rows, RowKey, k) {
      AggregateKeys(rows, RowKey, true, k);
      if k in a.items {
        var i :| 0 <= i < |a.order| && a.order[i] == k;
        assert CreateKey(items[i].name, items[i].unit) == k;
      }
    }
  }

  lemma FlourNormalized()
    ensures NormalizeName("Farine") == "farine" && NormalizeName("farine") == "farine"
  {
    var arine := "arine";
    assert "Farine" == ['F'] + arine && "farine" == ['f'] + arine;
    CapitalNormalized('F', arine);
    AsciiLowerNormalized(['f'] + arine);
  }

  /** A capitalised ASCII word normalises to the word in lower case. */
  lemma CapitalNormalized(c: char, s: string)
    requires 'A' <= c <= 'Z' && forall i :: 0 <= i < |s| ==> 'a' <= s[i] <= 'z'
    ensures NormalizeName([c] + s) == [(c as int + 32) as char] + s
  {
    var lower := [(c as int + 32) as char] + s;
    CapitalFolded(c, s);
    AsciiLowerFolded(s);
    assert Fold([c] + s) == lower;
    assert !Text.IsWhiteSpace(lower[0]) && !Text.IsWhiteSpace(lower[|lower| - 1]);
    Text.TrimUnchanged(lower);
  }

  /** A word of lower-case ASCII letters is its own normal form. */
  lemma AsciiLowerNormalized(s: string)
    requires s != [] && forall i :: 0 <= i < |s| ==> 'a' <= s[i] <= 'z'
    ensures Fold(s) == s && NormalizeName(s) == s
  {
    AsciiLowerFolded(s);
    assert !Text.IsWhiteSpace(s[0]) && !Text.IsWhiteSpace(s[|s| - 1]);
    Text.TrimUnchanged(s);
  }

  lemma AsciiLowerFolded(s: string)
    requires forall i :: 0 <= i < |s| ==> 'a' <= s[i] <= 'z'
    ensures Fold(s) == s
  {
    assert AllFolded(s) by {
      forall c | c in s ensures Folded(c) {
        assert 'a' <= c <= 'z';
      }
    }
    FoldFolded(s);
  }

  /** Folding lower-cases an ASCII capital in front. */
  lemma CapitalFolded(c: char, s: string)
    requires 'A' <= c <= 'Z'
    ensures Fold([c] + s) == [(c as int + 32) as char] + Fold(s)
  {
    assert ([c] + s)[1..] == s;
  }

  lemma GramsAreWeight()
    ensures UnitCategory("g") == "weight" && UnitCategory("kg") == "weight"
  {
    assert Text.ToLower("g") == "g";
    assert Text.ToLower("kg") == "kg";
  }

  /** "Farine" in grams and "farine" in kilograms share a key. */
  lemma FlourKey()
    ensures CreateKey("Farine", "g") == CreateKey("farine", "kg")
  {
    FlourNormalized();
    GramsAreWeight();
  }

  /** Rows of the same ingredient in grams and in kilograms are merged and their quantities
      added as they are: 100 g of "Farine" and 1 kg of "farine" give one item of 101 g. */
  lemma MixedUnitsAdded()
    ensures var r0 := Row(RecipeIngredient(100.0, "g", None, IngredientInfo("1", "Farine", "other", None)), "Pain");
      var r1 := Row(RecipeIngredient(1.0, "kg", None, IngredientInfo("2", "farine", "other", None)), "Gâteau");
      var a := AggregateRows([r0, r1], RowKey, true);
      |a.order| == 1 && a.items[a.order[0]].totalQuantity == 101.0 && a.items[a.order[0]].unit == "g" &&
      a.items[a.order[0]].fromRecipes == ["Pain", "Gâteau"]
  {
    var r0 := Row(RecipeIngredient(100.0, "g", None, IngredientInfo("1", "Farine", "other", None)), "Pain");
    var r1 := Row(RecipeIngredient(1.0, "kg", None, IngredientInfo("2", "farine", "other", None)), "Gâteau");
    FlourKey();
    TwoRowsMerge(r0, r1, RowKey, true);
  }

  /** The initial state of the view: no plan gives no items; otherwise the merged items, sorted
      by aisle then name (the comparator is read while the mode is still "magasin"). */
  method InitialItems(plan: Option<seq<PlanMeal>>) returns (items: seq<GroceryItem>)
    ensures plan.None? ==> items == []
    ensures plan.Some? ==>
      var a := AggregateRows(Rows(plan.value), RowKey, true);
      multiset(items) == multiset(Values(a.order, a.items)) && Sorting.SortedBy(items, AisleThenName)
  {
    if plan.None? {
      return [];
    }
    var a := AggregateMeals(plan.value, RowKey, true);
    items := SortItems(Values(a.order, a.items));
  }

  datatype ViewMode = Shop | Kitchen   // "magasin" | "cuisine"

  /** One line of the shop list: check mark, quantity, unit and name. */
  function ShopLine(item: GroceryItem, quantity: real -> string): string {
    CheckMark(item) + " " + quantity(item.totalQuantity) + " " + item.unit + " " + item.name + "\n"
  }

  /** generateListText: the list by aisle in shop mode, the fixed placeholder in kitchen mode. */
  method GenerateListText(mode: ViewMode, items: seq<GroceryItem>, quantity: real -> string) returns (text: string)
    ensures mode == Kitchen ==> text == KitchenPlaceholder
    ensures mode == Shop ==> text == ListText(items, item => ShopLine(item, quantity))
  {
    if mode == Shop {
      text := RenderList(items, item => ShopLine(item, quantity));
    } else {
      text := KitchenPlaceholder;
    }
  }
}
