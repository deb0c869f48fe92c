/** The response handling of lib/ai/client.ts: the schema a generated week must satisfy (with
    its normalisations), the cleaning and balance check of parseAIResponse, and the repair of a
    response cut off at the token limit. The chat completion itself is an input: its text (absent
    when the model sent none) and its finish reason. */
module AiClient {
  import opened Wrappers
  import Text
  import opened Json

  datatype MealType = Breakfast | Lunch | Dinner

  function MealTypeName(t: MealType): string {
    match t
    case Breakfast => "breakfast"
    case Lunch => "lunch"
    case Dinner => "dinner"
  }

  datatype Ingredient = Ingredient(name: string, quantity: real, unit: string, notes: Option<string>)

  datatype GeneratedMeal = GeneratedMeal(
    name: string,
    description: string,
    mealType: MealType,
    date: string,
    prepTime: real,
    cookTime: real,
    servings: real,
    tags: seq<string>,
    instructions: string,
    dishwareTips: string,
    ingredients: seq<Ingredient>)

  datatype GeneratedWeek = GeneratedWeek(
    meals: seq<GeneratedMeal>,
    seasonalIngredients: seq<string>,
    dishwareScore: real)

  /** The errors the client throws. */
  datatype AiError = NoResponse | Incomplete | Invalid | Truncated

  /** A chat completion: the message text (None for a missing one) and the finish reason. */
  datatype Completion = Completion(content: Option<string>, finishReason: string)

  // ---------------------------------------------------------------- schema

  /** The mealType field: "dessert" is read as "dinner" before the enum check. */
  function NormalizeMealType(v: Option<Json>): (r: Option<MealType>)
    ensures r == Some(Dinner) <==> v == Some(JString("dinner")) || v == Some(JString("dessert"))
    ensures r == Some(Lunch) <==> v == Some(JString("lunch"))
    ensures r == Some(Breakfast) <==> v == Some(JString("breakfast"))
  {
    match v
    case Some(JString(s)) =>
      if s == "dessert" || s == "dinner" then Some(Dinner)
      else if s == "lunch" then Some(Lunch)
      else if s == "breakfast" then Some(Breakfast)
      else None
    case _ => None
  }

  /** Every meal type's own name is accepted as that type. */
  lemma MealTypeNameAccepted(t: MealType)
    ensures NormalizeMealType(Some(JString(MealTypeName(t)))) == Some(t)
  {
    match t
    case Breakfast =>
    case Lunch =>
    case Dinner =>
  }

  /** Line i (from 0) of numbered instructions. */
  function NumberedLine(i: nat, step: string): string {
    Text.NatToString(i + 1) + ". " + step
  }

  function NumberedLines(steps: seq<string>): (r: seq<string>)
    ensures |r| == |steps| && forall i :: 0 <= i < |steps| ==> r[i] == NumberedLine(i, steps[i])
  {
    seq(|steps|, i requires 0 <= i < |steps| => NumberedLine(i, steps[i]))
  }

  /** The instructions transform: a list of steps becomes "1. s1\n2. s2\n...". */
  function NumberInstructions(steps: seq<string>): string {
    Text.Join(NumberedLines(steps), "\n")
  }

  /** The text produced for steps without line breaks splits back into one numbered line per
      step, in order. */
  lemma InstructionLines(steps: seq<string>)
    requires steps != []
    requires forall i, j :: 0 <= i < |steps| && 0 <= j < |steps[i]| ==> steps[i][j] != '\n'
    ensures Text.Split(NumberInstructions(steps), '\n') == NumberedLines(steps)
    ensures forall i :: 0 <= i < |steps| ==>
      Text.Split(NumberInstructions(steps), '\n')[i] == Text.NatToString(i + 1) + ". " + steps[i]
  {
    var lines := NumberedLines(steps);
    forall i, j | 0 <= i < |lines| && 0 <= j < |lines[i]| ensures lines[i][j] != '\n' {
      var d := Text.NatToString(i + 1);
      if j < |d| {
        assert lines[i][j] == d[j];
      } else if j >= |d| + 2 {
        assert lines[i][j] == steps[i][j - |d| - 2];
      }
    }
    Text.JoinSplit(lines, '\n');
  }

  function GetString(f: seq<(string, Json)>, key: string): Option<string> {
    match Get(f, key)
    case Some(JString(s)) => Some(s)
    case _ => None
  }

  function GetNumber(f: seq<(string, Json)>, key: string): Option<real> {
    match Get(f, key)
    case Some(JNumber(n)) => Some(n)
    case _ => None
  }

  function GetStrings(f: seq<(string, Json)>, key: string): Option<seq<string>> {
    match Get(f, key)
    case Some(JArray(items)) => AsStrings(items)
    case _ => None
  }

  /** An optional string field: absent is accepted as None, a string as Some, anything else
      (null included) is rejected. */
  function GetOptString(f: seq<(string, Json)>, key: string): Option<Option<string>> {
    match Get(f, key)
    case None => Some(None)
    case Some(JString(s)) => Some(Some(s))
    case _ => None
  }

  /** The instructions field: an array of strings is numbered, a string is kept. */
  function GetInstructions(f: seq<(string, Json)>): Option<string> {
    match Get(f, "instructions")
    case Some(JString(s)) => Some(s)
    case Some(JArray(items)) =>
      (match AsStrings(items)
       case Some(steps) => Some(NumberInstructions(steps))
       case None => None)
    case _ => None
  }

  /** Validation of each element; any invalid element rejects the whole list. */
  function ValidateEach<T>(items: seq<Json>, valid: Json -> Option<T>): (r: Option<seq<T>>)
    ensures r.Some? <==> forall i :: 0 <= i < |items| ==> valid(items[i]).Some?
    ensures r.Some? ==> |r.value| == |items|
    ensures r.Some? ==> forall i :: 0 <= i < |items| ==> r.value[i] == valid(items[i]).value
  {
    if items == [] then Some([])
    else
      match valid(items[0])
      case None => None
      case Some(x) =>
        match ValidateEach(items[1..], valid)
        case None =>
          assert exists i :: 1 <= i < |items| && valid(items[i]).None? by {
            var k :| 0 <= k < |items[1..]| && valid(items[1..][k]).None?;
            assert items[1..][k] == items[k + 1];
          }
          None
        case Some(rest) =>
          assert forall i :: 1 <= i < |items| ==> items[i] == items[1..][i - 1];
          Some([x] + rest)
  }

  /** The ingredients field: an array of valid ingredients. */
  function GetIngredients(f: seq<(string, Json)>): Option<seq<Ingredient>> {
    match Get(f, "ingredients")
    case Some(JArray(items)) => ValidateEach(items, ValidateIngredient)
    case _ => None
  }

  /** IngredientSchema: name, quantity, unit, and an optional string notes. */
  function ValidateIngredient(v: Json): Option<Ingredient> {
    if !v.JObject? then None
    else
      var f := v.fields;
      match (GetString(f, "name"), GetNumber(f, "quantity"), GetString(f, "unit"), GetOptString(f, "notes"))
      case (Some(n), Some(q), Some(u), Some(notes)) => Some(Ingredient(n, q, u, notes))
      case _ => None
  }

  /** GeneratedMealSchema, with its three normalisations: a missing description becomes "",
      mealType "dessert" becomes dinner, and a list of instructions is numbered. */
  function ValidateMeal(v: Json): Option<GeneratedMeal> {
    if !v.JObject? then None
    else
      var f := v.fields;
      var name := GetString(f, "name");
      var description := GetOptString(f, "description");
      var mealType := NormalizeMealType(Get(f, "mealType"));
      var date := GetString(f, "date");
      var prep := GetNumber(f, "prepTime");
      var cook := GetNumber(f, "cookTime");
      var servings := GetNumber(f, "servings");
      var tags := GetStrings(f, "tags");
      var instructions := GetInstructions(f);
      var tips := GetString(f, "dishwareTips");
      var ingredients := GetIngredients(f);
      if name.Some? && description.Some? && mealType.Some? && date.Some? && prep.Some?
        && cook.Some? && servings.Some? && tags.Some? && instructions.Some? && tips.Some?
        && ingredients.Some?
      then
        Some(GeneratedMeal(name.value, description.value.GetOr(""), mealType.value, date.value,
          prep.value, cook.value, servings.value, tags.value, instructions.value, tips.value,
          ingredients.value))
      else None
  }

  /** GeneratedWeekSchema: every meal valid, the seasonal list all strings, and a dishware
      score between 1 and 10 inclusive. */
  function ValidateWeek(v: Json): Option<GeneratedWeek> {
    if !v.JObject? then None
    else
      var f := v.fields;
      var meals :=
        match Get(f, "meals")
        case Some(JArray(items)) => ValidateEach(items, ValidateMeal)
        case _ => None;
      var seasonal := GetStrings(f, "seasonalIngredients");
      var score := GetNumber(f, "dishwareScore");
      if meals.Some? && seasonal.Some? && score.Some? && 1.0 <= score.value <= 10.0 then
        Some(GeneratedWeek(meals.value, seasonal.value, score.value))
      else None
  }

  /** There is no partial acceptance: one invalid meal rejects the whole week. */
  lemma WeekRejectsInvalidMeal(fields: seq<(string, Json)>, items: seq<Json>, k: nat)
    requires Get(fields, "meals") == Some(JArray(items))
    requires k < |items| && ValidateMeal(items[k]).None?
    ensures ValidateWeek(JObject(fields)).None?
  {
  }

  /** An accepted week holds exactly the validated meals, in order, and a score in range. */
  lemma WeekAccepted(v: Json)
    requires ValidateWeek(v).Some?
    ensures v.JObject? && 1.0 <= ValidateWeek(v).value.dishwareScore <= 10.0
    ensures Get(v.fields, "meals").Some? && Get(v.fields, "meals").value.JArray?
    ensures var items := Get(v.fields, "meals").value.items;
      var w := ValidateWeek(v).value;
      |w.meals| == |items| &&
      forall i :: 0 <= i < |items| ==> Some(w.meals[i]) == ValidateMeal(items[i])
  {
  }

  // ---------------------------------------------------------------- canonical encodings

  function EncodeIngredient(i: Ingredient): Json {
    JObject([("name", JString(i.name)), ("quantity", JNumber(i.quantity)), ("unit", JString(i.unit))]
      + (if i.notes.Some? then [("notes", JString(i.notes.value))] else []))
  }

  function EncodeIngredients(xs: seq<Ingredient>): (r: seq<Json>)
    ensures |r| == |xs| && forall i :: 0 <= i < |xs| ==> r[i] == EncodeIngredient(xs[i])
  {
    seq(|xs|, i requires 0 <= i < |xs| => EncodeIngredient(xs[i]))
  }

  /** The JSON object of a meal as the model is asked to write it, instructions as one string. */
  function MealFields(m: GeneratedMeal): seq<(string, Json)> {
    [("name", JString(m.name)),
     ("description", JString(m.description)),
     ("mealType", JString(MealTypeName(m.mealType))),
     ("date", JString(m.date)),
     ("prepTime", JNumber(m.prepTime)),
     ("cookTime", JNumber(m.cookTime)),
     ("servings", JNumber(m.servings)),
     ("tags", JArray(JStrings(m.tags))),
     ("instructions", JString(m.instructions)),
     ("dishwareTips", JString(m.dishwareTips)),
     ("ingredients", JArray(EncodeIngredients(m.ingredients)))]
  }

  lemma ValidateEncodedIngredient(i: Ingredient)
    ensures ValidateIngredient(EncodeIngredient(i)) == Some(i)
  {
    var f := EncodeIngredient(i).fields;
    assert GetString(f, "name") == Some(i.name) by {
      GetAt(f, 0, "name");
    }
    assert GetNumber(f, "quantity") == Some(i.quantity) by {
      GetAt(f, 1, "quantity");
    }
    assert GetString(f, "unit") == Some(i.unit) by {
      GetAt(f, 2, "unit");
    }
    assert GetOptString(f, "notes") == Some(i.notes) by {
      if i.notes.Some? {
        GetAt(f, 3, "notes");
      } else {
        assert Get(f, "notes") == None;
      }
    }
  }

  lemma ValidateEncodedIngredients(xs: seq<Ingredient>)
    ensures ValidateEach(EncodeIngredients(xs), ValidateIngredient) == Some(xs)
  {
    var items := EncodeIngredients(xs);
    forall i | 0 <= i < |items| ensures ValidateIngredient(items[i]) == Some(xs[i]) {
      ValidateEncodedIngredient(xs[i]);
    }
    var r := ValidateEach(items, ValidateIngredient);
    assert r.value == xs;
  }

  /** Each key of MealFields occurs once, at its own position. */
  lemma MealTextFields(m: GeneratedMeal)
    ensures Get(MealFields(m), "name") == Some(JString(m.name))
    ensures Get(MealFields(m), "description") == Some(JString(m.description))
    ensures Get(MealFields(m), "mealType") == Some(JString(MealTypeName(m.mealType)))
    ensures Get(MealFields(m), "date") == Some(JString(m.date))
  {
    var f := MealFields(m);
    GetAt(f, 0, "name");
    GetAt(f, 1, "description");
    GetAt(f, 2, "mealType");
    GetAt(f, 3, "date");
  }

  lemma MealNumberFields(m: GeneratedMeal)
    ensures Get(MealFields(m), "prepTime") == Some(JNumber(m.prepTime))
    ensures Get(MealFields(m), "cookTime") == Some(JNumber(m.cookTime))
    ensures Get(MealFields(m), "servings") == Some(JNumber(m.servings))
  {
    var f := MealFields(m);
    GetAt(f, 4, "prepTime");
    GetAt(f, 5, "cookTime");
    GetAt(f, 6, "servings");
  }

  lemma MealListFields(m: GeneratedMeal)
    ensures Get(MealFields(m), "tags") == Some(JArray(JStrings(m.tags)))
    ensures Get(MealFields(m), "instructions") == Some(JString(m.instructions))
    ensures Get(MealFields(m), "dishwareTips") == Some(JString(m.dishwareTips))
    ensures Get(MealFields(m), "ingredients") == Some(JArray(EncodeIngredients(m.ingredients)))
  {
    var f := MealFields(m);
    GetAt(f, 7, "tags");
    GetAt(f, 8, "instructions");
    GetAt(f, 9, "dishwareTips");
    GetAt(f, 10, "ingredients");
  }

  lemma MealFieldsLookup(m: GeneratedMeal)
    ensures Get(MealFields(m), "name") == Some(JString(m.name))
    ensures Get(MealFields(m), "description") == Some(JString(m.description))
    ensures Get(MealFields(m), "mealType") == Some(JString(MealTypeName(m.mealType)))
    ensures Get(MealFields(m), "date") == Some(JString(m.date))
    ensures Get(MealFields(m), "prepTime") == Some(JNumber(m.prepTime))
    ensures Get(MealFields(m), "cookTime") == Some(JNumber(m.cookTime))
    ensures Get(MealFields(m), "servings") == Some(JNumber(m.servings))
    ensures Get(MealFields(m), "tags") == Some(JArray(JStrings(m.tags)))
    ensures Get(MealFields(m), "instructions") == Some(JString(m.instructions))
    ensures Get(MealFields(m), "dishwareTips") == Some(JString(m.dishwareTips))
    ensures Get(MealFields(m), "ingredients") == Some(JArray(EncodeIngredients(m.ingredients)))
  {
    MealTextFields(m);
    MealNumberFields(m);
    MealListFields(m);
  }

  /** The fields a meal is accepted from: every required field present with its type, the
      description a string or absent (then ""), and the mealType one of the accepted names. */
  predicate FieldsGive(f: seq<(string, Json)>, m: GeneratedMeal) {
    GetString(f, "name") == Some(m.name)
    && (GetOptString(f, "description") == Some(Some(m.description))
        || (GetOptString(f, "description") == Some(None) && m.description == ""))
    && NormalizeMealType(Get(f, "mealType")) == Some(m.mealType)
    && GetString(f, "date") == Some(m.date)
    && GetNumber(f, "prepTime") == Some(m.prepTime)
    && GetNumber(f, "cookTime") == Some(m.cookTime)
    && GetNumber(f, "servings") == Some(m.servings)
    && GetStrings(f, "tags") == Some(m.tags)
    && GetInstructions(f) == Some(m.instructions)
    && GetString(f, "dishwareTips") == Some(m.dishwareTips)
    && GetIngredients(f) == Some(m.ingredients)
  }

  /** A meal object is accepted as m exactly when its fields give m. */
  lemma ValidateMealIff(f: seq<(string, Json)>, m: GeneratedMeal)
    ensures ValidateMeal(JObject(f)) == Some(m) <==> FieldsGive(f, m)
  {
  }

  /** The eight fields that are read as written, each present with m's value. */
  predicate PlainFieldsOf(f: seq<(string, Json)>, m: GeneratedMeal) {
    Get(f, "name") == Some(JString(m.name))
    && Get(f, "date") == Some(JString(m.date))
    && Get(f, "prepTime") == Some(JNumber(m.prepTime))
    && Get(f, "cookTime") == Some(JNumber(m.cookTime))
    && Get(f, "servings") == Some(JNumber(m.servings))
    && Get(f, "tags") == Some(JArray(JStrings(m.tags)))
    && Get(f, "dishwareTips") == Some(JString(m.dishwareTips))
    && Get(f, "ingredients") == Some(JArray(EncodeIngredients(m.ingredients)))
  }

  predicate IsPlainKey(k: string) {
    k == "name" || k == "date" || k == "prepTime" || k == "cookTime" || k == "servings"
    || k == "tags" || k == "dishwareTips" || k == "ingredients"
  }

  /** The fields give m when its plain fields are written out and the three normalised ones
      (description, mealType, instructions) are read as m's. */
  lemma FieldsGiveMeal(f: seq<(string, Json)>, m: GeneratedMeal)
    requires PlainFieldsOf(f, m)
    requires GetOptString(f, "description") == Some(Some(m.description))
          || (GetOptString(f, "description") == Some(None) && m.description == "")
    requires NormalizeMealType(Get(f, "mealType")) == Some(m.mealType)
    requires GetInstructions(f) == Some(m.instructions)
    ensures ValidateMeal(JObject(f)) == Some(m)
  {
    assert FieldsGive(f, m) by {
      assert GetString(f, "name") == Some(m.name);
      assert GetString(f, "date") == Some(m.date);
      assert GetNumber(f, "prepTime") == Some(m.prepTime);
      assert GetNumber(f, "cookTime") == Some(m.cookTime);
      assert GetNumber(f, "servings") == Some(m.servings);
      AsStringsOfJStrings(m.tags);
      assert GetStrings(f, "tags") == Some(m.tags);
      assert GetString(f, "dishwareTips") == Some(m.dishwareTips);
      ValidateEncodedIngredients(m.ingredients);
    }
    ValidateMealIff(f, m);
  }

  lemma PlainFieldsOfMeal(m: GeneratedMeal)
    ensures PlainFieldsOf(MealFields(m), m)
  {
    MealFieldsLookup(m);
  }

  /** Appending or removing a key that is not plain keeps the plain fields. */
  lemma AppendKeepsPlain(f: seq<(string, Json)>, m: GeneratedMeal, k: string, v: Json)
    requires PlainFieldsOf(f, m) && !IsPlainKey(k)
    ensures PlainFieldsOf(f + [(k, v)], m)
  {
    forall key | IsPlainKey(key) ensures Get(f + [(k, v)], key) == Get(f, key) {
      GetAppended(f, k, v, key);
    }
  }

  lemma WithoutKeepsPlain(f: seq<(string, Json)>, m: GeneratedMeal, k: string)
    requires PlainFieldsOf(f, m) && !IsPlainKey(k)
    ensures PlainFieldsOf(Without(f, k), m)
  {
  }

  /** A meal written out in full validates to itself. */
  lemma ValidateEncodedMeal(m: GeneratedMeal)
    ensures ValidateMeal(JObject(MealFields(m))) == Some(m)
  {
    MealFieldsLookup(m);
    MealTypeNameAccepted(m.mealType);
    FieldsGiveMeal(MealFields(m), m);
  }

  /** mealType "dessert" is accepted and read as dinner. */
  lemma DessertIsDinner(m: GeneratedMeal)
    ensures ValidateMeal(JObject(MealFields(m) + [("mealType", JString("dessert"))]))
         == Some(m.(mealType := Dinner))
  {
    var v := JString("dessert");
    var f := MealFields(m) + [("mealType", v)];
    var m' := m.(mealType := Dinner);
    assert PlainFieldsOf(f, m') by {
      PlainFieldsOfMeal(m);
      AppendKeepsPlain(MealFields(m), m, "mealType", v);
    }
    assert GetOptString(f, "description") == Some(Some(m'.description)) by {
      GetAppended(MealFields(m), "mealType", v, "description");
      MealTextFields(m);
    }
    assert NormalizeMealType(Get(f, "mealType")) == Some(Dinner) by {
      GetAppended(MealFields(m), "mealType", v, "mealType");
    }
    assert GetInstructions(f) == Some(m'.instructions) by {
      GetAppended(MealFields(m), "mealType", v, "instructions");
      MealListFields(m);
    }
    FieldsGiveMeal(f, m');
  }

  /** Any mealType string other than breakfast, lunch, dinner and dessert rejects the meal. */
  lemma UnknownMealTypeRejected(m: GeneratedMeal, t: string)
    requires t != "breakfast" && t != "lunch" && t != "dinner" && t != "dessert"
    ensures ValidateMeal(JObject(MealFields(m) + [("mealType", JString(t))])).None?
  {
    var f := MealFields(m) + [("mealType", JString(t))];
    GetAppended(MealFields(m), "mealType", JString(t), "mealType");
    if ValidateMeal(JObject(f)).Some? {
      ValidateMealIff(f, ValidateMeal(JObject(f)).value);
    }
  }

  /** An instructions member appended to a meal decides its instructions alone. */
  lemma InstructionsOverride(m: GeneratedMeal, v: Json, text: string)
    requires GetInstructions([("instructions", v)]) == Some(text)
    ensures ValidateMeal(JObject(MealFields(m) + [("instructions", v)]))
         == Some(m.(instructions := text))
  {
    var f := MealFields(m) + [("instructions", v)];
    var m' := m.(instructions := text);
    assert PlainFieldsOf(f, m') by {
      PlainFieldsOfMeal(m);
      AppendKeepsPlain(MealFields(m), m, "instructions", v);
    }
    assert GetOptString(f, "description") == Some(Some(m'.description)) by {
      GetAppended(MealFields(m), "instructions", v, "description");
      MealTextFields(m);
    }
    assert NormalizeMealType(Get(f, "mealType")) == Some(m'.mealType) by {
      GetAppended(MealFields(m), "instructions", v, "mealType");
      MealTextFields(m);
      MealTypeNameAccepted(m.mealType);
    }
    assert GetInstructions(f) == Some(text) by {
      GetAppended(MealFields(m), "instructions", v, "instructions");
      assert Get([("instructions", v)], "instructions") == Some(v);
    }
    FieldsGiveMeal(f, m');
  }

  /** Instructions given as a list of strings are stored numbered. */
  lemma InstructionListNumbered(m: GeneratedMeal, steps: seq<string>)
    ensures ValidateMeal(JObject(MealFields(m) + [("instructions", JArray(JStrings(steps)))]))
         == Some(m.(instructions := NumberInstructions(steps)))
  {
    AsStringsOfJStrings(steps);
    InstructionsOverride(m, JArray(JStrings(steps)), NumberInstructions(steps));
  }

  /** The meal's fields without one key. */
  function Without(f: seq<(string, Json)>, key: string): (r: seq<(string, Json)>)
    ensures forall k :: Get(r, k) == if k == key then None else Get(f, k)
  {
    if f == [] then []
    else
      var init := Without(f[..|f| - 1], key);
      var last := f[|f| - 1];
      if last.0 == key then init
      else
        forall k ensures Get(init + [last], k) == if k == key then None else Get(f, k) {
          GetAppended(init, last.0, last.1, k);
        }
        init + [last]
  }

  /** Removing the description from meal fields that give m gives m with an empty one. */
  lemma DescriptionDropped(f: seq<(string, Json)>, m: GeneratedMeal)
    requires PlainFieldsOf(f, m)
    requires NormalizeMealType(Get(f, "mealType")) == Some(m.mealType)
    requires GetInstructions(f) == Some(m.instructions)
    ensures ValidateMeal(JObject(Without(f, "description"))) == Some(m.(description := ""))
  {
    var g := Without(f, "description");
    WithoutKeepsPlain(f, m, "description");
    WithoutKeepsInstructions(f, "description");
    DescriptionGone(f);
    assert Get(g, "mealType") == Get(f, "mealType");
    FieldsGiveMeal(g, m.(description := ""));
  }

  /** Without the description field, the description reads as missing. */
  lemma DescriptionGone(f: seq<(string, Json)>)
    ensures GetOptString(Without(f, "description"), "description") == Some(None)
  {
    assert Get(Without(f, "description"), "description") == None;
  }

  lemma WithoutKeepsInstructions(f: seq<(string, Json)>, k: string)
    requires k != "instructions"
    ensures GetInstructions(Without(f, k)) == GetInstructions(f)
  {
    assert Get(Without(f, k), "instructions") == Get(f, "instructions");
  }

  /** A missing description becomes the empty string. */
  lemma MissingDescriptionIsEmpty(m: GeneratedMeal)
    ensures ValidateMeal(JObject(Without(MealFields(m), "description")))
         == Some(m.(description := ""))
  {
    PlainFieldsOfMeal(m);
    MealTextFields(m);
    MealListFields(m);
    MealTypeNameAccepted(m.mealType);
    DescriptionDropped(MealFields(m), m);
  }

  /** Every other field is required: without it the meal is rejected. */
  lemma MissingRequiredFieldRejected(m: GeneratedMeal, key: string)
    requires IsPlainKey(key) || key == "mealType" || key == "instructions"
    ensures ValidateMeal(JObject(Without(MealFields(m), key))).None?
  {
    var f := Without(MealFields(m), key);
    assert Get(f, key) == None;
    forall m': GeneratedMeal ensures ValidateMeal(JObject(f)) != Some(m') {
      ValidateMealIff(f, m');
    }
  }

  // ---------------------------------------------------------------- parseAIResponse

  const JsonFence: string := "```json"
  const Fence: string := "```"

  /** `replace(/<fence>\n?/, '')` on a text that starts with the fence. */
  function DropLeadingFence(c: string, n: nat): (r: string)
    requires n <= |c|
  {
    var rest := c[n..];
    if rest != [] && rest[0] == '\n' then rest[1..] else rest
  }

  /** `replace(/```\n?$/, '')`: a closing fence at the very end, with an optional newline. */
  function DropTrailingFence(s: string): (r: string)
    ensures Text.StartsWith(s, r)
  {
    if Text.EndsWith(s, "```\n") then s[..|s| - 4]
    else if Text.EndsWith(s, Fence) then s[..|s| - 3]
    else s
  }

  /** The text parseAIResponse hands to JSON.parse: trimmed, then a leading "```json" or "```"
      fence (each with an optional newline) and a closing fence removed. */
  function Cleaned(response: string): string {
    StripFences(Text.Trim(response))
  }

  function StripFences(c: string): string {
    if Text.StartsWith(c, JsonFence) then DropTrailingFence(DropLeadingFence(c, |JsonFence|))
    else if Text.StartsWith(c, Fence) then DropTrailingFence(DropLeadingFence(c, |Fence|))
    else c
  }

  /** Raw character counts, string literals included. */
  predicate Balanced(c: string) {
    Text.CountChar(c, '{') == Text.CountChar(c, '}') && Text.CountChar(c, '[') == Text.CountChar(c, ']')
  }

  function DecodeWeek(c: string): Option<GeneratedWeek> {
    match Parse(c)
    case Some(v) => ValidateWeek(v)
    case None => None
  }

  /** The outcome of parseAIResponse on a response text. */
  function ParseResponse(response: string): (r: Result<GeneratedWeek, AiError>)
    ensures r == Failure(Incomplete) <==> !Balanced(Cleaned(response))
    ensures r.Success? <==> Balanced(Cleaned(response)) && DecodeWeek(Cleaned(response)).Some?
    ensures r.Failure? ==> r.error == Incomplete || r.error == Invalid
  {
    var c := Cleaned(response);
    if !Balanced(c) then Failure(Incomplete)
    else match DecodeWeek(c)
      case None => Failure(Invalid)
      case Some(w) => Success(w)
  }

  method ParseAIResponse(response: string) returns (r: Result<GeneratedWeek, AiError>)
    ensures r == ParseResponse(response)
  {
    var cleaned := Text.Trim(response);
    if Text.StartsWith(cleaned, JsonFence) {
      cleaned := DropLeadingFence(cleaned, |JsonFence|);
      cleaned := DropTrailingFence(cleaned);
    } else if Text.StartsWith(cleaned, Fence) {
      cleaned := DropLeadingFence(cleaned, |Fence|);
      cleaned := DropTrailingFence(cleaned);
    }
    var openBraces := Text.CountChar(cleaned, '{');
    var closeBraces := Text.CountChar(cleaned, '}');
    var openBrackets := Text.CountChar(cleaned, '[');
    var closeBrackets := Text.CountChar(cleaned, ']');
    if openBraces != closeBraces || openBrackets != closeBrackets {
      return Failure(Incomplete);
    }
    var parsed := Parse(cleaned);
    if parsed.None? {
      return Failure(Invalid);
    }
    var week := ValidateWeek(parsed.value);
    if week.None? {
      return Failure(Invalid);
    }
    r := Success(week.value);
  }

  /** A response wrapped in a ```json fence is cleaned to its body and the newline before the
      closing fence. */
  lemma FencedBodyCleaned(body: string)
    requires body != [] && !Text.IsWhiteSpace(body[0]) && !Text.IsWhiteSpace(body[|body| - 1])
    ensures Cleaned(JsonFence + "\n" + body + "\n" + Fence) == body + "\n"
  {
    var rest := "\n" + body + "\n" + Fence;
    var s := JsonFence + rest;
    assert JsonFence + "\n" + body + "\n" + Fence == s;
    assert s[0] == '`' && s[|s| - 1] == '`';
    Text.TrimUnchanged(s);
    assert s[..|JsonFence|] == JsonFence && s[|JsonFence|..] == rest;
    var d := body + "\n" + Fence;
    assert rest[0] == '\n' && rest[1..] == d;
    assert DropLeadingFence(s, |JsonFence|) == d;
    assert d[|d| - 1] == '`';
    assert !Text.EndsWith(d, "```\n") by {
      assert "```\n"[3] == '\n';
    }
    assert d[|d| - 3..] == Fence && d[..|d| - 3] == body + "\n";
    assert DropTrailingFence(d) == body + "\n";
  }

  predicate IsBracket(c: char) {
    c == '{' || c == '}' || c == '[' || c == ']'
  }

  lemma DropLeadingCounts(t: string, n: nat, c: char)
    requires n <= |t| && c !in t[..n] && c != '\n'
    ensures multiset(DropLeadingFence(t, n))[c] == multiset(t)[c]
  {
    var rest := t[n..];
    assert t == t[..n] + rest;
    assert multiset(t) == multiset(t[..n]) + multiset(rest);
    if rest != [] && rest[0] == '\n' {
      assert rest == [rest[0]] + rest[1..];
      assert multiset(rest) == multiset{rest[0]} + multiset(rest[1..]);
    }
  }

  lemma DropTrailingCounts(d: string, c: char)
    requires c != '`' && c != '\n'
    ensures multiset(DropTrailingFence(d))[c] == multiset(d)[c]
  {
    var r := DropTrailingFence(d);
    var tail := d[|r|..];
    assert d == r + tail;
    assert multiset(d) == multiset(r) + multiset(tail);
    if Text.EndsWith(d, "```\n") {
      assert tail == "```\n";
    } else if Text.EndsWith(d, Fence) {
      assert tail == Fence;
    } else {
      assert tail == [];
    }
  }

  lemma FenceCounts(t: string, fence: string, c: char)
    requires Text.StartsWith(t, fence) && c !in fence && c != '`' && c != '\n'
    ensures multiset(DropTrailingFence(DropLeadingFence(t, |fence|)))[c] == multiset(t)[c]
  {
    DropLeadingCounts(t, |fence|, c);
    DropTrailingCounts(DropLeadingFence(t, |fence|), c);
  }

  lemma StripFencesKeepsBrackets(t: string, c: char)
    requires IsBracket(c)
    ensures multiset(StripFences(t))[c] == multiset(t)[c]
  {
    if Text.StartsWith(t, JsonFence) {
      FenceCounts(t, JsonFence, c);
    } else if Text.StartsWith(t, Fence) {
      FenceCounts(t, Fence, c);
    }
  }

  /** Trimming and removing fences touches only white space, backticks and the letters of
      "json", so the brace and bracket counts of the cleaned text are those of the response. */
  lemma CleanedKeepsBrackets(response: string, c: char)
    requires IsBracket(c)
    ensures multiset(Cleaned(response))[c] == multiset(response)[c]
  {
    Text.TrimKeepsCount(response, c);
    StripFencesKeepsBrackets(Text.Trim(response), c);
  }

  /** The balance check on the cleaned text is the balance of the response itself. */
  lemma CleanedBalance(response: string)
    ensures Balanced(Cleaned(response)) <==> Balanced(response)
  {
    CleanedKeepsBrackets(response, '{');
    CleanedKeepsBrackets(response, '}');
    CleanedKeepsBrackets(response, '[');
    CleanedKeepsBrackets(response, ']');
  }

  // ---------------------------------------------------------------- generateWeekMeals

  /** The text appended by the repair: `], "seasonalIngredients": [], "dishwareScore": 5}`. */
  const RepairSuffix: string := "]" + SeasonalMember + "[]" + ScoreMember + "}"
  const SeasonalMember: string := ", \"seasonalIngredients\": "
  const ScoreMember: string := ", \"dishwareScore\": 5"
  const MealsMarker: string := "\"meals\":["

  /** The repair of a truncated response: the text up to its last '}' (which must lie past the
      first character), provided `"meals":[` occurs in it past the first character; that last
      '}' is dropped and the literal suffix closing the array and the object is appended. */
  function Repair(response: string): (r: Option<string>)
    ensures r.Some? ==> 0 < Text.LastIndexOfChar(response, '}')
    ensures r.Some? ==> r.value == response[..Text.LastIndexOfChar(response, '}')] + RepairSuffix
  {
    var lastMealEnd := Text.LastIndexOfChar(response, '}');
    if lastMealEnd > 0 then
      var fixed := response[..lastMealEnd + 1];
      match Text.IndexOf(fixed, MealsMarker)
      case Some(mealsStart) =>
        if mealsStart > 0 then
          var cut := Text.LastIndexOfChar(fixed, '}');
          assert cut == lastMealEnd;
          Some(fixed[..cut] + RepairSuffix)
        else None
      case None => None
    else None
  }

  /** The outcome of generateWeekMeals for a completion. */
  function GenerateWeekOutcome(c: Completion): Result<GeneratedWeek, AiError> {
    if c.content.None? || c.content.value == "" then Failure(NoResponse)
    else if c.finishReason == "length" then
      match Repair(c.content.value)
      case Some(fixed) => ParseResponse(fixed)
      case None => Failure(Truncated)
    else ParseResponse(c.content.value)
  }

  /** generateWeekMeals after the completion call. The repaired text's parse is returned from
      inside the try block without being awaited, so its rejection is not caught there: a
      repaired text that fails to parse yields parseAIResponse's own error. */
  method GenerateWeekMeals(c: Completion) returns (r: Result<GeneratedWeek, AiError>)
    ensures r == GenerateWeekOutcome(c)
    ensures c.content.None? || c.content == Some("") ==> r == Failure(NoResponse)
    ensures r == Failure(Truncated) <==>
      c.content.Some? && c.content.value != "" && c.finishReason == "length" && Repair(c.content.value).None?
    ensures r.Success? && c.finishReason == "length" ==> Repair(c.content.value).Some?
  {
    if c.content.None? || c.content.value == "" {
      return Failure(NoResponse);
    }
    var response := c.content.value;
    if c.finishReason == "length" {
      var lastMealEnd := Text.LastIndexOfChar(response, '}');
      if lastMealEnd > 0 {
        var fixedResponse := response[..lastMealEnd + 1];
        var mealsStart := Text.IndexOf(fixedResponse, MealsMarker);
        if mealsStart.Some? && mealsStart.value > 0 {
          var cut := Text.LastIndexOfChar(fixedResponse, '}');
          fixedResponse := fixedResponse[..cut];
          fixedResponse := fixedResponse + RepairSuffix;
          r := ParseAIResponse(fixedResponse);
          return;
        }
      }
      return Failure(Truncated);
    }
    r := ParseAIResponse(response);
  }

  /** generateWeekMeals as its catch block evidently intends: a repaired text that still fails
      to parse ends in the truncation error. */
  function GenerateWeekIntended(c: Completion): (r: Result<GeneratedWeek, AiError>)
    ensures c.content.Some? && c.content.value != "" && c.finishReason == "length" && r.Failure?
      ==> r.error == Truncated
  {
    if c.content.None? || c.content.value == "" then Failure(NoResponse)
    else if c.finishReason == "length" then
      match Repair(c.content.value)
      case Some(fixed) =>
        (match ParseResponse(fixed)
         case Success(w) => Success(w)
         case Failure(_) => Failure(Truncated))
      case None => Failure(Truncated)
    else ParseResponse(c.content.value)
  }

  /** The two versions agree except on a repaired text that fails to parse, where the written
      code reports the parse error instead of the truncation. */
  lemma RepairErrorEscapes(c: Completion)
    ensures GenerateWeekOutcome(c).Success? <==> GenerateWeekIntended(c).Success?
    ensures GenerateWeekOutcome(c) != GenerateWeekIntended(c) <==>
      c.content.Some? && c.content.value != "" && c.finishReason == "length"
      && Repair(c.content.value).Some? && ParseResponse(Repair(c.content.value).value).Failure?
    ensures GenerateWeekOutcome(c) != GenerateWeekIntended(c) ==>
      GenerateWeekOutcome(c) == Failure(Incomplete) || GenerateWeekOutcome(c) == Failure(Invalid)
  {
  }

  /** Inputs on which they differ: a text `x"meals":[}` cut at the token limit, for any first
      character x other than a quote or a brace, is repaired to
      `x"meals":[], "seasonalIngredients": [], "dishwareScore": 5}`, whose braces do not balance. */
  lemma RepairErrorWitness(x: char)
    requires x != '"' && x != '{' && x != '}'
    ensures var c := Completion(Some([x] + MealsMarker + "}"), "length");
      GenerateWeekOutcome(c) == Failure(Incomplete) && GenerateWeekIntended(c) == Failure(Truncated)
  {
    var r := [x] + MealsMarker + "}";
    MarkerRepairs(x);
    assert r[..|r|] == r;
    assert Text.CountChar(r, '{') == 0 && Text.CountChar(r, '}') == 1 by {
      assert '{' !in MealsMarker && '}' !in MealsMarker;
      assert multiset(r) == multiset([x]) + multiset(MealsMarker) + multiset("}");
    }
    RepairUnbalancedFails(r);
  }

  /** The text `x"meals":[}` ends in its only '}' and holds the meals marker at index 1. */
  lemma MarkerRepairs(x: char)
    requires x != '"'
    ensures var r := [x] + MealsMarker + "}";
      Text.LastIndexOfChar(r, '}') == |r| - 1 && Repair(r).Some?
  {
    var r := [x] + MealsMarker + "}";
    assert r[|r| - 1] == '}';
    assert r[..|r|] == r;
    assert Text.OccursAt(r, MealsMarker, 1) by {
      assert r[1..1 + |MealsMarker|] == MealsMarker;
    }
    assert !Text.OccursAt(r, MealsMarker, 0) by {
      assert r[0] != MealsMarker[0];
    }
  }

  /** A repaired text whose kept part leaves the braces unbalanced fails the balance check. */
  lemma RepairUnbalancedFails(r: string)
    requires r != "" && Repair(r).Some?
    requires var kept := r[..Text.LastIndexOfChar(r, '}') + 1];
      Text.CountChar(kept, '{') != Text.CountChar(kept, '}')
    ensures var c := Completion(Some(r), "length");
      GenerateWeekOutcome(c) == Failure(Incomplete) && GenerateWeekIntended(c) == Failure(Truncated)
  {
    RepairBalance(r);
  }

  /** replaceMeal and getAlternativeWithoutIngredient: the finish reason is never looked at. */
  function SingleMealOutcome(c: Completion): (r: Result<GeneratedWeek, AiError>)
    ensures r != Failure(Truncated)
  {
    if c.content.None? || c.content.value == "" then Failure(NoResponse)
    else ParseResponse(c.content.value)
  }

  /** Unlike a week, a single meal is never repaired: a completion cut off at the token limit
      is parsed as it is, and only its text decides the outcome. */
  lemma SingleMealIgnoresFinish(content: Option<string>, reason: string)
    ensures SingleMealOutcome(Completion(content, reason)) == SingleMealOutcome(Completion(content, "stop"))
    ensures content.Some? && content.value != "" ==>
      SingleMealOutcome(Completion(content, reason)) == GenerateWeekOutcome(Completion(content, "stop"))
  {
  }

  /** The repaired text passes the balance check exactly when the text kept up to and including
      its last '}' closes every brace and leaves exactly one bracket (the meals array) open. */
  lemma RepairBalance(response: string)
    requires Repair(response).Some?
    ensures var l := Text.LastIndexOfChar(response, '}');
      var kept := response[..l + 1];
      ParseResponse(Repair(response).value) != Failure(Incomplete) <==>
        Text.CountChar(kept, '{') == Text.CountChar(kept, '}') &&
        Text.CountChar(kept, '[') == Text.CountChar(kept, ']') + 1
  {
    var l := Text.LastIndexOfChar(response, '}');
    assert response[..l + 1] == response[..l] + ['}'];
    SuffixCounts();
    BalanceAfterCut(response[..l], RepairSuffix);
    CleanedBalance(Repair(response).value);
  }

  /** Counting in a prefix followed by a suffix that holds no '{', one '}', one '[' and two ']'. */
  lemma BalanceAfterCut(p: string, suffix: string)
    requires multiset(suffix)['{'] == 0 && multiset(suffix)['}'] == 1
    requires multiset(suffix)['['] == 1 && multiset(suffix)[']'] == 2
    ensures Balanced(p + suffix) <==>
      Text.CountChar(p + ['}'], '{') == Text.CountChar(p + ['}'], '}') &&
      Text.CountChar(p + ['}'], '[') == Text.CountChar(p + ['}'], ']') + 1
  {
    assert multiset(p + suffix) == multiset(p) + multiset(suffix);
    assert multiset(p + ['}']) == multiset(p) + multiset{'}'};
  }

  /** The repair suffix closes one array and one object and opens one (empty) array. */
  lemma SuffixCounts()
    ensures multiset(RepairSuffix)['{'] == 0 && multiset(RepairSuffix)['}'] == 1
    ensures multiset(RepairSuffix)['['] == 1 && multiset(RepairSuffix)[']'] == 2
  {
    MembersUnbracketed();
    SuffixShape(SeasonalMember, ScoreMember);
  }

  /** No brace or bracket occurs in the text. */
  predicate Unbracketed(s: string) {
    '{' !in s && '}' !in s && '[' !in s && ']' !in s
  }

  lemma MembersUnbracketed()
    ensures Unbracketed(SeasonalMember) && Unbracketed(ScoreMember)
  {
    assert Unbracketed(SeasonalMember);
  }

  lemma SuffixShape(a: string, b: string)
    requires Unbracketed(a) && Unbracketed(b)
    ensures var m := multiset("]" + a + "[]" + b + "}");
      m['{'] == 0 && m['}'] == 1 && m['['] == 1 && m[']'] == 2
  {
    assert multiset("]" + a + "[]" + b + "}") == multiset("]") + multiset(a) + multiset("[]") + multiset(b) + multiset("}");
  }
}
