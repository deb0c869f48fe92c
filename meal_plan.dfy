/** The meal-plan server actions of lib/actions/meal-plan.ts. generateMealPlan upserts the plan
    of a week, deletes its meals, lists the slots still to come (lunch and dinner of every day
    from the later of the week start and today) and asks the single-meal generator for each slot
    in turn; the single-slot operations replace, clear, assign and find-or-create one meal. The
    generators are inputs (functions from their arguments to an outcome); the session user is an
    input, None when there is no session. */
module MealPlanActions {
  import opened Wrappers
  import opened Time
  import Text
  import Json
  import Utils
  import Prompts
  import opened AiClient
  import opened Store

  // ---------------------------------------------------------------- the slot calendar

  /** A slot to generate: a day and a meal type (the calendar only makes lunches and dinners). */
  datatype Slot = Slot(day: int, mealType: MealType)

  /** Lunch then dinner for each of the n days from the first. */
  function CalendarSlots(first: int, n: nat): (s: seq<Slot>)
    ensures |s| == 2 * n
  {
    if n == 0 then []
    else CalendarSlots(first, n - 1) + [Slot(first + n - 1, Lunch), Slot(first + n - 1, Dinner)]
  }

  lemma {:induction false} CalendarSlotsAt(first: int, n: nat, k: nat)
    requires k < n
    ensures CalendarSlots(first, n)[2 * k] == Slot(first + k, Lunch)
    ensures CalendarSlots(first, n)[2 * k + 1] == Slot(first + k, Dinner)
  {
    if k < n - 1 {
      CalendarSlotsAt(first, n - 1, k);
    }
  }

  /** Slot i is on the (i / 2)-th day; even slots are lunches and odd ones dinners, so no slot is
      a breakfast. */
  lemma CalendarShape(first: int, n: nat)
    ensures var s := CalendarSlots(first, n);
      forall i :: 0 <= i < |s| ==>
        s[i].day == first + i / 2 && s[i].mealType == (if i % 2 == 0 then Lunch else Dinner)
  {
    var s := CalendarSlots(first, n);
    forall i | 0 <= i < |s|
      ensures s[i].day == first + i / 2 && s[i].mealType == (if i % 2 == 0 then Lunch else Dinner)
    {
      CalendarSlotsAt(first, n, i / 2);
    }
  }

  /** The loop that fills mealsToGenerate: from midnight of the later of the week start and
      today, a lunch and a dinner per day while the day is not past the end of the week. The
      week start is at midnight and the end is 23:59:59.999 of its sixth day after. */
  method SlotCalendar(start: int, end: int, now: int) returns (slots: seq<Slot>)
    requires TimeInDay(start) == 0 && end == EndOfDay(Day(start) + 6)
    ensures slots == CalendarSlots(Prompts.FirstListedDay(Day(start), Day(now)),
                                   Prompts.RemainingDays(Day(start), Day(now)))
  {
    var today := Midnight(now);
    assert today == Day(now) * MsPerDay;
    MidnightIsDayStart(start);
    var actualStart := if start < today then today else start;
    ghost var first := Prompts.FirstListedDay(Day(start), Day(now));
    assert actualStart == first * MsPerDay;
    slots := [];
    var current := actualStart;
    ghost var n: nat := 0;
    while current <= end
      invariant current == (first + n) * MsPerDay
      invariant first + n <= Day(start) + 7 || n == 0
      invariant slots == CalendarSlots(first, n)
      decreases end - current
    {
      DayOfShift(0, first + n);
      slots := slots + [Slot(Day(current), Lunch), Slot(Day(current), Dinner)];
      current := current + MsPerDay;
      n := n + 1;
    }
  }

  // ---------------------------------------------------------------- one slot, and the run

  /** What the single-meal generator does for a slot: it throws, or returns a list of meals. */
  datatype GenOutcome = Threw | Returned(meals: seq<GeneratedMeal>)

  /** A meal row as the run creates it: instant, meal type, the name of its recipe (None for an
      empty slot) and preparation time. */
  datatype Row = Row(date: int, mealType: string, recipe: Option<string>, prepTime: Option<real>)

  /** The state the loop carries: rows created so far, the rolling recent meals, the count of
      meals with meat (only logged) and the count of meals created. */
  datatype RunState = RunState(rows: seq<Row>, recent: seq<string>, meatMeals: nat, created: nat)

  /** The hour a slot's row is stored at: noon for lunch, 19:00 otherwise. */
  function SlotHour(t: MealType): int {
    if t == Lunch then 12 else 19
  }

  /** The row that stands for a slot whose generation threw. */
  function EmptyRow(s: Slot): Row {
    Row(AtHour(s.day, SlotHour(s.mealType)), MealTypeName(s.mealType), None, None)
  }

  const RecentLimit: nat := 30

  /** unshift of a new name, then the first 30 entries when the list grew past 30. */
  function PushRecent(name: string, recent: seq<string>): (r: seq<string>)
    ensures |r| <= RecentLimit || r == [name] + recent
    ensures |r| == if |recent| + 1 > RecentLimit then RecentLimit else |recent| + 1
    ensures r[0] == name && forall i :: 1 <= i < |r| ==> r[i] == recent[i - 1]
  {
    var l := [name] + recent;
    if |l| > RecentLimit then l[..RecentLimit] else l
  }

  const MeatKeywords: seq<string> :=
    ["viande", "boeuf", "porc", "poulet", "agneau", "steak", "saucisse", "jambon", "lard"]

  /** A meal counts as meat when the lower-cased name of one of its ingredients contains one of
      the keywords. */
  predicate HasMeat(m: GeneratedMeal) {
    exists i, k :: 0 <= i < |m.ingredients| && 0 <= k < |MeatKeywords| &&
      Text.Contains(Text.ToLower(m.ingredients[i].name), MeatKeywords[k])
  }

  /** One iteration of the loop. A generator that throws gives an empty row for the slot's own
      date and type; an empty list of meals skips the slot; otherwise the first meal is used: it
      is counted when it has meat, and its row takes the date the generator gave (at the slot's
      hour) and the generated meal type, with preparation plus cooking time. A date that does not
      parse makes the row creation throw, which also gives the slot's empty row. Only a created
      meal enters the recent meals. */
  function Step(st: RunState, s: Slot, out: GenOutcome): RunState {
    match out
    case Threw => st.(rows := st.rows + [EmptyRow(s)])
    case Returned(meals) =>
      if meals == [] then st
      else
        var m := meals[0];
        var meat := if HasMeat(m) then st.meatMeals + 1 else st.meatMeals;
        match ParseIsoDay(m.date)
        case None => st.(rows := st.rows + [EmptyRow(s)], meatMeals := meat)
        case Some(d) =>
          var row := Row(AtHour(d, SlotHour(s.mealType)), MealTypeName(m.mealType), Some(m.name),
                         Some(m.prepTime + m.cookTime));
          RunState(st.rows + [row], PushRecent(m.name, st.recent), meat, st.created + 1)
  }

  /** The single-meal generator: the context (with the current recent meals), the slot's day
      and its meal type. */
  type Generator = (Prompts.Context, int, MealType) -> GenOutcome

  /** The outcome the generator gives for a slot when the recent meals are as in st. */
  function Ask(gen: Generator, ctx: Prompts.Context, st: RunState, s: Slot): GenOutcome {
    gen(ctx.(recentMeals := st.recent), s.day, s.mealType)
  }

  /** The loop over the slots, in calendar order. */
  function Run(slots: seq<Slot>, ctx: Prompts.Context, gen: Generator): RunState {
    if slots == [] then RunState([], ctx.recentMeals, 0, 0)
    else
      var st := Run(slots[..|slots| - 1], ctx, gen);
      var s := slots[|slots| - 1];
      Step(st, s, Ask(gen, ctx, st, s))
  }

  /** Each iteration adds at most one row and never changes an earlier one, so the rows of the
      first slots are a prefix of the rows of all of them and there are at most as many rows as
      slots; the meals created are among the rows. */
  lemma {:induction false} RunPrefix(slots: seq<Slot>, i: nat, ctx: Prompts.Context, gen: Generator)
    requires i <= |slots|
    ensures var all := Run(slots, ctx, gen); var part := Run(slots[..i], ctx, gen);
      |part.rows| <= |all.rows| && all.rows[..|part.rows|] == part.rows
    ensures |Run(slots, ctx, gen).rows| <= |slots|
    ensures Run(slots, ctx, gen).created <= |Run(slots, ctx, gen).rows|
  {
    if slots != [] {
      var init := slots[..|slots| - 1];
      assert slots[..|slots|][..i] == slots[..i];
      if i < |slots| {
        assert init[..i] == slots[..i];
        RunPrefix(init, i, ctx, gen);
      } else {
        assert slots[..i] == slots;
      }
      RunPrefix(init, |init|, ctx, gen);
      assert init[..|init|] == init;
    }
  }

  /** The recent meals never exceed 30 entries once a meal was created, and stay as given
      while none was. */
  lemma {:induction false} RunRecent(slots: seq<Slot>, ctx: Prompts.Context, gen: Generator)
    ensures var st := Run(slots, ctx, gen);
      (st.created == 0 ==> st.recent == ctx.recentMeals) && (st.created > 0 ==> |st.recent| <= RecentLimit)
  {
    if slots != [] {
      RunRecent(slots[..|slots| - 1], ctx, gen);
    }
  }

  /** When the generator never returns an empty list, every slot gets exactly one row. */
  lemma {:induction false} RunFillsEverySlot(slots: seq<Slot>, ctx: Prompts.Context, gen: Generator)
    requires forall c, d, t :: gen(c, d, t) != Returned([])
    ensures |Run(slots, ctx, gen).rows| == |slots|
  {
    if slots != [] {
      RunFillsEverySlot(slots[..|slots| - 1], ctx, gen);
    }
  }

  /** A slot whose generator returns no meal gets no row: with a generator that always returns
      an empty list, the run creates nothing. */
  lemma {:induction false} RunSkipsEmpty(slots: seq<Slot>, ctx: Prompts.Context, gen: Generator)
    requires forall c, d, t :: gen(c, d, t) == Returned([])
    ensures Run(slots, ctx, gen) == RunState([], ctx.recentMeals, 0, 0)
  {
    if slots != [] {
      RunSkipsEmpty(slots[..|slots| - 1], ctx, gen);
    }
  }

  /** A failure never aborts the run: when every generation throws, each slot gets its empty
      row, in calendar order, and the recent meals are left as they were. */
  lemma {:induction false} RunAllThrow(slots: seq<Slot>, ctx: Prompts.Context, gen: Generator)
    requires forall c, d, t :: gen(c, d, t) == Threw
    ensures var st := Run(slots, ctx, gen);
      |st.rows| == |slots| && st.recent == ctx.recentMeals && st.created == 0 &&
      forall i :: 0 <= i < |slots| ==> st.rows[i] == EmptyRow(slots[i])
  {
    if slots != [] {
      RunAllThrow(slots[..|slots| - 1], ctx, gen);
    }
  }

  /** With a calendar of slots and a generator that always throws, the plan gets, for each
      listed day, an empty lunch at noon and an empty dinner at 19:00. */
  lemma EmptyGrid(first: int, n: nat, ctx: Prompts.Context, gen: Generator, k: nat)
    requires forall c, d, t :: gen(c, d, t) == Threw
    requires k < n
    ensures var rows := Run(CalendarSlots(first, n), ctx, gen).rows;
      |rows| == 2 * n &&
      rows[2 * k] == Row(AtHour(first + k, 12), "lunch", None, None) &&
      rows[2 * k + 1] == Row(AtHour(first + k, 19), "dinner", None, None)
  {
    RunAllThrow(CalendarSlots(first, n), ctx, gen);
    CalendarSlotsAt(first, n, k);
  }

  // ---------------------------------------------------------------- the store queries

  /** The ids below n of the rows satisfying p, in increasing order (the order findMany and
      findFirst return rows in). */
  function IdsWhere<T>(m: map<Id, T>, n: nat, p: (Id, T) -> bool): (ids: seq<Id>)
    ensures forall i :: 0 <= i < |ids| ==> ids[i] in m && ids[i] < n && p(ids[i], m[ids[i]])
    ensures forall id :: id in m && id < n && p(id, m[id]) ==> id in ids
    ensures forall i, j :: 0 <= i < j < |ids| ==> ids[i] < ids[j]
  {
    if n == 0 then []
    else IdsWhere(m, n - 1, p) + (if n - 1 in m && p(n - 1, m[n - 1]) then [n - 1] else [])
  }

  /** findFirst: the row with the least id satisfying p. */
  function FirstWhere<T>(m: map<Id, T>, n: nat, p: (Id, T) -> bool): (r: Option<Id>)
    ensures r.None? <==> forall id :: id in m && id < n ==> !p(id, m[id])
    ensures r.Some? ==> r.value in m && r.value < n && p(r.value, m[r.value])
    ensures r.Some? ==> forall id :: id in m && id < r.value && p(id, m[id]) ==> false
  {
    var ids := IdsWhere(m, n, p);
    if ids == [] then None
    else
      assert forall id :: id in m && id < ids[0] && p(id, m[id]) ==> id in ids;
      Some(ids[0])
  }

  /** A meal that counts among the recent meals: of a plan of the household, dated at or after
      `since`, with a recipe whose name is not empty, and not the excluded meal. */
  predicate IsRecent(plans: map<Id, MealPlan>, recipes: map<Id, Recipe>, h: Id, since: int,
                     exclude: Option<Id>, id: Id, m: Meal)
  {
    Some(id) != exclude && m.mealPlanId in plans && plans[m.mealPlanId].householdId == h &&
    m.date >= since && m.recipeId.Some? && m.recipeId.value in recipes &&
    recipes[m.recipeId.value].name != ""
  }

  /** The recipe name of a meal that has a recipe. */
  function RecipeName(meals: map<Id, Meal>, recipes: map<Id, Recipe>, id: Id): string
    requires id in meals && meals[id].recipeId.Some? && meals[id].recipeId.value in recipes
  {
    recipes[meals[id].recipeId.value].name
  }

  /** The recipe names of the household's recent meals with ids below n, in id order. */
  function RecentMealNames(meals: map<Id, Meal>, plans: map<Id, MealPlan>, recipes: map<Id, Recipe>,
                           n: nat, h: Id, since: int, exclude: Option<Id>): (r: seq<string>)
    ensures |r| <= n
  {
    if n == 0 then []
    else
      RecentMealNames(meals, plans, recipes, n - 1, h, since, exclude) +
      (if n - 1 in meals && IsRecent(plans, recipes, h, since, exclude, n - 1, meals[n - 1])
       then [RecipeName(meals, recipes, n - 1)] else [])
  }

  /** A name is among the recent names exactly when it is the recipe name of a recent meal,
      so the excluded meal (the one being replaced) never contributes. */
  lemma {:induction false} RecentMealNamesSound(meals: map<Id, Meal>, plans: map<Id, MealPlan>,
                                                recipes: map<Id, Recipe>, n: nat, h: Id, since: int,
                                                exclude: Option<Id>, name: string)
    ensures name in RecentMealNames(meals, plans, recipes, n, h, since, exclude) <==>
      exists id :: id in meals && id < n && IsRecent(plans, recipes, h, since, exclude, id, meals[id]) &&
        name == RecipeName(meals, recipes, id)
  {
    if n > 0 {
      RecentMealNamesSound(meals, plans, recipes, n - 1, h, since, exclude, name);
    }
  }

  /** The names of the household's banned ingredients, in the order of the bans. */
  function BannedNames(bans: map<Id, Ban>, ingredients: map<Id, IngredientRow>, n: nat, h: Id): seq<string> {
    var ids := IdsWhere(bans, n, (id: Id, b: Ban) => b.householdId == h && b.ingredientId in ingredients);
    seq(|ids|, i requires 0 <= i < |ids| => ingredients[bans[ids[i]].ingredientId].name)
  }

  /** The household's calendar constraints, all of them or those dated within the window, as the
      prompts take them: the day key of the date, the kind, and the description unless empty. */
  function HouseholdConstraints(constraints: map<Id, CalendarConstraint>, n: nat, h: Id,
                                window: Option<(int, int)>): seq<Prompts.Constraint>
  {
    var ids := IdsWhere(constraints, n, (id: Id, c: CalendarConstraint) =>
      c.householdId == h && (window.None? || window.value.0 <= c.date <= window.value.1));
    seq(|ids|, i requires 0 <= i < |ids| =>
      var c := constraints[ids[i]];
      Prompts.Constraint(IsoDateKey(c.date), c.kind, if c.description == Some("") then None else c.description))
  }

  /** The value of the household's preference with this key (preferences.find). */
  function PreferenceValue(preferences: map<Id, Preference>, n: nat, h: Id, key: string): Option<string> {
    match FirstWhere(preferences, n, (id: Id, p: Preference) => p.householdId == h && p.key == key)
    case None => None
    case Some(id) => Some(preferences[id].value)
  }

  /** A preference as the context reads it: JSON.parse of the stored value when there is one
      and it is not empty (None when the parse throws), otherwise the default (`[]` for the
      lists, undefined for the meat frequency). The parsed value may be of any JSON type. */
  function ParsedPreference(v: Option<string>, default: Option<Json.Json>): (r: Option<Option<Json.Json>>)
    ensures r.None? <==> v.Some? && v.value != "" && Json.Parse(v.value).None?
    ensures v.None? || v.value == "" ==> r == Some(default)
  {
    if v.None? || v.value == "" then Some(default)
    else
      match Json.Parse(v.value)
      case None => None
      case Some(j) => Some(Some(j))
  }

  /** A list stored as JSON.stringify of it reads back as the array of its strings (which the
      week prompt renders as the list itself, by Prompts.PreferenceTextOfStrings). */
  lemma PreferenceListRoundTrip(xs: seq<string>, default: Option<Json.Json>)
    ensures ParsedPreference(Some(Json.StringifyStrings(xs)), default) == Some(Some(Json.JArray(Json.JStrings(xs))))
  {
    var text := Json.StringifyStrings(xs);
    assert text[0] == '[';
    Json.StringifyStringsRoundTrip(xs);
    ListOfArray(text, Json.JStrings(xs), default);
  }

  /** A non-empty stored value that parses reads as its parsed value. */
  lemma ListOfArray(text: string, items: seq<Json.Json>, default: Option<Json.Json>)
    requires text != "" && Json.Parse(text) == Some(Json.JArray(items))
    ensures ParsedPreference(Some(text), default) == Some(Some(Json.JArray(items)))
  {
  }

  /** A count stored as JSON.stringify of it reads back as the same number. */
  lemma PreferenceCountRoundTrip(k: int)
    ensures ParsedPreference(Some(Json.StringifyInt(k)), None) == Some(Some(Json.JNumber(k as real)))
  {
    Json.StringifyIntRoundTrip(k);
    CountOfNumber(Json.StringifyInt(k), k as real);
  }

  /** A stored meat frequency that parses to a number is that number, whole or not. */
  lemma CountOfNumber(text: string, x: real)
    requires text != "" && Json.Parse(text) == Some(Json.JNumber(x))
    ensures ParsedPreference(Some(text), None) == Some(Some(Json.JNumber(x)))
  {
  }

  /** The MealGenerationContext both actions build from the household's rows; None when one of
      the JSON.parse calls throws. The meat frequency is read only by generateMealPlan. */
  function HouseholdContext(db: Db, h: Id, recent: seq<string>, constraints: seq<Prompts.Constraint>,
                            withMeat: bool): Option<Prompts.Context>
    reads db
  {
    ContextOf(BannedNames(db.bans, db.ingredients, db.nextId, h), recent,
      PreferenceValue(db.preferences, db.nextId, h, "diet"), PreferenceValue(db.preferences, db.nextId, h, "allergies"),
      PreferenceValue(db.preferences, db.nextId, h, "objectives"),
      PreferenceValue(db.preferences, db.nextId, h, "timeConstraints"),
      if withMeat then PreferenceValue(db.preferences, db.nextId, h, "meatFrequency") else None, constraints)
  }

  /** The context of the stored values of the four list preferences and of the meat frequency
      (None when it is not read). */
  function ContextOf(banned: seq<string>, recent: seq<string>, diet: Option<string>, allergies: Option<string>,
                     objectives: Option<string>, times: Option<string>, meat: Option<string>,
                     constraints: seq<Prompts.Constraint>): Option<Prompts.Context>
  {
    var d := ParsedPreference(diet, Some(Json.JArray([])));
    var a := ParsedPreference(allergies, Some(Json.JArray([])));
    var o := ParsedPreference(objectives, Some(Json.JArray([])));
    var t := ParsedPreference(times, Some(Json.JArray([])));
    var m := ParsedPreference(meat, None);
    if d.None? || a.None? || o.None? || t.None? || m.None? then None
    else Some(Prompts.Context(banned, recent, d.value, a.value, o.value, t.value, m.value, Some(constraints)))
  }

  /** A stored preference value on which JSON.parse throws. */
  predicate Unparsable(v: Option<string>) {
    v.Some? && v.value != "" && Json.Parse(v.value).None?
  }

  /** Building the context fails exactly when one of the values it reads is not JSON text.
      Otherwise every value is carried as parsed, whatever its JSON type: a value the prompt
      cannot join makes the generator throw later, not the action. */
  lemma ContextFailsOnlyOnParse(banned: seq<string>, recent: seq<string>, diet: Option<string>,
                                allergies: Option<string>, objectives: Option<string>, times: Option<string>,
                                meat: Option<string>, constraints: seq<Prompts.Constraint>)
    ensures var ctx := ContextOf(banned, recent, diet, allergies, objectives, times, meat, constraints);
      ctx.None? <==> Unparsable(diet) || Unparsable(allergies) || Unparsable(objectives) || Unparsable(times) || Unparsable(meat)
    ensures var ctx := ContextOf(banned, recent, diet, allergies, objectives, times, meat, constraints);
      ctx.Some? ==>
        Some(ctx.value.diet) == ParsedPreference(diet, Some(Json.JArray([]))) &&
        Some(ctx.value.allergies) == ParsedPreference(allergies, Some(Json.JArray([]))) &&
        Some(ctx.value.objectives) == ParsedPreference(objectives, Some(Json.JArray([]))) &&
        Some(ctx.value.timeConstraints) == ParsedPreference(times, Some(Json.JArray([]))) &&
        Some(ctx.value.meatFrequency) == ParsedPreference(meat, None)
  {
  }

  const ThirtyDays: int := 30 * MsPerDay

  /** generateMealPlan's context: recent meals of the last 30 days, and the constraints dated
      from the week start as given (before its normalisation) to six days later. */
  function WeekContext(db: Db, h: Id, rawStart: int, now: int): Option<Prompts.Context>
    reads db
  {
    var recent := RecentMealNames(db.meals, db.plans, db.recipes, db.nextId, h, now - ThirtyDays, None);
    var window := (rawStart, Utils.GetWeekEnd(rawStart));
    HouseholdContext(db, h, recent, HouseholdConstraints(db.constraints, db.nextId, h, Some(window)), true)
  }

  // ---------------------------------------------------------------- creating a generated meal

  /** findUnique on ingredients by exact name, and create with category "other" and the given
      unit when there is none. */
  method FindOrCreateIngredient(db: Db, name: string, unit: string) returns (id: Id)
    requires db.Valid()
    modifies db`ingredients, db`nextId
    ensures db.Valid() && old(db.nextId) <= db.nextId
    ensures id in db.ingredients && db.ingredients[id].name == name
    ensures (exists k :: k in old(db.ingredients) && old(db.ingredients)[k].name == name) ==>
      db.ingredients == old(db.ingredients)
    ensures (forall k :: k in old(db.ingredients) ==> old(db.ingredients)[k].name != name) ==>
      id !in old(db.ingredients) && db.ingredients == old(db.ingredients)[id := IngredientRow(name, "other", unit)]
    ensures Extends(old(db.ingredients), db.ingredients)
    ensures forall k :: k in db.ingredients && k !in old(db.ingredients) ==>
      db.ingredients[k].category == "other" && db.ingredients[k].name == name
  {
    if k :| k in db.ingredients && db.ingredients[k].name == name {
      id := k;
    } else {
      id := CreateIngredient(db, IngredientRow(name, "other", unit));
    }
  }

  /** ing.notes || null: an empty note is stored as none. */
  function NotesOf(notes: Option<string>): Option<string> {
    if notes == Some("") then None else notes
  }

  /** The recipe lines name, in order, ingredients with the generated names, and carry the
      generated quantities, units and notes. */
  predicate LinesFor(ingredients: map<Id, IngredientRow>, lines: seq<RecipeLine>, ings: seq<Ingredient>) {
    |lines| == |ings| &&
    forall i :: 0 <= i < |ings| ==>
      lines[i].ingredientId in ingredients && ingredients[lines[i].ingredientId].name == ings[i].name &&
      lines[i] == RecipeLine(lines[i].ingredientId, ings[i].quantity, ings[i].unit, NotesOf(ings[i].notes))
  }

  /** Every ingredient row in after but not in before was created, with category "other", for
      one of the given ingredients. */
  predicate CreatedFor(before: map<Id, IngredientRow>, after: map<Id, IngredientRow>, ings: seq<Ingredient>) {
    forall id :: id in after && id !in before ==>
      after[id].category == "other" && exists j :: 0 <= j < |ings| && ings[j].name == after[id].name
  }

  /** One find-or-create keeps LinesFor and CreatedFor for the ingredients handled so far. */
  lemma IngredientStep(before: map<Id, IngredientRow>, mid: map<Id, IngredientRow>, after: map<Id, IngredientRow>,
                       lines: seq<RecipeLine>, ings: seq<Ingredient>, i: nat, id: Id)
    requires i < |ings|
    requires Extends(before, mid) && Extends(mid, after)
    requires LinesFor(mid, lines, ings[..i]) && CreatedFor(before, mid, ings[..i])
    requires id in after && after[id].name == ings[i].name
    requires forall k :: k in after && k !in mid ==> after[k].category == "other" && after[k].name == ings[i].name
    ensures LinesFor(after, lines + [RecipeLine(id, ings[i].quantity, ings[i].unit, NotesOf(ings[i].notes))], ings[..i + 1])
    ensures CreatedFor(before, after, ings[..i + 1])
    ensures Extends(before, after)
  {
    assert ings[..i + 1] == ings[..i] + [ings[i]];
    IngredientAppend(before, mid, after, lines, ings[..i], ings[i], id);
  }

  lemma IngredientAppend(before: map<Id, IngredientRow>, mid: map<Id, IngredientRow>, after: map<Id, IngredientRow>,
                         lines: seq<RecipeLine>, done: seq<Ingredient>, ing: Ingredient, id: Id)
    requires Extends(before, mid) && Extends(mid, after)
    requires LinesFor(mid, lines, done) && CreatedFor(before, mid, done)
    requires id in after && after[id].name == ing.name
    requires forall k :: k in after && k !in mid ==> after[k].category == "other" && after[k].name == ing.name
    ensures LinesFor(after, lines + [RecipeLine(id, ing.quantity, ing.unit, NotesOf(ing.notes))], done + [ing])
    ensures CreatedFor(before, after, done + [ing])
    ensures Extends(before, after)
  {
    var done' := done + [ing];
    forall k | k in after && k !in before
      ensures after[k].category == "other" && exists j :: 0 <= j < |done'| && done'[j].name == after[k].name
    {
      if k in mid {
        var j :| 0 <= j < |done| && done[j].name == mid[k].name;
        assert done'[j] == done[j];
      } else {
        assert done'[|done|] == ing;
      }
    }
  }

  /** The find-or-create of every ingredient of a generated meal, one after the other. */
  method IngredientLines(db: Db, ings: seq<Ingredient>) returns (lines: seq<RecipeLine>)
    requires db.Valid()
    modifies db`ingredients, db`nextId
    ensures db.Valid() && old(db.nextId) <= db.nextId
    ensures Extends(old(db.ingredients), db.ingredients)
    ensures LinesFor(db.ingredients, lines, ings)
    ensures CreatedFor(old(db.ingredients), db.ingredients, ings)
  {
    lines := [];
    for i := 0 to |ings|
      invariant db.Valid() && old(db.nextId) <= db.nextId
      invariant Extends(old(db.ingredients), db.ingredients)
      invariant LinesFor(db.ingredients, lines, ings[..i])
      invariant CreatedFor(old(db.ingredients), db.ingredients, ings[..i])
    {
      ghost var mid := db.ingredients;
      var id := FindOrCreateIngredient(db, ings[i].name, ings[i].unit);
      IngredientStep(old(db.ingredients), mid, db.ingredients, lines, ings, i, id);
      lines := lines + [RecipeLine(id, ings[i].quantity, ings[i].unit, NotesOf(ings[i].notes))];
    }
    assert ings[..|ings|] == ings;
  }

  /** The recipe stored for a generated meal: an empty description is stored as none, the tags
      as their JSON text, and the recipe is marked as generated with the given prompt version. */
  function RecipeOf(m: GeneratedMeal, lines: seq<RecipeLine>, version: string): Recipe {
    Recipe(m.name, if m.description == "" then None else Some(m.description), m.instructions,
      m.dishwareTips, m.prepTime, m.cookTime, m.servings, Utils.StringifyTags(m.tags), true, version, lines)
  }

  /** A stored meal as a row of the run. */
  function RowOf(meals: map<Id, Meal>, recipes: map<Id, Recipe>, id: Id): Row
    requires id in meals
  {
    var m := meals[id];
    Row(m.date, m.mealType,
      if m.recipeId.Some? && m.recipeId.value in recipes then Some(recipes[m.recipeId.value].name) else None,
      m.prepTime)
  }

  predicate RowsAre(meals: map<Id, Meal>, recipes: map<Id, Recipe>, ids: seq<Id>, rows: seq<Row>) {
    |ids| == |rows| && forall k :: 0 <= k < |ids| ==> ids[k] in meals && RowOf(meals, recipes, ids[k]) == rows[k]
  }

  /** Rows keep what they show while their meals are untouched and recipes are only added. */
  lemma RowsStable(meals: map<Id, Meal>, recipes: map<Id, Recipe>, meals': map<Id, Meal>,
                   recipes': map<Id, Recipe>, ids: seq<Id>, rows: seq<Row>)
    requires RowsAre(meals, recipes, ids, rows) && MealRecipesExist(meals, recipes)
    requires forall k :: 0 <= k < |ids| ==> ids[k] in meals' && meals'[ids[k]] == meals[ids[k]]
    requires Extends(recipes, recipes')
    ensures RowsAre(meals', recipes', ids, rows)
  {
    forall k | 0 <= k < |ids|
      ensures RowOf(meals', recipes', ids[k]) == rows[k]
    {
      assert RowOf(meals, recipes, ids[k]) == rows[k];
    }
  }

  /** The row a generated meal gives for a slot: at the generated date (the slot's hour), or
      the slot's empty row when that date does not parse. */
  function GeneratedRow(s: Slot, m: GeneratedMeal): Row {
    match ParseIsoDay(m.date)
    case None => EmptyRow(s)
    case Some(d) => Row(AtHour(d, SlotHour(s.mealType)), MealTypeName(m.mealType), Some(m.name),
                        Some(m.prepTime + m.cookTime))
  }

  /** Creates an empty meal row for a slot. */
  method CreateEmptyRow(db: Db, planId: Id, s: Slot) returns (id: Id)
    requires db.Valid()
    modifies db`meals, db`nextId
    ensures db.Valid() && db.nextId == old(db.nextId) + 1
    ensures id == old(db.nextId) && id !in old(db.meals)
    ensures db.meals == old(db.meals)[id := Meal(planId, AtHour(s.day, SlotHour(s.mealType)),
                                                 MealTypeName(s.mealType), None, None)]
    ensures RowOf(db.meals, db.recipes, id) == EmptyRow(s)
  {
    id := CreateMeal(db, Meal(planId, AtHour(s.day, SlotHour(s.mealType)), MealTypeName(s.mealType), None, None));
  }

  /** The body of the try block after the meat check: the ingredients, the recipe (prompt
      version "2.0"), then the meal row, which throws when the generated date does not parse and
      so leaves the slot's empty row instead. */
  method CreateGenerated(db: Db, planId: Id, s: Slot, m: GeneratedMeal) returns (id: Id)
    requires db.Valid()
    modifies db`meals, db`recipes, db`ingredients, db`nextId
    ensures db.Valid() && old(db.nextId) <= id < db.nextId
    ensures Extends(old(db.recipes), db.recipes)
    ensures id !in old(db.meals) && id in db.meals && db.meals == old(db.meals)[id := db.meals[id]]
    ensures db.meals[id].mealPlanId == planId
    ensures RowOf(db.meals, db.recipes, id) == GeneratedRow(s, m)
  {
    var lines := IngredientLines(db, m.ingredients);
    var recipeId := CreateRecipe(db, RecipeOf(m, lines, "2.0"));
    var day := ParseIsoDay(m.date);
    if day.None? {
      id := CreateEmptyRow(db, planId, s);
    } else {
      id := CreateDatedRow(db, planId, s, m, day.value, recipeId);
    }
  }

  /** The meal row of a generated meal whose date parses, pointing at its recipe. */
  method CreateDatedRow(db: Db, planId: Id, s: Slot, m: GeneratedMeal, d: int, recipeId: Id) returns (id: Id)
    requires db.Valid() && recipeId in db.recipes && db.recipes[recipeId].name == m.name
    requires ParseIsoDay(m.date) == Some(d)
    modifies db`meals, db`nextId
    ensures db.Valid() && id == old(db.nextId) && db.nextId == id + 1
    ensures id !in old(db.meals) && id in db.meals && db.meals == old(db.meals)[id := db.meals[id]]
    ensures db.meals[id].mealPlanId == planId
    ensures RowOf(db.meals, db.recipes, id) == GeneratedRow(s, m)
  {
    id := CreateMeal(db, Meal(planId, AtHour(d, SlotHour(s.mealType)), MealTypeName(m.mealType),
                              Some(recipeId), Some(m.prepTime + m.cookTime)));
  }

  /** One iteration of generateMealPlan's loop, against Step: the row it creates, if any, is
      the row Step adds, and the recent meals and counters are Step's. */
  method FillSlot(db: Db, planId: Id, s: Slot, ctx: Prompts.Context, gen: Generator, ghost st: RunState,
                  recent: seq<string>, meatMeals: nat, created: nat)
    returns (row: Option<Id>, recent': seq<string>, meatMeals': nat, created': nat)
    requires db.Valid()
    requires recent == st.recent && meatMeals == st.meatMeals && created == st.created
    modifies db`meals, db`recipes, db`ingredients, db`nextId
    ensures db.Valid() && old(db.nextId) <= db.nextId
    ensures Extends(old(db.recipes), db.recipes)
    ensures row.None? ==> db.meals == old(db.meals)
    ensures row.Some? ==>
      old(db.nextId) <= row.value < db.nextId && row.value !in old(db.meals) && row.value in db.meals &&
      db.meals == old(db.meals)[row.value := db.meals[row.value]] && db.meals[row.value].mealPlanId == planId
    ensures var next := Step(st, s, Ask(gen, ctx, st, s));
      recent' == next.recent && meatMeals' == next.meatMeals && created' == next.created &&
      next.rows == st.rows + if row.Some? then [RowOf(db.meals, db.recipes, row.value)] else []
  {
    var out := gen(ctx.(recentMeals := recent), s.day, s.mealType);
    assert out == Ask(gen, ctx, st, s);
    row, recent', meatMeals', created' := None, recent, meatMeals, created;
    match out {
      case Threw =>
        var id := CreateEmptyRow(db, planId, s);
        row := Some(id);
      case Returned(meals) =>
        if meals != [] {
          var m := meals[0];
          StepGenerated(st, s, meals);
          if HasMeat(m) {
            meatMeals' := meatMeals + 1;
          }
          var id := CreateGenerated(db, planId, s, m);
          if ParseIsoDay(m.date).Some? {
            created' := created + 1;
            recent' := PushRecent(m.name, recent);
          }
          row := Some(id);
        }
    }
  }

  /** Step on a generated meal: its row, and the counters and recent meals it updates. */
  lemma StepGenerated(st: RunState, s: Slot, meals: seq<GeneratedMeal>)
    requires meals != []
    ensures var m := meals[0]; var next := Step(st, s, Returned(meals));
      next.rows == st.rows + [GeneratedRow(s, m)] &&
      next.meatMeals == (if HasMeat(m) then st.meatMeals + 1 else st.meatMeals) &&
      next.created == (if ParseIsoDay(m.date).Some? then st.created + 1 else st.created) &&
      next.recent == (if ParseIsoDay(m.date).Some? then PushRecent(m.name, st.recent) else st.recent)
  {
  }

  /** What the loop keeps about the meals created so far: they hold increasing ids from lo
      on, belong to the plan, and are, with the meals there were before, all the meals. */
  ghost predicate CreatedSoFar(before: map<Id, Meal>, lo: nat, meals: map<Id, Meal>, n: nat,
                               planId: Id, ids: seq<Id>)
  {
    (forall j, k :: 0 <= j < k < |ids| ==> ids[j] < ids[k]) &&
    (forall k :: 0 <= k < |ids| ==> lo <= ids[k] < n && ids[k] in meals && meals[ids[k]].mealPlanId == planId) &&
    (forall id :: id in meals <==> id in before || id in ids) &&
    (forall id :: id in before ==> id in meals && meals[id] == before[id])
  }

  /** One iteration keeps CreatedSoFar, and leaves the earlier meals as they were. */
  lemma SlotBookkeeping(before: map<Id, Meal>, lo: nat, meals0: map<Id, Meal>, meals1: map<Id, Meal>,
                        n0: nat, n1: nat, planId: Id, ids0: seq<Id>, ids1: seq<Id>, row: Option<Id>)
    requires KeysBelow(before, lo) && lo <= n0 && CreatedSoFar(before, lo, meals0, n0, planId, ids0)
    requires row.None? ==> meals1 == meals0 && n0 <= n1 && ids1 == ids0
    requires row.Some? ==>
      n0 <= row.value < n1 && row.value !in meals0 && row.value in meals1 &&
      meals1 == meals0[row.value := meals1[row.value]] && meals1[row.value].mealPlanId == planId &&
      ids1 == ids0 + [row.value]
    ensures CreatedSoFar(before, lo, meals1, n1, planId, ids1)
    ensures forall k :: 0 <= k < |ids0| ==> ids0[k] in meals1 && meals1[ids0[k]] == meals0[ids0[k]]
  {
    if row.Some? {
      forall id | id in meals1
        ensures id in before || id in ids1
      {
        if id != row.value {
          assert id in meals0;
        }
      }
      forall k | 0 <= k < |ids1|
        ensures lo <= ids1[k] < n1 && ids1[k] in meals1 && meals1[ids1[k]].mealPlanId == planId
      {
        if k < |ids0| {
          assert ids1[k] == ids0[k] && ids0[k] < n0;
        }
      }
    }
  }

  /** Appending a slot's row to the rows of the meals created so far. */
  lemma RowsAppend(meals: map<Id, Meal>, recipes: map<Id, Recipe>, ids0: seq<Id>, rows0: seq<Row>,
                   row: Option<Id>, ids1: seq<Id>, rows1: seq<Row>)
    requires RowsAre(meals, recipes, ids0, rows0)
    requires row.None? ==> ids1 == ids0 && rows1 == rows0
    requires row.Some? ==>
      row.value in meals && ids1 == ids0 + [row.value] && rows1 == rows0 + [RowOf(meals, recipes, row.value)]
    ensures RowsAre(meals, recipes, ids1, rows1)
  {
  }

  /** One more slot is one more step of the run. */
  lemma RunOneMore(slots: seq<Slot>, i: nat, ctx: Prompts.Context, gen: Generator)
    requires i < |slots|
    ensures var st := Run(slots[..i], ctx, gen);
      Run(slots[..i + 1], ctx, gen) == Step(st, slots[i], Ask(gen, ctx, st, slots[i]))
  {
    assert slots[..i + 1][..i] == slots[..i];
  }

  /** The loop of generateMealPlan over the slots, against Run: the meals it creates, in
      creation order, are the rows of the run, and no other meal changes. */
  method FillSlots(db: Db, planId: Id, slots: seq<Slot>, ctx: Prompts.Context, gen: Generator)
    returns (ids: seq<Id>, recent: seq<string>, meatMeals: nat, created: nat)
    requires db.Valid()
    modifies db`meals, db`recipes, db`ingredients, db`nextId
    ensures db.Valid()
    ensures var run := Run(slots, ctx, gen);
      recent == run.recent && meatMeals == run.meatMeals && created == run.created &&
      RowsAre(db.meals, db.recipes, ids, run.rows)
    ensures CreatedSoFar(old(db.meals), old(db.nextId), db.meals, db.nextId, planId, ids)
  {
    ids, recent, meatMeals, created := [], ctx.recentMeals, 0, 0;
    ghost var st := Run(slots[..0], ctx, gen);
    ghost var before, lo := db.meals, db.nextId;
    for i := 0 to |slots|
      invariant db.Valid() && lo <= db.nextId && KeysBelow(before, lo)
      invariant st == Run(slots[..i], ctx, gen)
      invariant recent == st.recent && meatMeals == st.meatMeals && created == st.created
      invariant RowsAre(db.meals, db.recipes, ids, st.rows)
      invariant CreatedSoFar(before, lo, db.meals, db.nextId, planId, ids)
    {
      ghost var meals0, recipes0, n0, ids0 := db.meals, db.recipes, db.nextId, ids;
      var row;
      row, recent, meatMeals, created := FillSlot(db, planId, slots[i], ctx, gen, st, recent, meatMeals, created);
      if row.Some? {
        ids := ids + [row.value];
      }
      SlotBookkeeping(before, lo, meals0, db.meals, n0, db.nextId, planId, ids0, ids, row);
      RowsStable(meals0, recipes0, db.meals, db.recipes, ids0, st.rows);
      ghost var next := Step(st, slots[i], Ask(gen, ctx, st, slots[i]));
      RowsAppend(db.meals, db.recipes, ids0, st.rows, row, ids, next.rows);
      RunOneMore(slots, i, ctx, gen);
      st := next;
    }
    assert slots[..|slots|] == slots;
  }

  // ---------------------------------------------------------------- generateMealPlan

  /** Why an action throws. */
  datatype ActionError =
    | NotAuthenticated      // "Non authentifié"
    | HouseholdNotFound     // "Foyer non trouvé ou accès refusé"
    | MealNotFound          // "Repas non trouvé"
    | MealNotFoundOrDenied  // "Repas non trouvé ou accès refusé"
    | RecipeNotFound        // "Recette non trouvée"
    | PreferenceNotJson     // JSON.parse throws on a stored preference
    | GeneratorThrew        // the generator's own error, passed on
    | NoReplacement         // "L'IA n'a pas pu proposer de repas de remplacement."
    | PlanMissing           // the meal plan a new meal names does not exist (foreign key)

  /** A plan of the household for this week start exists. */
  predicate HasPlanFor(plans: map<Id, MealPlan>, h: Id, start: int) {
    exists q :: q in plans && plans[q].householdId == h && plans[q].weekStart == start
  }

  /** The upsert on (householdId, weekStart): the existing plan keeps its id and gets the new
      week end, or a plan is created. */
  method UpsertPlan(db: Db, h: Id, start: int, end: int) returns (planId: Id)
    requires db.Valid()
    modifies db`plans, db`nextId
    ensures db.Valid() && old(db.nextId) <= db.nextId
    ensures db.plans == old(db.plans)[planId := MealPlan(h, start, end)]
    ensures planId in old(db.plans) <==> HasPlanFor(old(db.plans), h, start)
    ensures planId in old(db.plans) ==>
      old(db.plans)[planId].householdId == h && old(db.plans)[planId].weekStart == start
  {
    if q :| q in db.plans && db.plans[q].householdId == h && db.plans[q].weekStart == start {
      planId := q;
      db.plans := db.plans[q := MealPlan(h, start, end)];
    } else {
      planId := NewId(db);
      db.plans := db.plans[planId := MealPlan(h, start, end)];
    }
  }

  /** deleteMany on the plan's meals. */
  method DeletePlanMeals(db: Db, planId: Id)
    requires db.Valid()
    modifies db`meals
    ensures db.Valid()
    ensures forall id :: id in db.meals <==> id in old(db.meals) && old(db.meals)[id].mealPlanId != planId
    ensures forall id :: id in db.meals ==> db.meals[id] == old(db.meals)[id]
  {
    db.meals := map id | id in db.meals && db.meals[id].mealPlanId != planId :: db.meals[id];
  }

  /** After a regeneration the plan's meals are exactly the given ones, and every meal of
      another plan is as it was. */
  predicate Regenerated(before: map<Id, Meal>, after: map<Id, Meal>, planId: Id, ids: seq<Id>) {
    (forall k :: 0 <= k < |ids| ==> ids[k] in after && after[ids[k]].mealPlanId == planId) &&
    (forall id :: id in after && after[id].mealPlanId == planId ==> id in ids) &&
    (forall id :: id in before && before[id].mealPlanId != planId ==> id in after && after[id] == before[id]) &&
    (forall id :: id in after && after[id].mealPlanId != planId ==> id in before)
  }

  lemma RegeneratedOf(before: map<Id, Meal>, cleared: map<Id, Meal>, after: map<Id, Meal>, lo: nat, n: nat,
                      planId: Id, ids: seq<Id>)
    requires forall id :: id in cleared <==> id in before && before[id].mealPlanId != planId
    requires forall id :: id in cleared ==> cleared[id] == before[id]
    requires CreatedSoFar(cleared, lo, after, n, planId, ids)
    ensures Regenerated(before, after, planId, ids)
  {
  }

  datatype GeneratedPlan = GeneratedPlan(planId: Id, mealIds: seq<Id>)

  /** The slots of the week that starts at `start`, as seen on the day of `now`. */
  function WeekSlots(start: int, now: int): seq<Slot> {
    CalendarSlots(Prompts.FirstListedDay(Day(start), Day(now)), Prompts.RemainingDays(Day(start), Day(now)))
  }

  /** What a regeneration of the week starting at `start` leaves behind: the plan of
      (household, week start) upserted with that week's bounds, keeping its id when it existed,
      its old meals replaced by the given ones, and those meals showing the rows of Run over the
      week's slot calendar. */
  ghost predicate Regeneration(plans: map<Id, MealPlan>, plans': map<Id, MealPlan>,
                               meals: map<Id, Meal>, meals': map<Id, Meal>, recipes': map<Id, Recipe>,
                               householdId: Id, start: int, now: int, ctx: Prompts.Context, gen: Generator,
                               plan: GeneratedPlan)
  {
    plans' == plans[plan.planId := MealPlan(householdId, start, EndOfDay(Day(start) + 6))] &&
    (plan.planId in plans <==> HasPlanFor(plans, householdId, start)) &&
    Regenerated(meals, meals', plan.planId, plan.mealIds) &&
    RowsAre(meals', recipes', plan.mealIds, Run(WeekSlots(start, now), ctx, gen).rows)
  }

  /** The writes of generateMealPlan, once the context is built: upsert the plan, delete its
      meals, then fill the slot calendar. */
  method Regenerate(db: Db, householdId: Id, start: int, now: int, ctx: Prompts.Context, gen: Generator)
    returns (plan: GeneratedPlan)
    requires db.Valid() && TimeInDay(start) == 0
    modifies db`plans, db`meals, db`recipes, db`ingredients, db`nextId
    ensures db.Valid()
    ensures Regeneration(old(db.plans), db.plans, old(db.meals), db.meals, db.recipes,
                         householdId, start, now, ctx, gen, plan)
  {
    var end := EndOfDay(Day(start) + 6);
    var planId := UpsertPlan(db, householdId, start, end);
    ghost var before := db.meals;
    DeletePlanMeals(db, planId);
    ghost var cleared, lo := db.meals, db.nextId;
    var slots := SlotCalendar(start, end, now);
    var ids, recent, meatMeals, created := FillSlots(db, planId, slots, ctx, gen);
    RegeneratedOf(before, cleared, db.meals, lo, db.nextId, planId, ids);
    plan := GeneratedPlan(planId, ids);
  }

  /** The week start generateMealPlan uses: the caller's, at midnight, or the week of `now`. */
  function WeekStartOf(given: Option<int>, now: int): (start: int)
    ensures TimeInDay(start) == 0
  {
    match given
    case Some(t) => Midnight(t)
    case None => Utils.GetWeekStart(now)
  }

  /** The time of an optional Date. */
  function TimeOf(d: Date?): Option<int>
    reads d
  {
    if d != null then Some(d.time) else None
  }

  /** weekStart || getWeekStart(), then setHours(0, 0, 0, 0) on it: the caller's Date is
      changed in place. */
  method NormaliseStart(weekStart: Date?, now: int) returns (start: int)
    modifies weekStart
    ensures start == WeekStartOf(old(TimeOf(weekStart)), now)
    ensures weekStart != null ==> weekStart.time == start
  {
    if weekStart != null {
      weekStart.SetMidnight();
      start := weekStart.time;
    } else {
      start := Utils.GetWeekStart(now);
    }
  }

  /** generateMealPlan. The caller's week start, when given, is set to midnight in place (after
      the context is read, whose constraints use it as it was); without one the week of `now` is
      used. The plan of (household, week start) is upserted and its meals are deleted before the
      slots are generated; the meals then created are the rows of Run over the slot calendar. */
  method GenerateMealPlan(db: Db, householdId: Id, userId: Option<Id>, weekStart: Date?, now: int, gen: Generator)
    returns (r: Result<GeneratedPlan, ActionError>, ghost ctx: Option<Prompts.Context>)
    requires db.Valid()
    modifies db`plans, db`meals, db`recipes, db`ingredients, db`nextId, weekStart
    ensures db.Valid()
    ensures userId.Some? && householdId in old(db.households) && old(db.IsMember(householdId, userId.value)) ==>
      ctx == old(WeekContext(db, householdId, if weekStart != null then weekStart.time else Utils.GetWeekStart(now), now))
    ensures r.Success? <==>
      userId.Some? && householdId in old(db.households) && old(db.IsMember(householdId, userId.value)) && ctx.Some?
    ensures r.Failure? ==> unchanged(db)
    ensures r == Failure(NotAuthenticated) || r == Failure(HouseholdNotFound) ==>
      TimeOf(weekStart) == old(TimeOf(weekStart))
    ensures (r.Success? || r == Failure(PreferenceNotJson)) && weekStart != null ==>
      weekStart.time == Midnight(old(weekStart.time))
    ensures r.Success? ==>
      Regeneration(old(db.plans), db.plans, old(db.meals), db.meals, db.recipes, householdId,
                   WeekStartOf(old(TimeOf(weekStart)), now), now, ctx.value, gen, r.value)
  {
    ctx := None;
    if userId.None? {
      return Failure(NotAuthenticated), ctx;
    }
    var member := FindMembership(db, userId.value, householdId);
    if householdId !in db.households || member.None? {
      return Failure(HouseholdNotFound), ctx;
    }
    // The constraints query reads the caller's date before it is set to midnight.
    var raw := if weekStart != null then weekStart.time else Utils.GetWeekStart(now);
    var start := NormaliseStart(weekStart, now);
    var context := WeekContext(db, householdId, raw, now);
    ctx := context;
    if context.None? {
      return Failure(PreferenceNotJson), ctx;
    }
    var plan := Regenerate(db, householdId, start, now, context.value, gen);
    r := Success(plan);
  }

  // ---------------------------------------------------------------- getMealPlan

  /** findFirst on the household's plans ordered by week start, descending, over ids below n:
      a plan of the household with no later week start among them. */
  function LatestPlan(plans: map<Id, MealPlan>, n: nat, h: Id): (r: Option<Id>)
    ensures r.None? <==> forall id :: id in plans && id < n ==> plans[id].householdId != h
    ensures r.Some? ==> r.value in plans && r.value < n && plans[r.value].householdId == h
    ensures r.Some? ==> forall id :: id in plans && id < n && plans[id].householdId == h ==>
      plans[id].weekStart <= plans[r.value].weekStart
  {
    if n == 0 then None
    else
      var prev := LatestPlan(plans, n - 1, h);
      if n - 1 in plans && plans[n - 1].householdId == h &&
         (prev.None? || plans[prev.value].weekStart < plans[n - 1].weekStart)
      then Some(n - 1)
      else prev
  }

  /** With one plan per (household, week start), the latest plan of a household is the only
      one with that property, so the descending order picks a determined row. */
  lemma LatestPlanUnique(plans: map<Id, MealPlan>, h: Id, a: Id, b: Id)
    requires UniquePlanWeeks(plans)
    requires a in plans && plans[a].householdId == h && b in plans && plans[b].householdId == h
    requires forall id :: id in plans && plans[id].householdId == h ==> plans[id].weekStart <= plans[a].weekStart
    requires forall id :: id in plans && plans[id].householdId == h ==> plans[id].weekStart <= plans[b].weekStart
    ensures a == b
  {
  }

  /** getMealPlan. The caller's week start, when given, is set to midnight in place; the plan of
      the household for that week is returned, else its plan with the latest week start, else
      none (the last lookup repeats the first one, which already found nothing). Membership is
      not checked. */
  method GetMealPlan(db: Db, householdId: Id, userId: Option<Id>, weekStart: Date?, now: int)
    returns (r: Result<Option<Id>, ActionError>)
    requires db.Valid()
    modifies weekStart
    ensures userId.None? ==> r == Failure(NotAuthenticated) && TimeOf(weekStart) == old(TimeOf(weekStart))
    ensures userId.Some? ==>
      r.Success? &&
      TimeOf(weekStart) == (if weekStart != null then Some(WeekStartOf(old(TimeOf(weekStart)), now)) else None)
    ensures userId.Some? ==> var start := WeekStartOf(old(TimeOf(weekStart)), now);
      (HasPlanFor(db.plans, householdId, start) ==>
        r.value.Some? && r.value.value in db.plans && db.plans[r.value.value] == MealPlan(householdId, start, db.plans[r.value.value].weekEnd)) &&
      (!HasPlanFor(db.plans, householdId, start) ==> r.value == LatestPlan(db.plans, db.nextId, householdId))
    ensures r.Success? ==> (r.value.None? <==> forall id :: id in db.plans ==> db.plans[id].householdId != householdId)
  {
    if userId.None? {
      return Failure(NotAuthenticated);
    }
    var start := NormaliseStart(weekStart, now);
    if p :| p in db.plans && db.plans[p].householdId == householdId && db.plans[p].weekStart == start {
      r := Success(Some(p));
    } else {
      r := Success(LatestPlan(db.plans, db.nextId, householdId));
    }
  }

  // ---------------------------------------------------------------- single-slot operations

  /** The meal the user may edit: it exists, its plan exists, and the user is a member of the
      plan's household. */
  predicate CanEdit(db: Db, userId: Id, mealId: Id)
    reads db
  {
    mealId in db.meals && db.meals[mealId].mealPlanId in db.plans &&
    db.IsMember(db.plans[db.meals[mealId].mealPlanId].householdId, userId)
  }

  /** A meal slot with its recipe removed. */
  function Cleared(m: Meal): (r: Meal)
    ensures r.recipeId.None? && r.prepTime.None?
    ensures r.mealPlanId == m.mealPlanId && r.date == m.date && r.mealType == m.mealType
  {
    m.(recipeId := None, prepTime := None)
  }

  /** A meal slot showing a recipe, for the given preparation time. */
  function Assigned(m: Meal, recipeId: Id, prepTime: real): (r: Meal)
    ensures r.recipeId == Some(recipeId) && r.prepTime == Some(prepTime)
    ensures r.mealPlanId == m.mealPlanId && r.date == m.date && r.mealType == m.mealType
  {
    m.(recipeId := Some(recipeId), prepTime := Some(prepTime))
  }

  /** Clearing forgets whichever recipe was assigned: the slot is back where a fresh empty slot
      of the same plan, day and type would be. */
  lemma ClearUndoesAssign(m: Meal, recipeId: Id, prepTime: real)
    ensures Cleared(Assigned(m, recipeId, prepTime)) == Cleared(m)
    ensures Cleared(Cleared(m)) == Cleared(m)
    ensures Cleared(m) == Meal(m.mealPlanId, m.date, m.mealType, None, None)
  {
  }

  /** clearMeal: the meal keeps its plan, date and type, and loses its recipe and time. */
  method ClearMeal(db: Db, userId: Option<Id>, mealId: Id) returns (r: Result<Meal, ActionError>)
    requires db.Valid()
    modifies db`meals
    ensures db.Valid()
    ensures userId.None? ==> r == Failure(NotAuthenticated)
    ensures userId.Some? && !old(CanEdit(db, userId.value, mealId)) ==> r == Failure(MealNotFoundOrDenied)
    ensures r.Failure? ==> db.meals == old(db.meals)
    ensures r.Success? ==>
      userId.Some? && old(CanEdit(db, userId.value, mealId)) &&
      r.value == Cleared(old(db.meals)[mealId]) && db.meals == old(db.meals)[mealId := r.value]
  {
    if userId.None? {
      return Failure(NotAuthenticated);
    }
    if !CanEdit(db, userId.value, mealId) {
      return Failure(MealNotFoundOrDenied);
    }
    var m := Cleared(db.meals[mealId]);
    db.meals := db.meals[mealId := m];
    r := Success(m);
  }

  /** assignRecipeToMeal: after the access check the recipe must exist; the meal then shows it,
      for the recipe's preparation plus cooking time. */
  method AssignRecipeToMeal(db: Db, userId: Option<Id>, mealId: Id, recipeId: Id)
    returns (r: Result<Meal, ActionError>)
    requires db.Valid()
    modifies db`meals
    ensures db.Valid()
    ensures userId.None? ==> r == Failure(NotAuthenticated)
    ensures userId.Some? && !old(CanEdit(db, userId.value, mealId)) ==> r == Failure(MealNotFoundOrDenied)
    ensures userId.Some? && old(CanEdit(db, userId.value, mealId)) && recipeId !in db.recipes ==>
      r == Failure(RecipeNotFound)
    ensures r.Failure? ==> db.meals == old(db.meals)
    ensures r.Success? ==>
      userId.Some? && old(CanEdit(db, userId.value, mealId)) && recipeId in db.recipes &&
      r.value == Assigned(old(db.meals)[mealId], recipeId, db.recipes[recipeId].prepTime + db.recipes[recipeId].cookTime) &&
      db.meals == old(db.meals)[mealId := r.value]
  {
    if userId.None? {
      return Failure(NotAuthenticated);
    }
    if !CanEdit(db, userId.value, mealId) {
      return Failure(MealNotFoundOrDenied);
    }
    if recipeId !in db.recipes {
      return Failure(RecipeNotFound);
    }
    var recipe := db.recipes[recipeId];
    var m := Assigned(db.meals[mealId], recipeId, recipe.prepTime + recipe.cookTime);
    db.meals := db.meals[mealId := m];
    r := Success(m);
  }

  // ---------------------------------------------------------------- replaceMealInPlan

  /** The replacement generator: given the context, the meal's day key, its type and the
      reason, it throws or returns meals. */
  type Replacer = (Prompts.Context, string, string, Option<string>) -> GenOutcome

  /** The meal exists and so does its plan. */
  predicate MealInPlan(db: Db, mealId: Id)
    reads db
  {
    mealId in db.meals && db.meals[mealId].mealPlanId in db.plans
  }

  /** replaceMealInPlan's context: recent meals of the last 30 days other than the meal being
      replaced, every constraint of the household, and no meat frequency. */
  function ReplaceContext(db: Db, mealId: Id, now: int): Option<Prompts.Context>
    requires MealInPlan(db, mealId)
    reads db
  {
    var h := db.plans[db.meals[mealId].mealPlanId].householdId;
    var recent := RecentMealNames(db.meals, db.plans, db.recipes, db.nextId, h, now - ThirtyDays, Some(mealId));
    HouseholdContext(db, h, recent, HouseholdConstraints(db.constraints, db.nextId, h, None), false)
  }

  /** What a replacement stores: a new recipe for the generated meal (prompt version "1.0")
      whose lines name its ingredients, and the meal, otherwise as it was, pointing at it for the
      generated preparation plus cooking time. */
  ghost predicate Replacement(meals: map<Id, Meal>, meals': map<Id, Meal>, recipes: map<Id, Recipe>,
                              recipes': map<Id, Recipe>, ingredients': map<Id, IngredientRow>,
                              mealId: Id, m: GeneratedMeal, updated: Meal)
  {
    mealId in meals && updated.recipeId.Some? &&
    var rid := updated.recipeId.value;
    rid !in recipes && rid in recipes' &&
    recipes' == recipes[rid := RecipeOf(m, recipes'[rid].lines, "1.0")] &&
    LinesFor(ingredients', recipes'[rid].lines, m.ingredients) &&
    updated == Assigned(meals[mealId], rid, m.prepTime + m.cookTime) &&
    meals' == meals[mealId := updated]
  }

  /** The writes of a replacement: ingredients, recipe, then the meal's update. */
  method StoreReplacement(db: Db, mealId: Id, m: GeneratedMeal) returns (updated: Meal)
    requires db.Valid() && mealId in db.meals
    modifies db`meals, db`recipes, db`ingredients, db`nextId
    ensures db.Valid()
    ensures Extends(old(db.ingredients), db.ingredients)
    ensures Replacement(old(db.meals), db.meals, old(db.recipes), db.recipes, db.ingredients, mealId, m, updated)
  {
    var lines := IngredientLines(db, m.ingredients);
    var recipeId := CreateRecipe(db, RecipeOf(m, lines, "1.0"));
    updated := Assigned(db.meals[mealId], recipeId, m.prepTime + m.cookTime);
    db.meals := db.meals[mealId := updated];
  }

  /** replaceMealInPlan. Membership is not checked. The replacement generator is asked for the
      meal's day and type; when it throws or returns no meal nothing is written, otherwise only
      that meal's recipe and time change (besides the new recipe and ingredients). */
  method ReplaceMealInPlan(db: Db, userId: Option<Id>, mealId: Id, reason: Option<string>, now: int,
                           replace: Replacer)
    returns (r: Result<Meal, ActionError>, ghost ctx: Option<Prompts.Context>, ghost outcome: GenOutcome)
    requires db.Valid()
    modifies db`meals, db`recipes, db`ingredients, db`nextId
    ensures db.Valid()
    ensures userId.None? ==> r == Failure(NotAuthenticated)
    ensures userId.Some? && !old(MealInPlan(db, mealId)) ==> r == Failure(MealNotFound)
    ensures userId.Some? && old(MealInPlan(db, mealId)) ==>
      ctx == old(ReplaceContext(db, mealId, now)) &&
      (ctx.Some? ==> outcome == replace(ctx.value, IsoDateKey(old(db.meals)[mealId].date),
                                        old(db.meals)[mealId].mealType, reason))
    ensures r.Success? <==>
      userId.Some? && old(MealInPlan(db, mealId)) && ctx.Some? && outcome.Returned? && outcome.meals != []
    ensures r.Failure? && ctx.None? && userId.Some? && old(MealInPlan(db, mealId)) ==> r == Failure(PreferenceNotJson)
    ensures r.Failure? && ctx.Some? ==> r == Failure(if outcome.Threw? then GeneratorThrew else NoReplacement)
    ensures r.Failure? ==> unchanged(db)
    ensures r.Success? ==>
      Extends(old(db.ingredients), db.ingredients) &&
      Replacement(old(db.meals), db.meals, old(db.recipes), db.recipes, db.ingredients, mealId, outcome.meals[0], r.value)
  {
    ctx, outcome := None, Threw;
    if userId.None? {
      return Failure(NotAuthenticated), ctx, outcome;
    }
    if !MealInPlan(db, mealId) {
      return Failure(MealNotFound), ctx, outcome;
    }
    var meal := db.meals[mealId];
    var context := ReplaceContext(db, mealId, now);
    ctx := context;
    if context.None? {
      return Failure(PreferenceNotJson), ctx, outcome;
    }
    var generated := replace(context.value, IsoDateKey(meal.date), meal.mealType, reason);
    outcome := generated;
    if generated.Threw? {
      return Failure(GeneratorThrew), ctx, outcome;
    }
    if generated.meals == [] {
      return Failure(NoReplacement), ctx, outcome;
    }
    var updated := StoreReplacement(db, mealId, generated.meals[0]);
    r := Success(updated);
  }

  // ---------------------------------------------------------------- ensureMealSlot

  /** A meal of the plan on the given day, of the given type. */
  function SlotMatch(planId: Id, day: int, mealType: string): (Id, Meal) -> bool {
    (id: Id, m: Meal) => m.mealPlanId == planId && Midnight(AtHour(day, 0)) <= m.date <= EndOfDay(day) &&
                         m.mealType == mealType
  }

  /** The slot ensureMealSlot finds: the first meal of the plan on that day and of that type. */
  function FindSlot(db: Db, planId: Id, day: int, mealType: string): Option<Id>
    reads db
  {
    FirstWhere(db.meals, db.nextId, SlotMatch(planId, day, mealType))
  }

  /** ensureMealSlot: the meal of the plan on the date's day and of the type, created empty at
      12:00 for lunch and 19:00 otherwise when there is none. Membership is not checked, and the
      creation fails when the plan does not exist. Afterwards the returned meal is the one a
      second call finds, so the operation is idempotent. */
  method EnsureMealSlot(db: Db, userId: Option<Id>, planId: Id, date: int, mealType: string)
    returns (r: Result<Id, ActionError>)
    requires db.Valid()
    requires mealType == "lunch" || mealType == "dinner"
    modifies db`meals, db`nextId
    ensures db.Valid()
    ensures userId.None? ==> r == Failure(NotAuthenticated)
    ensures userId.Some? && old(FindSlot(db, planId, Day(date), mealType)).Some? ==>
      r == Success(old(FindSlot(db, planId, Day(date), mealType)).value) && db.meals == old(db.meals)
    ensures userId.Some? && old(FindSlot(db, planId, Day(date), mealType)).None? && planId !in db.plans ==>
      r == Failure(PlanMissing)
    ensures r.Failure? ==> db.meals == old(db.meals)
    ensures r.Success? ==> FindSlot(db, planId, Day(date), mealType) == Some(r.value)
    ensures r.Success? && r.value !in old(db.meals) ==>
      db.meals == old(db.meals)[r.value := Meal(planId, AtHour(Day(date), if mealType == "lunch" then 12 else 19),
                                                mealType, None, None)]
  {
    if userId.None? {
      return Failure(NotAuthenticated);
    }
    var day := Day(date);
    var found := FindSlot(db, planId, day, mealType);
    if found.Some? {
      return Success(found.value);
    }
    if planId !in db.plans {
      return Failure(PlanMissing);
    }
    var meal := Meal(planId, AtHour(day, if mealType == "lunch" then 12 else 19), mealType, None, None);
    var id := CreateMeal(db, meal);
    FoundAfterCreate(old(db.meals), db.meals, old(db.nextId), SlotMatch(planId, day, mealType), id, meal);
    r := Success(id);
  }

  /** A row created with the next id when no row below it matches, and which matches, is the
      first match afterwards. */
  lemma FoundAfterCreate(meals: map<Id, Meal>, meals': map<Id, Meal>, n: nat, p: (Id, Meal) -> bool,
                         id: Id, meal: Meal)
    requires KeysBelow(meals, n) && FirstWhere(meals, n, p).None?
    requires id == n && meals' == meals[id := meal] && p(id, meal)
    ensures FirstWhere(meals', n + 1, p) == Some(id)
  {
    forall k | k in meals' && k < id
      ensures !p(k, meals'[k])
    {
      assert k in meals && meals'[k] == meals[k];
    }
  }
}
