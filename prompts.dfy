/** The computed parts of the prompts of lib/ai/prompts.ts: the list of dates a week prompt
    asks for and the meal count derived from it, the preference, constraint, banned-ingredient
    and recent-meal fragments, the meat rule, and the table of Alsatian seasonal produce. The
    fixed prose around these fragments is not modelled. */
module Prompts {
  import opened Wrappers
  import Text
  import Json
  import opened Time
  import Utils

  /** A calendar constraint of the household: a date, a kind and an optional description. */
  datatype Constraint = Constraint(date: string, kind: string, description: Option<string>)

  /** MealGenerationContext, restricted to the fields the prompts read. The preferences and the
      meat frequency are whatever JSON.parse gave for the stored text, of any JSON type; an
      absent field is None (undefined). */
  datatype Context = Context(
    bannedIngredients: seq<string>,
    recentMeals: seq<string>,
    diet: Option<Json.Json>,
    allergies: Option<Json.Json>,
    objectives: Option<Json.Json>,
    timeConstraints: Option<Json.Json>,
    meatFrequency: Option<Json.Json>,
    constraints: Option<seq<Constraint>>)

  /** The fragments of generateWeekPrompt that depend on its inputs. */
  datatype WeekPrompt = WeekPrompt(
    dates: seq<int>,
    targetMeals: nat,
    seasonal: seq<string>,
    diet: string,
    allergies: string,
    objectives: string,
    timeConstraints: string,
    constraints: string,
    banned: string,
    recent: string,
    meatRule: string)

  // ---------------------------------------------------------------- the date list

  /** How many days the week prompt lists: from the later of the week start and today up to
      the sixth day after the week start, none when that whole week is past. */
  function RemainingDays(startDay: int, today: int): (n: nat)
    ensures n <= 7
    ensures n == 0 <==> today > startDay + 6
    ensures today <= startDay ==> n == 7
  {
    if today > startDay + 6 then 0
    else if today <= startDay then 7
    else startDay + 7 - today
  }

  function FirstListedDay(startDay: int, today: int): int {
    if startDay < today then today else startDay
  }

  /** The loop of generateWeekPrompt: starting at midnight of the later of the week start
      and today, one date per day while the day is not past 23:59:59.999 of the week's last
      day. The week start is at midnight already. Each date is kept as its day number; the
      text the prompt shows for it is its YYYY-MM-DD form (IsoDay, which is the day key of
      the day's midnight by Time.DayStartKey). The days listed are the consecutive days from
      the first listed day, as many as remain in the week. */
  method WeekDates(start: int, now: int) returns (days: seq<int>)
    requires TimeInDay(start) == 0
    ensures |days| == RemainingDays(Day(start), Day(now))
    ensures forall i :: 0 <= i < |days| ==> days[i] == FirstListedDay(Day(start), Day(now)) + i
  {
    var today := Midnight(now);
    assert today == Day(now) * MsPerDay;
    MidnightIsDayStart(start);
    var actualStart := if start < today then today else start;
    var weekEnd := EndOfDay(Day(start) + 6);
    ghost var first := FirstListedDay(Day(start), Day(now));
    assert actualStart == first * MsPerDay;
    days := [];
    var current := actualStart;
    while current <= weekEnd
      invariant current == (first + |days|) * MsPerDay
      invariant first + |days| <= Day(start) + 7 || days == []
      invariant forall i :: 0 <= i < |days| ==> days[i] == first + i
      decreases weekEnd - current
    {
      DayOfShift(0, first + |days|);
      days := days + [Day(current)];
      current := current + MsPerDay;
    }
  }

  /** The listed days lie in the week and are not past: each is at or after today and at or
      before the week's last day, and the first is today once the week has begun. */
  lemma ListedDaysInWeek(startDay: int, today: int, i: nat)
    requires i < RemainingDays(startDay, today)
    ensures startDay <= FirstListedDay(startDay, today) + i <= startDay + 6
    ensures today <= FirstListedDay(startDay, today) + i
    ensures startDay < today ==> FirstListedDay(startDay, today) == today
  {
  }

  // ---------------------------------------------------------------- fragments

  /** `text || fallback`: the empty string is replaced by the fallback. */
  function OrDefault(text: string, fallback: string): (r: string)
    ensures fallback != "" ==> r != ""
    ensures text != "" ==> r == text
  {
    if text == "" then fallback else text
  }

  /** `list?.join(", ") || fallback` for an optional list of item texts. */
  function ListOrDefault(xs: Option<seq<string>>, fallback: string): (r: string)
    ensures xs.None? || xs == Some([]) ==> r == fallback
    ensures xs.Some? && |xs.value| == 1 && xs.value[0] != "" ==> r == xs.value[0]
  {
    OrDefault(if xs.Some? then Text.Join(xs.value, ", ") else "", fallback)
  }

  /** `value?.join(", ") || fallback` on a parsed preference: undefined or null gives the
      fallback, an array joins the texts of its items, and any other value throws a TypeError
      (None) because it has no join method. */
  function PreferenceText(v: Option<Json.Json>, fallback: string, number: real -> string): (r: Option<string>)
    ensures r.None? <==> v.Some? && !v.value.JNull? && !v.value.JArray?
    ensures v.None? || v == Some(Json.JNull) ==> r == Some(fallback)
    ensures r.Some? && v.Some? && v.value.JArray? ==>
      r.value == ListOrDefault(Some(Json.ItemTexts(v.value.items, number)), fallback)
  {
    if v.None? || v.value.JNull? then Some(fallback)
    else if v.value.JArray? then Some(ListOrDefault(Some(Json.ItemTexts(v.value.items, number)), fallback))
    else None
  }

  /** A preference that parsed to an array of strings renders as those strings joined with
      ", ", or as the fallback when there are none. */
  lemma PreferenceTextOfStrings(xs: seq<string>, fallback: string, number: real -> string)
    ensures PreferenceText(Some(Json.JArray(Json.JStrings(xs))), fallback, number) == Some(ListOrDefault(Some(xs), fallback))
  {
    Json.ItemTextsOfStrings(xs, number);
  }

  /** Whether the four preference lines of the week prompt render: each preference is
      undefined, null or an array. */
  predicate PreferencesRender(ctx: Context, number: real -> string) {
    PreferenceText(ctx.diet, "aucune", number).Some? && PreferenceText(ctx.allergies, "aucune", number).Some? &&
    PreferenceText(ctx.objectives, "aucun", number).Some? && PreferenceText(ctx.timeConstraints, "aucune", number).Some?
  }

  /** The constraint line `date: kind`, followed by ` (description)` only when a non-empty
      description is given. */
  function ConstraintText(c: Constraint): (r: string)
    ensures Text.StartsWith(r, c.date + ": " + c.kind)
    ensures c.description.None? || c.description == Some("") ==> r == c.date + ": " + c.kind
  {
    c.date + ": " + c.kind
      + (if c.description.Some? && c.description.value != "" then " (" + c.description.value + ")" else "")
  }

  function ConstraintTexts(cs: seq<Constraint>): (r: seq<string>)
    ensures |r| == |cs| && forall i :: 0 <= i < |cs| ==> r[i] == ConstraintText(cs[i])
  {
    if cs == [] then [] else [ConstraintText(cs[0])] + ConstraintTexts(cs[1..])
  }

  /** The calendar constraints joined by " | ", or "aucune". */
  function ConstraintsText(cs: Option<seq<Constraint>>): (r: string)
    ensures cs.None? || cs == Some([]) ==> r == "aucune"
  {
    OrDefault(Text.Join(ConstraintTexts(if cs.Some? then cs.value else []), " | "), "aucune")
  }

  /** A constraint line is never empty (it holds ": "), so a non-empty list of constraints
      never falls back to "aucune"; it begins with the first constraint's line. */
  lemma ConstraintsShown(cs: seq<Constraint>)
    requires cs != []
    ensures Text.StartsWith(ConstraintsText(Some(cs)), ConstraintText(cs[0]))
  {
    var ts := ConstraintTexts(cs);
    assert |ts[0]| >= 2;
    Text.JoinStartsWithFirst(ts, " | ");
  }

  /** The first n entries of a list (Array.prototype.slice(0, n)). */
  function Take<T>(xs: seq<T>, n: nat): (r: seq<T>)
    ensures |r| <= n && |r| <= |xs|
    ensures |xs| <= n ==> r == xs
    ensures n <= |xs| ==> |r| == n
    ensures forall i :: 0 <= i < |r| ==> r[i] == xs[i]
  {
    if |xs| <= n then xs else xs[..n]
  }

  /** The recent meals the prompt shows: the first `limit` of them joined by " | ", or
      "aucun". */
  function RecentText(recent: seq<string>, limit: nat): string {
    OrDefault(Text.Join(Take(recent, limit), " | "), "aucun")
  }

  /** Only the first `limit` recent meals matter: anything after them is never shown, and no
      recent meal at all shows "aucun". */
  lemma RecentIgnoresTail(recent: seq<string>, later: seq<string>, limit: nat)
    requires limit <= |recent|
    ensures RecentText(recent + later, limit) == RecentText(recent, limit)
    ensures RecentText([], limit) == "aucun"
  {
    assert Take(recent + later, limit) == Take(recent, limit);
  }

  /** When the most recent meal has a name, the fragment begins with it. */
  lemma RecentShowsLatest(recent: seq<string>, limit: nat)
    requires 1 <= limit && recent != [] && recent[0] != ""
    ensures Text.StartsWith(RecentText(recent, limit), recent[0])
  {
    Text.JoinStartsWithFirst(Take(recent, limit), " | ");
  }

  /** The week prompt shows 25 recent meals, the replace and alternative prompts 20. */
  const WeekRecentLimit: nat := 25
  const SingleRecentLimit: nat := 20

  /** The banned ingredients of the week and replace prompts, or "aucun". */
  function BannedText(banned: seq<string>): string {
    OrDefault(Text.Join(banned, ", "), "aucun")
  }

  /** The forbidden list of the alternative prompt: the household's banned ingredients and
      the excluded one, empty names dropped. */
  function AlternativeBanned(banned: seq<string>, exclude: string): (r: seq<string>) {
    Text.NonEmpty(banned + [exclude])
  }

  /** An ingredient is forbidden exactly when it is a non-empty banned or excluded name, and
      a non-empty excluded ingredient comes last. */
  lemma AlternativeBannedMembers(banned: seq<string>, exclude: string, x: string)
    ensures x in AlternativeBanned(banned, exclude) <==> (x in banned || x == exclude) && x != ""
    ensures exclude != "" ==>
      AlternativeBanned(banned, exclude) != []
      && AlternativeBanned(banned, exclude)[|AlternativeBanned(banned, exclude)| - 1] == exclude
  {
    if exclude != "" {
      NonEmptyAppend(banned, exclude);
    }
  }

  lemma {:induction false} NonEmptyAppend(xs: seq<string>, x: string)
    requires x != ""
    ensures Text.NonEmpty(xs + [x]) == Text.NonEmpty(xs) + [x]
  {
    if xs == [] {
      assert [] + [x] == [x];
    } else {
      assert (xs + [x])[1..] == xs[1..] + [x];
      NonEmptyAppend(xs[1..], x);
    }
  }

  /** Whether the week prompt demands an exact number of meals with meat: a meat frequency is
      defined (null included) and the string "omnivore" is one of the diet's items. By the time
      the rule is rendered, the diet's join has not thrown, so the diet is an array or nothing. */
  predicate WantsMeatRule(ctx: Context) {
    ctx.meatFrequency.Some? && ctx.diet.Some? && ctx.diet.value.JArray?
      && Json.JString("omnivore") in ctx.diet.value.items
  }

  /** The meat rule line of the week prompt, or the empty string. The frequency is shown as the
      template literal renders its parsed value. */
  function MeatRule(ctx: Context, targetMeals: nat, number: real -> string): (r: string)
    ensures r != "" <==> WantsMeatRule(ctx)
    ensures WantsMeatRule(ctx) ==> Text.StartsWith(r, "7) Viande: exactement " + Json.ToText(ctx.meatFrequency.value, number))
  {
    if WantsMeatRule(ctx) then
      "7) Viande: exactement " + Json.ToText(ctx.meatFrequency.value, number) + " repas avec viande sur "
        + Text.NatToString(targetMeals) + " repas."
    else ""
  }

  /** The reason line of the replace prompt, present only for a non-empty reason. */
  function ReasonLine(reason: Option<string>): (r: string)
    ensures r != "" <==> reason.Some? && reason.value != ""
  {
    if reason.Some? && reason.value != "" then "- raison: " + reason.value else ""
  }

  // ---------------------------------------------------------------- seasonal produce

  /** getSeasonalIngredientsAlsace: the fruit and vegetables in season in Alsace for a month
      1 to 12, and nothing for any other number. */
  function SeasonalIngredients(month: int): (r: seq<string>)
    ensures r != [] <==> 1 <= month <= 12
  {
    if month == 1 then ["carotte", "poireau", "pomme de terre", "courge", "pomme"]
    else if month == 2 then ["carotte", "poireau", "pomme de terre", "pomme"]
    else if month == 3 then ["épinard", "radis", "carotte", "poireau"]
    else if month == 4 then ["asperge", "laitue", "radis", "épinard"]
    else if month == 5 then ["asperge", "concombre", "fraises", "laitue", "petits pois"]
    else if month == 6 then ["courgette", "tomate", "concombre", "cerises", "haricot vert"]
    else if month == 7 then ["courgette", "tomate", "haricot vert", "abricot", "pêche"]
    else if month == 8 then ["courgette", "tomate", "haricot vert", "prune", "pêche"]
    else if month == 9 then ["tomate", "haricot vert", "pomme", "poire", "raisin"]
    else if month == 10 then ["courge", "carotte", "poireau", "pomme", "raisin"]
    else if month == 11 then ["carotte", "poireau", "pomme de terre", "pomme"]
    else if month == 12 then ["carotte", "poireau", "pomme de terre", "courge"]
    else []
  }

  /** The produce for the month of a date string, as `new Date(date).getMonth() + 1` gives it:
      a string that is not a date gives NaN, which the table does not hold. */
  function SeasonalForDate(date: string): seq<string> {
    match ParseIsoDay(date)
    case Some(day) => SeasonalIngredients(CivilFromDays(day).1)
    case None => []
  }

  /** The week prompt always has produce to suggest, and so has a replace prompt for any
      valid date; an unreadable date suggests nothing. */
  lemma SeasonalAlwaysListed(now: int, date: string)
    ensures SeasonalIngredients(Month(now)) != []
    ensures SeasonalForDate(date) != [] <==> ParseIsoDay(date).Some?
  {
  }

  /** For years 0000 to 9999, the replace prompt of a listed date suggests the produce of that
      date's month. */
  lemma SeasonalOfListedDay(day: int)
    requires 0 <= CivilFromDays(day).0 <= 9999
    ensures SeasonalForDate(IsoDay(day)) == SeasonalIngredients(CivilFromDays(day).1)
  {
    IsoDayRoundTrip(day);
  }

  // ---------------------------------------------------------------- the three prompts

  /** generateWeekPrompt. The caller's week start, when given, is set to midnight in place;
      without one the week of `now` is used. The prompt is None when a preference's join throws,
      which happens after the week start has been changed. */
  method GenerateWeekPrompt(ctx: Context, weekStart: Date?, now: int, number: real -> string)
    returns (r: Option<WeekPrompt>)
    modifies weekStart
    ensures weekStart != null ==> weekStart.time == Midnight(old(weekStart.time))
    ensures r.Some? <==> PreferencesRender(ctx, number)
    ensures r.Some? ==> var p := r.value;
      var start := if weekStart != null then weekStart.time else Utils.GetWeekStart(now);
      |p.dates| == RemainingDays(Day(start), Day(now)) &&
      forall i :: 0 <= i < |p.dates| ==> p.dates[i] == FirstListedDay(Day(start), Day(now)) + i
    ensures r.Some? ==> var p := r.value;
      p.targetMeals == 2 * |p.dates| && p.seasonal == SeasonalIngredients(Month(now)) &&
      p.recent == RecentText(ctx.recentMeals, WeekRecentLimit) && p.banned == BannedText(ctx.bannedIngredients) &&
      p.meatRule == MeatRule(ctx, p.targetMeals, number) && p.constraints == ConstraintsText(ctx.constraints)
    ensures r.Some? ==> var p := r.value;
      Some(p.diet) == PreferenceText(ctx.diet, "aucune", number) &&
      Some(p.allergies) == PreferenceText(ctx.allergies, "aucune", number) &&
      Some(p.objectives) == PreferenceText(ctx.objectives, "aucun", number) &&
      Some(p.timeConstraints) == PreferenceText(ctx.timeConstraints, "aucune", number)
  {
    var start: int;
    if weekStart != null {
      weekStart.SetMidnight();
      start := weekStart.time;
    } else {
      start := Utils.GetWeekStart(now);
    }
    var dates := WeekDates(start, now);
    var target := |dates| * 2;
    var diet := PreferenceText(ctx.diet, "aucune", number);
    var allergies := PreferenceText(ctx.allergies, "aucune", number);
    var objectives := PreferenceText(ctx.objectives, "aucun", number);
    var times := PreferenceText(ctx.timeConstraints, "aucune", number);
    if diet.None? || allergies.None? || objectives.None? || times.None? {
      return None;
    }
    r := Some(WeekPrompt(dates, target, SeasonalIngredients(Month(now)),
      diet.value, allergies.value, objectives.value, times.value,
      ConstraintsText(ctx.constraints), BannedText(ctx.bannedIngredients),
      RecentText(ctx.recentMeals, WeekRecentLimit), MeatRule(ctx, target, number)));
  }

  /** The fragments of replaceMealPrompt and alternativeWithoutIngredientPrompt. */
  datatype SinglePrompt = SinglePrompt(banned: string, recent: string, seasonal: seq<string>, reason: string)

  function ReplaceMealPrompt(ctx: Context, date: string, reason: Option<string>): (p: SinglePrompt)
    ensures ctx.bannedIngredients == [] ==> p.banned == "aucun"
    ensures ctx.recentMeals == [] ==> p.recent == "aucun"
  {
    SinglePrompt(BannedText(ctx.bannedIngredients), RecentText(ctx.recentMeals, SingleRecentLimit),
      SeasonalForDate(date), ReasonLine(reason))
  }

  function AlternativePrompt(ctx: Context, exclude: string, date: string): SinglePrompt {
    SinglePrompt(Text.Join(AlternativeBanned(ctx.bannedIngredients, exclude), ", "),
      RecentText(ctx.recentMeals, SingleRecentLimit), SeasonalForDate(date), "")
  }

  /** The alternative prompt's forbidden list has no "aucun" fallback: it is empty when
      nothing is banned and the excluded name is empty, and otherwise it ends with the excluded
      ingredient when that has a name. */
  lemma AlternativeForbidsExcluded(ctx: Context, exclude: string, date: string)
    ensures exclude != "" ==> Text.EndsWith(AlternativePrompt(ctx, exclude, date).banned, exclude)
    ensures ctx.bannedIngredients == [] && exclude == "" ==> AlternativePrompt(ctx, exclude, date).banned == ""
  {
    var banned := AlternativeBanned(ctx.bannedIngredients, exclude);
    AlternativeBannedMembers(ctx.bannedIngredients, exclude, exclude);
    if exclude != "" {
      Text.JoinEndsWithLast(banned, ", ");
    } else if ctx.bannedIngredients == [] {
      assert banned == [];
    }
  }
}
