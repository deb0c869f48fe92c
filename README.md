# WeekEat in Dafny

WeekEat is a French meal-planning web application. A household sets its diet, allergies and
constraints. An AI model proposes lunches and dinners for the week, one slot at a time. The
application then derives grocery lists and weekly views from the stored plan.

This project models the parts of WeekEat that hold logic and proves what they promise:

- **The meal-plan engine** (`meal_plan.dfy`). It covers the slot calendar and the slot-by-slot
  generation loop, including its empty-row fallback, the rolling list of 30 recent meals and the
  meat counter. A regeneration upserts the plan and deletes its old meals. The single-slot
  operations are replace, clear, assign and find-or-create. `getMealPlan` picks the exact
  week, else the latest one. The database is one `Store.Db` object whose tables are maps.
- **AI response handling** (`ai_client.dfy`). Fences are stripped and braces and brackets
  must balance. The schema normalises its input ("dessert" becomes "dinner", instruction
  lists become numbered text, a missing description becomes ""). A response cut off at the
  token limit goes through a string repair.
- **Prompt fragments** (`prompts.dfy`). These are the listed dates and the target count, the
  preference, constraint, banned and recent-meal fragments, the meat rule and the table of
  seasonal produce.
- **Date and tag helpers** (`utils.dfy`, `time.dfy`) and **price estimates** (`prices.dfy`).
- **Grocery lists** (`groceries.dfy`, `groceries_view.dfy`, `grocery_list_view.dfy`). Rows
  merge by a key, quantities are summed and notes de-duplicated. Items are sorted by aisle
  then name, their checked flag toggles, and the list renders as text.
- **Week views** (`week_calendar_view.dfy`, `week_list_view.dfy`, `week_view.dfy`,
  `week_meals.dfy`). These are the seven-day grid with its placeholder slots, the list
  ordering and the grouping by day.
- **Invitations, joining and onboarding** (`invitations.dfy`, `join.dfy`, `register.dfy`,
  `household.dfy`, `onboarding_modal.dfy`). They cover the checks each action makes in
  order, the rows each creates or updates, the preference records built from the onboarding
  answers, and the onboarding dialog's draft and steps.
- **String builders** (`templates.dfy`, `database_url.dfy`). These are the email template's
  conditional blocks and the `.env` loader, URL builder, password mask and `DATABASE_URL`
  rewrite of the database script.
- **Shared modules**:
  - `wrappers.dfy`: Option and Result.
  - `text.dfy`: the JavaScript string methods used.
  - `json.dfy`: JSON values, JSON.parse as a parser of the RFC 8259 grammar, and
    JSON.stringify of string lists and integers, and the text `String()` gives a parsed value.
  - `sorting.dfy`: string order, stable sort, grouping.
  - `store.dfy`: the database.

The following become inputs of the model:

- the session;
- the current instant;
- random tokens;
- bcrypt hashes;
- email delivery outcomes;
- the AI completions.

Code that changes state in place is modelled as methods:

- the store's tables;
- the onboarding dialog's state;
- the slot loop;
- the `.env` loader.

Each such method is proved against a specification function. The pure parts are functions with
lemmas about them.

## Model

| member | source | states |
|---|---|---|
| Utils.GetWeekStart | lib/utils.ts:24-32 | the result is a midnight on a Monday, and the day of t lies in the seven days it starts |
| Utils.WeekStartOfSunday | lib/utils.ts:27-28 | a Sunday maps to the Monday six days before it |
| Utils.WeekStartUnique | lib/utils.ts:24-32 | the week start is the only Monday among the seven days up to t, so all instants of one week share it |
| Utils.WeekStartIdempotent | lib/utils.ts:24-32 | the week start of a week start is itself |
| Utils.GetWeekEnd | lib/utils.ts:34-38 | six days later, same time of day |
| Utils.TagsRoundTrip | lib/utils.ts:40-51 | parseTags(stringifyTags(t)) is the list t, all strings |
| Utils.TagsOfEmptyOrInvalid | lib/utils.ts:42-46 | the empty text and any text JSON.parse rejects give [] |
| Utils.ParseTags | lib/utils.ts:40-47 | a list is returned as it is; a text gives what JSON.parse returns, the empty text and a text JSON.parse rejects give [] (partner: Utils.TagsRoundTrip) |
| Utils.StringifyTags | lib/utils.ts:49-51 | a bracketed array text, "[]" exactly for no tags; JSON.parse reads it back as the tags (partner: Utils.TagsRoundTrip) |
| Prices.Find | lib/utils/ingredient-prices.ts:75 | an entry is found exactly when the name is a key of the table |
| Prices.KindOf | lib/utils/ingredient-prices.ts:86-106 | every unit other than the seven named ones falls to the unconverted case |
| Prices.UnknownIngredient | lib/utils/ingredient-prices.ts:77-80 | a name missing from the table costs quantity × 0.01 |
| Prices.CalculateIngredientPrice | lib/utils/ingredient-prices.ts:69-110 | a name missing from the table costs quantity × 0.01, a unit outside the handled seven is priced unconverted, and a non-negative quantity has a non-negative price (partners: Prices.PriceLinear, Prices.ConversionsAgree) |
| Prices.LookupIgnoresSurroundingSpace | lib/utils/ingredient-prices.ts:74-75 | the name is trimmed before the case-sensitive lookup |
| Prices.PriceLinear | lib/utils/ingredient-prices.ts:77-108 | a non-negative quantity has a non-negative price, and the price is additive in the quantity |
| Prices.ConversionsAgree | lib/utils/ingredient-prices.ts:86-106 | g/kg, ml/L, "100ml"/L and spoon conversions agree with each other (1000 g = 1 kg, a tablespoon = 15 g or 15 ml, …) |
| Prices.HundredMlUnconverted | lib/utils/ingredient-prices.ts:83-91 | against a "100ml" price, millilitres are not converted: 100 ml cost a hundred times one "100ml" |
| Prices.CreamEntry | lib/utils/ingredient-prices.ts:32 | "Crème" is priced 1.2 per "100ml" |
| Prices.IntendedConversionsAgree | lib/utils/ingredient-prices.ts:86-106 | with millilitres and spoons divided by 100 against a "100ml" price, 100 ml cost one "100ml"; other price units are unchanged |
| Templates.PreheaderMeta | lib/email/templates.ts:34 | the preheader tag is present exactly when a non-empty preheader is given |
| Templates.ButtonBlock | lib/email/templates.ts:200-204 | the button block is present exactly when both button text and link are non-empty |
| Templates.FallbackBlock | lib/email/templates.ts:206-213 | the copy-this-link block is present exactly when a link is given without a button text |
| Templates.ButtonOrFallback | lib/email/templates.ts:200-213 | the two blocks never both appear |
| Templates.FooterText | lib/email/templates.ts:221 | the given footer text, or the fixed default when it is missing or empty |
| Templates.InsertedVerbatim | lib/email/templates.ts:33-197 | title and content stand in the page exactly as given, without escaping |
| Templates.EmailTemplate | lib/email/templates.ts:17-232 | the page trimmed: no longer than the page, no white space at either end, empty only for a blank page (partner: Templates.InsertedVerbatim) |
| Templates.SignInBlocks | lib/email/templates.ts:237-250 | the sign-in email has its preheader, never the fallback block, and the button exactly when the URL is not empty |
| Templates.SignInEmail | lib/email/templates.ts:237-250 | the recipient's address does not change the email, and the email is never empty (partner: Templates.SignInBlocks) |
| Templates.InvitationBlocks | lib/email/templates.ts:255-280 | the invitation email has its preheader, never the fallback block, the button exactly when the link is not empty, and the household name as given in the title |
| Templates.InvitationEmail | lib/email/templates.ts:255-280 | the email is never empty, whatever the names and link (partner: Templates.InvitationBlocks) |
| DatabaseUrl.Unquote | scripts/build-database-url.js:21-23 | one pair of matching double or single quotes around the value is removed; a value not starting with a quote is kept |
| DatabaseUrl.UnquoteQuoted | scripts/build-database-url.js:21-23 | a quoted value loses exactly its two quotes, whichever quote character it uses |
| DatabaseUrl.KeyValueUnique | scripts/build-database-url.js:16 | the key stops at the first '=', so a line matches /^([^=:#]+)=(.*)$/ in one way only |
| DatabaseUrl.ParseLine | scripts/build-database-url.js:16-19 | a line gives a key and value exactly when it matches the pattern, and then the trimmed key and the trimmed value around that '=' |
| DatabaseUrl.CarriageReturnLineIgnored | scripts/build-database-url.js:15-16 | a line ending in '\r' never matches, since `.` does not match a line terminator |
| DatabaseUrl.LoadEnv | scripts/build-database-url.js:13-28 | the loop over the file's lines computes the environment the file loads into |
| DatabaseUrl.NeverOverrides | scripts/build-database-url.js:24-26 | a variable already set keeps its value whatever the file says |
| DatabaseUrl.LoadedKeys | scripts/build-database-url.js:15-28 | loading only adds keys named by a matching line |
| DatabaseUrl.CrLfFileLoadsNothing | scripts/build-database-url.js:15-16 | a file with CRLF line ends loads nothing |
| DatabaseUrl.OrDefault | scripts/build-database-url.js:35-39 | the variable when set and not empty, else the default |
| DatabaseUrl.Build | scripts/build-database-url.js:34-55 | exit status 1 exactly when PGHOST, PGDATABASE or PGUSER is unset; otherwise the URL with port 5432 and sslmode require by default, and its masked form |
| DatabaseUrl.FirstMatch | scripts/build-database-url.js:58 | the leftmost index where /:[^:@]+@/ matches, or none when it matches nowhere |
| DatabaseUrl.Mask | scripts/build-database-url.js:58 | a text the pattern does not match is printed unchanged |
| DatabaseUrl.MaskHidesPassword | scripts/build-database-url.js:55-58 | with a password, the printed URL shows ":****@" in place of exactly the encoded password |
| DatabaseUrl.MaskWithoutPasswordHidesUser | scripts/build-database-url.js:55-58 | without a password, the same mask swallows "//" and the user name instead |
| DatabaseUrl.ReplaceWithoutMarker | scripts/build-database-url.js:72-75 | text without "DATABASE_URL=" is left unchanged by the replacement |
| DatabaseUrl.EntryReplaced | scripts/build-database-url.js:73 | an entry line, whatever its old value, becomes DATABASE_URL="<url>" |
| DatabaseUrl.ReplaceSplitsAtNewline | scripts/build-database-url.js:73 | the replacement never reaches across a newline |
| DatabaseUrl.ReplaceLineByLine | scripts/build-database-url.js:73 | replacing in the file equals replacing in each of its lines |
| DatabaseUrl.Save | scripts/build-database-url.js:66-76 | the written content: the existing content (empty without a file) with entries replaced, or the entry appended on its own line |
| DatabaseUrl.Script | scripts/build-database-url.js:8-78 | the outcome is built from the loaded environment, and the file is written exactly when --save is given and the URL was built |
| Text.Trim | scripts/build-database-url.js:18-19 | trim gives the infix of its input with only white space cut at both ends, and no white space at either end of the result |
| Text.TrimEmptyIffBlank | components/app/onboarding-modal.tsx:135 | `s.trim()` is falsy exactly when s is all white space |
| Text.SplitJoin | scripts/build-database-url.js:15 | joining the pieces of split('\n') with '\n' gives the content back |
| Json.Get | lib/ai/client.ts:75-76 | a member is found exactly when some field has the key, and the value found is one of that key's values (the last, as JSON.parse keeps it) |
| Json.AsStrings | lib/utils.ts:42-44 | an array gives its strings exactly when every element is a string, and those strings are its elements |
| Json.AsStringsOfJStrings | lib/utils.ts:40-51 | the strings of an array of strings are those strings |
| Json.StringifyStringsRoundTrip | lib/utils.ts:40-51 | JSON.parse of JSON.stringify of a string list is the array of the same strings |
| Json.StringifyIntRoundTrip | app/api/onboarding/register/route.ts:80 | JSON.parse of JSON.stringify of an integer is that number |
| Json.QuoteParses | lib/utils.ts:50 | a stringified string parses back to itself, leaving the text after it |
| Time.Weekday | lib/utils.ts:27 | getDay lies in 0 to 6 |
| Time.AtHour | lib/actions/meal-plan.ts:248 | setHours(h, 0, 0, 0) keeps the day and sets the time of day to h hours |
| Time.Midnight | lib/utils.ts:26 | setHours(0, 0, 0, 0) keeps the day and gives its first millisecond, at or before the instant |
| Time.Date.SetMidnight | lib/actions/meal-plan.ts:141 | the Date is changed in place to the midnight of its day |
| Time.EndOfDay | lib/actions/meal-plan.ts:53 | setHours(23, 59, 59, 999) keeps the day and gives its last millisecond |
| Time.DayOfShift | lib/utils.ts:29-30 | moving by k whole days adds k to the day and keeps the time of day |
| Time.CivilRoundTrip | lib/actions/meal-plan.ts:105 | the calendar date of a day number converts back to that day number |
| Time.Month | components/app/week-calendar-view.tsx:45 | getMonth() + 1 lies in 1 to 12 |
| Time.IsoDateKeyIsDay | lib/actions/meal-plan.ts:105 | `toISOString().split("T")[0]` is the YYYY-MM-DD date of the instant's day |
| Time.ParseDate | lib/actions/meal-plan.ts:246 | only a text that opens with a four-digit year can be a date |
| Time.ParseIsoDay | lib/actions/meal-plan.ts:246-248 | a text has a day exactly when it is a date, and that day holds the instant it denotes |
| Time.TimePart | lib/actions/meal-plan.ts:246 | a time of day read from HH:mm[:ss[.sss]] lies between 00:00 and 24:00 |
| Time.IsoDayRoundTrip | lib/actions/meal-plan.ts:246-248 | for years 0000 to 9999, `new Date` of a day's YYYY-MM-DD key is midnight UTC of that day |
| Time.LocalTimeOnDate | lib/actions/meal-plan.ts:246-248 | a date followed by a time without offset is that local time on that date; 24:00 is the next day |
| Time.DateTimeOnListedDay | lib/actions/meal-plan.ts:246-248 | a day's key followed by a time before 24:00 without offset lands on that day |
| Time.DayStartKey | components/week/week-view.tsx:42 | the key of a day's midnight is that day's date |
| Time.IsoDayInjective | components/week/week-view.tsx:40-46 | distinct days have distinct day keys (years 0000 to 9999), so grouping by key groups by day |
| Sorting.StrLeqTotalPreorder | components/week/week-view.tsx:50 | the string order `sort()` uses is total and transitive |
| Sorting.StrLeqAntisym | components/week/week-view.tsx:50 | two strings each not after the other are equal |
| Sorting.SortBy | components/app/week-list-view.tsx:34-42 | sorting keeps the length and is a permutation of its input |
| Sorting.SortBySorted | components/app/week-list-view.tsx:34-42 | with a total, transitive comparator the result is ordered by it |
| Sorting.FilterKey | components/week/week-view.tsx:41-48 | the elements with a given key, and no others |
| Sorting.GroupByFilters | components/week/week-view.tsx:41-48 | the reduce builds a list under a key exactly when some element has it, holding exactly those elements in input order |
| Sorting.KeysInOrder | components/week/week-view.tsx:50 | Object.keys lists every key that occurs, each once |
| Sorting.SortedKeysIncreasing | components/week/week-view.tsx:50 | the sorted keys are exactly the keys that occur, in strictly increasing order |
| Sorting.Group | components/week/week-view.tsx:41-50 | the reduce loop builds the grouping and the keys in order of first appearance |
| Store.Db.constructor | lib/actions/household.ts:53 | an empty store satisfies the unique indexes and foreign keys |
| Store.FindUserByEmail | lib/actions/invitations.ts:40 | findUnique by email: a user with that email, or none exists |
| Store.FindMembership | lib/actions/invitations.ts:45 | findUnique by (userId, householdId): found exactly when the user is a member |
| Store.AddMember | lib/actions/invitations.ts:160 | one membership row added under a fresh id; the store's invariant is kept and the user is then a member |
| Store.CreateMeal | lib/actions/meal-plan.ts:251 | one meal row added under a fresh id, nothing else changed |
| Store.CreateRecipe | lib/actions/meal-plan.ts:222 | one recipe row added under a fresh id, nothing else changed |
| Store.CreateIngredient | lib/actions/meal-plan.ts:198-203 | one ingredient row added under a fresh id for a name not yet used |
| Store.CreateUser | app/api/join/complete/route.ts:49 | one user row added under a fresh id for an email not yet used |
| Store.UpdateUser | lib/actions/household.ts:146 | the user row replaced, its email kept, the invariant kept |
| Store.CreateHousehold | lib/actions/household.ts:53 | one household row added under a fresh id |
| Store.FindPreference | lib/actions/household.ts:416 | found exactly when the household has a preference with this key |
| Store.CreatePreference | lib/actions/household.ts:416 | a preference row added for a (household, key) pair that had none |
| Store.UpdatePreferenceRow | lib/actions/household.ts:416 | the preference row replaced, its (household, key) pair kept |
| Store.FindBan | lib/actions/household.ts:323 | found exactly when the household has banned the ingredient |
| Store.CreateBan | lib/actions/household.ts:323 | a ban row added for a pair that had none |
| Store.UpdateBan | lib/actions/household.ts:323 | the ban row replaced, its pair kept |
| Store.FindInvitationByToken | lib/actions/invitations.ts:117 | findUnique by token: an invitation with that token, or none has it |
| Store.FindInvitation | lib/actions/invitations.ts:66 | the invitation for (household, email), or none exists |
| Store.CreateInvitation | lib/actions/invitations.ts:66 | an invitation row added for a pair that had none, with an unused token |
| Store.UpdateInvitation | lib/actions/invitations.ts:152 | the invitation row replaced, its pair kept and its token unused elsewhere |
| Groceries.MealRows | components/app/groceries-view.tsx:81-84 | a meal without a recipe contributes no rows; one with a recipe contributes its ingredient lines with the recipe's name |
| Groceries.RecipeRows | components/app/groceries-view.tsx:84 | one row per ingredient line, in order, tagged with the recipe's name |
| Groceries.AggregateRows | components/app/groceries-view.tsx:79-111 | the Map of items holds one item per key, its insertion order listing each key once |
| Groceries.TwoRowsMerge | components/app/groceries-view.tsx:88-96 | two rows of one key give one item with the first row's unit, the sum of both quantities, and the second recipe's name appended only when it differs |
| Groceries.AggregateKeys | components/app/groceries-view.tsx:85-109 | there is an item for exactly the keys of the rows |
| Groceries.AggregateKeepsTotal | components/app/groceries-view.tsx:90-103 | the items' quantities add up to the quantities of all rows |
| Groceries.AggregateFirstRowFixes | components/app/groceries-view.tsx:98-108 | the first row of a key sets the item's id, name, category, aisle and unit, and the item starts unchecked |
| Groceries.AggregateNotes | components/app/groceries-view.tsx:91-93 | an item's notes are the distinct non-empty notes of its rows |
| Groceries.AggregateRecipes | components/app/groceries-view.tsx:94-96 | with recipe tracking, an item names exactly the recipes that use it; without, none |
| Groceries.AggregateMeals | components/app/groceries-view.tsx:81-111 | the nested forEach loops compute the aggregate of all rows of all meals |
| Groceries.AddMealRows | components/app/groceries-view.tsx:84-110 | the inner loop extends the aggregate by one meal's rows |
| Groceries.AggregateExtend | components/app/groceries-view.tsx:84-110 | aggregating one more row is one more step |
| Groceries.AddRow | components/app/groceries-view.tsx:85-109 | one row merged into its item, or a new item set |
| Groceries.Values | components/app/groceries-view.tsx:113 | Array.from(map.values()) lists the items in insertion order |
| Groceries.SourceLeqNotTransitive | components/app/groceries-view.tsx:113-120 | the comparator as written is not transitive: (no aisle, "b") ≤ ("zzz", "a") ≤ (no aisle, "a") but not (no aisle, "b") ≤ (no aisle, "a") |
| Groceries.AisleThenNameTotalPreorder | components/app/groceries-view.tsx:113-120 | ordering by aisle ("zzz" when none) then name is total and transitive |
| Groceries.SortItems | components/groceries/grocery-list-view.tsx:81-87 | the sorted list is a permutation of the items, ordered by aisle then name |
| Groceries.SourceSortAgrees | components/groceries/grocery-list-view.tsx:81-87 | when no two items have different aisles that both sort as "zzz", the sort with the written comparator gives exactly the list sorted by aisle then name |
| Sorting.SortByAgree | components/groceries/grocery-list-view.tsx:81-87 | two comparators that agree on every pair of the items sort them alike |
| Groceries.Toggle | components/app/groceries-view.tsx:123-131 | only the checked flag changes, and it flips exactly on the items of that ingredient |
| Groceries.ToggleTwice | components/app/groceries-view.tsx:123-131 | toggling the same ingredient twice gives the list back |
| Groceries.ItemsUnderOwnAisle | components/app/groceries-view.tsx:135-142 | every item is listed under its own aisle label ("Autres" when none), and under no other |
| Groceries.RenderList | components/app/groceries-view.tsx:144-160 | the text is the header and one section per aisle label in increasing order, each listing its items in list order |
| Groceries.WriteSection | components/app/groceries-view.tsx:149-157 | one section appends the upper-cased heading, a dashed rule as long as the label, and the item lines |
| GroceriesView.Fold | components/app/groceries-view.tsx:58-61 | lower-casing, NFD and the removal of combining marks leave a string that folding no longer changes |
| GroceriesView.FoldFolded | components/app/groceries-view.tsx:58-61 | folding a folded string changes nothing |
| GroceriesView.NormalizeNameIdempotent | components/app/groceries-view.tsx:57-63 | normalizeName of a normalised name is that name |
| GroceriesView.CapitalNormalized | components/app/groceries-view.tsx:57-63 | a capitalised ASCII word normalises to the same word in lower case |
| GroceriesView.AsciiLowerNormalized | components/app/groceries-view.tsx:57-63 | a word of lower-case ASCII letters is its own normal form |
| GroceriesView.UnitCategory | components/app/groceries-view.tsx:71-75 | "weight" exactly for g, kg, mg or weight (any case), "volume" exactly for ml, l, cl or volume, otherwise the lower-cased unit |
| GroceriesView.FlourKey | components/app/groceries-view.tsx:67-77 | "Farine" in g and "farine" in kg share a merge key |
| GroceriesView.ItemsHaveDistinctKeys | components/app/groceries-view.tsx:79-111 | the items have pairwise distinct keys, one per key of the rows |
| GroceriesView.MixedUnitsAdded | components/app/groceries-view.tsx:85-96 | 100 g of "Farine" and 1 kg of "farine" merge into one item of 101 g naming both recipes |
| GroceriesView.InitialItems | components/app/groceries-view.tsx:52-121 | no plan gives no items; otherwise the merged items as a permutation ordered by aisle then name |
| GroceriesView.GenerateListText | components/app/groceries-view.tsx:133-166 | shop mode gives the aisle-grouped list, kitchen mode the fixed placeholder |
| GroceryListView.OneItemPerIngredient | components/groceries/grocery-list-view.tsx:51-79 | merging by id gives exactly one item per ingredient id of the rows |
| GroceryListView.InitialItems | components/groceries/grocery-list-view.tsx:47-90 | no plan gives no items; otherwise the merged items as a permutation ordered by aisle then name |
| GroceryListView.NotesSuffix | components/groceries/grocery-list-view.tsx:125 | empty exactly when there are no notes; otherwise the notes in parentheses |
| GroceryListView.GenerateListText | components/groceries/grocery-list-view.tsx:102-131 | the aisle-grouped list with each item's notes |
| WeekCalendarView.WeekDays | components/app/week-calendar-view.tsx:30-38 | seven days, the i-th being i days after the week start at the same time of day |
| WeekCalendarView.SameCalendarDateIsSameDay | components/app/week-calendar-view.tsx:44-46 | equal date, month and year means the same day, and conversely |
| WeekCalendarView.FindFirst | components/app/week-calendar-view.tsx:41 | find returns the first element that satisfies the test, or none when no element does |
| WeekCalendarView.SlotMeal | components/app/week-calendar-view.tsx:40-83 | a slot shows the first meal of that day and type, else a placeholder of that day without recipe; either way of the slot's type and day |
| WeekCalendarView.VirtualSlotsRecognised | components/app/week-calendar-view.tsx:67-83 | the placeholder ids start with "lunch-" or "dinner-", as the meal card tests for a slot without a row |
| WeekMeals.IsVirtualSlot | components/week/meal-slot.tsx:105 | true exactly for ids that begin with "lunch-" or "dinner-" (partner: WeekCalendarView.VirtualSlotsRecognised) |
| WeekCalendarView.Cards | components/app/week-calendar-view.tsx:57-83 | one card per day, holding that day's lunch and dinner slots |
| WeekListView.Rank | components/app/week-list-view.tsx:40-41 | the rank falls back to 1 when the lookup gives 0 or nothing, so dinner ranks 2 and every other type, breakfast included, ranks 1 |
| WeekListView.MealLeqTotalPreorder | components/app/week-list-view.tsx:34-42 | the comparator is total and transitive |
| WeekListView.SortedMeals | components/app/week-list-view.tsx:34-42 | a permutation of the meals, by timestamp and, between equal timestamps, by rank |
| WeekListView.MealTypeLabel | components/app/week-list-view.tsx:44-55 | a known type gets one of the three French labels, any other type is shown as it is |
| WeekListView.LabelsDistinct | components/app/week-list-view.tsx:44-55 | the three known types have three different labels |
| WeekView.Render | components/week/week-view.tsx:36-50 | nothing exactly for a missing plan or one without meals; otherwise the meals grouped by day key and the sorted keys |
| WeekView.LayoutShape | components/week/week-view.tsx:41-50 | each meal is in exactly the group of its own day key, groups keep input order, and the days are the group keys in strictly increasing order |
| WeekView.LayoutGroups | components/week/week-view.tsx:41-48 | each meal is in exactly the group of its own day key, and each group keeps input order |
| WeekView.LayoutDays | components/week/week-view.tsx:50 | the days are exactly the group keys, in strictly increasing order |
| WeekView.SameGroupSameDay | components/week/week-view.tsx:42 | two meals share a group exactly when they fall on the same UTC day |
| Prompts.RemainingDays | lib/ai/prompts.ts:66-82 | at most seven days are listed, none exactly when the whole week is past, all seven when it has not begun |
| Prompts.WeekDates | lib/ai/prompts.ts:63-82 | the loop lists consecutive days from the later of the week start and today, as many as remain in the week |
| Prompts.ListedDaysInWeek | lib/ai/prompts.ts:68-82 | every listed day lies between the week start and its sixth day and is not before today, and the first is today once the week has begun |
| Prompts.OrDefault | lib/ai/prompts.ts:91-99 | a non-empty text is kept and an empty one is replaced by the fallback |
| Prompts.ListOrDefault | lib/ai/prompts.ts:91-94 | a missing or empty list of item texts renders as the fallback; a one-entry list as that entry |
| Prompts.PreferenceText | lib/ai/prompts.ts:91-94 | a preference line throws exactly when the parsed preference is neither undefined, null nor an array; undefined and null give the fallback; an array joins the texts of its items |
| Prompts.PreferenceTextOfStrings | lib/ai/prompts.ts:91-94 | an array of strings renders as those strings joined with ", ", or as the fallback when empty |
| Prompts.ConstraintText | lib/ai/prompts.ts:97-98 | "date: type", with " (description)" only when a non-empty description is given |
| Prompts.ConstraintsText | lib/ai/prompts.ts:97-99 | no constraints render as "aucune" |
| Prompts.ConstraintsShown | lib/ai/prompts.ts:97-99 | a non-empty list never falls back to "aucune" and starts with the first constraint's line |
| Prompts.Take | lib/ai/prompts.ts:122 | slice(0, n): the first min(n, length) entries |
| Prompts.RecentIgnoresTail | lib/ai/prompts.ts:122 | only the first 25 (or 20) recent meals are shown; none shows "aucun" |
| Prompts.RecentShowsLatest | lib/ai/prompts.ts:195 | the recent fragment starts with the latest meal when it has a name |
| Prompts.AlternativeBannedMembers | lib/ai/prompts.ts:246 | an ingredient is forbidden exactly when it is a non-empty banned or excluded name, and a non-empty excluded ingredient comes last |
| Prompts.MeatRule | lib/ai/prompts.ts:134-136 | the meat rule appears exactly when meatFrequency is defined (null included) and the diet array contains "omnivore"; it shows the parsed frequency as the template literal renders it |
| Prompts.ReasonLine | lib/ai/prompts.ts:205 | the reason line appears exactly for a non-empty reason |
| Prompts.SeasonalIngredients | lib/ai/prompts.ts:319-335 | a non-empty list exactly for months 1 to 12 |
| Prompts.SeasonalAlwaysListed | lib/ai/prompts.ts:84-85 | the week prompt always has produce; a replace prompt has produce exactly when its date parses |
| Prompts.SeasonalOfListedDay | lib/ai/prompts.ts:196-197 | the replace prompt of a listed date suggests the produce of that date's month |
| Prompts.GenerateWeekPrompt | lib/ai/prompts.ts:62-136 | the caller's week start is set to midnight in place; the prompt throws exactly when a preference cannot be joined; otherwise the target is twice the number of listed days, and every fragment is the one its inputs determine |
| Prompts.ReplaceMealPrompt | lib/ai/prompts.ts:188-197 | no banned ingredients give "aucun", and no recent meals give "aucun" |
| Prompts.AlternativeForbidsExcluded | lib/ai/prompts.ts:246-255 | a named excluded ingredient ends the forbidden list; the list is empty, with no "aucun", when nothing is banned or excluded |
| AiClient.NormalizeMealType | lib/ai/client.ts:21-25 | dinner exactly for "dinner" or "dessert", lunch exactly for "lunch", breakfast exactly for "breakfast"; anything else is rejected |
| AiClient.MealTypeNameAccepted | lib/ai/client.ts:21-25 | every meal type's own name is accepted as that type |
| AiClient.NumberedLines | lib/ai/client.ts:35 | line i is "i+1. " followed by step i |
| AiClient.InstructionLines | lib/ai/client.ts:32-38 | the numbered text splits back into one numbered line per step |
| AiClient.ValidateEach | lib/ai/client.ts:40-44 | a list is accepted exactly when every element is, and then holds each element's validated value |
| AiClient.WeekRejectsInvalidMeal | lib/ai/client.ts:43-47 | one invalid meal rejects the whole week |
| AiClient.WeekAccepted | lib/ai/client.ts:43-47 | an accepted week is an object whose dishwareScore lies in [1, 10] and whose meals are the validated meals, in order |
| AiClient.ValidateEncodedIngredient | lib/ai/client.ts:10-15 | an ingredient written out in full validates to itself |
| AiClient.ValidateMealIff | lib/ai/client.ts:17-41 | a meal object is accepted as m exactly when its fields give m |
| AiClient.ValidateEncodedMeal | lib/ai/client.ts:17-41 | a meal written out in full validates to itself |
| AiClient.DessertIsDinner | lib/ai/client.ts:21-25 | a meal of type "dessert" is accepted as dinner |
| AiClient.UnknownMealTypeRejected | lib/ai/client.ts:21-25 | any other meal type string rejects the meal |
| AiClient.InstructionsOverride | lib/ai/client.ts:32-38 | the instructions member alone decides the stored instructions |
| AiClient.InstructionListNumbered | lib/ai/client.ts:32-38 | instructions given as a list are stored numbered |
| AiClient.Without | lib/ai/client.ts:19 | removing a key makes it absent and leaves every other key's value as it was |
| AiClient.DescriptionDropped | lib/ai/client.ts:19 | without a description a meal is accepted with the empty description |
| AiClient.MissingDescriptionIsEmpty | lib/ai/client.ts:19 | a meal written out without its description validates with "" |
| AiClient.MissingRequiredFieldRejected | lib/ai/client.ts:17-41 | without any other field the meal is rejected |
| AiClient.DropTrailingFence | lib/ai/client.ts:56-58 | removing the closing fence keeps a prefix of the text |
| AiClient.ParseResponse | lib/ai/client.ts:52-82 | the incomplete error exactly when the cleaned text's braces or brackets do not balance; success exactly when they balance and the text parses and validates; no other error |
| AiClient.ParseAIResponse | lib/ai/client.ts:52-82 | the step-by-step cleaning computes that outcome |
| AiClient.FencedBodyCleaned | lib/ai/client.ts:54-59 | a body wrapped in a ```json fence is cleaned to the body and its closing newline |
| AiClient.CleanedKeepsBrackets | lib/ai/client.ts:54-59 | trimming and removing fences keeps every brace and bracket |
| AiClient.CleanedBalance | lib/ai/client.ts:54-72 | the balance check on the cleaned text is the balance of the raw response |
| AiClient.Repair | lib/ai/client.ts:124-133 | a repair exists only when the last '}' lies past the first character, and is the text before that '}' followed by the fixed closing suffix |
| AiClient.GenerateWeekMeals | lib/ai/client.ts:111-144 | a missing or empty response gives the no-response error; the truncation error exactly for a cut-off response the repair cannot handle; a cut-off response succeeds only through the repair |
| AiClient.GenerateWeekIntended | lib/ai/client.ts:119-141 | a cut-off response never succeeds unless the repair's parse does, and otherwise fails |
| AiClient.RepairErrorEscapes | lib/ai/client.ts:122-141 | the written and intended versions agree except on a cut-off response, where the written one reports the parse error instead of the truncation error |
| AiClient.RepairErrorWitness | lib/ai/client.ts:122-141 | the cut-off text x"meals":[} gives the incomplete error as written and the truncation error as intended |
| AiClient.MarkerRepairs | lib/ai/client.ts:124-133 | the text x"meals":[} ends in its only '}' and can be repaired |
| AiClient.RepairUnbalancedFails | lib/ai/client.ts:122-141 | a repaired text whose kept part leaves braces unbalanced fails the balance check |
| AiClient.SingleMealOutcome | lib/ai/client.ts:175-180 | a single meal never ends in the truncation error |
| AiClient.SingleMealIgnoresFinish | lib/ai/client.ts:175-180 | the finish reason never changes a single meal's outcome |
| AiClient.RepairBalance | lib/ai/client.ts:124-135 | the repaired text passes the balance check exactly when the kept text closes every brace and leaves one bracket open |
| AiClient.SuffixCounts | lib/ai/client.ts:133 | the appended suffix closes one object and two arrays and opens one array |
| MealPlanActions.CalendarSlots | lib/actions/meal-plan.ts:144-157 | the calendar of n days has 2n slots |
| MealPlanActions.CalendarSlotsAt | lib/actions/meal-plan.ts:147-156 | slot 2k is the lunch and slot 2k+1 the dinner of the k-th day after the first |
| MealPlanActions.CalendarShape | lib/actions/meal-plan.ts:147-156 | slot i falls on day first + i/2, lunches at even and dinners at odd positions, never breakfast |
| MealPlanActions.SlotCalendar | lib/actions/meal-plan.ts:139-157 | the loop yields the calendar from the later of the week start and today up to the week end, inclusive, with as many days as the week prompt lists |
| MealPlanActions.PushRecent | lib/actions/meal-plan.ts:264-267 | the new name comes first, followed by the previous names, and the list is cut to 30 entries only when it grew past 30 |
| MealPlanActions.RunPrefix | lib/actions/meal-plan.ts:166-285 | slots are handled in calendar order: the rows after a prefix of the slots are a prefix of the final rows, and each slot adds at most one row |
| MealPlanActions.RunRecent | lib/actions/meal-plan.ts:264-267 | the recent meals stay as given until a meal is created and never exceed 30 entries after |
| MealPlanActions.RunFillsEverySlot | lib/actions/meal-plan.ts:166-285 | when the generator never returns an empty list, every slot gets exactly one row |
| MealPlanActions.RunSkipsEmpty | lib/actions/meal-plan.ts:173-176 | a slot with no generated meal gets no row and changes nothing |
| MealPlanActions.RunAllThrow | lib/actions/meal-plan.ts:268-284 | a failing slot never aborts the run: each gets its own empty row in order, and the recent meals are untouched |
| MealPlanActions.EmptyGrid | lib/actions/meal-plan.ts:272-282 | the empty rows are at noon for lunches and at 19:00 for dinners, with no recipe and no time |
| MealPlanActions.IdsWhere | lib/actions/meal-plan.ts:62-77 | findMany returns exactly the rows matching the filter, in increasing id order |
| MealPlanActions.FirstWhere | lib/actions/meal-plan.ts:766-775 | findFirst gives none iff no row matches, otherwise the matching row with the least id |
| MealPlanActions.RecentMealNames | lib/actions/meal-plan.ts:62-83 | there are no more recent names than meals |
| MealPlanActions.RecentMealNamesSound | lib/actions/meal-plan.ts:474-498 | a name is recent iff it is the recipe name of a meal of the household on or after the cut-off date with a recipe, other than the excluded meal |
| MealPlanActions.ParsedPreference | lib/actions/meal-plan.ts:85-100 | reading a preference fails exactly when a present, non-empty value is not JSON text; an absent or empty one gives the default |
| MealPlanActions.PreferenceListRoundTrip | lib/actions/meal-plan.ts:85-96 | a list preference stored as JSON reads back as the array of the same strings |
| MealPlanActions.ListOfArray | lib/actions/meal-plan.ts:85-96 | a non-empty list preference that parses to an array is read as that array |
| MealPlanActions.PreferenceCountRoundTrip | lib/actions/meal-plan.ts:98-100 | a meat frequency stored as JSON reads back as the same number |
| MealPlanActions.CountOfNumber | lib/actions/meal-plan.ts:98-100 | a meat frequency that parses to a number is read as that number, whole or not |
| MealPlanActions.ContextFailsOnlyOnParse | lib/actions/meal-plan.ts:80-107 | building the context fails exactly when one of the values it reads is not JSON text; otherwise each value is carried as parsed, whatever its JSON type |
| MealPlanActions.FindOrCreateIngredient | lib/actions/meal-plan.ts:198-210 | the ingredient is found by its exact name, or created with category "other" and the given unit when no row has that name; nothing else changes |
| MealPlanActions.IngredientStep | lib/actions/meal-plan.ts:196-219 | one more find-or-create keeps the recipe lines pointing at rows with the generated names and every new row of category "other" |
| MealPlanActions.IngredientLines | lib/actions/meal-plan.ts:196-219 | each recipe line names an ingredient row with the generated name and carries its quantity, unit and note, and new rows are created only for those names |
| MealPlanActions.RowsStable | lib/actions/meal-plan.ts:166-285 | rows already created keep what they show while later iterations only add meals and recipes |
| MealPlanActions.CreateEmptyRow | lib/actions/meal-plan.ts:272-282 | the empty row for a slot is a new meal of the plan at the slot's hour, without recipe |
| MealPlanActions.CreateGenerated | lib/actions/meal-plan.ts:196-259 | the generated meal gives one new meal of the plan showing its recipe, the generated date and type, and preparation plus cooking time; earlier meals are untouched |
| MealPlanActions.CreateDatedRow | lib/actions/meal-plan.ts:245-259 | the new meal is at the generated day at the slot's hour with the generated meal type |
| MealPlanActions.FillSlot | lib/actions/meal-plan.ts:166-284 | one iteration creates the row Step gives for the generator's outcome, or none, and updates the recent meals and counters as Step does |
| MealPlanActions.StepGenerated | lib/actions/meal-plan.ts:178-267 | a generated meal is counted as meat iff an ingredient name contains a meat keyword, and, when its date parses, adds its row, its name to the recent meals and one to the created count |
| MealPlanActions.SlotBookkeeping | lib/actions/meal-plan.ts:166-285 | an iteration keeps the created meals in the plan with increasing fresh ids and leaves earlier meals as they were |
| MealPlanActions.RowsAppend | lib/actions/meal-plan.ts:166-285 | appending a slot's row keeps the created meals showing the rows of the run |
| MealPlanActions.FillSlots | lib/actions/meal-plan.ts:161-285 | the loop creates, in order, exactly the meals whose rows are those of Run over the slots |
| MealPlanActions.UpsertPlan | lib/actions/meal-plan.ts:112-127 | the plan of (household, week start) keeps its id and gets the new week end when it exists, and is created otherwise |
| MealPlanActions.DeletePlanMeals | lib/actions/meal-plan.ts:131-136 | exactly the plan's meals are deleted and every other meal is kept unchanged |
| MealPlanActions.RegeneratedOf | lib/actions/meal-plan.ts:131-285 | after deleting and refilling, the plan's meals are exactly the created ones and other plans' meals are kept |
| MealPlanActions.Regenerate | lib/actions/meal-plan.ts:111-285 | regeneration is a full replace: the plan is upserted, its old meals are gone, and its meals are the rows of the run over the week's slots |
| MealPlanActions.WeekStartOf | lib/actions/meal-plan.ts:49-51 | the week start used is at midnight |
| MealPlanActions.NormaliseStart | lib/actions/meal-plan.ts:49-51 | the caller's date, when given, is set to midnight in place, and the result is that midnight |
| MealPlanActions.GenerateMealPlan | lib/actions/meal-plan.ts:11-312 | fails without a session or for a non-member, and then changes nothing; once membership is known, sets the caller's Date to midnight before the preferences are parsed, so a preference that is not JSON text fails with the store unchanged but the Date already at midnight; otherwise regenerates the week's plan as Regenerate states |
| MealPlanActions.LatestPlan | lib/actions/meal-plan.ts:361-387 | the household's plan with the latest week start, none iff it has none |
| MealPlanActions.LatestPlanUnique | lib/actions/meal-plan.ts:384-386 | with one plan per household and week, the latest plan is unique |
| MealPlanActions.GetMealPlan | lib/actions/meal-plan.ts:314-427 | the plan for the exact week when there is one, otherwise the latest plan, none iff the household has no plan; membership is not checked |
| MealPlanActions.Cleared | lib/actions/meal-plan.ts:625-631 | a cleared meal has no recipe and no time and keeps its plan, date and type |
| MealPlanActions.Assigned | lib/actions/meal-plan.ts:684-690 | an assigned meal shows the recipe and its time and keeps its plan, date and type |
| MealPlanActions.ClearUndoesAssign | lib/actions/meal-plan.ts:625-690 | clearing after an assignment gives the same slot as clearing alone, and clearing is idempotent |
| MealPlanActions.ClearMeal | lib/actions/meal-plan.ts:595-636 | without a session or access nothing changes and the action fails; otherwise only that meal loses its recipe and time |
| MealPlanActions.AssignRecipeToMeal | lib/actions/meal-plan.ts:638-695 | the access check, then the recipe check; on success only that meal changes, to the recipe with preparation plus cooking time |
| MealPlanActions.StoreReplacement | lib/actions/meal-plan.ts:532-588 | a new recipe (prompt version "1.0") is stored and only the replaced meal changes, to it and its time |
| MealPlanActions.ReplaceMealInPlan | lib/actions/meal-plan.ts:429-593 | fails without a session, for an unknown meal or plan, for a preference that is not JSON text, for no generated meal, changing nothing; otherwise only that meal gets the new recipe; recent meals exclude the replaced one |
| MealPlanActions.EnsureMealSlot | lib/actions/meal-plan.ts:750-790 | returns the plan's first meal of that day and type, or creates one empty one at noon or 19:00, so a second call finds the first one's meal |
| MealPlanActions.FoundAfterCreate | lib/actions/meal-plan.ts:766-787 | the row created when none matched is the one the next lookup finds |
| Invitations.ExpiryOf | lib/actions/invitations.ts:63-64 | an invitation expires seven days later, at the same time of day |
| Invitations.InviterName | lib/actions/invitations.ts:89-90 | the inviter's user name, else the session's name, else "Un membre"; never empty |
| Invitations.CheckInvite | lib/actions/invitations.ts:11-57 | the refusal computed before any write is exactly the one the refusal function gives, in the source's order of checks, and the row found is the one for the (household, email) pair |
| Invitations.UpsertTouchesOnly | lib/actions/invitations.ts:66-86 | the upsert on (household, email) keeps every row of other households and only adds or changes rows of that household |
| Invitations.InviteToHousehold | lib/actions/invitations.ts:10-109 | the session, the caller's membership and the invitee's membership are checked in order and a refusal stores nothing; otherwise the (household, email) invitation is upserted with new token, inviter and 7-day expiry and reset to not accepted, and a failed email throws while the invitation stays; no row ever changes its (household, email) pair, and a success names a row filed under the address |
| Invitations.AcceptRefusal | lib/actions/invitations.ts:124-138 | the refusals in order (unknown token, expired, already accepted, other address compared exactly); none iff the invitation exists, is not expired, was never accepted and is addressed to the session's email |
| Invitations.AcceptedOnce | lib/actions/invitations.ts:132-134 | an invitation accepted once is refused afterwards |
| Invitations.AcceptInvitation | lib/actions/invitations.ts:111-178 | a refusal changes nothing; acceptance marks the invitation accepted and adds no membership for a member (alreadyMember) and exactly one "member" membership otherwise |
| JoinComplete.JoinRefusal | app/api/join/complete/route.ts:10-36 | no 400 iff token and password are present and the invitation exists and has not expired; an accepted invitation is not refused |
| JoinComplete.JoinedUser | app/api/join/complete/route.ts:38-63 | the user keeps its email and name, gets the hash only when it had no password, and an existing password is never overwritten |
| JoinComplete.CheckJoin | app/api/join/complete/route.ts:10-36 | the 400 answer computed before any write is exactly the refusal function on the request and the row holding the token, and when there is none the row found is that row |
| JoinComplete.CompleteJoin | app/api/join/complete/route.ts:5-97 | a 400 changes nothing; otherwise the user of the lowercased email is found or created, becomes a member unless already one, the invitation is marked accepted, and the lowercased email is answered |
| JoinComplete.EnsureUser | app/api/join/complete/route.ts:41-63 | the user of the email is created with the hash, or given it when it had no password, and no other user changes |
| JoinComplete.EnsureMember | app/api/join/complete/route.ts:65-83 | after the call the user is a member; the memberships are unchanged when it already was one, so a repeated request adds none |
| OnboardingRegister.RegisterRefusal | app/api/onboarding/register/route.ts:44-63 | no 400 iff household name, creator email, first name and password are all given and no account uses the email |
| OnboardingRegister.AllergyList | app/api/onboarding/register/route.ts:84-88 | every allergy kept is non-empty, trimmed and free of commas |
| OnboardingRegister.TrimmedPieces | app/api/onboarding/register/route.ts:86-87 | the trimmed pieces of a split on "," are their own trims and hold no comma |
| OnboardingRegister.TrimmedPiece | app/api/onboarding/register/route.ts:87 | trimming a comma-free piece leaves it comma-free |
| OnboardingRegister.TrimAllTrimmed | app/api/onboarding/register/route.ts:87 | trimming entries already trimmed changes nothing |
| OnboardingRegister.NonEmptyOfNonEmpty | app/api/onboarding/register/route.ts:88 | dropping empty entries from a list without any changes nothing |
| OnboardingRegister.AllergyListRoundTrip | app/api/onboarding/register/route.ts:84-88 | allergies typed as a comma-separated list read back as that list, and the empty text gives none |
| OnboardingRegister.InviterName | app/api/onboarding/register/route.ts:156 | the trimmed first name, or "Un membre" when it is blank; never empty |
| OnboardingRegister.InvitationEmails | app/api/onboarding/register/route.ts:147-167 | one email per invitation, in order, to the lowercased address with the invitation's token in a /join/ link |
| OnboardingRegister.NextRowFits | app/api/onboarding/register/route.ts:132-144 | without a clash, the next invitation row collides with no row already there |
| OnboardingRegister.InvitedStep | app/api/onboarding/register/route.ts:132-144 | one more created invitation extends the invited rows by the next invitee |
| OnboardingRegister.CreateInvitations | app/api/onboarding/register/route.ts:126-144 | one new invitation per invitee, in order, with the lowercased email, a fresh token, the creator as inviter and seven days of validity |
| OnboardingRegister.Register | app/api/onboarding/register/route.ts:12-204 | a 400 or a failed transaction changes nothing and sends nothing; otherwise the user, the household with its owner and preference records, and an invitation per other member are created, and one invitation email per invitation is sent |
| OnboardingRegister.Enroll | app/api/onboarding/register/route.ts:98-174 | the transaction creates the user with the trimmed first name, founds the household with the records, and invites every invitee |
| HouseholdActions.Lookup | lib/actions/household.ts:37-51 | the value of the first record with the key, none iff no record has it |
| HouseholdActions.LookupAppend | lib/actions/household.ts:120-142 | pushing a record keeps every key already present and adds its own key when absent |
| HouseholdActions.BuildPreferences | lib/actions/household.ts:120-142 | diet when the diet type is truthy, meatFrequency for an omnivore with a frequency, allergies when there are some, in that order and each at most once |
| HouseholdActions.RanksOfThree | lib/actions/household.ts:120-142 | the optional records come in the order diet, meatFrequency, allergies |
| HouseholdActions.LookupThree | lib/actions/household.ts:120-142 | the optional records read each key back as its own value |
| HouseholdActions.RecordsReadBack | lib/actions/household.ts:120-142 | read back as the meal-plan actions read them, the records parse to the array [dietType], the omnivore's frequency and the array of exactly the allergies |
| HouseholdActions.ReadStored | lib/actions/household.ts:152-166 | a household whose rows are exactly the records reads each key as the record |
| HouseholdActions.PreferenceValueStable | lib/actions/meal-plan.ts:85-100 | reading a preference does not depend on rows not yet created |
| HouseholdActions.ReadOne | lib/actions/meal-plan.ts:85-100 | a household with a row for a key reads that row's value |
| HouseholdActions.StorePreferences | lib/actions/household.ts:163-165 | after the nested create the household reads each key back as its record, and no other household's rows change |
| HouseholdActions.Invitees | lib/actions/household.ts:182-184 | exactly the members whose lowercased email differs from the creator's, in order |
| HouseholdActions.NewHousehold | lib/actions/household.ts:152-156 | minDishware and prioritizeSeasonal default to true, and no meals per week is set |
| HouseholdActions.FoundedStable | lib/actions/household.ts:152-175 | the founded household's records read the same whatever the id counter |
| HouseholdActions.Found | lib/actions/household.ts:152-175 | a new household with the user as its only "owner" member and its preference records |
| HouseholdActions.CreateHouseholdFor | lib/actions/household.ts:8-81 | fails without a user id and email, or when the user already has a household, changing nothing; otherwise founds the household with diet and allergies but no meat frequency |
| HouseholdActions.HasHouseholdQuery | lib/actions/household.ts:22-30 | true iff the user is a member of some household |
| HouseholdActions.AfterAuthRefusal | lib/actions/household.ts:94-117 | no refusal iff the session has a user id and email equal to the creator email ignoring case and the user has no household; a mismatch is refused as such |
| HouseholdActions.CreateHouseholdAfterAuth | lib/actions/household.ts:83-200 | a refusal changes nothing; otherwise the name is set when given, the household is founded with all three records, and every other member is invited once in order, failures skipped, touching only the new household's invitations; since the creator owns the new household, attempt i fails with AlreadyMember exactly when invitee i's address is a member's and otherwise only on a taken token or a failed delivery, its email is prepared exactly when the invitation was upserted, a household row then stays filed under the address, and it succeeds exactly when that email was delivered (AllAttempted) |
| HouseholdActions.Onboard | lib/actions/household.ts:144-175 | the user's name is set iff a first name is given, then the household is founded |
| HouseholdActions.InviteAll | lib/actions/household.ts:187-194 | one attempt and one prepared email per invitee and none stops the loop; earlier invitations stay, and new ones belong to the household; a caller outside the household is refused every time and nothing is stored; for a caller inside it, every attempt is Attempted for its invitee, token and delivery (AllAttempted) |
| HouseholdActions.InviteOne | lib/actions/household.ts:188-193 | one inviteToHousehold inside the try: refused for a caller outside the household, otherwise Attempted: AlreadyMember exactly when the address is a member's, an invitation filed under the address whenever the email is prepared, success exactly on delivery, and every row keeps its (household, email) pair |
| HouseholdActions.BanIngredient | lib/actions/household.ts:311-345 | for a member, the (household, ingredient) ban is created or its author replaced, and its reason only when one is given, so banning twice leaves one row; a refusal changes nothing |
| HouseholdActions.UpdatePreference | lib/actions/household.ts:401-436 | for a member, the (household, key) preference is created or replaced, and the household then reads the key back as the value |
| OnboardingModal.SaveRestore | components/app/onboarding-modal.tsx:65-105 | saving a draft and restoring it gives it back, except that an empty diet comes back as none |
| OnboardingModal.MissingFieldsDefaults | components/app/onboarding-modal.tsx:48-81 | missing fields restore the defaults (7 meals with meat, dishware and season on, the others off), and a stored 0 or false is kept |
| OnboardingModal.AfterAdd | components/app/onboarding-modal.tsx:116-128 | the trimmed member is appended iff both inputs are non-blank and the email is not listed ignoring case; otherwise the list is unchanged |
| OnboardingModal.AddKeepsEmailsDistinct | components/app/onboarding-modal.tsx:119 | adding an email typed without surrounding spaces keeps the emails distinct ignoring case |
| OnboardingModal.PaddedEmailAddedTwice | components/app/onboarding-modal.tsx:119-122 | the duplicate check reads the untrimmed input, so the same email typed with a leading space is added a second time |
| OnboardingModal.LongerNotListed | components/app/onboarding-modal.tsx:119 | an email longer than every listed one is not listed |
| OnboardingModal.PaddedTrim | components/app/onboarding-modal.tsx:121 | trimming removes exactly a leading space from an otherwise trimmed text |
| OnboardingModal.Without | components/app/onboarding-modal.tsx:130-132 | the list without the given position, or the same list for a position out of range |
| OnboardingModal.Finished | components/app/onboarding-modal.tsx:134-175 | refused, changing nothing, iff a required field is blank; otherwise loading, the draft saved with email and first name trimmed, and a redirection carrying the encoded trimmed email |
| OnboardingModal.Modal.constructor | components/app/onboarding-modal.tsx:48-87 | the dialog starts on step 1 with the defaults, restores a stored draft when open and then saves it |
| OnboardingModal.Modal.Change | components/app/onboarding-modal.tsx:89-108 | an edit changes its field; an open dialog saves when a tracked field changed, and the meat frequency is not tracked |
| OnboardingModal.Modal.TypeMember | components/app/onboarding-modal.tsx:56-57 | the new-member inputs hold what was typed |
| OnboardingModal.Modal.AddMember | components/app/onboarding-modal.tsx:116-128 | the list becomes AfterAdd's; the inputs are cleared, and the draft saved when open, only when a member was added |
| OnboardingModal.Modal.RemoveMember | components/app/onboarding-modal.tsx:130-132 | the list loses the position, and an open dialog saves the draft |
| OnboardingModal.Modal.EnterOnName | components/app/onboarding-modal.tsx:202-206 | Enter on step 1 goes to step 2 iff the household name is not blank |
| OnboardingModal.Modal.Next | components/app/onboarding-modal.tsx:312-315 | forward from step 1 only with name, email and first name filled, from step 2 always |
| OnboardingModal.Modal.Back | components/app/onboarding-modal.tsx:414-507 | back from step 2 to 1 and from step 3 to 2 |
| OnboardingModal.Modal.HandleFinish | components/app/onboarding-modal.tsx:134-175 | the outcome, loading flag and stored draft are those Finished gives |

## Left out

- The OpenAI chat calls (model, temperature, token limit) are not modelled. A completion is an input: its text and its finish reason.
- `generateSingleMeal` and the replacement and alternative generators are opaque. They are functions from their arguments to an outcome: a thrown error or a list of meals.
- The prompt prose of lib/ai/prompts.ts is not modelled; only its computed fragments are. `extractIngredientsPrompt` and `extractIngredients` are prose plus a call and are left out.
- The generation context fields `mealsPerWeek`, `prioritizeSeasonal` and `minDishware` are not modelled. They feed only the prompt prose (the servings line prints 2 either way).
- Prisma is modelled as maps in one object with one id counter. Relation includes, `orderBy` on dates and `createdAt`, and the shape of the returned rows are not modelled. `MealPlanActions.GenerateMealPlan` returns the plan's id and the new meal ids, and `MealPlanActions.GetMealPlan` returns the plan's id.
- The following are left out because they do nothing the model can observe: NextAuth sessions (the session user is an input), `revalidatePath`, console logging and the React toasts.
- The `Promise.all` find-or-create of ingredients and the fire-and-forget invitation emails of the registration endpoint are modelled sequentially. Races on ingredient names are out of scope.
- MealPlanActions.FindOrCreateIngredient: does not model two concurrent creations of the same name. Under `Promise.all` that can break the unique index.
- The welcome email of the registration endpoint is left out. Its failure is caught and never changes the response.
- OnboardingRegister.Register: requires that every membership points at an existing user. That foreign key holds in the database, and the new user's id depends on it.
- OnboardingRegister.Register: the meat frequency is an integer. The route stores `JSON.stringify` of any number, so 3.5 is stored as "3.5" and NaN as "null"; fractional and non-finite frequencies are not modelled. The dialog's slider yields only the integers 0 to 14.
- HouseholdActions.Found: the meat frequency is an integer, as for OnboardingRegister.Register; a fractional or non-finite number is not modelled.
- HouseholdActions.CreateHouseholdAfterAuth: the meat frequency is an integer, as for OnboardingRegister.Register; a fractional or non-finite number is not modelled.
- HouseholdActions.BanIngredient: an unknown ingredient is refused with its own error. This stands for the foreign-key failure of the create.
- The following actions are not modelled. Each is one query or one delete with the usual session and membership check: `searchRecipes`, `getHousehold`, `getUserHouseholds`, `getUserHousehold`, `unbanIngredient`, `updateHouseholdSettings`, `deletePreference` and `getHouseholdInvitations`.
- Library primitives are modelled only as far as the source needs them:
  - `toLowerCase` and `toUpperCase` map ASCII and Latin-1 letters only.
  - The NFD normalisation of the grocery view removes the accents of Latin-1 precomposed letters only.
  - `localeCompare` is the order of code units.
  - `encodeURIComponent` and the rendering of numbers as text are parameters.
  - bcrypt, `randomBytes` and `randomUUID` are inputs.
- Groceries.SortItems: sorts with the corrected comparator (aisle, a missing one read as "zzz", then name), not the written one. The two give the same list unless two items have different aisles that both sort as "zzz" (Groceries.SourceSortAgrees); then the order `Array.prototype.sort` returns depends on the engine's algorithm and the input order, and is not modelled (see Findings).
- GroceriesView.InitialItems: the order is that of Groceries.SortItems, so the same exception applies.
- GroceryListView.InitialItems: the order is that of Groceries.SortItems, so the same exception applies.
- Groceries.WriteSection: the dashed rule has one dash per character of the heading. `String.prototype.length` counts UTF-16 code units, so a heading with characters outside the Basic Multilingual Plane gets a longer rule there.
- Json.UnicodeEscape: a `\u` escape of a lone surrogate (D800 to DFFF) is refused, because a character here is a Unicode scalar value. JSON.parse accepts it.
- DatabaseUrl.ReplaceEntries: the URL is inserted as it is. `String.prototype.replace` expands `$&`, `` $` ``, `$'` and `$$` in the replacement text, so a URL that holds one of them (through PGHOST, PGPORT, PGDATABASE or PGSSLMODE, which are not encoded; the user name and password are escaped) is written differently there.
- Time.ParseDate: reads the date time string format of ECMAScript with four-digit years and exactly three fraction digits. Expanded years (+YYYYYY), other fraction lengths and the engine's fallback formats (such as "March 4, 2024") are Invalid Date here.
- Sorting.StrLeq: compares code units. `localeCompare` uses the host locale's collation, so accented names may sort differently there.
- Dates are integer milliseconds read in a host whose local time is UTC. Time zones, and the drift between local hours and `toISOString`, are out of scope.
- Prices are computed over real numbers, so floating-point rounding is out of scope.
- Prices.PriceLinear: additivity is exact over reals. Floating-point results can differ in the last digit.
- The onboarding dialog stores the draft as a value, not as JSON text. `JSON.stringify`/`JSON.parse` of it, and `localStorage` exceptions, are left out.
- The timing of React effects is not modelled: a save happens within the change that triggers it. The dialog markup is left out.
- OnboardingModal.Modal.HandleFinish: the `globalThis.window` test and the catch branch (which only a `localStorage` failure reaches) are not modelled. The redirection always happens.
- The script's file reads and writes, `process.exit` and console output are not modelled. The file's content is an input and the written content an output.
- The fixed markup of the email page is a parameter: a `Page` of the strings between the slots.
- The grocery views' clipboard copy, `useMemo`, the view-mode switch control and the markup are left out.
- The calendar view's rendering, and the markup of every view, are left out.

## Findings

| source | as written | input that shows it | evidently intended | confidence | as-written member | corrected member |
|---|---|---|---|---|---|---|
| lib/utils/ingredient-prices.ts:86-91 | millilitres are converted only against a price per litre. Against a price per "100ml" the quantity in ml is used as if it were a number of 100 ml units | "Crème" (1.2 per "100ml"), 200, "ml" costs 240 | 200 ml of cream costs 2.4 (quantity / 100); spoons are counted as 15 or 5 ml against a "100ml" price too | not executed | Prices.HundredMlUnconverted | Prices.IntendedConversionsAgree |
| components/app/groceries-view.tsx:113-120 | the aisles are compared raw for inequality, but their order is taken after replacing a missing aisle with "zzz". A missing aisle and "zzz" therefore compare equal, with no name tie-break, so the comparator is not transitive and the sort order depends on the input order | items with no aisle and name "b", with aisle "zzz" and name "a", and with no aisle and name "a" | aisle (missing read as "zzz") then name: a total preorder | not executed | Groceries.SourceLeqNotTransitive | Groceries.AisleThenNameTotalPreorder |
| lib/ai/client.ts:122-141 | the repaired text's parse is returned without being awaited inside the try. Its failure therefore escapes the catch and surfaces as the parse error, not as the truncation error | a text x"meals":[} cut at the token limit (x any character other than a quote or a brace) | every failed repair ends in the truncation error | not executed | AiClient.RepairErrorWitness | AiClient.GenerateWeekIntended |
