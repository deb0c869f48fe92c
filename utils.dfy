/** The date and tag helpers of lib/utils.ts: the Monday that starts a week, the Sunday that
    ends it, and the encoding of a recipe's tags as a JSON text. */
module Utils {
  import opened Wrappers
  import opened Time
  import Json

  /** getWeekStart: midnight of the Monday of the week holding t (weeks run Monday to Sunday).
      The source works on a copy of its argument, so the caller's Date is left as it was. */
  function GetWeekStart(t: int): (ws: int)
    ensures TimeInDay(ws) == 0 && Weekday(Day(ws)) == 1
    ensures Day(ws) <= Day(t) < Day(ws) + 7
  {
    var day := Day(Midnight(t));
    var wd := Weekday(day);
    AtHour(day - wd + (if wd == 0 then -6 else 1), 0)
  }

  /** A Sunday belongs to the week that began six days before it. */
  lemma WeekStartOfSunday(t: int)
    requires Weekday(Day(t)) == 0
    ensures Day(GetWeekStart(t)) == Day(t) - 6
  {
  }

  /** The week start is the only Monday in the seven days up to t, so every instant of a week
      has the same week start, and taking the week start of a week start changes nothing. */
  lemma WeekStartUnique(t: int, u: int)
    requires Day(u) <= Day(t) < Day(u) + 7 && Weekday(Day(u)) == 1
    ensures Day(GetWeekStart(t)) == Day(u)
  {
    var a := Day(GetWeekStart(t));
    assert Weekday(a) == Weekday(Day(u));
    assert (a - Day(u)) % 7 == 0;
  }

  lemma WeekStartIdempotent(t: int)
    ensures GetWeekStart(GetWeekStart(t)) == GetWeekStart(t)
  {
    var ws := GetWeekStart(t);
    WeekStartUnique(ws, ws);
  }

  /** getWeekEnd: the same time of day, six days after the week start. */
  function GetWeekEnd(ws: int): (we: int)
    ensures Day(we) == Day(ws) + 6 && TimeInDay(we) == TimeInDay(ws)
  {
    DayOfShift(ws, 6);
    ws + 6 * MsPerDay
  }

  /** The argument of parseTags: the stored JSON text, or a list a caller already decoded. */
  datatype TagsArg = TagList(tags: seq<string>) | TagText(text: string)

  /** parseTags: a list is returned as it is; a text is read by JSON.parse, the empty text as
      "[]", and a text JSON.parse rejects gives the empty list. The result is whatever JSON.parse
      returns: the declared string[] type is not checked. */
  function ParseTags(arg: TagsArg): (r: Json.Json)
    ensures arg.TagList? ==> r == Json.JArray(Json.JStrings(arg.tags))
    ensures arg.TagText? && (arg.text == "" || Json.Parse(arg.text).None?) ==> r == Json.JArray([])
    ensures arg.TagText? && arg.text != "" && Json.Parse(arg.text).Some? ==> r == Json.Parse(arg.text).value
  {
    Json.StringifyStringsRoundTrip([]);
    assert Json.StringifyStrings([]) == "[]";
    match arg
    case TagList(tags) => Json.JArray(Json.JStrings(tags))
    case TagText(text) =>
      match Json.Parse(if text == "" then "[]" else text)
      case Some(v) => v
      case None => Json.JArray([])
  }

  /** stringifyTags: JSON.stringify of the list, an array text that is "[]" exactly for no
      tags; TagsRoundTrip reads it back. */
  function StringifyTags(tags: seq<string>): (r: string)
    ensures 2 <= |r| && r[0] == '[' && r[|r| - 1] == ']'
    ensures tags == [] <==> r == "[]"
  {
    Json.StringifyStrings(tags)
  }

  /** Tags stored by stringifyTags read back as the same list. */
  lemma TagsRoundTrip(tags: seq<string>)
    ensures ParseTags(TagText(StringifyTags(tags))) == Json.JArray(Json.JStrings(tags))
    ensures Json.AsStrings(ParseTags(TagText(StringifyTags(tags))).items) == Some(tags)
  {
    Json.StringifyStringsRoundTrip(tags);
    var s := StringifyTags(tags);
    assert s[0] == '[';
    Json.AsStringsOfJStrings(tags);
  }

  /** An empty text, and a text that is not JSON, both give the empty list. */
  lemma TagsOfEmptyOrInvalid(text: string)
    requires text == "" || Json.Parse(text).None?
    ensures ParseTags(TagText(text)) == Json.JArray([])
  {
    if text == "" {
      Json.StringifyStringsRoundTrip([]);
      assert Json.StringifyStrings([]) == "[]";
    }
  }
}
