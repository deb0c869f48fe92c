/** Instants as JavaScript Dates hold them: integer milliseconds since 1970-01-01T00:00Z, read
    in a host whose local time zone is UTC, so that the local getters (getDate, getDay,
    setHours) and the UTC ones (toISOString) agree. Calendar dates are proleptic Gregorian. */
module Time {
  import opened Wrappers
  import Text

  const MsPerSecond: int := 1000
  const MsPerMinute: int := 60000
  const MsPerHour: int := 3600000
  const MsPerDay: int := 86400000

  /** The day number of an instant: days since 1970-01-01 (negative before). */
  function Day(t: int): int {
    t / MsPerDay
  }

  /** Milliseconds since midnight. */
  function TimeInDay(t: int): (r: int)
    ensures 0 <= r < MsPerDay
  {
    t % MsPerDay
  }

  /** Date.prototype.getDay: 0 for Sunday up to 6 for Saturday; day 0 was a Thursday. */
  function Weekday(day: int): (w: int)
    ensures 0 <= w < 7
  {
    (day + 4) % 7
  }

  /** The instant at `hour`:00:00.000 of the given day (setHours(hour, 0, 0, 0)). */
  function AtHour(day: int, hour: int): (t: int)
    requires 0 <= hour < 24
    ensures Day(t) == day && TimeInDay(t) == hour * MsPerHour
  {
    day * MsPerDay + hour * MsPerHour
  }

  /** Midnight of the instant's day (setHours(0, 0, 0, 0)). */
  function Midnight(t: int): (m: int)
    ensures Day(m) == Day(t) && TimeInDay(m) == 0 && m <= t < m + MsPerDay
  {
    AtHour(Day(t), 0)
  }

  /** A mutable JavaScript Date, for the callers that change the Date they were handed. */
  class Date {
    var time: int

    constructor(t: int)
      ensures time == t
    {
      time := t;
    }

    /** setHours(0, 0, 0, 0). */
    method SetMidnight()
      modifies this
      ensures time == Midnight(old(time))
    {
      time := Midnight(time);
    }
  }

  lemma DayOfShift(t: int, k: int)
    ensures Day(t + k * MsPerDay) == Day(t) + k
    ensures TimeInDay(t + k * MsPerDay) == TimeInDay(t)
  {
  }

  /** The last millisecond of a day (setHours(23, 59, 59, 999)). */
  function EndOfDay(day: int): (t: int)
    ensures Day(t) == day && TimeInDay(t) == MsPerDay - 1
  {
    day * MsPerDay + MsPerDay - 1
  }

  /** A midnight is the first millisecond of its day. */
  lemma MidnightIsDayStart(m: int)
    requires TimeInDay(m) == 0
    ensures m == Day(m) * MsPerDay
  {
  }

  /** Year, month (1 to 12) and day of month (1 to 31) of a day number, by the era-based
      conversion of the proleptic Gregorian calendar (400-year cycles of 146097 days). */
  function CivilFromDays(day: int): (r: (int, int, int))
    ensures 1 <= r.1 <= 12 && 1 <= r.2 <= 31
  {
    var z := day + 719468;
    CivilOfEra(z / 146097, z % 146097)
  }

  /** The date at day `doe` of the 400-year era `era`, eras starting on a 1 March. */
  function CivilOfEra(era: int, doe: int): (r: (int, int, int))
    requires 0 <= doe < 146097
    ensures 1 <= r.1 <= 12 && 1 <= r.2 <= 31
  {
    var yoe := (doe - doe / 1460 + doe / 36524 - doe / 146096) / 365;
    YearOfEraBounds(doe);
    var doy := doe - (365 * yoe + yoe / 4 - yoe / 100);
    var mp := (5 * doy + 2) / 153;
    var d := doy - (153 * mp + 2) / 5 + 1;
    var m := if mp < 10 then mp + 3 else mp - 9;
    var y := yoe + era * 400;
    (if m <= 2 then y + 1 else y, m, d)
  }

  /** Within a 400-year era, the year index lies in [0, 399] and the day of the (March-based)
      year in [0, 365]. */
  lemma YearOfEraBounds(doe: int)
    requires 0 <= doe < 146097
    ensures var yoe := (doe - doe / 1460 + doe / 36524 - doe / 146096) / 365;
      0 <= yoe < 400 && 0 <= doe - (365 * yoe + yoe / 4 - yoe / 100) <= 365
  {
    var cent := doe / 36524;
    if cent < 4 {
      CenturyBounds(doe, cent);
    }
  }

  lemma CenturyBounds(doe: int, cent: int)
    requires 0 <= cent < 4 && 36524 * cent <= doe < 36524 * (cent + 1)
    ensures var yoe := (doe - doe / 1460 + doe / 36524 - doe / 146096) / 365;
      0 <= yoe < 400 && 0 <= doe - (365 * yoe + yoe / 4 - yoe / 100) <= 365
  {
    assert doe / 36524 == cent;
    assert doe / 146096 == 0;
    var r := doe - 36524 * cent;
    var q := (24 * cent + r) / 1460;
    assert doe / 1460 == 25 * cent + q;
    var a := (r - q) / 365;
    var yoe := (doe - doe / 1460 + doe / 36524 - doe / 146096) / 365;
    assert yoe == 100 * cent + a;
    assert yoe / 4 == 25 * cent + a / 4;
    assert yoe / 100 == cent + a / 100;
    WithinCentury(cent, r);
  }

  /** The year index and day of year within one century of an era. */
  lemma WithinCentury(cent: int, r: int)
    requires 0 <= cent < 4 && 0 <= r < 36524
    ensures var a := (r - (24 * cent + r) / 1460) / 365;
      0 <= a < 100 && 0 <= r - 365 * a - a / 4 + a / 100 <= 365
  {
  }

  /** The day number of a calendar date; months and days outside their ranges carry over
      linearly, as Date.UTC does. */
  function DaysFromCivil(y: int, m: int, d: int): int
    requires 1 <= m <= 12
  {
    var y1 := if m <= 2 then y - 1 else y;
    var era := y1 / 400;
    var yoe := y1 - era * 400;
    var mp := if m > 2 then m - 3 else m + 9;
    var doy := (153 * mp + 2) / 5 + d - 1;
    var doe := yoe * 365 + yoe / 4 - yoe / 100 + doy;
    era * 146097 + doe - 719468
  }

  /** Converting a day number to its calendar date and back gives the same day. */
  lemma CivilRoundTrip(day: int)
    ensures var c := CivilFromDays(day); DaysFromCivil(c.0, c.1, c.2) == day
  {
    var z := day + 719468;
    EraRoundTrip(z / 146097, z % 146097);
  }

  /** Converting a day of an era to its calendar date and back gives the same day. */
  lemma EraRoundTrip(era: int, doe: int)
    requires 0 <= doe < 146097
    ensures var c := CivilOfEra(era, doe); DaysFromCivil(c.0, c.1, c.2) == era * 146097 + doe - 719468
  {
    YearOfEraBounds(doe);
    var yoe := (doe - doe / 1460 + doe / 36524 - doe / 146096) / 365;
    var doy := doe - (365 * yoe + yoe / 4 - yoe / 100);
    var mp := (5 * doy + 2) / 153;
    var d := doy - (153 * mp + 2) / 5 + 1;
    var m := if mp < 10 then mp + 3 else mp - 9;
    var y := yoe + era * 400;
    var c := CivilOfEra(era, doe);
    assert c == (if m <= 2 then y + 1 else y, m, d);
    var y1 := if m <= 2 then c.0 - 1 else c.0;
    assert y1 == y;
    EraOfYear(yoe, era);
    assert (if m > 2 then m - 3 else m + 9) == mp by {
      MonthOfYearBounds(doy);
    }
    assert (153 * mp + 2) / 5 + d - 1 == doy;
  }

  lemma EraOfYear(yoe: int, era: int)
    requires 0 <= yoe < 400
    ensures (yoe + era * 400) / 400 == era && (yoe + era * 400) - era * 400 == yoe
  {
  }

  /** The March-based month index of a day of year lies in [0, 11]. */
  lemma MonthOfYearBounds(doy: int)
    requires 0 <= doy <= 365
    ensures 0 <= (5 * doy + 2) / 153 < 12
  {
  }

  /** Date.prototype.getMonth() + 1. */
  function Month(t: int): (m: int)
    ensures 1 <= m <= 12
  {
    CivilFromDays(Day(t)).1
  }

  /** A natural number in decimal, left-padded with zeros to at least w digits. */
  function Pad(n: nat, w: nat): (r: string)
    ensures |r| >= w
    ensures forall i :: 0 <= i < |r| ==> '0' <= r[i] <= '9'
  {
    var s := Text.NatToString(n);
    if |s| >= w then s else Text.Repeat('0', w - |s|) + s
  }

  /** The year field of toISOString: four digits within 0000 to 9999, otherwise a sign and six. */
  function YearString(y: int): (r: string)
    ensures forall i :: 0 <= i < |r| ==> r[i] != 'T'
  {
    if 0 <= y <= 9999 then Pad(y, 4)
    else if y < 0 then "-" + Pad(-y, 6)
    else "+" + Pad(y, 6)
  }

  /** YYYY-MM-DD of a day number. */
  function IsoDay(day: int): (r: string)
    ensures forall i :: 0 <= i < |r| ==> r[i] != 'T'
  {
    var c := CivilFromDays(day);
    YearString(c.0) + "-" + Pad(c.1, 2) + "-" + Pad(c.2, 2)
  }

  /** Date.prototype.toISOString: YYYY-MM-DDTHH:mm:ss.sssZ. */
  function IsoString(t: int): string {
    IsoDay(Day(t)) + "T" + IsoTime(TimeInDay(t))
  }

  /** HH:mm:ss.sssZ of a time of day in milliseconds. */
  function IsoTime(ms: nat): string {
    Pad(ms / MsPerHour, 2) + ":" + Pad(ms % MsPerHour / MsPerMinute, 2)
      + ":" + Pad(ms % MsPerMinute / MsPerSecond, 2) + "." + Pad(ms % MsPerSecond, 3) + "Z"
  }

  /** `toISOString().split("T")[0]`, the day key the views and the planner use. */
  function IsoDateKey(t: int): string {
    Text.Split(IsoString(t), 'T')[0]
  }

  /** The day key of an instant is the YYYY-MM-DD of its day. */
  lemma IsoDateKeyIsDay(t: int)
    ensures IsoDateKey(t) == IsoDay(Day(t))
  {
    var p := IsoDay(Day(t));
    var rest := IsoTime(TimeInDay(t));
    assert IsoString(t) == p + ['T'] + rest;
    Text.SplitFromThroughSep(p, 'T', rest, []);
    assert [] + p == p;
  }

  // ---------------------------------------------------------------- parsing

  /** The date that opens a string of the date time string format (section 21.4.1.32 of
      ECMA-262): YYYY, YYYY-MM or YYYY-MM-DD, a missing month or day being 01, and the text
      after it. */
  function DatePart(s: string): Option<(int, int, int, string)> {
    if |s| < 4 || !Text.AllDigits(s[..4]) then None
    else
      var y := Text.DigitsValue(s[..4]);
      if |s| >= 7 && s[4] == '-' && Text.AllDigits(s[5..7]) then
        var m := Text.DigitsValue(s[5..7]);
        if |s| >= 10 && s[7] == '-' && Text.AllDigits(s[8..10]) then Some((y, m, Text.DigitsValue(s[8..10]), s[10..]))
        else Some((y, m, 1, s[7..]))
      else Some((y, 1, 1, s[4..]))
  }

  /** The time of day that follows the T: HH:mm, HH:mm:ss or HH:mm:ss.sss, in milliseconds,
      and the text after it. 24:00 is accepted with zero seconds and milliseconds. */
  function TimePart(s: string): (r: Option<(int, string)>)
    ensures r.Some? ==> 0 <= r.value.0 <= MsPerDay
  {
    if |s| < 5 || s[2] != ':' || !Text.AllDigits(s[..2]) || !Text.AllDigits(s[3..5]) then None
    else
      var h := Text.DigitsValue(s[..2]);
      var mi := Text.DigitsValue(s[3..5]);
      var more :=
        if |s| >= 8 && s[5] == ':' && Text.AllDigits(s[6..8]) then
          if |s| >= 12 && s[8] == '.' && Text.AllDigits(s[9..12])
          then
            Text.DigitsValueBelow(s[9..12]);
            assert Text.Pow10(3) == 1000;
            (Text.DigitsValue(s[6..8]), Text.DigitsValue(s[9..12]), s[12..])
          else (Text.DigitsValue(s[6..8]), 0, s[8..])
        else (0, 0, s[5..]);
      if mi <= 59 && more.0 <= 59 && (h < 24 || (h == 24 && mi == 0 && more.0 == 0 && more.1 == 0))
      then Some((h * MsPerHour + mi * MsPerMinute + more.0 * MsPerSecond + more.1, more.2))
      else None
  }

  /** The offset that ends a date-time string, in minutes ahead of UTC: none (local time,
      which is UTC here), Z, or +HH:mm / -HH:mm. */
  function Offset(s: string): Option<int> {
    if s == "" || s == "Z" then Some(0)
    else if |s| == 6 && (s[0] == '+' || s[0] == '-') && s[3] == ':'
      && Text.AllDigits(s[1..3]) && Text.AllDigits(s[4..6])
    then
      var hh := Text.DigitsValue(s[1..3]);
      var mm := Text.DigitsValue(s[4..6]);
      if hh <= 23 && mm <= 59 then Some(if s[0] == '+' then hh * 60 + mm else -(hh * 60 + mm)) else None
    else None
  }

  /** The instant `new Date(s)` gives for a string of the date time string format: a date-only
      form is read as UTC, a date-time form as local time unless it ends with an offset. A month
      01 to 12 and a day 01 to 31 are accepted, a day past the month's end carrying into the
      next month. Any other string is an Invalid Date here (None). */
  function ParseDate(s: string): (r: Option<int>)
    ensures r.Some? ==> 4 <= |s| && Text.AllDigits(s[..4])
  {
    match DatePart(s)
    case None => None
    case Some(date) =>
      var (y, m, d, rest) := date;
      if !(1 <= m <= 12 && 1 <= d <= 31) then None
      else if rest == "" then Some(DaysFromCivil(y, m, d) * MsPerDay)
      else if rest[0] != 'T' then None
      else
        match TimePart(rest[1..])
        case None => None
        case Some(time) =>
          match Offset(time.1)
          case None => None
          case Some(minutes) => Some(DaysFromCivil(y, m, d) * MsPerDay + time.0 - minutes * MsPerMinute)
  }

  /** The day of the instant `new Date(s)` gives, for the callers that keep only the day (or its
      month) and set the hours themselves. */
  function ParseIsoDay(s: string): (r: Option<int>)
    ensures r.Some? <==> ParseDate(s).Some?
    ensures r.Some? ==> r.value * MsPerDay <= ParseDate(s).value < (r.value + 1) * MsPerDay
  {
    match ParseDate(s)
    case None => None
    case Some(t) => Some(Day(t))
  }

  lemma PadValue(n: nat, w: nat)
    requires 1 <= w && n < Text.Pow10(w)
    ensures |Pad(n, w)| == w
    ensures Text.AllDigits(Pad(n, w)) && Text.DigitsValue(Pad(n, w)) == n
  {
    Text.NatToStringLength(n, w);
    Text.NatToStringValue(n);
    var d := Text.NatToString(n);
    var p := Pad(n, w);
    if |d| < w {
      var z := Text.Repeat('0', w - |d|);
      assert p == z + d;
      Text.DigitsValueLeadingZeros(w - |d|, d);
      assert Text.DigitsValue(z + d) == n;
    } else {
      assert p == d;
    }
  }

  /** The date part of a day's YYYY-MM-DD date followed by any text is that day's year, month
      and day of month, for the years 0000 to 9999. */
  lemma DatePartOfIsoDay(day: int, rest: string)
    requires 0 <= CivilFromDays(day).0 <= 9999
    ensures var c := CivilFromDays(day); DatePart(IsoDay(day) + rest) == Some((c.0, c.1, c.2, rest))
  {
    var c := CivilFromDays(day);
    assert Text.Pow10(4) == 10000 && Text.Pow10(2) == 100;
    PadValue(c.0, 4);
    PadValue(c.1, 2);
    PadValue(c.2, 2);
    var s := IsoDay(day) + rest;
    assert s == Pad(c.0, 4) + "-" + Pad(c.1, 2) + "-" + Pad(c.2, 2) + rest;
    assert s[..4] == Pad(c.0, 4);
    assert s[5..7] == Pad(c.1, 2);
    assert s[8..10] == Pad(c.2, 2);
    assert s[10..] == rest;
  }

  /** For the years 0000 to 9999, `new Date(YYYY-MM-DD)` of a day's ISO date is midnight UTC
      of that day. */
  lemma IsoDayRoundTrip(day: int)
    requires 0 <= CivilFromDays(day).0 <= 9999
    ensures ParseDate(IsoDay(day)) == Some(day * MsPerDay)
    ensures ParseIsoDay(IsoDay(day)) == Some(day)
  {
    var c := CivilFromDays(day);
    DatePartOfIsoDay(day, "");
    assert IsoDay(day) + "" == IsoDay(day);
    CivilRoundTrip(day);
    DateOfDay(IsoDay(day), c.0, c.1, c.2, day);
  }

  lemma DateOfDay(s: string, y: int, m: int, d: int, day: int)
    requires DatePart(s) == Some((y, m, d, "")) && 1 <= m <= 12 && 1 <= d <= 31
    requires DaysFromCivil(y, m, d) == day
    ensures ParseDate(s) == Some(day * MsPerDay)
    ensures ParseIsoDay(s) == Some(day)
  {
    DateOnly(s, y, m, d);
    DayOfInstant(s, day * MsPerDay);
    DayOfShift(0, day);
  }

  /** A date-only form is read as midnight UTC of its day. */
  lemma DateOnly(s: string, y: int, m: int, d: int)
    requires DatePart(s) == Some((y, m, d, "")) && 1 <= m <= 12 && 1 <= d <= 31
    ensures ParseDate(s) == Some(DaysFromCivil(y, m, d) * MsPerDay)
  {
  }

  /** ParseDate of a string whose date, time and offset have been read. */
  lemma ParseDateOfParts(s: string, y: int, m: int, d: int, rest: string, ms: int, tail: string, minutes: int)
    requires DatePart(s) == Some((y, m, d, rest)) && 1 <= m <= 12 && 1 <= d <= 31
    requires rest != "" && rest[0] == 'T' && TimePart(rest[1..]) == Some((ms, tail)) && Offset(tail) == Some(minutes)
    ensures ParseDate(s) == Some(DaysFromCivil(y, m, d) * MsPerDay + ms - minutes * MsPerMinute)
  {
  }

  /** A date followed by a time without offset is local time on that date (UTC here); 24:00
      is the midnight that ends it. */
  lemma LocalTimeOnDate(s: string, y: int, m: int, d: int, time: string)
    requires DatePart(s) == Some((y, m, d, "T" + time)) && 1 <= m <= 12 && 1 <= d <= 31
    requires TimePart(time).Some? && TimePart(time).value.1 == ""
    ensures ParseDate(s) == Some(DaysFromCivil(y, m, d) * MsPerDay + TimePart(time).value.0)
    ensures ParseIsoDay(s) == Some(if TimePart(time).value.0 == MsPerDay then DaysFromCivil(y, m, d) + 1 else DaysFromCivil(y, m, d))
  {
    var day := DaysFromCivil(y, m, d);
    var ms := TimePart(time).value.0;
    assert ("T" + time)[1..] == time;
    OffsetNone();
    ParseDateOfParts(s, y, m, d, "T" + time, ms, "", 0);
    DayOfInstant(s, day * MsPerDay + ms);
    if ms == MsPerDay {
      DayOfShift(0, day + 1);
      assert day * MsPerDay + ms == (day + 1) * MsPerDay;
    } else {
      DayOfShift(ms, day);
    }
  }

  /** A day's YYYY-MM-DD date followed by a local time before 24:00 is read on that day. */
  lemma DateTimeOnListedDay(day: int, time: string)
    requires 0 <= CivilFromDays(day).0 <= 9999
    requires TimePart(time).Some? && TimePart(time).value.1 == "" && TimePart(time).value.0 < MsPerDay
    ensures ParseIsoDay(IsoDay(day) + "T" + time) == Some(day)
  {
    var c := CivilFromDays(day);
    var s := IsoDay(day) + "T" + time;
    DatePartOfIsoDay(day, "T" + time);
    assert s == IsoDay(day) + ("T" + time);
    CivilRoundTrip(day);
    LocalTimeOnDate(s, c.0, c.1, c.2, time);
  }

  lemma DayOfInstant(s: string, t: int)
    requires ParseDate(s) == Some(t)
    ensures ParseIsoDay(s) == Some(Day(t))
  {
  }

  lemma OffsetNone()
    ensures Offset("") == Some(0)
  {
  }

  /** The day key of the midnight that starts a day is that day's YYYY-MM-DD date. */
  lemma DayStartKey(day: int)
    ensures IsoDateKey(day * MsPerDay) == IsoDay(day)
  {
    DayOfShift(0, day);
    IsoDateKeyIsDay(day * MsPerDay);
  }

  /** Distinct days have distinct YYYY-MM-DD dates, within the years 0000 to 9999. */
  lemma IsoDayInjective(a: int, b: int)
    requires 0 <= CivilFromDays(a).0 <= 9999 && 0 <= CivilFromDays(b).0 <= 9999
    requires a != b
    ensures ParseIsoDay(IsoDay(a)) == Some(a)
    ensures IsoDay(a) != IsoDay(b)
  {
    IsoDayRoundTrip(a);
    IsoDayRoundTrip(b);
  }
}
