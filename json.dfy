/** JSON values (section 3 of RFC 8259) with the library functions the source relies on:
    JSON.parse, as a parser that accepts exactly the JSON text grammar, JSON.stringify on the
    two shapes the source stores, lists of strings and integers, and the text String() gives
    a parsed value. */
module Json {
  import opened Wrappers
  import Text

  datatype Json =
    | JNull
    | JBool(b: bool)
    | JNumber(n: real)
    | JString(str: string)
    | JArray(items: seq<Json>)
    | JObject(fields: seq<(string, Json)>)

  /** Member lookup; when a key is repeated JSON.parse keeps the last value. */
  function Get(fields: seq<(string, Json)>, key: string): (r: Option<Json>)
    ensures r.Some? <==> exists i :: 0 <= i < |fields| && fields[i].0 == key
    ensures r.Some? ==> exists i :: 0 <= i < |fields| && fields[i] == (key, r.value)
  {
    if fields == [] then None
    else if fields[|fields| - 1].0 == key then Some(fields[|fields| - 1].1)
    else
      var r := Get(fields[..|fields| - 1], key);
      assert forall i :: 0 <= i < |fields| - 1 ==> fields[..|fields| - 1][i] == fields[i];
      r
  }

  /** The value found for a key is the one at its last occurrence. */
  lemma {:induction false} GetAt(fields: seq<(string, Json)>, i: nat, key: string)
    requires i < |fields| && fields[i].0 == key
    requires forall j :: i < j < |fields| ==> fields[j].0 != key
    ensures Get(fields, key) == Some(fields[i].1)
  {
    if i < |fields| - 1 {
      GetAt(fields[..|fields| - 1], i, key);
    }
  }

  /** A member appended to an object overrides any earlier one with that key. */
  lemma GetAppended(fields: seq<(string, Json)>, k: string, v: Json, key: string)
    ensures Get(fields + [(k, v)], key) == if key == k then Some(v) else Get(fields, key)
  {
    assert (fields + [(k, v)])[..|fields|] == fields;
  }

  function JStrings(xs: seq<string>): (r: seq<Json>)
    ensures |r| == |xs| && forall i :: 0 <= i < |xs| ==> r[i] == JString(xs[i])
  {
    if xs == [] then [] else [JString(xs[0])] + JStrings(xs[1..])
  }

  /** The strings of an array whose every element is a string. */
  function AsStrings(items: seq<Json>): (r: Option<seq<string>>)
    ensures r.Some? <==> forall i :: 0 <= i < |items| ==> items[i].JString?
    ensures r.Some? ==> JStrings(r.value) == items
  {
    if items == [] then Some([])
    else if !items[0].JString? then None
    else
      match AsStrings(items[1..])
      case None => None
      case Some(rest) =>
        assert items == [items[0]] + items[1..];
        Some([items[0].str] + rest)
  }

  lemma AsStringsOfJStrings(tags: seq<string>)
    ensures AsStrings(JStrings(tags)) == Some(tags)
  {
    var r := AsStrings(JStrings(tags));
    assert r.Some?;
    assert JStrings(r.value) == JStrings(tags);
    assert |r.value| == |tags|;
    forall i | 0 <= i < |tags| ensures r.value[i] == tags[i] {
      assert JStrings(r.value)[i] == JStrings(tags)[i];
    }
    assert r.value == tags;
  }

  // ---------------------------------------------------------------- String() of a value

  /** String(v) of a parsed value, as a template literal and Array.prototype.join render it:
      null is "null", an array is the texts of its items joined with "," (a null item as the
      empty string) and an object is "[object Object]". The rendering of numbers
      (Number.prototype.toString) is a parameter. */
  function ToText(v: Json, number: real -> string): string
    decreases v, 1
  {
    match v
    case JNull => "null"
    case JBool(b) => if b then "true" else "false"
    case JNumber(x) => number(x)
    case JString(str) => str
    case JArray(items) => Text.Join(ItemTexts(items, number), ",")
    case JObject(_) => "[object Object]"
  }

  /** The texts Array.prototype.join gives to the items of an array. */
  function ItemTexts(items: seq<Json>, number: real -> string): (r: seq<string>)
    ensures |r| == |items|
    decreases JArray(items), 0
  {
    seq(|items|, i requires 0 <= i < |items| => if items[i].JNull? then "" else ToText(items[i], number))
  }

  /** The items of an array of strings render as those strings, whatever the number rendering. */
  lemma ItemTextsOfStrings(xs: seq<string>, number: real -> string)
    ensures ItemTexts(JStrings(xs), number) == xs
  {
  }

  // ---------------------------------------------------------------- parsing

  predicate IsWs(c: char) {
    c == ' ' || c == '\t' || c == '\n' || c == '\r'
  }

  function SkipWs(s: string): (r: string)
    ensures |r| <= |s| && r == s[|s| - |r|..]
    ensures r == [] || !IsWs(r[0])
  {
    if s != [] && IsWs(s[0]) then SkipWs(s[1..]) else s
  }

  /** Number of leading decimal digits. */
  function DigitRun(s: string): (n: nat)
    ensures n <= |s|
    ensures forall i :: 0 <= i < n ==> Text.IsDigit(s[i])
    ensures n < |s| ==> !Text.IsDigit(s[n])
  {
    if s != [] && Text.IsDigit(s[0]) then 1 + DigitRun(s[1..]) else 0
  }

  function Scale(x: real, e: int): real {
    if e >= 0 then x * (Text.Pow10(e) as real) else x / (Text.Pow10(-e) as real)
  }

  /** The exponent part `[eE][+-]?digits`, or none; None when `e` is not followed by digits. */
  function ParseExponent(s: string): (r: Option<(int, string)>)
    ensures r.Some? ==> |r.value.1| <= |s|
  {
    if s == [] || (s[0] != 'e' && s[0] != 'E') then Some((0, s))
    else
      var t := s[1..];
      var neg := t != [] && t[0] == '-';
      var u := if t != [] && (t[0] == '-' || t[0] == '+') then t[1..] else t;
      var n := DigitRun(u);
      if n == 0 then None
      else
        var v := Text.DigitsValue(u[..n]) as int;
        Some((if neg then -v else v, u[n..]))
  }

  /** `-? (0 | [1-9][0-9]*) (. [0-9]+)? ([eE] [+-]? [0-9]+)?` */
  function ParseNumber(s: string): (r: Option<(real, string)>)
    ensures r.Some? ==> |r.value.1| < |s|
  {
    if s != [] && s[0] == '-' then
      match ParseUnsigned(s[1..])
      case None => None
      case Some((m, rest)) => Some((-m, rest))
    else ParseUnsigned(s)
  }

  /** The number without its sign. */
  function ParseUnsigned(t: string): (r: Option<(real, string)>)
    ensures r.Some? ==> |r.value.1| < |t|
  {
    var n := DigitRun(t);
    if n == 0 || (t[0] == '0' && n > 1) then None
    else
      var whole := Text.DigitsValue(t[..n]) as real;
      var u := t[n..];
      if u != [] && u[0] == '.' then
        var f := DigitRun(u[1..]);
        if f == 0 then None
        else
          var frac := Text.DigitsValue(u[1..][..f]) as real / (Text.Pow10(f) as real);
          match ParseExponent(u[1..][f..])
          case None => None
          case Some((e, rest)) => Some((Scale(whole + frac, e), rest))
      else
        match ParseExponent(u)
        case None => None
        case Some((e, rest)) => Some((Scale(whole, e), rest))
  }

  predicate IsHex(c: char) {
    '0' <= c <= '9' || 'a' <= c <= 'f' || 'A' <= c <= 'F'
  }

  function HexVal(c: char): (v: nat)
    requires IsHex(c)
    ensures v < 16
  {
    if '0' <= c <= '9' then c as int - '0' as int
    else if 'a' <= c <= 'f' then c as int - 'a' as int + 10
    else c as int - 'A' as int + 10
  }

  /** The code unit written by four hexadecimal digits. */
  function Hex4(s: string): (r: Option<nat>)
    ensures r.Some? ==> |s| >= 4 && r.value < 0x10000
  {
    if |s| >= 4 && IsHex(s[0]) && IsHex(s[1]) && IsHex(s[2]) && IsHex(s[3]) then
      Some(((HexVal(s[0]) * 16 + HexVal(s[1])) * 16 + HexVal(s[2])) * 16 + HexVal(s[3]))
    else None
  }

  /** The character of a `\u` escape that follows `\u` in s: a code unit outside the surrogate
      range, or a high surrogate immediately followed by `\u` and a low surrogate. */
  function UnicodeEscape(s: string): (r: Option<(char, string)>)
    ensures r.Some? ==> |r.value.1| <= |s| - 4
  {
    match Hex4(s)
    case None => None
    case Some(u) =>
      if u < 0xD800 || 0xE000 <= u then Some((u as char, s[4..]))
      else if u >= 0xDC00 then None
      else if |s| >= 6 && s[4] == '\\' && s[5] == 'u' then
        match Hex4(s[6..])
        case None => None
        case Some(lo) =>
          if 0xDC00 <= lo < 0xE000 then
            Some(((0x10000 + (u - 0xD800) * 0x400 + (lo - 0xDC00)) as char, s[10..]))
          else None
      else None
  }

  /** The escape sequences of section 7 of RFC 8259, after the backslash. */
  function EscapeChar(c: char): Option<char> {
    match c
    case '"' => Some('"')
    case '\\' => Some('\\')
    case '/' => Some('/')
    case 'b' => Some('\U{0008}')
    case 'f' => Some('\U{000C}')
    case 'n' => Some('\n')
    case 'r' => Some('\r')
    case 't' => Some('\t')
    case _ => None
  }

  /** The rest of a string literal after its opening quote; `acc` holds what was read. */
  function ParseStringBody(s: string, acc: string): (r: Option<(string, string)>)
    ensures r.Some? ==> |r.value.1| < |s|
  {
    if s == [] then None
    else if s[0] == '"' then Some((acc, s[1..]))
    else if s[0] == '\\' then
      if |s| < 2 then None
      else if s[1] == 'u' then
        match UnicodeEscape(s[2..])
        case None => None
        case Some((c, rest)) => ParseStringBody(rest, acc + [c])
      else
        match EscapeChar(s[1])
        case None => None
        case Some(c) => ParseStringBody(s[2..], acc + [c])
    else if s[0] < ' ' then None
    else ParseStringBody(s[1..], acc + [s[0]])
  }

  /** One value after optional white space, and the text after it. */
  function ParseValue(s: string): (r: Option<(Json, string)>)
    decreases |s|, 1
    ensures r.Some? ==> |r.value.1| < |s|
  {
    var t := SkipWs(s);
    if t == [] then None
    else if t[0] == '[' then ParseArray(t)
    else if t[0] == '{' then ParseObject(t)
    else ParseScalar(t)
  }

  /** A literal, a string or a number at the start of t. */
  function ParseScalar(t: string): (r: Option<(Json, string)>)
    requires t != []
    ensures r.Some? ==> |r.value.1| < |t|
  {
    if t[0] == 'n' then
      if Text.StartsWith(t, "null") then Some((JNull, t[4..])) else None
    else if t[0] == 't' then
      if Text.StartsWith(t, "true") then Some((JBool(true), t[4..])) else None
    else if t[0] == 'f' then
      if Text.StartsWith(t, "false") then Some((JBool(false), t[5..])) else None
    else if t[0] == '"' then
      match ParseStringBody(t[1..], "")
      case None => None
      case Some((str, rest)) => Some((JString(str), rest))
    else
      match ParseNumber(t)
      case None => None
      case Some((n, rest)) => Some((JNumber(n), rest))
  }

  function ParseArray(t: string): (r: Option<(Json, string)>)
    requires t != [] && t[0] == '['
    decreases |t|, 0
    ensures r.Some? ==> |r.value.1| < |t|
  {
    var u := SkipWs(t[1..]);
    if u != [] && u[0] == ']' then Some((JArray([]), u[1..]))
    else ParseElements(u, [])
  }

  function ParseObject(t: string): (r: Option<(Json, string)>)
    requires t != [] && t[0] == '{'
    decreases |t|, 0
    ensures r.Some? ==> |r.value.1| < |t|
  {
    var u := SkipWs(t[1..]);
    if u != [] && u[0] == '}' then Some((JObject([]), u[1..]))
    else ParseMembers(u, [])
  }

  /** The elements of a non-empty array after `[`, up to and including the closing `]`. */
  function ParseElements(s: string, acc: seq<Json>): (r: Option<(Json, string)>)
    decreases |s|, 2
    ensures r.Some? ==> |r.value.1| < |s|
  {
    match ParseValue(s)
    case None => None
    case Some((v, rest)) =>
      var u := SkipWs(rest);
      if u == [] then None
      else if u[0] == ',' then ParseElements(u[1..], acc + [v])
      else if u[0] == ']' then Some((JArray(acc + [v]), u[1..]))
      else None
  }

  /** The members of a non-empty object after `{`, up to and including the closing `}`. */
  function ParseMembers(s: string, acc: seq<(string, Json)>): (r: Option<(Json, string)>)
    decreases |s|, 3
    ensures r.Some? ==> |r.value.1| < |s|
  {
    var t := SkipWs(s);
    if t == [] || t[0] != '"' then None
    else
      match ParseStringBody(t[1..], "")
      case None => None
      case Some((key, rest)) =>
        var u := SkipWs(rest);
        if u == [] || u[0] != ':' then None
        else
          match ParseValue(u[1..])
          case None => None
          case Some((v, rest2)) =>
            var w := SkipWs(rest2);
            if w == [] then None
            else if w[0] == ',' then ParseMembers(w[1..], acc + [(key, v)])
            else if w[0] == '}' then Some((JObject(acc + [(key, v)]), w[1..]))
            else None
  }

  /** JSON.parse: one value surrounded by optional white space; None where it throws. */
  function Parse(s: string): Option<Json> {
    match ParseValue(s)
    case None => None
    case Some((v, rest)) => if SkipWs(rest) == [] then Some(v) else None
  }

  // ---------------------------------------------------------------- stringify

  function HexDigit(d: nat): char
    requires d < 16
  {
    if d < 10 then ('0' as int + d) as char else ('a' as int + d - 10) as char
  }

  /** How JSON.stringify writes one character inside a string literal. */
  function EscapeOut(c: char): string {
    if c == '"' then "\\\""
    else if c == '\\' then "\\\\"
    else if c == '\U{0008}' then "\\b"
    else if c == '\U{000C}' then "\\f"
    else if c == '\n' then "\\n"
    else if c == '\r' then "\\r"
    else if c == '\t' then "\\t"
    else if c < ' ' then "\\u00" + [HexDigit(c as int / 16), HexDigit(c as int % 16)]
    else [c]
  }

  function QuoteBody(s: string): string {
    if s == [] then "" else EscapeOut(s[0]) + QuoteBody(s[1..])
  }

  function Quote(s: string): string {
    "\"" + QuoteBody(s) + "\""
  }

  function QuoteAll(xs: seq<string>): (r: seq<string>)
    ensures |r| == |xs| && forall i :: 0 <= i < |xs| ==> r[i] == Quote(xs[i])
  {
    if xs == [] then [] else [Quote(xs[0])] + QuoteAll(xs[1..])
  }

  /** JSON.stringify of an array of strings. */
  function StringifyStrings(xs: seq<string>): string {
    "[" + Text.Join(QuoteAll(xs), ",") + "]"
  }

  /** JSON.stringify of an integral number. */
  function StringifyInt(n: int): string {
    Text.IntToString(n)
  }

  // ---------------------------------------------------------------- round trips

  lemma EscapeOutParses(c: char, rest: string, acc: string)
    ensures ParseStringBody(EscapeOut(c) + rest, acc) == ParseStringBody(rest, acc + [c])
  {
    var e := EscapeOut(c);
    if c < ' ' && c != '\U{0008}' && c != '\U{000C}' && c != '\n' && c != '\r' && c != '\t' {
      var s := e + rest;
      var h := c as int;
      assert s[2..] == "00" + [HexDigit(h / 16), HexDigit(h % 16)] + rest;
      assert Hex4(s[2..]) == Some(h);
      assert (h as char) == c;
      assert s[2..][4..] == rest;
    } else if c == '"' || c == '\\' || c == '\U{0008}' || c == '\U{000C}' || c == '\n' || c == '\r' || c == '\t' {
      assert (e + rest)[2..] == rest;
    } else {
      assert (e + rest)[1..] == rest;
    }
  }

  lemma {:induction false} QuoteBodyParses(s: string, rest: string, acc: string)
    ensures ParseStringBody(QuoteBody(s) + "\"" + rest, acc) == Some((acc + s, rest))
  {
    if s == [] {
      assert QuoteBody(s) + "\"" + rest == "\"" + rest;
      assert ("\"" + rest)[1..] == rest;
      assert acc + s == acc;
    } else {
      calc {
        ParseStringBody(QuoteBody(s) + "\"" + rest, acc);
        { assert QuoteBody(s) + "\"" + rest == EscapeOut(s[0]) + (QuoteBody(s[1..]) + "\"" + rest); }
        ParseStringBody(EscapeOut(s[0]) + (QuoteBody(s[1..]) + "\"" + rest), acc);
        { EscapeOutParses(s[0], QuoteBody(s[1..]) + "\"" + rest, acc); }
        ParseStringBody(QuoteBody(s[1..]) + "\"" + rest, acc + [s[0]]);
        { QuoteBodyParses(s[1..], rest, acc + [s[0]]); }
        Some((acc + [s[0]] + s[1..], rest));
        { assert acc + [s[0]] + s[1..] == acc + s; }
        Some((acc + s, rest));
      }
    }
  }

  lemma QuoteParses(s: string, rest: string)
    ensures ParseValue(Quote(s) + rest) == Some((JString(s), rest))
  {
    var t := Quote(s) + rest;
    assert t[0] == '"';
    assert SkipWs(t) == t;
    assert t[1..] == QuoteBody(s) + "\"" + rest;
    QuoteBodyParses(s, rest, "");
    assert "" + s == s;
    assert ParseStringBody(t[1..], "") == Some((s, rest));
  }

  lemma ElementsStep(s: string, acc: seq<Json>, v: Json, c: char, tail: string)
    requires ParseValue(s) == Some((v, [c] + tail))
    requires c == ',' || c == ']'
    ensures ParseElements(s, acc)
         == if c == ',' then ParseElements(tail, acc + [v]) else Some((JArray(acc + [v]), tail))
  {
    assert SkipWs([c] + tail) == [c] + tail;
    assert ([c] + tail)[1..] == tail;
  }

  lemma JStringsCons(acc: seq<Json>, xs: seq<string>)
    requires xs != []
    ensures acc + [JString(xs[0])] + JStrings(xs[1..]) == acc + JStrings(xs)
  {
    assert JStrings(xs) == [JString(xs[0])] + JStrings(xs[1..]);
  }

  lemma SplitAfterFirst(a: string, j: string, rest: string)
    ensures a + "," + j + "]" + rest == a + ([','] + (j + "]" + rest))
  {
  }

  lemma {:induction false} ElementsParse(xs: seq<string>, rest: string, acc: seq<Json>)
    requires xs != []
    ensures ParseElements(Text.Join(QuoteAll(xs), ",") + "]" + rest, acc)
         == Some((JArray(acc + JStrings(xs)), rest))
  {
    var q := QuoteAll(xs);
    var s := Text.Join(q, ",") + "]" + rest;
    if |xs| == 1 {
      assert s == Quote(xs[0]) + ([']'] + rest);
      QuoteParses(xs[0], [']'] + rest);
      ElementsStep(s, acc, JString(xs[0]), ']', rest);
      assert acc + JStrings(xs) == acc + [JString(xs[0])];
    } else {
      var j := Text.Join(QuoteAll(xs[1..]), ",");
      var tail := j + "]" + rest;
      assert q[1..] == QuoteAll(xs[1..]);
      assert Text.Join(q, ",") == q[0] + "," + j;
      SplitAfterFirst(q[0], j, rest);
      assert q[0] == Quote(xs[0]);
      assert s == Quote(xs[0]) + ([','] + tail);
      QuoteParses(xs[0], [','] + tail);
      assert ParseValue(s) == Some((JString(xs[0]), [','] + tail));
      ElementsStep(s, acc, JString(xs[0]), ',', tail);
      ElementsParse(xs[1..], rest, acc + [JString(xs[0])]);
      JStringsCons(acc, xs);
    }
  }

  lemma ParseOfValue(s: string, v: Json)
    requires ParseValue(s) == Some((v, ""))
    ensures Parse(s) == Some(v)
  {
  }

  lemma ArrayOpens(body: string)
    requires body != [] && body[0] == '"'
    ensures ParseValue("[" + body) == ParseElements(body, [])
  {
    var s := "[" + body;
    assert SkipWs(s) == s;
    assert s[1..] == body;
    assert SkipWs(body) == body;
    assert ParseValue(s) == ParseArray(s);
  }

  lemma EmptyArrayParses()
    ensures ParseValue("[]") == Some((JArray([]), ""))
  {
    var s := "[]";
    assert s[0] == '[' && s[1] == ']' && |s| == 2;
    assert !IsWs(s[0]);
    assert SkipWs(s) == s;
    var rb := s[1..];
    assert !IsWs(rb[0]);
    assert SkipWs(rb) == rb;
    assert rb[1..] == [];
    assert ParseArray(s) == Some((JArray([]), ""));
  }

  /** JSON.parse(JSON.stringify(xs)) gives back the array of the same strings. */
  lemma StringifyStringsRoundTrip(xs: seq<string>)
    ensures Parse(StringifyStrings(xs)) == Some(JArray(JStrings(xs)))
  {
    var s := StringifyStrings(xs);
    if xs == [] {
      assert s == "[]";
      EmptyArrayParses();
    } else {
      var q := QuoteAll(xs);
      var body := Text.Join(q, ",") + "]";
      assert s == "[" + body;
      Text.JoinStartsWithFirst(q, ",");
      assert q[0] == Quote(xs[0]);
      assert body[0] == '"';
      ArrayOpens(body);
      ElementsParse(xs, "", []);
      assert body + "" == body;
      assert [] + JStrings(xs) == JStrings(xs);
    }
    ParseOfValue(s, JArray(JStrings(xs)));
  }

  lemma NatParses(n: nat)
    ensures ParseNumber(Text.NatToString(n)) == Some((n as real, ""))
    ensures ParseUnsigned(Text.NatToString(n)) == Some((n as real, ""))
  {
    Text.NatToStringValue(n);
    DigitsNumber(Text.NatToString(n));
    DigitsUnsigned(Text.NatToString(n));
  }

  /** A run of digits without a leading zero reads as its decimal value. */
  lemma DigitsNumber(s: string)
    requires s != [] && forall i :: 0 <= i < |s| ==> Text.IsDigit(s[i])
    requires |s| > 1 ==> s[0] != '0'
    ensures ParseNumber(s) == Some((Text.DigitsValue(s) as real, ""))
  {
    assert s[0] != '-';
    DigitsUnsigned(s);
  }

  lemma DigitsUnsigned(s: string)
    requires s != [] && forall i :: 0 <= i < |s| ==> Text.IsDigit(s[i])
    requires |s| > 1 ==> s[0] != '0'
    ensures ParseUnsigned(s) == Some((Text.DigitsValue(s) as real, ""))
  {
    var n := DigitRun(s);
    assert n == |s| by {
      DigitRunAll(s);
    }
    var whole := Text.DigitsValue(s[..n]) as real;
    assert s[..n] == s;
    var u := s[n..];
    assert u == [];
    assert ParseExponent(u) == Some((0, u));
    assert Text.Pow10(0) == 1;
    assert Scale(whole, 0) == whole;
  }

  lemma {:induction false} DigitRunAll(s: string)
    requires forall i :: 0 <= i < |s| ==> Text.IsDigit(s[i])
    ensures DigitRun(s) == |s|
  {
    if s != [] {
      DigitRunAll(s[1..]);
    }
  }

  lemma NumberValue(t: string, x: real)
    requires t != [] && (t[0] == '-' || Text.IsDigit(t[0]))
    requires ParseNumber(t) == Some((x, ""))
    ensures ParseValue(t) == Some((JNumber(x), ""))
  {
    assert !IsWs(t[0]) && t[0] != '[' && t[0] != '{';
    assert SkipWs(t) == t;
    assert t[0] != 'n' && t[0] != 't' && t[0] != 'f' && t[0] != '"';
    assert ParseScalar(t) == Some((JNumber(x), ""));
    assert ParseValue(t) == ParseScalar(t);
  }

  /** JSON.parse(JSON.stringify(n)) gives back the number n. */
  lemma StringifyIntRoundTrip(n: int)
    ensures Parse(StringifyInt(n)) == Some(JNumber(n as real))
  {
    var s := StringifyInt(n);
    IntNumber(n);
    NumberValue(s, n as real);
    ParseOfValue(s, JNumber(n as real));
  }

  lemma IntNumber(n: int)
    ensures var s := StringifyInt(n);
      s != [] && (s[0] == '-' || Text.IsDigit(s[0])) && ParseNumber(s) == Some((n as real, ""))
  {
    var s := StringifyInt(n);
    if n < 0 {
      var d := Text.NatToString(-n);
      assert s == "-" + d;
      NatParses(-n);
      assert s[1..] == d;
    } else {
      NatParses(n);
    }
  }
}
