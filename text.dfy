/** String helpers shared by the model: the JavaScript String methods the source calls
    (trim, toLowerCase, toUpperCase, split, join, includes, startsWith, indexOf,
    lastIndexOf, repeat) and decimal rendering of integers. Strings are seq<char>. */
module Text {
  import opened Wrappers

  /** The characters String.prototype.trim removes: ECMAScript WhiteSpace and LineTerminator. */
  predicate IsWhiteSpace(c: char) {
    c == '\t' || c == '\n' || c == '\U{000B}' || c == '\U{000C}' || c == '\r' || c == ' '
    || c == '\U{00A0}' || c == '\U{1680}' || ('\U{2000}' <= c <= '\U{200A}')
    || c == '\U{2028}' || c == '\U{2029}' || c == '\U{202F}' || c == '\U{205F}'
    || c == '\U{3000}' || c == '\U{FEFF}'
  }

  predicate IsBlank(s: string) {
    forall i :: 0 <= i < |s| ==> IsWhiteSpace(s[i])
  }

  /** An optional string is truthy in JavaScript when it is present and not empty. */
  predicate Truthy(s: Option<string>) {
    s.Some? && s.value != ""
  }

  /** The index of the first character at or after i that is not white space, or |s|. */
  function SkipWhiteSpace(s: string, i: nat): (a: nat)
    requires i <= |s|
    decreases |s| - i
    ensures i <= a <= |s|
    ensures forall k :: i <= k < a ==> IsWhiteSpace(s[k])
    ensures a < |s| ==> !IsWhiteSpace(s[a])
  {
    if i == |s| || !IsWhiteSpace(s[i]) then i else SkipWhiteSpace(s, i + 1)
  }

  /** The end of s[lo..hi] once its trailing white space is dropped. */
  function DropTrailing(s: string, lo: nat, hi: nat): (b: nat)
    requires lo <= hi <= |s|
    decreases hi
    ensures lo <= b <= hi
    ensures forall k :: b <= k < hi ==> IsWhiteSpace(s[k])
    ensures b > lo ==> !IsWhiteSpace(s[b - 1])
  {
    if hi == lo || !IsWhiteSpace(s[hi - 1]) then hi else DropTrailing(s, lo, hi - 1)
  }

  /** Where the trimmed string starts in s. */
  function TrimLead(s: string): (a: nat)
    ensures a <= |s|
  {
    SkipWhiteSpace(s, 0)
  }

  /** String.prototype.trim: the infix left after removing white space at both ends. */
  function Trim(s: string): (r: string)
    ensures TrimLead(s) + |r| <= |s|
    ensures r == s[TrimLead(s)..TrimLead(s) + |r|]
    ensures IsBlank(s[..TrimLead(s)]) && IsBlank(s[TrimLead(s) + |r|..])
    ensures r == [] || (!IsWhiteSpace(r[0]) && !IsWhiteSpace(r[|r| - 1]))
  {
    var a := SkipWhiteSpace(s, 0);
    var b := DropTrailing(s, a, |s|);
    TrimInfix(s, a, b);
    s[a..b]
  }

  lemma TrimInfix(s: string, a: nat, b: nat)
    requires a <= b <= |s|
    requires forall k :: 0 <= k < a ==> IsWhiteSpace(s[k])
    requires forall k :: b <= k < |s| ==> IsWhiteSpace(s[k])
    requires a < |s| ==> !IsWhiteSpace(s[a])
    requires b > a ==> !IsWhiteSpace(s[b - 1])
    ensures IsBlank(s[..a]) && IsBlank(s[b..])
    ensures var r := s[a..b]; r == [] || (!IsWhiteSpace(r[0]) && !IsWhiteSpace(r[|r| - 1]))
  {
    assert forall k :: 0 <= k < a ==> s[..a][k] == s[k];
    assert forall k :: 0 <= k < |s| - b ==> s[b..][k] == s[b + k];
  }

  /** JavaScript truthiness of a trimmed string: `s.trim()` is empty iff s is all white space. */
  lemma TrimEmptyIffBlank(s: string)
    ensures Trim(s) == [] <==> IsBlank(s)
  {
    var a := TrimLead(s);
    if Trim(s) != [] {
      assert Trim(s)[0] == s[a];
    } else {
      forall k | 0 <= k < |s| ensures IsWhiteSpace(s[k]) {
        assert k < a ==> s[..a][k] == s[k];
      }
    }
  }

  /** Trimming removes white space only: every other character keeps its count. */
  lemma TrimKeepsCount(s: string, c: char)
    requires !IsWhiteSpace(c)
    ensures multiset(Trim(s))[c] == multiset(s)[c]
  {
    var a := TrimLead(s);
    InfixKeepsCount(s, a, a + |Trim(s)|, c);
  }

  lemma InfixKeepsCount(s: string, a: nat, b: nat, c: char)
    requires a <= b <= |s| && IsBlank(s[..a]) && IsBlank(s[b..]) && !IsWhiteSpace(c)
    ensures multiset(s[a..b])[c] == multiset(s)[c]
  {
    assert s == s[..a] + s[a..b] + s[b..];
    assert multiset(s) == multiset(s[..a]) + multiset(s[a..b]) + multiset(s[b..]);
    BlankLacks(s[..a], c);
    BlankLacks(s[b..], c);
  }

  lemma BlankLacks(s: string, c: char)
    requires IsBlank(s) && !IsWhiteSpace(c)
    ensures multiset(s)[c] == 0
  {
  }

  /** A string with no white space at either end is its own trim. */
  lemma TrimUnchanged(s: string)
    requires s != [] && !IsWhiteSpace(s[0]) && !IsWhiteSpace(s[|s| - 1])
    ensures Trim(s) == s
  {
    assert TrimLead(s) == 0;
    assert DropTrailing(s, 0, |s|) == |s|;
  }

  lemma TrimIdempotent(s: string)
    ensures Trim(Trim(s)) == Trim(s)
  {
    if Trim(s) != [] {
      TrimUnchanged(Trim(s));
    } else {
      assert Trim([]) == [];
    }
  }

  /** Case mapping of String.prototype.toLowerCase on ASCII and Latin-1 (plus the two
      Latin Extended letters French text uses, OE and Y with diaeresis). */
  function LowerChar(c: char): char {
    if 'A' <= c <= 'Z' then (c as int + 32) as char
    else if '\U{00C0}' <= c <= '\U{00DE}' && c != '\U{00D7}' then (c as int + 32) as char
    else if c == '\U{0152}' then '\U{0153}'
    else if c == '\U{0178}' then '\U{00FF}'
    else c
  }

  function UpperChar(c: char): char {
    if 'a' <= c <= 'z' then (c as int - 32) as char
    else if '\U{00E0}' <= c <= '\U{00FE}' && c != '\U{00F7}' then (c as int - 32) as char
    else if c == '\U{0153}' then '\U{0152}'
    else if c == '\U{00FF}' then '\U{0178}'
    else c
  }

  function ToLower(s: string): (r: string)
    ensures |r| == |s|
    ensures forall i :: 0 <= i < |s| ==> r[i] == LowerChar(s[i])
  {
    if s == [] then [] else [LowerChar(s[0])] + ToLower(s[1..])
  }

  function ToUpper(s: string): (r: string)
    ensures |r| == |s|
    ensures forall i :: 0 <= i < |s| ==> r[i] == UpperChar(s[i])
  {
    if s == [] then [] else [UpperChar(s[0])] + ToUpper(s[1..])
  }

  lemma ToLowerIdempotent(s: string)
    ensures ToLower(ToLower(s)) == ToLower(s)
  {
  }

  /** Array.prototype.join. */
  function Join(parts: seq<string>, sep: string): string {
    if parts == [] then ""
    else if |parts| == 1 then parts[0]
    else parts[0] + sep + Join(parts[1..], sep)
  }

  lemma JoinStartsWithFirst(parts: seq<string>, sep: string)
    requires parts != []
    ensures StartsWith(Join(parts, sep), parts[0])
  {
  }

  lemma {:induction false} JoinEndsWithLast(parts: seq<string>, sep: string)
    requires parts != []
    ensures EndsWith(Join(parts, sep), parts[|parts| - 1])
  {
    if |parts| > 1 {
      JoinEndsWithLast(parts[1..], sep);
      var j := Join(parts[1..], sep);
      assert Join(parts, sep) == parts[0] + sep + j;
    }
  }

  /** String.prototype.split with a one-character separator. */
  function Split(s: string, sep: char): (r: seq<string>)
    ensures |r| >= 1
    ensures forall i, j :: 0 <= i < |r| && 0 <= j < |r[i]| ==> r[i][j] != sep
  {
    SplitFrom(s, sep, [])
  }

  function SplitFrom(s: string, sep: char, cur: string): (r: seq<string>)
    requires forall j :: 0 <= j < |cur| ==> cur[j] != sep
    ensures |r| >= 1
    ensures forall i, j :: 0 <= i < |r| && 0 <= j < |r[i]| ==> r[i][j] != sep
  {
    if s == [] then [cur]
    else if s[0] == sep then [cur] + SplitFrom(s[1..], sep, [])
    else SplitFrom(s[1..], sep, cur + [s[0]])
  }

  lemma JoinCons(first: string, rest: seq<string>, sep: string)
    requires rest != []
    ensures Join([first] + rest, sep) == first + sep + Join(rest, sep)
  {
    assert ([first] + rest)[1..] == rest;
  }

  lemma {:induction false} SplitFromJoin(s: string, sep: char, cur: string)
    requires forall j :: 0 <= j < |cur| ==> cur[j] != sep
    ensures Join(SplitFrom(s, sep, cur), [sep]) == cur + s
  {
    if s == [] {
    } else if s[0] == sep {
      var rest := SplitFrom(s[1..], sep, []);
      SplitFromJoin(s[1..], sep, []);
      assert Join(rest, [sep]) == s[1..];
      JoinCons(cur, rest, [sep]);
      assert cur + s == cur + [sep] + s[1..];
    } else {
      SplitFromJoin(s[1..], sep, cur + [s[0]]);
      assert cur + s == (cur + [s[0]]) + s[1..];
    }
  }

  /** Splitting on a character and joining the pieces back with it gives the input again. */
  lemma SplitJoin(s: string, sep: char)
    ensures Join(Split(s, sep), [sep]) == s
  {
    SplitFromJoin(s, sep, []);
  }

  lemma {:induction false} SplitFromNoSep(p: string, sep: char, cur: string)
    requires forall j :: 0 <= j < |cur| ==> cur[j] != sep
    requires forall j :: 0 <= j < |p| ==> p[j] != sep
    ensures SplitFrom(p, sep, cur) == [cur + p]
  {
    if p == [] {
      assert cur + p == cur;
    } else {
      SplitFromNoSep(p[1..], sep, cur + [p[0]]);
      assert cur + [p[0]] + p[1..] == cur + p;
    }
  }

  lemma {:induction false} SplitFromThroughSep(p: string, sep: char, rest: string, cur: string)
    requires forall j :: 0 <= j < |cur| ==> cur[j] != sep
    requires forall j :: 0 <= j < |p| ==> p[j] != sep
    ensures SplitFrom(p + [sep] + rest, sep, cur) == [cur + p] + SplitFrom(rest, sep, [])
  {
    var s := p + [sep] + rest;
    if p == [] {
      assert s[0] == sep && s[1..] == rest;
      assert cur + p == cur;
    } else {
      assert s[1..] == p[1..] + [sep] + rest;
      SplitFromThroughSep(p[1..], sep, rest, cur + [p[0]]);
      assert cur + [p[0]] + p[1..] == cur + p;
    }
  }

  /** Joining pieces free of the separator and splitting the result gives the pieces back. */
  lemma {:induction false} JoinSplit(parts: seq<string>, sep: char)
    requires parts != []
    requires forall i, j :: 0 <= i < |parts| && 0 <= j < |parts[i]| ==> parts[i][j] != sep
    ensures Split(Join(parts, [sep]), sep) == parts
  {
    if |parts| == 1 {
      SplitFromNoSep(parts[0], sep, []);
      assert [] + parts[0] == parts[0];
    } else {
      var rest := Join(parts[1..], [sep]);
      assert Join(parts, [sep]) == parts[0] + [sep] + rest;
      SplitFromThroughSep(parts[0], sep, rest, []);
      JoinSplit(parts[1..], sep);
      assert [] + parts[0] == parts[0];
      assert parts == [parts[0]] + parts[1..];
    }
  }

  predicate StartsWith(s: string, prefix: string) {
    |prefix| <= |s| && s[..|prefix|] == prefix
  }

  predicate EndsWith(s: string, suffix: string) {
    |suffix| <= |s| && s[|s| - |suffix|..] == suffix
  }

  predicate OccursAt(s: string, sub: string, i: nat) {
    i + |sub| <= |s| && s[i..i + |sub|] == sub
  }

  /** String.prototype.indexOf(sub, from): the first occurrence at or after `from`. */
  function IndexOfFrom(s: string, sub: string, from: nat): (r: Option<nat>)
    decreases |s| - from
    ensures r.Some? ==> from <= r.value && OccursAt(s, sub, r.value)
    ensures r.Some? ==> forall k :: from <= k < r.value ==> !OccursAt(s, sub, k)
    ensures r.None? ==> forall k :: from <= k ==> !OccursAt(s, sub, k)
  {
    if from + |sub| > |s| then None
    else if s[from..from + |sub|] == sub then Some(from)
    else IndexOfFrom(s, sub, from + 1)
  }

  function IndexOf(s: string, sub: string): (r: Option<nat>)
    ensures r.Some? ==> OccursAt(s, sub, r.value)
    ensures r.Some? ==> forall k :: 0 <= k < r.value ==> !OccursAt(s, sub, k)
    ensures r.None? ==> forall k :: 0 <= k ==> !OccursAt(s, sub, k)
  {
    IndexOfFrom(s, sub, 0)
  }

  /** String.prototype.includes. */
  predicate Contains(s: string, sub: string) {
    IndexOf(s, sub).Some?
  }

  /** String.prototype.lastIndexOf with a one-character argument; -1 when absent. */
  function LastIndexOfChar(s: string, c: char): (r: int)
    ensures -1 <= r < |s|
    ensures r >= 0 ==> s[r] == c
    ensures forall k :: r < k < |s| ==> s[k] != c
  {
    if s == [] then -1
    else if s[|s| - 1] == c then |s| - 1
    else LastIndexOfChar(s[..|s| - 1], c)
  }

  /** Number of occurrences of a character (a global one-character regex match count). */
  function CountChar(s: string, c: char): (n: nat)
    ensures n == multiset(s)[c]
  {
    if s == [] then 0
    else
      assert s == [s[0]] + s[1..];
      (if s[0] == c then 1 else 0) + CountChar(s[1..], c)
  }

  /** String.prototype.repeat with a one-character string. */
  function Repeat(c: char, n: nat): (r: string)
    ensures |r| == n && forall i :: 0 <= i < n ==> r[i] == c
  {
    if n == 0 then "" else [c] + Repeat(c, n - 1)
  }

  predicate IsDigit(c: char) {
    '0' <= c <= '9'
  }

  predicate AllDigits(s: string) {
    forall i :: 0 <= i < |s| ==> IsDigit(s[i])
  }

  /** The number a string of decimal digits denotes (leading zeros allowed). */
  function DigitsValue(d: string): nat
    requires AllDigits(d)
  {
    if d == [] then 0 else 10 * DigitsValue(d[..|d| - 1]) + (d[|d| - 1] as int - '0' as int)
  }

  function Pow10(e: nat): (p: nat)
    ensures p >= 1
  {
    if e == 0 then 1 else 10 * Pow10(e - 1)
  }

  function DigitChar(d: nat): char
    requires d < 10
  {
    ('0' as int + d) as char
  }

  /** Decimal rendering of a natural number, as Number.prototype.toString gives it. */
  function NatToString(n: nat): (r: string)
    ensures |r| >= 1
    ensures forall i :: 0 <= i < |r| ==> '0' <= r[i] <= '9'
    ensures |r| > 1 ==> r[0] != '0'
  {
    if n < 10 then [DigitChar(n)] else NatToString(n / 10) + [DigitChar(n % 10)]
  }

  /** Reading back the decimal rendering of n gives n. */
  lemma {:induction false} NatToStringValue(n: nat)
    ensures AllDigits(NatToString(n))
    ensures DigitsValue(NatToString(n)) == n
  {
    if n >= 10 {
      NatToStringValue(n / 10);
      var s := NatToString(n);
      assert s[..|s| - 1] == NatToString(n / 10);
    }
  }

  /** A number below 10^w has at most w digits. */
  lemma {:induction false} NatToStringLength(n: nat, w: nat)
    requires 1 <= w && n < Pow10(w)
    ensures |NatToString(n)| <= w
  {
    if n >= 10 {
      NatToStringLength(n / 10, w - 1);
    }
  }

  /** A string of n digits denotes less than 10 to the n. */
  lemma {:induction false} DigitsValueBelow(d: string)
    requires AllDigits(d)
    ensures DigitsValue(d) < Pow10(|d|)
  {
    if d != [] {
      DigitsValueBelow(d[..|d| - 1]);
    }
  }

  /** Leading zeros do not change the value of a digit string. */
  lemma {:induction false} DigitsValueLeadingZeros(k: nat, s: string)
    requires AllDigits(s)
    ensures AllDigits(Repeat('0', k) + s)
    ensures DigitsValue(Repeat('0', k) + s) == DigitsValue(s)
  {
    var z := Repeat('0', k) + s;
    if s != [] {
      assert z[..|z| - 1] == Repeat('0', k) + s[..|s| - 1];
      DigitsValueLeadingZeros(k, s[..|s| - 1]);
    } else if k > 0 {
      assert z == Repeat('0', k);
      assert z[..|z| - 1] == Repeat('0', k - 1) + [];
      DigitsValueLeadingZeros(k - 1, []);
    }
  }

  function IntToString(n: int): (r: string)
    ensures |r| >= 1
  {
    if n < 0 then "-" + NatToString(-n) else NatToString(n)
  }

  /** Array.prototype.filter(Boolean) on strings: drops the empty ones. */
  function NonEmpty(xs: seq<string>): (r: seq<string>)
    ensures forall i :: 0 <= i < |r| ==> r[i] != ""
    ensures forall x :: x in r <==> x in xs && x != ""
    ensures |r| <= |xs|
  {
    if xs == [] then []
    else if xs[0] == "" then NonEmpty(xs[1..])
    else [xs[0]] + NonEmpty(xs[1..])
  }

  /** Array.prototype.map(s => s.trim()). */
  function TrimAll(xs: seq<string>): (r: seq<string>)
    ensures |r| == |xs| && forall i :: 0 <= i < |xs| ==> r[i] == Trim(xs[i])
  {
    if xs == [] then [] else [Trim(xs[0])] + TrimAll(xs[1..])
  }
}
