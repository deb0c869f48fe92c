/** The script scripts/build-database-url.js: it loads `.env.local` into the environment without
    overriding what is already set, builds the PostgreSQL connection URL from the PG* variables,
    prints it with the password masked and, with --save, writes it back into the file.
    The environment is a map; the file's content is an input (None when the file does not
    exist) and the written content an output; encodeURIComponent is a parameter. */
module DatabaseUrl {
  import opened Wrappers
  import Text

  type Env = map<string, string>

  // ---------------------------------------------------------------- .env lines

  /** The characters JavaScript's `.` does not match. */
  predicate IsLineTerminator(c: char) {
    c == '\n' || c == '\r' || c == '\U{2028}' || c == '\U{2029}'
  }

  /** `line` matches /^([^=:#]+)=(.*)$/ with its `=` at index k. */
  predicate KeyValueAt(line: string, k: nat) {
    1 <= k < |line| && line[k] == '=' &&
    (forall j :: 0 <= j < k ==> line[j] != '=' && line[j] != ':' && line[j] != '#') &&
    forall j :: k < j < |line| ==> !IsLineTerminator(line[j])
  }

  /** The index of the first '=', ':' or '#' at or after i, or |line|. */
  function KeyEnd(line: string, i: nat): (k: nat)
    requires i <= |line|
    decreases |line| - i
    ensures i <= k <= |line|
    ensures forall j :: i <= j < k ==> line[j] != '=' && line[j] != ':' && line[j] != '#'
    ensures k < |line| ==> line[k] == '=' || line[k] == ':' || line[k] == '#'
  {
    if i == |line| || line[i] == '=' || line[i] == ':' || line[i] == '#' then i
    else KeyEnd(line, i + 1)
  }

  predicate NoLineTerminator(s: string) {
    forall j :: 0 <= j < |s| ==> !IsLineTerminator(s[j])
  }

  /** The value with one pair of matching surrounding quotes removed (slice(1, -1)). */
  function Unquote(v: string): (r: string)
    ensures |v| >= 2 && (v[0] == v[|v| - 1] == '"' || v[0] == v[|v| - 1] == '\'') ==> r == v[1..|v| - 1]
    ensures |v| == 1 && (v[0] == '"' || v[0] == '\'') ==> r == ""
    ensures v == [] || (v[0] != '"' && v[0] != '\'') ==> r == v
  {
    if |v| >= 1 && ((v[0] == '"' && v[|v| - 1] == '"') || (v[0] == '\'' && v[|v| - 1] == '\'')) then
      if |v| >= 2 then v[1..|v| - 1] else ""
    else v
  }

  /** The trimmed key and the trimmed, unquoted value around the '=' at k. */
  function KeyValue(line: string, k: nat): (string, string)
    requires k < |line|
  {
    (Text.Trim(line[..k]), Unquote(Text.Trim(line[k + 1..])))
  }

  /** The '=' that ends the key is the first one, so a line matches in one way only. */
  lemma KeyValueUnique(line: string, k: nat, k': nat)
    requires KeyValueAt(line, k) && KeyValueAt(line, k')
    ensures k == k'
  {
  }

  /** The key and value of a line, when the line has the key=value form. */
  function ParseLine(line: string): (r: Option<(string, string)>)
    ensures r.Some? <==> exists k :: KeyValueAt(line, k)
    ensures forall k :: KeyValueAt(line, k) ==> r == Some(KeyValue(line, k))
  {
    var k := KeyEnd(line, 0);
    if 1 <= k < |line| && line[k] == '=' && NoLineTerminator(line[k + 1..]) then
      assert KeyValueAt(line, k) by {
        forall j | k < j < |line| ensures !IsLineTerminator(line[j]) {
          assert line[k + 1..][j - k - 1] == line[j];
        }
      }
      forall k' | KeyValueAt(line, k') ensures k' == k {
        KeyValueUnique(line, k, k');
      }
      Some(KeyValue(line, k))
    else
      assert forall k' :: !KeyValueAt(line, k') by {
        forall k': nat | 1 <= k' < |line| && line[k'] == '=' ensures !KeyValueAt(line, k') {
          if k < k' {
            assert line[k] == ':' || line[k] == '#' || line[k] == '=';
          } else if k == k' {
            assert !NoLineTerminator(line[k + 1..]);
            var j :| 0 <= j < |line[k + 1..]| && IsLineTerminator(line[k + 1..][j]);
            assert line[k + 1 + j] == line[k + 1..][j];
          }
        }
      }
      None
  }

  /** A line ending in a carriage return never matches: `.` does not match '\r'. */
  lemma CarriageReturnLineIgnored(line: string)
    requires line != [] && line[|line| - 1] == '\r'
    ensures ParseLine(line) == None
  {
    assert forall k :: !KeyValueAt(line, k) by {
      forall k: nat | 1 <= k < |line| && line[k] == '=' ensures !KeyValueAt(line, k) {
        assert IsLineTerminator(line[|line| - 1]);
      }
    }
  }

  /** A quoted value loses its quotes, whatever quote character is used. */
  lemma UnquoteQuoted(s: string, q: char)
    requires q == '"' || q == '\''
    ensures Unquote([q] + s + [q]) == s
  {
    var v := [q] + s + [q];
    assert v[1..|v| - 1] == s;
  }

  // ---------------------------------------------------------------- loading

  /** A variable counts as set when it is present and not empty. */
  predicate IsSet(env: Env, key: string) {
    key in env && env[key] != ""
  }

  /** One line of the file applied to the environment: an unset key takes the line's value. */
  function LoadLine(env: Env, line: string): Env {
    match ParseLine(line)
    case None => env
    case Some((key, value)) => if IsSet(env, key) then env else env[key := value]
  }

  function LoadLines(env: Env, lines: seq<string>): Env
    decreases |lines|
  {
    if lines == [] then env else LoadLines(LoadLine(env, lines[0]), lines[1..])
  }

  /** The environment after loading the file, if there is one. */
  function Loaded(env: Env, file: Option<string>): Env {
    if file.None? then env else LoadLines(env, Text.Split(file.value, '\n'))
  }

  /** The forEach over the file's lines, writing into the environment. */
  method LoadEnv(env0: Env, file: Option<string>) returns (env: Env)
    ensures env == Loaded(env0, file)
  {
    env := env0;
    if file.None? {
      return;
    }
    var lines := Text.Split(file.value, '\n');
    for i := 0 to |lines|
      invariant LoadLines(env, lines[i..]) == LoadLines(env0, lines)
    {
      assert lines[i..][1..] == lines[i + 1..];
      var parsed := ParseLine(lines[i]);
      if parsed.Some? {
        var key := parsed.value.0;
        if !(key in env && env[key] != "") {
          env := env[key := parsed.value.1];
        }
      }
    }
    assert lines[|lines|..] == [];
  }

  /** A variable already set keeps its value. */
  lemma {:induction false} NeverOverrides(env: Env, lines: seq<string>, key: string)
    requires IsSet(env, key)
    ensures IsSet(LoadLines(env, lines), key) && LoadLines(env, lines)[key] == env[key]
    decreases |lines|
  {
    if lines != [] {
      NeverOverrides(LoadLine(env, lines[0]), lines[1..], key);
    }
  }

  /** Loading only adds keys that some matching line names. */
  lemma {:induction false} LoadedKeys(env: Env, lines: seq<string>, key: string)
    requires key in LoadLines(env, lines)
    ensures key in env || exists i :: 0 <= i < |lines| && ParseLine(lines[i]).Some? && ParseLine(lines[i]).value.0 == key
    decreases |lines|
  {
    if lines != [] {
      LoadedKeys(LoadLine(env, lines[0]), lines[1..], key);
      if key !in LoadLine(env, lines[0]) {
        var i :| 0 <= i < |lines[1..]| && ParseLine(lines[1..][i]).Some? && ParseLine(lines[1..][i]).value.0 == key;
        assert lines[1..][i] == lines[i + 1];
      } else if key !in env {
        assert ParseLine(lines[0]).Some? && ParseLine(lines[0]).value.0 == key;
      }
    }
  }

  /** A file whose every line ends in a carriage return (CRLF line ends) loads nothing. */
  lemma {:induction false} CrLfFileLoadsNothing(env: Env, lines: seq<string>)
    requires forall i :: 0 <= i < |lines| ==> lines[i] != [] && lines[i][|lines[i]| - 1] == '\r'
    ensures LoadLines(env, lines) == env
    decreases |lines|
  {
    if lines != [] {
      CarriageReturnLineIgnored(lines[0]);
      CrLfFileLoadsNothing(env, lines[1..]);
    }
  }

  // ---------------------------------------------------------------- the URL

  function Get(env: Env, key: string): Option<string> {
    if key in env then Some(env[key]) else None
  }

  /** `env[key] || fallback`. */
  function OrDefault(env: Env, key: string, fallback: string): (r: string)
    ensures IsSet(env, key) ==> r == env[key]
    ensures !IsSet(env, key) ==> r == fallback
  {
    if IsSet(env, key) then env[key] else fallback
  }

  const UrlScheme := "postgresql:"

  /** The connection URL; the password segment is there iff a password is set. */
  function ConnectionUrl(user: string, password: Option<string>, host: string, port: string, database: string,
                         sslMode: string, encode: string -> string): string {
    UrlScheme + "//" + encode(user) + (if Text.Truthy(password) then ":" + encode(password.value) else "") +
    "@" + Location(host, port, database, sslMode)
  }

  /** Everything after the '@'. */
  function Location(host: string, port: string, database: string, sslMode: string): string {
    host + ":" + port + "/" + database + "?sslmode=" + sslMode + "&schema=public"
  }

  datatype Outcome = MissingVariables | Built(url: string, masked: string)

  /** The URL and its masked form, or exit status 1 when PGHOST, PGDATABASE or PGUSER is unset. */
  function Build(env: Env, encode: string -> string): (r: Outcome)
    ensures r == MissingVariables <==> !IsSet(env, "PGHOST") || !IsSet(env, "PGDATABASE") || !IsSet(env, "PGUSER")
    ensures r.Built? ==> r.masked == Mask(r.url)
    ensures r.Built? ==> r.url == ConnectionUrl(env["PGUSER"], Get(env, "PGPASSWORD"), env["PGHOST"],
      OrDefault(env, "PGPORT", "5432"), env["PGDATABASE"], OrDefault(env, "PGSSLMODE", "require"), encode)
  {
    if !IsSet(env, "PGHOST") || !IsSet(env, "PGDATABASE") || !IsSet(env, "PGUSER") then MissingVariables
    else
      var url := ConnectionUrl(env["PGUSER"], Get(env, "PGPASSWORD"), env["PGHOST"],
        OrDefault(env, "PGPORT", "5432"), env["PGDATABASE"], OrDefault(env, "PGSSLMODE", "require"), encode);
      Built(url, Mask(url))
  }

  // ---------------------------------------------------------------- the mask

  predicate Separator(c: char) {
    c == ':' || c == '@'
  }

  /** The index of the first ':' or '@' at or after j, or |s|. */
  function RunEnd(s: string, j: nat): (e: nat)
    requires j <= |s|
    decreases |s| - j
    ensures j <= e <= |s|
    ensures forall k :: j <= k < e ==> !Separator(s[k])
    ensures e < |s| ==> Separator(s[e])
  {
    if j == |s| || Separator(s[j]) then j else RunEnd(s, j + 1)
  }

  /** /:[^:@]+@/ matches at index i. */
  predicate MatchAt(s: string, i: nat) {
    i < |s| && s[i] == ':' && var e := RunEnd(s, i + 1); i + 1 < e < |s| && s[e] == '@'
  }

  /** The leftmost match at or after `from`. */
  function FirstMatch(s: string, from: nat): (r: Option<nat>)
    decreases |s| - from
    ensures r.Some? ==> from <= r.value && MatchAt(s, r.value)
    ensures r.Some? ==> forall k :: from <= k < r.value ==> !MatchAt(s, k)
    ensures r.None? ==> forall k :: from <= k ==> !MatchAt(s, k)
  {
    if from >= |s| then None
    else if MatchAt(s, from) then Some(from)
    else FirstMatch(s, from + 1)
  }

  /** The first ":…@" run (at least one character, no ':' or '@' inside) becomes ":****@". */
  function Mask(s: string): (r: string)
    ensures (forall k :: !MatchAt(s, k)) ==> r == s
  {
    match FirstMatch(s, 0)
    case None => s
    case Some(i) => s[..i] + ":****@" + s[RunEnd(s, i + 1) + 1..]
  }

  predicate FreeOfSeparators(s: string) {
    forall j :: 0 <= j < |s| ==> !Separator(s[j])
  }

  /** RunEnd is the first separator: one found at e past a separator-free stretch. */
  lemma RunEndAt(s: string, j: nat, e: nat)
    requires j <= e < |s| && Separator(s[e])
    requires forall k :: j <= k < e ==> !Separator(s[k])
    ensures RunEnd(s, j) == e
  {
  }

  /** The mask of a text whose leftmost match is at n. */
  lemma MaskAt(s: string, n: nat)
    requires MatchAt(s, n)
    requires forall k :: 0 <= k < n ==> !MatchAt(s, k)
    ensures Mask(s) == s[..n] + ":****@" + s[RunEnd(s, n + 1) + 1..]
  {
    assert FirstMatch(s, 0) == Some(n);
  }

  /** In a URL starting with the scheme, "//" and a separator-free user name, the scheme's ':'
      is the only ':' before the user name ends, and its run stops where the user name does. */
  lemma SchemeAndUser(s: string, u: string)
    requires 13 + |u| < |s| && s[..13 + |u|] == UrlScheme + "//" + u
    requires FreeOfSeparators(u) && Separator(s[13 + |u|])
    ensures forall k :: 0 <= k < 13 + |u| && k != 10 ==> s[k] != ':'
    ensures RunEnd(s, 11) == 13 + |u|
  {
    var n := 13 + |u|;
    forall k | 0 <= k < n ensures s[k] == (UrlScheme + "//" + u)[k] {
    }
    forall k | 11 <= k < n ensures !Separator(s[k]) {
      if k >= 13 {
        assert s[k] == u[k - 13];
      }
    }
    RunEndAt(s, 11, n);
  }

  lemma MaskPassword(u: string, pw: string, rest: string)
    requires FreeOfSeparators(u) && FreeOfSeparators(pw) && pw != ""
    ensures Mask(UrlScheme + "//" + u + ":" + pw + "@" + rest) == UrlScheme + "//" + u + ":****@" + rest
  {
    var head := UrlScheme + "//" + u;
    var s := head + ":" + pw + "@" + rest;
    var n := |head|;
    var e := n + 1 + |pw|;
    assert s[..n] == head && s[n] == ':';
    SchemeAndUser(s, u);
    assert !MatchAt(s, 10);
    assert s[e] == '@' && s[e + 1..] == rest;
    assert forall k :: n + 1 <= k < e ==> s[k] == pw[k - n - 1];
    RunEndAt(s, n + 1, e);
    MaskAt(s, n);
  }

  /** With a password whose encoding is not empty, the mask hides exactly the encoded password,
      provided the encoded user name has no ':' or '@' (encodeURIComponent escapes both). */
  lemma MaskHidesPassword(user: string, password: string, host: string, port: string, database: string,
                          sslMode: string, encode: string -> string)
    requires FreeOfSeparators(encode(user)) && FreeOfSeparators(encode(password))
    requires password != "" && encode(password) != ""
    ensures Mask(ConnectionUrl(user, Some(password), host, port, database, sslMode, encode)) ==
      UrlScheme + "//" + encode(user) + ":****@" + Location(host, port, database, sslMode)
  {
    var rest := Location(host, port, database, sslMode);
    assert ConnectionUrl(user, Some(password), host, port, database, sslMode, encode) ==
      UrlScheme + "//" + encode(user) + ":" + encode(password) + "@" + rest;
    MaskPassword(encode(user), encode(password), rest);
  }

  /** Without a password the same mask hides the '//' and the user name instead. */
  lemma MaskWithoutPasswordHidesUser(user: string, host: string, port: string, database: string,
                                     sslMode: string, encode: string -> string)
    requires FreeOfSeparators(encode(user))
    ensures Mask(ConnectionUrl(user, None, host, port, database, sslMode, encode)) ==
      UrlScheme + "****@" + Location(host, port, database, sslMode)
  {
    var rest := Location(host, port, database, sslMode);
    assert ConnectionUrl(user, None, host, port, database, sslMode, encode) == UrlScheme + "//" + encode(user) + "@" + rest;
    MaskUser(encode(user), rest);
  }

  lemma MaskUser(u: string, rest: string)
    requires FreeOfSeparators(u)
    ensures Mask(UrlScheme + "//" + u + "@" + rest) == UrlScheme + "****@" + rest
  {
    var head := UrlScheme + "//" + u;
    var s := head + "@" + rest;
    var n := |head|;
    assert s[..n] == head && s[n] == '@' && s[n + 1..] == rest;
    SchemeAndUser(s, u);
    assert s[..10] == "postgresql";
    MaskAt(s, 10);
  }

  // ---------------------------------------------------------------- saving

  const Marker := "DATABASE_URL="

  /** The line the script writes. */
  function Entry(url: string): string {
    Marker + "\"" + url + "\""
  }

  /** The length of the longest prefix without a line terminator (what `.*` matches). */
  function LineLength(s: string): (n: nat)
    ensures n <= |s| && NoLineTerminator(s[..n])
    ensures n < |s| ==> IsLineTerminator(s[n])
  {
    if s == [] || IsLineTerminator(s[0]) then 0
    else
      var n := 1 + LineLength(s[1..]);
      assert s[..n] == [s[0]] + s[1..][..n - 1];
      n
  }

  /** The global replace: every "DATABASE_URL=" with the rest of its line becomes Entry(url),
      matches taken left to right. */
  function ReplaceEntries(s: string, url: string): string
    decreases |s|
  {
    if Text.StartsWith(s, Marker) then Entry(url) + ReplaceEntries(AfterEntry(s), url)
    else if s == [] then []
    else [s[0]] + ReplaceEntries(s[1..], url)
  }

  /** What follows the marker and the rest of its line. */
  function AfterEntry(s: string): (r: string)
    requires Text.StartsWith(s, Marker)
    ensures |r| + |Marker| <= |s|
  {
    s[|Marker| + LineLength(s[|Marker|..])..]
  }

  /** The file content written with --save: existing entries replaced, or one appended. */
  function SaveContent(content: string, url: string): string {
    if Text.Contains(content, Marker) then ReplaceEntries(content, url)
    else content + "\n" + Entry(url) + "\n"
  }

  /** A text without the marker is left as it is. */
  lemma {:induction false} ReplaceWithoutMarker(s: string, url: string)
    requires forall k :: !Text.OccursAt(s, Marker, k)
    ensures ReplaceEntries(s, url) == s
    decreases |s|
  {
    assert !Text.OccursAt(s, Marker, 0);
    if s != [] {
      forall k: nat ensures !Text.OccursAt(s[1..], Marker, k) {
        OccursShift(s, Marker, k);
        assert !Text.OccursAt(s, Marker, k + 1);
      }
      ReplaceWithoutMarker(s[1..], url);
    }
  }

  lemma OccursShift(s: string, sub: string, k: nat)
    requires s != []
    ensures Text.OccursAt(s[1..], sub, k) <==> Text.OccursAt(s, sub, k + 1)
  {
    if k + 1 + |sub| <= |s| {
      assert s[1..][k..k + |sub|] == s[k + 1..k + 1 + |sub|];
    }
  }

  /** An entry line, whatever its old value, becomes the new entry. */
  lemma EntryReplaced(previous: string, url: string)
    requires NoLineTerminator(previous)
    ensures ReplaceEntries(Marker + previous, url) == Entry(url)
  {
    var s := Marker + previous;
    assert Text.StartsWith(s, Marker);
    assert s[|Marker|..] == previous;
    NoTerminatorLength(previous);
    assert s[|Marker| + |previous|..] == [];
  }

  lemma {:induction false} NoTerminatorLength(s: string)
    requires NoLineTerminator(s)
    ensures LineLength(s) == |s|
    decreases |s|
  {
    if s != [] {
      NoTerminatorLength(s[1..]);
    }
  }

  lemma {:induction false} LineLengthStopsAtNewline(a: string, t: string)
    requires t != [] && t[0] == '\n'
    ensures LineLength(a + t) == LineLength(a)
    decreases |a|
  {
    if a == [] {
      assert a + t == t;
    } else {
      assert (a + t)[1..] == a[1..] + t;
      LineLengthStopsAtNewline(a[1..], t);
    }
  }

  /** Replacement never reaches across a newline. */
  lemma {:induction false} ReplaceSplitsAtNewline(a: string, t: string, url: string)
    requires t != [] && t[0] == '\n'
    ensures ReplaceEntries(a + t, url) == ReplaceEntries(a, url) + ReplaceEntries(t, url)
    decreases |a|
  {
    MarkerBeforeNewline(a, t);
    if Text.StartsWith(a, Marker) {
      EntryBeforeNewline(a, t);
      ReplaceSplitsAtNewline(AfterEntry(a), t, url);
    } else if a == [] {
      assert a + t == t;
    } else {
      assert (a + t)[1..] == a[1..] + t && (a + t)[0] == a[0];
      ReplaceSplitsAtNewline(a[1..], t, url);
    }
  }

  /** A text followed by a newline starts with the marker exactly when the text does. */
  lemma MarkerBeforeNewline(a: string, t: string)
    requires t != [] && t[0] == '\n'
    ensures Text.StartsWith(a + t, Marker) <==> Text.StartsWith(a, Marker)
  {
    var s := a + t;
    assert s[|a|] == '\n';
    assert forall i :: 0 <= i < |Marker| ==> Marker[i] != '\n';
    if |a| >= |Marker| {
      assert s[..|Marker|] == a[..|Marker|];
    }
  }

  /** An entry's line ends before a newline that follows the text. */
  lemma EntryBeforeNewline(a: string, t: string)
    requires t != [] && t[0] == '\n' && Text.StartsWith(a, Marker) && Text.StartsWith(a + t, Marker)
    ensures AfterEntry(a + t) == AfterEntry(a) + t
  {
    var m := |Marker|;
    assert (a + t)[m..] == a[m..] + t;
    LineLengthStopsAtNewline(a[m..], t);
    var l := LineLength(a[m..]);
    assert (a + t)[m + l..] == a[m + l..] + t;
  }

  /** Each line with its entries replaced. */
  function ReplaceEach(lines: seq<string>, url: string): (r: seq<string>)
    ensures |r| == |lines|
    ensures forall i :: 0 <= i < |lines| ==> r[i] == ReplaceEntries(lines[i], url)
  {
    if lines == [] then [] else [ReplaceEntries(lines[0], url)] + ReplaceEach(lines[1..], url)
  }

  lemma NewlineKept(rest: string, url: string)
    ensures ReplaceEntries("\n" + rest, url) == "\n" + ReplaceEntries(rest, url)
  {
    assert !Text.StartsWith("\n" + rest, Marker);
    assert ("\n" + rest)[1..] == rest;
  }

  /** Replacing in a file is replacing in each of its lines. */
  lemma {:induction false} ReplaceLineByLine(lines: seq<string>, url: string)
    requires lines != []
    ensures ReplaceEntries(Text.Join(lines, "\n"), url) == Text.Join(ReplaceEach(lines, url), "\n")
    decreases |lines|
  {
    if |lines| > 1 {
      var rest := Text.Join(lines[1..], "\n");
      var out := ReplaceEach(lines, url);
      calc {
        ReplaceEntries(Text.Join(lines, "\n"), url);
        { assert Text.Join(lines, "\n") == lines[0] + ("\n" + rest); }
        ReplaceEntries(lines[0] + ("\n" + rest), url);
        { ReplaceSplitsAtNewline(lines[0], "\n" + rest, url); NewlineKept(rest, url); }
        ReplaceEntries(lines[0], url) + ("\n" + ReplaceEntries(rest, url));
        { ReplaceLineByLine(lines[1..], url); assert out[1..] == ReplaceEach(lines[1..], url); }
        out[0] + ("\n" + Text.Join(out[1..], "\n"));
        { assert out[0] + ("\n" + Text.Join(out[1..], "\n")) == out[0] + "\n" + Text.Join(out[1..], "\n"); }
        Text.Join(out, "\n");
      }
    }
  }

  /** --save: the file's content (empty when there is none) with the entry replaced or added. */
  method Save(file: Option<string>, url: string) returns (content: string)
    ensures content == SaveContent(if file.Some? then file.value else "", url)
  {
    content := "";
    if file.Some? {
      content := file.value;
    }
    if Text.Contains(content, Marker) {
      content := ReplaceEntries(content, url);
    } else {
      content := content + "\n" + Entry(url) + "\n";
    }
  }

  /** The whole script: load the file, build the URL, and write the file back with --save. */
  method Script(processEnv: Env, file: Option<string>, save: bool, encode: string -> string)
    returns (outcome: Outcome, written: Option<string>)
    ensures outcome == Build(Loaded(processEnv, file), encode)
    ensures written.Some? <==> save && outcome.Built?
    ensures written.Some? ==> written.value == SaveContent(if file.Some? then file.value else "", outcome.url)
  {
    var env := LoadEnv(processEnv, file);
    outcome := Build(env, encode);
    written := None;
    if outcome.Built? && save {
      var content := Save(file, outcome.url);
      written := Some(content);
    }
  }
}
