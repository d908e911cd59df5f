/** The CEF line of hub/audit_export.py, and a parser that reads it back. Escaping follows the ArcSight Common Event
    Format, section "Character Encoding". */
module Cef {
  import opened Common

  /** `str.replace` with a one-character pattern. */
  function Replace(s: string, c: char, with: string): string {
    if s == [] then [] else (if s[0] == c then with else [s[0]]) + Replace(s[1..], c, with)
  }

  function Header(value: string): string { Replace(Replace(value, '\\', "\\\\"), '|', "\\|") }

  function Ext(value: Option<string>): string {
    var text := if value.None? then "" else value.value;
    Replace(Replace(Replace(Replace(text, '\\', "\\\\"), '=', "\\="), '\r', "\\r"), '\n', "\\n")
  }

  // ---------------------------------------------------------------- one escape per character

  function HeaderChar(c: char): string {
    if c == '\\' then "\\\\" else if c == '|' then "\\|" else [c]
  }

  function ExtChar(c: char): string {
    if c == '\\' then "\\\\" else if c == '=' then "\\=" else if c == '\r' then "\\r" else if c == '\n' then "\\n" else [c]
  }

  function Each(f: char -> string, s: string): string {
    if s == [] then [] else f(s[0]) + Each(f, s[1..])
  }

  lemma {:induction false} ReplaceConcat(a: string, b: string, c: char, with: string)
    ensures Replace(a + b, c, with) == Replace(a, c, with) + Replace(b, c, with)
  {
    if a == [] {
      assert a + b == b;
    } else {
      assert (a + b)[1..] == a[1..] + b;
      ReplaceConcat(a[1..], b, c, with);
    }
  }

  lemma ReplaceOne(x: char, c: char, with: string)
    ensures Replace([x], c, with) == if x == c then with else [x]
  {
    assert [x][1..] == [];
  }

  lemma ReplaceTwo(x: char, y: char, c: char, with: string)
    ensures Replace([x, y], c, with) == (if x == c then with else [x]) + (if y == c then with else [y])
  {
    assert [x, y] == [x] + [y];
    ReplaceConcat([x], [y], c, with);
    ReplaceOne(x, c, with);
    ReplaceOne(y, c, with);
  }

  /** The chained replaces of a header field escape each character on its own. */
  lemma {:induction false} HeaderIsPerCharacter(s: string)
    ensures Header(s) == Each(HeaderChar, s)
  {
    if s != [] {
      var head, tail := s[..1], s[1..];
      assert s == head + tail;
      HeaderIsPerCharacter(tail);
      ReplaceConcat(head, tail, '\\', "\\\\");
      ReplaceOne(s[0], '\\', "\\\\");
      var first := Replace(head, '\\', "\\\\");
      ReplaceConcat(first, Replace(tail, '\\', "\\\\"), '|', "\\|");
      ReplaceOne(s[0], '|', "\\|");
      ReplaceTwo('\\', '\\', '|', "\\|");
    }
  }

  /** So do the four chained replaces of an extension value. */
  lemma {:induction false} ExtIsPerCharacter(s: string)
    ensures Ext(Some(s)) == Each(ExtChar, s)
  {
    if s != [] {
      var head, tail := s[..1], s[1..];
      assert s == head + tail;
      ExtIsPerCharacter(tail);
      ExtConcat(head, tail);
      ExtOne(s[0]);
      assert head == [s[0]];
    }
  }

  lemma ExtConcat(a: string, b: string)
    ensures Ext(Some(a + b)) == Ext(Some(a)) + Ext(Some(b))
  {
    var a1, b1 := Replace(a, '\\', "\\\\"), Replace(b, '\\', "\\\\");
    var a2, b2 := Replace(a1, '=', "\\="), Replace(b1, '=', "\\=");
    ReplaceConcat(a, b, '\\', "\\\\");
    ReplaceConcat(a1, b1, '=', "\\=");
    ReplaceConcat(a2, b2, '\r', "\\r");
    ReplaceConcat(Replace(a2, '\r', "\\r"), Replace(b2, '\r', "\\r"), '\n', "\\n");
  }

  lemma ExtOne(x: char)
    ensures Ext(Some([x])) == ExtChar(x)
  {
    ReplaceOne(x, '\\', "\\\\");
    ReplaceOne(x, '=', "\\=");
    ReplaceOne(x, '\r', "\\r");
    ReplaceOne(x, '\n', "\\n");
    ReplaceTwo('\\', '\\', '=', "\\=");
    ReplaceTwo('\\', '\\', '\r', "\\r");
    ReplaceTwo('\\', '\\', '\n', "\\n");
    ReplaceTwo('\\', '=', '\r', "\\r");
    ReplaceTwo('\\', '=', '\n', "\\n");
    ReplaceTwo('\\', 'r', '\n', "\\n");
  }

  /** The escapes of the standard: backslash and pipe in a header field, backslash, equals sign and line breaks in an
      extension value; every other character stands for itself. */
  lemma EscapesAre(c: char)
    ensures Header("\\") == "\\\\" && Header("|") == "\\|" && (c != '\\' && c != '|' ==> Header([c]) == [c])
    ensures Ext(Some("\\")) == "\\\\" && Ext(Some("=")) == "\\=" && Ext(Some("\r")) == "\\r" && Ext(Some("\n")) == "\\n"
    ensures c != '\\' && c != '=' && c != '\r' && c != '\n' ==> Ext(Some([c])) == [c]
  {
    ExtOne('\\');
    ExtOne('=');
    ExtOne('\r');
    ExtOne('\n');
    ExtOne(c);
    HeaderOne('\\');
    HeaderOne('|');
    HeaderOne(c);
  }

  lemma HeaderOne(x: char)
    ensures Header([x]) == HeaderChar(x)
  {
    ReplaceOne(x, '\\', "\\\\");
    ReplaceOne(x, '|', "\\|");
    ReplaceTwo('\\', '\\', '|', "\\|");
  }

  // ---------------------------------------------------------------- reading a header field

  /** Reads up to the first unescaped pipe. */
  function ReadField(s: string): Option<(string, string)>
    decreases |s|
  {
    if s == [] then None
    else if s[0] == '|' then Some(("", s[1..]))
    else if s[0] == '\\' then
      if |s| == 1 then None
      else
        var r := ReadField(s[2..]);
        if r.None? then None else Some(([s[1]] + r.value.0, r.value.1))
    else
      var r := ReadField(s[1..]);
      if r.None? then None else Some(([s[0]] + r.value.0, r.value.1))
  }

  lemma {:induction false} ReadFieldInverts(v: string, rest: string)
    ensures ReadField(Header(v) + "|" + rest) == Some((v, rest))
  {
    HeaderIsPerCharacter(v);
    ReadEachInverts(v, rest);
  }

  lemma {:induction false} ReadEachInverts(v: string, rest: string)
    ensures ReadField(Each(HeaderChar, v) + "|" + rest) == Some((v, rest))
  {
    var s := Each(HeaderChar, v) + "|" + rest;
    if v == [] {
      assert s == "|" + rest;
      assert s[1..] == rest;
    } else {
      var tail := Each(HeaderChar, v[1..]) + "|" + rest;
      ReadEachInverts(v[1..], rest);
      assert s == HeaderChar(v[0]) + tail;
      assert v == [v[0]] + v[1..];
      if v[0] == '\\' || v[0] == '|' { assert s[2..] == tail; } else { assert s[1..] == tail; }
    }
  }

  function ReadFields(s: string, n: nat): Option<(seq<string>, string)>
    decreases n
  {
    if n == 0 then Some(([], s))
    else
      var f := ReadField(s);
      if f.None? then None
      else
        var r := ReadFields(f.value.1, n - 1);
        if r.None? then None else Some(([f.value.0] + r.value.0, r.value.1))
  }

  /** `"|".join(_header(v) for v in fields)` followed by the pipe before the extension. */
  function HeaderText(fields: seq<string>): string {
    if fields == [] then "" else Header(fields[0]) + "|" + HeaderText(fields[1..])
  }

  lemma {:induction false} ReadFieldsInverts(fields: seq<string>, rest: string)
    ensures ReadFields(HeaderText(fields) + rest, |fields|) == Some((fields, rest))
    decreases |fields|
  {
    hide Header;
    if fields == [] {
      assert HeaderText(fields) + rest == rest;
    } else {
      var tail := HeaderText(fields[1..]) + rest;
      assert HeaderText(fields) + rest == Header(fields[0]) + "|" + tail;
      ReadFieldInverts(fields[0], tail);
      ReadFieldsInverts(fields[1..], rest);
      assert fields == [fields[0]] + fields[1..];
    }
  }

  // ---------------------------------------------------------------- reading the extension

  function Unescape(s: string): Option<string>
    decreases |s|
  {
    if s == [] then Some("")
    else if s[0] == '\\' then
      if |s| == 1 then None
      else
        var r := Unescape(s[2..]);
        var c := if s[1] == 'r' then '\r' else if s[1] == 'n' then '\n' else s[1];
        if r.None? then None else Some([c] + r.value)
    else
      var r := Unescape(s[1..]);
      if r.None? then None else Some([s[0]] + r.value)
  }

  lemma {:induction false} UnescapeInverts(v: string)
    ensures Unescape(Each(ExtChar, v)) == Some(v)
  {
    if v != [] {
      UnescapeInverts(v[1..]);
      var s, tail := Each(ExtChar, v), Each(ExtChar, v[1..]);
      assert s == ExtChar(v[0]) + tail;
      assert v == [v[0]] + v[1..];
      if |ExtChar(v[0])| == 2 { assert s[2..] == tail; } else { assert s[1..] == tail; }
    }
  }

  /** The raw text before the first unescaped equals sign, and what follows it. */
  function ToEquals(s: string): Option<(string, string)>
    decreases |s|
  {
    if s == [] then None
    else if s[0] == '=' then Some(("", s[1..]))
    else if s[0] == '\\' then
      if |s| == 1 then None
      else
        var r := ToEquals(s[2..]);
        if r.None? then None else Some((s[..2] + r.value.0, r.value.1))
    else
      var r := ToEquals(s[1..]);
      if r.None? then None else Some((s[..1] + r.value.0, r.value.1))
  }

  predicate GoodKey(k: string) { forall i :: 0 <= i < |k| ==> k[i] != ' ' && k[i] != '=' && k[i] != '\\' }

  /** Plain text holds no equals sign and no backslash. */
  predicate Plain(k: string) { forall i :: 0 <= i < |k| ==> k[i] != '=' && k[i] != '\\' }

  lemma {:induction false} PlainToEquals(k: string, rest: string)
    requires Plain(k)
    ensures ToEquals(k + "=" + rest) == Some((k, rest))
    ensures ToEquals(k) == None
  {
    var s := k + "=" + rest;
    if k == [] {
      assert s == "=" + rest;
      assert s[1..] == rest;
    } else {
      assert s[1..] == k[1..] + "=" + rest;
      PlainToEquals(k[1..], rest);
      assert s[..1] + k[1..] == k;
    }
  }

  function Prepend(raw: string, r: Option<(string, string)>): Option<(string, string)> {
    if r.None? then None else Some((raw + r.value.0, r.value.1))
  }

  lemma SkipCharacter(c: char, tail: string)
    ensures ToEquals(ExtChar(c) + tail) == Prepend(ExtChar(c), ToEquals(tail))
  {
    var s := ExtChar(c) + tail;
    if |ExtChar(c)| == 2 {
      assert s[2..] == tail && s[..2] == ExtChar(c);
    } else {
      assert s[1..] == tail && s[..1] == ExtChar(c);
    }
  }

  /** Unescaped equals signs occur only after keys: an escaped value is skipped whole. */
  lemma {:induction false} ValueToEquals(v: string, rest: string)
    ensures ToEquals(Each(ExtChar, v) + rest) == Prepend(Each(ExtChar, v), ToEquals(rest))
  {
    hide ToEquals, ExtChar;
    if v == [] {
      assert Each(ExtChar, v) + rest == rest;
      assert ToEquals(rest).Some? ==> "" + ToEquals(rest).value.0 == ToEquals(rest).value.0;
    } else {
      var head, mid := ExtChar(v[0]), Each(ExtChar, v[1..]);
      ValueToEquals(v[1..], rest);
      SkipCharacter(v[0], mid + rest);
      assert Each(ExtChar, v) + rest == head + (mid + rest);
      PrependTwice(head, mid, ToEquals(rest));
    }
  }

  lemma PrependTwice(a: string, b: string, r: Option<(string, string)>)
    ensures Prepend(a, Prepend(b, r)) == Prepend(a + b, r)
  {
    if r.Some? { assert a + (b + r.value.0) == (a + b) + r.value.0; }
  }

  /** Splits at the last space. */
  function LastSpace(s: string): Option<(string, string)> {
    if s == [] then None
    else if s[|s| - 1] == ' ' then Some((s[..|s| - 1], ""))
    else
      var r := LastSpace(s[..|s| - 1]);
      if r.None? then None else Some((r.value.0, r.value.1 + [s[|s| - 1]]))
  }

  lemma {:induction false} LastSpaceInverts(a: string, k: string)
    requires GoodKey(k)
    ensures LastSpace(a + " " + k) == Some((a, k))
  {
    var s := a + " " + k;
    if k == [] {
      assert s[..|s| - 1] == a;
    } else {
      var n := |k| - 1;
      LastSpaceInverts(a, k[..n]);
      assert s[..|s| - 1] == a + " " + k[..n];
      assert k[..n] + [k[n]] == k;
    }
  }

  datatype Pair = Pair(key: string, value: string)

  function PairText(p: Pair): string { p.key + "=" + Ext(Some(p.value)) }

  /** `" ".join(f"{k}={_ext(v)}" for k, v in pairs)`. */
  function ExtensionText(pairs: seq<Pair>): string {
    if pairs == [] then ""
    else if |pairs| == 1 then PairText(pairs[0])
    else PairText(pairs[0]) + " " + ExtensionText(pairs[1..])
  }

  /** Reads `value key=value ...` after the equals sign of `key`. */
  function ReadValues(key: string, s: string): Option<seq<Pair>>
    decreases |s|
  {
    var split := ToEquals(s);
    if split.None? then
      var v := Unescape(s);
      if v.None? then None else Some([Pair(key, v.value)])
    else
      ToEqualsShrinks(s);
      var cut := LastSpace(split.value.0);
      if cut.None? then None
      else
        var v := Unescape(cut.value.0);
        var rest := ReadValues(cut.value.1, split.value.1);
        if v.None? || rest.None? then None else Some([Pair(key, v.value)] + rest.value)
  }

  lemma {:induction false} ToEqualsShrinks(s: string)
    ensures ToEquals(s).Some? ==> |ToEquals(s).value.1| < |s|
    decreases |s|
  {
    if s != [] && s[0] != '=' {
      if s[0] == '\\' {
        if |s| > 1 { ToEqualsShrinks(s[2..]); }
      } else {
        ToEqualsShrinks(s[1..]);
      }
    }
  }

  function ReadExtension(s: string): Option<seq<Pair>> {
    var first := ToEquals(s);
    if first.None? then None else ReadValues(first.value.0, first.value.1)
  }

  ghost predicate GoodKeys(pairs: seq<Pair>) { forall i :: 0 <= i < |pairs| ==> GoodKey(pairs[i].key) }

  /** The text after the first key and its equals sign. */
  function AfterKey(pairs: seq<Pair>): string
    requires pairs != []
  {
    Each(ExtChar, pairs[0].value) + (if |pairs| == 1 then "" else " " + ExtensionText(pairs[1..]))
  }

  lemma ExtensionStarts(pairs: seq<Pair>)
    requires pairs != []
    ensures ExtensionText(pairs) == pairs[0].key + "=" + AfterKey(pairs)
  {
    ExtIsPerCharacter(pairs[0].value);
    hide Ext, Each;
    if |pairs| == 1 {
      assert AfterKey(pairs) == Each(ExtChar, pairs[0].value);
    } else {
      var k, v, t := pairs[0].key, Each(ExtChar, pairs[0].value), ExtensionText(pairs[1..]);
      assert (k + "=" + v) + " " + t == k + "=" + (v + (" " + t));
    }
  }

  lemma {:induction false} ReadValuesInverts(pairs: seq<Pair>)
    requires pairs != [] && GoodKeys(pairs)
    ensures ReadValues(pairs[0].key, AfterKey(pairs)) == Some(pairs)
    decreases |pairs|
  {
    hide Each, ToEquals, LastSpace, Unescape, ExtensionText;
    var v := pairs[0].value;
    var raw := Each(ExtChar, v);
    UnescapeInverts(v);
    if |pairs| == 1 {
      assert raw + "" == raw;
      ValueToEquals(v, "");
      NothingToEquals();
      assert pairs == [Pair(pairs[0].key, v)];
    } else {
      var rest := pairs[1..];
      assert GoodKey(pairs[1].key) && Plain(" " + pairs[1].key);
      ExtensionStarts(rest);
      var tail := " " + ExtensionText(rest);
      assert tail == " " + pairs[1].key + "=" + AfterKey(rest);
      PlainToEquals(" " + pairs[1].key, AfterKey(rest));
      ValueToEquals(v, tail);
      LastSpaceInverts(raw, pairs[1].key);
      assert raw + (" " + pairs[1].key) == raw + " " + pairs[1].key;
      ReadValuesInverts(rest);
      assert pairs == [Pair(pairs[0].key, v)] + rest;
    }
  }

  lemma NothingToEquals()
    ensures ToEquals("") == None
  {
  }

  /** Every extension is read back: keys and values, in order. */
  lemma ReadExtensionInverts(pairs: seq<Pair>)
    requires pairs != [] && GoodKeys(pairs)
    ensures ReadExtension(ExtensionText(pairs)) == Some(pairs)
  {
    hide Each, ExtensionText, ReadValues, ToEquals;
    ExtensionStarts(pairs);
    assert GoodKey(pairs[0].key);
    PlainToEquals(pairs[0].key, AfterKey(pairs));
    ReadValuesInverts(pairs);
  }

  // ---------------------------------------------------------------- the audit line

  /** An audit entry as the exporter reads it; `summary` is the already redacted text. Optional fields may be null. */
  datatype Entry = Entry(timestampMs: int, id: Option<string>, actor: Option<string>, orgId: Option<string>,
                         targetType: Option<string>, targetId: Option<string>, action: string, summary: Option<string>)

  function Digits(n: nat): string {
    if n < 10 then [('0' as int + n) as char] else Digits(n / 10) + [('0' as int + n % 10) as char]
  }

  function Decimal(n: int): string { if n < 0 then "-" + Digits(-n) else Digits(n) }

  function OrElse(v: Option<string>, default: string): string { if v.None? then default else v.value }

  predicate Contains(s: string, word: string) {
    |word| <= |s| && (s[..|word|] == word || (s != [] && Contains(s[1..], word)))
  }

  const HIGH: seq<string> := ["purge", "delete", "revoke", "disable", "unlink", "release"]

  function Severity(action: string): string {
    if exists i :: 0 <= i < |HIGH| && Contains(action, HIGH[i]) then "8" else "3"
  }

  function Target(e: Entry): string {
    if e.targetType.Some? && e.targetType.value != "" then e.targetType.value + ":" + OrElse(e.targetId, "None") else ""
  }

  /** The header fields after the format version. */
  function HeaderFields(version: string, e: Entry): seq<string> {
    ["UniMem", "Hub", version, e.action, e.action, Severity(e.action)]
  }

  function Extensions(e: Entry): seq<Pair> {
    [Pair("rt", Decimal(e.timestampMs)), Pair("externalId", OrElse(e.id, "")), Pair("suser", OrElse(e.actor, "")),
     Pair("cs1Label", "org_id"), Pair("cs1", OrElse(e.orgId, "")),
     Pair("cs2Label", "target"), Pair("cs2", Target(e)), Pair("msg", OrElse(e.summary, ""))]
  }

  function ToCef(version: string, e: Entry): string {
    "CEF:0|" + (HeaderText(HeaderFields(version, e)) + ExtensionText(Extensions(e)))
  }

  /** A null value is written like an empty one. */
  lemma NullIsEmpty()
    ensures Ext(None) == Ext(Some(""))
  {
  }

  datatype Parsed = Parsed(header: seq<string>, extension: seq<Pair>)

  function ParseCef(line: string): Option<Parsed> {
    if !("CEF:0|" <= line) then None
    else
      var h := ReadFields(line[6..], 6);
      if h.None? then None
      else
        var x := ReadExtension(h.value.1);
        if x.None? then None else Some(Parsed(h.value.0, x.value))
  }

  /** The parser recovers every header field and every extension value of every entry. */
  lemma ParseInvertsToCef(version: string, e: Entry)
    ensures ParseCef(ToCef(version, e)) == Some(Parsed(HeaderFields(version, e), Extensions(e)))
  {
    hide HeaderText, ExtensionText, ReadFields, ReadExtension, Severity, Target, Decimal;
    var line, ext := ToCef(version, e), ExtensionText(Extensions(e));
    assert line[6..] == HeaderText(HeaderFields(version, e)) + ext;
    ReadFieldsInverts(HeaderFields(version, e), ext);
    assert GoodKeys(Extensions(e));
    ReadExtensionInverts(Extensions(e));
  }

  // ---------------------------------------------------------------- what the parsed line says

  predicate IsDigit(c: char) { '0' <= c <= '9' }

  /** Reads decimal digits back. */
  function ReadDigits(s: string): int
    requires forall i :: 0 <= i < |s| ==> IsDigit(s[i])
  {
    if s == [] then 0 else 10 * ReadDigits(s[..|s| - 1]) + (s[|s| - 1] as int - '0' as int)
  }

  lemma {:induction false} DigitsRead(n: nat)
    ensures Digits(n) != [] && (forall i :: 0 <= i < |Digits(n)| ==> IsDigit(Digits(n)[i])) && ReadDigits(Digits(n)) == n
    decreases n
  {
    if n < 10 {
      var s := Digits(n);
      assert s == [('0' as int + n) as char] && s[..0] == [];
    } else {
      DigitsRead(n / 10);
      var s := Digits(n / 10) + [('0' as int + n % 10) as char];
      assert Digits(n) == s && s[..|s| - 1] == Digits(n / 10);
    }
  }

  ghost predicate ReadsAs(s: string, n: int) {
    if n < 0 then |s| > 1 && s[0] == '-' && (forall i :: 1 <= i < |s| ==> IsDigit(s[i])) && ReadDigits(s[1..]) == -n
    else (forall i :: 0 <= i < |s| ==> IsDigit(s[i])) && ReadDigits(s) == n
  }

  lemma DecimalReads(n: int)
    ensures ReadsAs(Decimal(n), n)
  {
    DigitsRead(if n < 0 then -n else n);
    if n < 0 { assert ("-" + Digits(-n))[1..] == Digits(-n); }
  }

  lemma ContainsIs(s: string, word: string)
    ensures Contains(s, word) <==> exists a, b :: s == a + word + b
  {
    hide Contains;
    if Contains(s, word) { var a, b := ContainsSplits(s, word); assert s == a + word + b; }
    if a, b :| s == a + word + b { SplitsContain(a, word, b); }
  }

  lemma {:induction false} ContainsSplits(s: string, word: string) returns (a: string, b: string)
    requires Contains(s, word)
    ensures s == a + word + b
    decreases |s|
  {
    if s[..|word|] == word {
      a, b := [], s[|word|..];
    } else {
      a, b := ContainsSplits(s[1..], word);
      a := [s[0]] + a;
    }
  }

  lemma {:induction false} SplitsContain(a: string, word: string, b: string)
    ensures Contains(a + word + b, word)
    decreases |a|
  {
    var s := a + word + b;
    if a == [] {
      assert s[..|word|] == word;
    } else {
      SplitsContain(a[1..], word, b);
      assert s[1..] == a[1..] + word + b;
    }
  }

  ghost predicate HighSeverity(action: string) {
    exists word, a, b :: word in {"purge", "delete", "revoke", "disable", "unlink", "release"} && action == a + word + b
  }

  /** Severity is 8 for an action that names one of the six destructive words anywhere, and 3 for any other. */
  lemma SeverityIs(action: string)
    ensures Severity(action) == if HighSeverity(action) then "8" else "3"
  {
    forall i | 0 <= i < |HIGH| ensures Contains(action, HIGH[i]) <==> exists a, b :: action == a + HIGH[i] + b {
      ContainsIs(action, HIGH[i]);
    }
    hide Contains;
    if i :| 0 <= i < |HIGH| && Contains(action, HIGH[i]) {
      var a, b :| action == a + HIGH[i] + b;
      assert HIGH[i] in {"purge", "delete", "revoke", "disable", "unlink", "release"};
    }
    if word, a, b :| word in {"purge", "delete", "revoke", "disable", "unlink", "release"} && action == a + word + b {
      var i :| 0 <= i < |HIGH| && HIGH[i] == word by { WordIsListed(word); }
      assert Contains(action, HIGH[i]);
    }
  }

  lemma WordIsListed(word: string)
    requires word in {"purge", "delete", "revoke", "disable", "unlink", "release"}
    ensures exists i :: 0 <= i < |HIGH| && HIGH[i] == word
  {
    assert HIGH[0] == "purge" && HIGH[1] == "delete" && HIGH[2] == "revoke" && HIGH[3] == "disable";
    assert HIGH[4] == "unlink" && HIGH[5] == "release";
  }

  /** The value of a key in a parsed extension. */
  function ValueOf(pairs: seq<Pair>, key: string): Option<string> {
    if pairs == [] then None else if pairs[0].key == key then Some(pairs[0].value) else ValueOf(pairs[1..], key)
  }

  lemma ValueOfCons(p: Pair, rest: seq<Pair>, key: string)
    ensures ValueOf([p] + rest, key) == if p.key == key then Some(p.value) else ValueOf(rest, key)
  {
    assert ([p] + rest)[1..] == rest;
  }

  lemma ValueOfEight(a: Pair, b: Pair, c: Pair, d: Pair, e: Pair, f: Pair, g: Pair, h: Pair, key: string)
    ensures ValueOf([a, b, c, d, e, f, g, h], key)
         == if a.key == key then Some(a.value) else if b.key == key then Some(b.value) else if c.key == key then Some(c.value)
            else if d.key == key then Some(d.value) else if e.key == key then Some(e.value) else if f.key == key then Some(f.value)
            else if g.key == key then Some(g.value) else if h.key == key then Some(h.value) else None
  {
    hide ValueOf;
    ValueOfCons(a, [b, c, d, e, f, g, h], key);
    ValueOfCons(b, [c, d, e, f, g, h], key);
    ValueOfCons(c, [d, e, f, g, h], key);
    ValueOfCons(d, [e, f, g, h], key);
    ValueOfCons(e, [f, g, h], key);
    ValueOfCons(f, [g, h], key);
    ValueOfCons(g, [h], key);
    ValueOfCons(h, [], key);
    NoValue(key);
    assert [a, b, c, d, e, f, g, h] == [a] + [b, c, d, e, f, g, h];
    assert [b, c, d, e, f, g, h] == [b] + [c, d, e, f, g, h];
    assert [c, d, e, f, g, h] == [c] + [d, e, f, g, h];
    assert [d, e, f, g, h] == [d] + [e, f, g, h];
    assert [e, f, g, h] == [e] + [f, g, h];
    assert [f, g, h] == [f] + [g, h];
    assert [g, h] == [g] + [h];
    assert [h] == [h] + [];
  }

  lemma NoValue(key: string)
    ensures ValueOf([], key) == None
  {
  }

  /** Reading a printed line back tells, field by field, what the entry held. */
  lemma ParsedLineSays(version: string, e: Entry)
    ensures var r := ParseCef(ToCef(version, e));
            && r.Some? && "CEF:0|" <= ToCef(version, e)
            && r.value.header == ["UniMem", "Hub", version, e.action, e.action, if HighSeverity(e.action) then "8" else "3"]
            && var x := r.value.extension;
               && (exists rt :: ValueOf(x, "rt") == Some(rt) && ReadsAs(rt, e.timestampMs))
               && ValueOf(x, "externalId") == Some(if e.id.Some? then e.id.value else "")
               && ValueOf(x, "suser") == Some(if e.actor.Some? then e.actor.value else "")
               && ValueOf(x, "cs1Label") == Some("org_id") && ValueOf(x, "cs2Label") == Some("target")
               && ValueOf(x, "cs1") == Some(if e.orgId.Some? then e.orgId.value else "")
               && ValueOf(x, "cs2") == Some(if e.targetType.None? || e.targetType.value == "" then ""
                                            else e.targetType.value + ":" + (if e.targetId.Some? then e.targetId.value else "None"))
               && ValueOf(x, "msg") == Some(if e.summary.Some? then e.summary.value else "")
  {
    assert "CEF:0|" <= ToCef(version, e);
    hide ToCef, ParseCef, ReadsAs, HighSeverity, Severity, Decimal, ValueOf;
    ParseInvertsToCef(version, e);
    SeverityIs(e.action);
    DecimalReads(e.timestampMs);
    ExtensionSays(e);
  }

  lemma ExtensionSays(e: Entry)
    ensures var x := Extensions(e);
            && ValueOf(x, "rt") == Some(Decimal(e.timestampMs)) && ValueOf(x, "externalId") == Some(OrElse(e.id, ""))
            && ValueOf(x, "suser") == Some(OrElse(e.actor, "")) && ValueOf(x, "cs1Label") == Some("org_id")
            && ValueOf(x, "cs1") == Some(OrElse(e.orgId, "")) && ValueOf(x, "cs2Label") == Some("target")
            && ValueOf(x, "cs2") == Some(Target(e)) && ValueOf(x, "msg") == Some(OrElse(e.summary, ""))
  {
    hide ValueOf, Decimal, Target, OrElse;
    var x := Extensions(e);
    forall key ensures ValueOf(x, key)
      == if x[0].key == key then Some(x[0].value) else if x[1].key == key then Some(x[1].value)
         else if x[2].key == key then Some(x[2].value) else if x[3].key == key then Some(x[3].value)
         else if x[4].key == key then Some(x[4].value) else if x[5].key == key then Some(x[5].value)
         else if x[6].key == key then Some(x[6].value) else if x[7].key == key then Some(x[7].value) else None
    {
      ValueOfEight(x[0], x[1], x[2], x[3], x[4], x[5], x[6], x[7], key);
    }
  }

  // ---------------------------------------------------------------- one record, one line

  predicate HasBreak(s: string) { exists i :: 0 <= i < |s| && (s[i] == '\r' || s[i] == '\n') }

  lemma BreakConcat(a: string, b: string)
    ensures HasBreak(a + b) <==> HasBreak(a) || HasBreak(b)
  {
    var s := a + b;
    if HasBreak(a) { var i :| 0 <= i < |a| && (a[i] == '\r' || a[i] == '\n'); assert s[i] == a[i]; }
    if HasBreak(b) { var i :| 0 <= i < |b| && (b[i] == '\r' || b[i] == '\n'); assert s[|a| + i] == b[i]; }
  }

  lemma {:induction false} ExtensionValueHasNoBreak(v: string)
    ensures !HasBreak(Each(ExtChar, v))
  {
    if v != [] {
      ExtensionValueHasNoBreak(v[1..]);
      BreakConcat(ExtChar(v[0]), Each(ExtChar, v[1..]));
    }
  }

  lemma {:induction false} HeaderKeepsBreaks(v: string)
    ensures HasBreak(Each(HeaderChar, v)) <==> HasBreak(v)
  {
    if v != [] {
      HeaderKeepsBreaks(v[1..]);
      BreakConcat(HeaderChar(v[0]), Each(HeaderChar, v[1..]));
      assert v == [v[0]] + v[1..];
      BreakConcat([v[0]], v[1..]);
      OneBreak(v[0]);
    }
  }

  lemma OneBreak(c: char)
    ensures HasBreak(HeaderChar(c)) <==> c == '\r' || c == '\n'
    ensures HasBreak([c]) <==> c == '\r' || c == '\n'
  {
    assert [c][0] == c;
    assert HeaderChar(c)[0] == (if c == '|' then '\\' else c);
  }

  lemma {:induction false} ExtensionHasNoBreak(pairs: seq<Pair>)
    requires forall i :: 0 <= i < |pairs| ==> !HasBreak(pairs[i].key)
    ensures !HasBreak(ExtensionText(pairs))
    decreases |pairs|
  {
    hide HasBreak, Each, Ext;
    NoBreakInSeparators();
    if pairs != [] {
      var p := pairs[0];
      ExtIsPerCharacter(p.value);
      ExtensionValueHasNoBreak(p.value);
      BreakConcat(p.key, "=");
      BreakConcat(p.key + "=", Ext(Some(p.value)));
      if |pairs| > 1 {
        ExtensionHasNoBreak(pairs[1..]);
        BreakConcat(PairText(p), " ");
        BreakConcat(PairText(p) + " ", ExtensionText(pairs[1..]));
      }
    }
  }

  lemma NoBreakInSeparators()
    ensures !HasBreak("") && !HasBreak("=") && !HasBreak(" ") && !HasBreak("|")
  {
  }

  lemma {:induction false} HeaderTextBreaks(fields: seq<string>)
    ensures HasBreak(HeaderText(fields)) <==> exists i :: 0 <= i < |fields| && HasBreak(fields[i])
    decreases |fields|
  {
    hide HasBreak, Header, Each;
    NoBreakInSeparators();
    if fields != [] {
      HeaderIsPerCharacter(fields[0]);
      HeaderKeepsBreaks(fields[0]);
      HeaderTextBreaks(fields[1..]);
      BreakConcat(Header(fields[0]), "|");
      BreakConcat(Header(fields[0]) + "|", HeaderText(fields[1..]));
      if HasBreak(HeaderText(fields[1..])) {
        var i :| 0 <= i < |fields[1..]| && HasBreak(fields[1..][i]);
        assert HasBreak(fields[i + 1]);
      }
      if exists i :: 0 <= i < |fields| && HasBreak(fields[i]) {
        var i :| 0 <= i < |fields| && HasBreak(fields[i]);
        if i > 0 { assert HasBreak(fields[1..][i - 1]); }
      }
    }
  }

  lemma KeysHaveNoBreak(e: Entry)
    ensures forall i :: 0 <= i < |Extensions(e)| ==> !HasBreak(Extensions(e)[i].key)
  {
    hide Target, Decimal;
  }

  lemma FixedFieldsHaveNoBreak(action: string)
    ensures !HasBreak("UniMem") && !HasBreak("Hub") && !HasBreak(Severity(action)) && !HasBreak("CEF:0|")
  {
    hide Contains;
  }

  /** The extension never holds a line break, but the header does not escape one: a record is a single line exactly
      when the version and the action are. */
  lemma SingleLineIff(version: string, e: Entry)
    ensures HasBreak(ToCef(version, e)) <==> HasBreak(version) || HasBreak(e.action)
  {
    hide HasBreak, HeaderText, ExtensionText, Severity, Extensions;
    var fields, ext := HeaderFields(version, e), ExtensionText(Extensions(e));
    FixedFieldsHaveNoBreak(e.action);
    KeysHaveNoBreak(e);
    ExtensionHasNoBreak(Extensions(e));
    HeaderTextBreaks(fields);
    BreakConcat(HeaderText(fields), ext);
    BreakConcat("CEF:0|", HeaderText(fields) + ext);
    assert fields[2] == version && fields[3] == e.action;
  }
}
