/** The text of a generation scope: a model name and a database alias as a JSON array
    (src/nova/cache/generation.py:48-50).  Two scopes never share a text, so they never
    share a token. */
module ScopeNames {

  function HexChar(d: nat): (c: char)
    requires d < 16
  {
    if d < 10 then ('0' as int + d) as char else ('a' as int + d - 10) as char
  }

  function Hex4(n: nat): (r: string)
    requires n < 0x1_0000
    ensures |r| == 4
  {
    [HexChar(n / 4096), HexChar(n / 256 % 16), HexChar(n / 16 % 16), HexChar(n % 16)]
  }

  lemma {:induction false} FromDigits(n: nat)
    requires n < 0x1_0000
    ensures n == n / 4096 * 4096 + n / 256 % 16 * 256 + n / 16 % 16 * 16 + n % 16
  {
    assert n / 256 == n / 4096 * 16 + n / 256 % 16;
    assert n / 16 == n / 256 * 16 + n / 16 % 16;
  }

  /** One character between JSON quotes, in ASCII only; a character beyond the basic plane
      becomes a surrogate pair. */
  function Code(c: char): string {
    if c == '\\' then "\\\\"
    else if c == '"' then "\\\""
    else if c == '\n' then "\\n"
    else if c == '\r' then "\\r"
    else if c == '\t' then "\\t"
    else if c as int == 8 then "\\b"
    else if c as int == 12 then "\\f"
    else if ' ' <= c <= '~' then [c]
    else if c as int < 0x1_0000 then "\\u" + Hex4(c as int)
    else "\\u" + Hex4(High(c)) + "\\u" + Hex4(Low(c))
  }

  function High(c: char): nat
    requires c as int >= 0x1_0000
    ensures 0xD800 <= High(c) < 0xDC00
  {
    0xD800 + (c as int - 0x1_0000) / 1024
  }

  function Low(c: char): nat
    requires c as int >= 0x1_0000
    ensures 0xDC00 <= Low(c) < 0xE000
  {
    0xDC00 + (c as int - 0x1_0000) % 1024
  }

  function Escaped(s: string): string {
    if s == "" then "" else Code(s[0]) + Escaped(s[1..])
  }

  /** `generation_scope`. */
  function GenerationScope(model: string, db: string): string {
    "[\"" + Escaped(model) + "\",\"" + Escaped(db) + "\"]"
  }

  // ----- a reader of JSON strings, section 7 of RFC 8259 -----

  datatype Option<T> = None | Some(value: T)

  function HexValue(c: char): (r: Option<nat>)
    ensures r.Some? ==> r.value < 16
  {
    if '0' <= c <= '9' then Some(c as int - '0' as int)
    else if 'a' <= c <= 'f' then Some(c as int - 'a' as int + 10)
    else if 'A' <= c <= 'F' then Some(c as int - 'A' as int + 10)
    else None
  }

  /** The code unit after `\u`. */
  function ReadUnit(t: string): (r: Option<nat>)
    ensures r.Some? ==> |t| >= 6 && r.value < 0x1_0000
  {
    if |t| < 6 || t[0] != '\\' || t[1] != 'u' then None
    else
      var a, b, c, d := HexValue(t[2]), HexValue(t[3]), HexValue(t[4]), HexValue(t[5]);
      if a.None? || b.None? || c.None? || d.None? then None
      else Some(((a.value * 16 + b.value) * 16 + c.value) * 16 + d.value)
  }

  /** One character between the quotes, and what follows it. */
  function ReadChar(t: string): (r: Option<(char, string)>)
    ensures r.Some? ==> |r.value.1| < |t|
  {
    if t == "" || t[0] == '"' then None
    else if t[0] != '\\' then Some((t[0], t[1..]))
    else if |t| < 2 then None
    else
      match t[1]
      case '"' => Some(('"', t[2..]))
      case '\\' => Some(('\\', t[2..]))
      case '/' => Some(('/', t[2..]))
      case 'b' => Some((8 as char, t[2..]))
      case 'f' => Some((12 as char, t[2..]))
      case 'n' => Some(('\n', t[2..]))
      case 'r' => Some(('\r', t[2..]))
      case 't' => Some(('\t', t[2..]))
      case 'u' => ReadUnicode(t)
      case _ => None
  }

  /** A code unit of the basic plane, or a surrogate pair. */
  function ReadUnicode(t: string): (r: Option<(char, string)>)
    ensures r.Some? ==> |r.value.1| < |t|
  {
    var n := ReadUnit(t);
    if n.None? then None
    else if n.value < 0xD800 || n.value >= 0xE000 then Some((n.value as char, t[6..]))
    else
      var low := ReadUnit(t[6..]);
      if n.value < 0xDC00 && low.Some? && 0xDC00 <= low.value < 0xE000 then
        Some((((n.value - 0xD800) * 1024 + (low.value - 0xDC00) + 0x1_0000) as char, t[12..]))
      else None
  }

  /** Up to the closing quote. */
  function ReadString(t: string): Option<(string, string)>
    decreases |t|
  {
    if t != "" && t[0] == '"' then Some(("", t[1..]))
    else
      var c := ReadChar(t);
      if c.None? then None
      else
        var rest := ReadString(c.value.1);
        if rest.None? then None else Some(([c.value.0] + rest.value.0, rest.value.1))
  }

  /** An array of two strings. */
  function ReadScope(t: string): Option<(string, string)> {
    if !("[\"" <= t) then None
    else
      var m := ReadString(t[2..]);
      if m.None? || !(",\"" <= m.value.1) then None
      else
        var d := ReadString(m.value.1[2..]);
        if d.None? || d.value.1 != "]" then None else Some((m.value.0, d.value.0))
  }

  // ----- what is written is read -----

  lemma {:induction false} HexIsRead(d: nat)
    requires d < 16
    ensures HexValue(HexChar(d)) == Some(d)
  {
  }

  lemma {:induction false} UnitIsRead(n: nat, x: string)
    requires n < 0x1_0000
    ensures ReadUnit("\\u" + Hex4(n) + x) == Some(n) && ("\\u" + Hex4(n) + x)[6..] == x
  {
    HexIsRead(n / 4096);
    HexIsRead(n / 256 % 16);
    HexIsRead(n / 16 % 16);
    HexIsRead(n % 16);
    FromDigits(n);
  }

  lemma {:induction false} UnicodeIsRead(c: char, x: string)
    requires |Code(c)| > 1 && Code(c)[1] == 'u'
    ensures ReadUnicode(Code(c) + x) == Some((c, x)) && (Code(c) + x)[0] == '\\' && (Code(c) + x)[1] == 'u'
  {
    hide HexChar, ReadUnit, Hex4;
    if c as int < 0x1_0000 {
      UnitIsRead(c as int, x);
    } else {
      var low := "\\u" + Hex4(Low(c)) + x;
      assert Code(c) + x == "\\u" + Hex4(High(c)) + low;
      UnitIsRead(High(c), low);
      UnitIsRead(Low(c), x);
      assert (Code(c) + x)[12..] == low[6..];
    }
  }

  /** Every character is read back as itself, and tells where it ends. */
  lemma {:induction false} CodeIsRead(c: char, x: string)
    ensures Code(c) != "" && Code(c)[0] != '"' && ReadChar(Code(c) + x) == Some((c, x))
  {
    hide ReadUnicode, Hex4;
    if |Code(c)| > 1 && Code(c)[1] == 'u' {
      UnicodeIsRead(c, x);
    } else {
      assert (Code(c) + x)[|Code(c)|..] == x;
    }
  }

  lemma {:induction false} StringIsRead(s: string, x: string)
    ensures ReadString(Escaped(s) + "\"" + x) == Some((s, x))
  {
    hide Code, ReadChar;
    var t := Escaped(s) + "\"" + x;
    if s == "" {
      assert t == "\"" + x && t[1..] == x;
    } else {
      var rest := Escaped(s[1..]) + "\"" + x;
      assert t == Code(s[0]) + rest;
      CodeIsRead(s[0], rest);
      assert t[0] == Code(s[0])[0];
      StringIsRead(s[1..], x);
      assert s == [s[0]] + s[1..];
    }
  }

  /** The text is JSON for exactly these two strings. */
  lemma {:induction false} ScopeIsRead(model: string, db: string)
    ensures ReadScope(GenerationScope(model, db)) == Some((model, db))
  {
    hide Escaped, ReadString;
    var tail := ",\"" + Escaped(db) + "\"]";
    var t := GenerationScope(model, db);
    assert t == "[\"" + (Escaped(model) + "\"" + tail);
    assert t[2..] == Escaped(model) + "\"" + tail;
    StringIsRead(model, tail);
    assert tail[2..] == Escaped(db) + "\"" + "]";
    StringIsRead(db, "]");
  }

  /** It is ASCII only, whatever the names are. */
  lemma {:induction false} CodeIsAscii(c: char)
    ensures forall i :: 0 <= i < |Code(c)| ==> ' ' <= Code(c)[i] <= '~'
  {
  }

  lemma {:induction false} EscapedIsAscii(s: string)
    ensures forall i :: 0 <= i < |Escaped(s)| ==> ' ' <= Escaped(s)[i] <= '~'
  {
    hide Code;
    if s != "" {
      CodeIsAscii(s[0]);
      EscapedIsAscii(s[1..]);
    }
  }

  lemma {:induction false} ScopeIsAscii(model: string, db: string)
    ensures forall i :: 0 <= i < |GenerationScope(model, db)| ==> ' ' <= GenerationScope(model, db)[i] <= '~'
  {
    EscapedIsAscii(model);
    EscapedIsAscii(db);
  }

  /** Different models or databases have different scopes. */
  lemma {:induction false} ScopesAreDistinct(model: string, db: string, model2: string, db2: string)
    requires GenerationScope(model, db) == GenerationScope(model2, db2)
    ensures model == model2 && db == db2
  {
    hide ReadScope, GenerationScope;
    ScopeIsRead(model, db);
    ScopeIsRead(model2, db2);
  }
}
