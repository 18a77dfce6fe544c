/** JSON values as `serde_json::Value` holds them, the lookups the index
    code performs on them, and the compact text `Value::to_string` writes.
    Parsing is not modelled here: it is one of the platform capabilities. */
module Json {
  import opened Wrappers
  import opened Text

  newtype u64 = x: int | 0 <= x < 0x1_0000_0000_0000_0000

  /** serde_json keeps a non-negative integer as `u64`, a negative one as
      `i64`, anything else as `f64` (kept here as its text). */
  datatype Number = PosInt(u: u64) | NegInt(i: int) | Float(text: string)

  /** An object is the sequence of its members in iteration order. */
  datatype Json =
    | Null
    | Bool(b: bool)
    | Num(n: Number)
    | Str(s: string)
    | Array(items: seq<Json>)
    | Object(members: seq<(string, Json)>)

  /** The value stored under `key` in a member list. */
  function Lookup(members: seq<(string, Json)>, key: string): (r: Option<Json>)
    ensures r.None? <==> forall i :: 0 <= i < |members| ==> members[i].0 != key
    ensures r.Some? ==> exists i :: 0 <= i < |members| && members[i] == (key, r.value)
  {
    if members == [] then None
    else if members[0].0 == key then Some(members[0].1)
    else
      var r := Lookup(members[1..], key);
      assert forall i :: 1 <= i < |members| ==> members[i] == members[1..][i - 1];
      r
  }

  /** `Value::get(key)`: `None` for anything but an object holding `key`. */
  function Get(v: Json, key: string): (r: Option<Json>)
    ensures r.Some? ==> v.Object?
    ensures v.Object? ==> r == Lookup(v.members, key)
  {
    if v.Object? then Lookup(v.members, key) else None
  }

  /** `Some(Value::String(s))` under `key`. */
  function GetStr(v: Json, key: string): (r: Option<string>)
    ensures r.Some? <==> Get(v, key).Some? && Get(v, key).value.Str?
    ensures r.Some? ==> Get(v, key) == Some(Str(r.value))
  {
    match Get(v, key)
    case Some(Str(s)) => Some(s)
    case _ => None
  }

  /** `Number::as_u64`. */
  function AsU64(n: Number): (r: Option<u64>)
    ensures r.Some? <==> n.PosInt?
    ensures r.Some? ==> r.value == n.u
  {
    if n.PosInt? then Some(n.u) else None
  }

  // ---------------------------------------------------------------------
  // Compact serialisation.

  const Quotation: char := '"'
  const Backslash: char := '\\'
  const Del: char := 127 as char

  /** The lower-case hexadecimal digit of `d`. */
  function HexLower(d: nat): (c: char)
    requires d < 16
    ensures ('0' <= c <= '9' || 'a' <= c <= 'f') && HexValue(c) == Some(d)
  {
    if d < 10 then ('0' as int + d) as char else ('a' as int + d - 10) as char
  }

  /** serde_json's escape of one character: quote and backslash, the five
      short control escapes, `\u00xx` with lower-case digits for the other
      characters below 0x20; everything else, DEL included, as itself. */
  function EscapeChar(c: char): (r: string)
    ensures |r| >= 1
    ensures c as int >= 0x20 && c != Quotation && c != Backslash <==> r == [c]
  {
    if c == Quotation then [Backslash, Quotation]
    else if c == Backslash then [Backslash, Backslash]
    else if c == 8 as char then [Backslash, 'b']
    else if c == 9 as char then [Backslash, 't']
    else if c == 10 as char then [Backslash, 'n']
    else if c == 12 as char then [Backslash, 'f']
    else if c == 13 as char then [Backslash, 'r']
    else if c as int < 0x20 then [Backslash, 'u', '0', '0', HexLower(c as int / 16), HexLower(c as int % 16)]
    else [c]
  }

  function Escape(s: string): (r: string)
    ensures |r| >= |s|
  {
    if s == [] then [] else EscapeChar(s[0]) + Escape(s[1..])
  }

  /** A JSON string literal. */
  function Quote(s: string): (r: string)
    ensures |r| >= 2 && r[0] == Quotation && r[|r| - 1] == Quotation
  {
    [Quotation] + Escape(s) + [Quotation]
  }

  function NumberText(n: Number): string {
    match n
    case PosInt(u) => Decimal(u as nat)
    case NegInt(i) => if i < 0 then "-" + Decimal(-i) else Decimal(i)
    case Float(t) => t
  }

  /** `Value::to_string`: no white space between tokens. A string comes
      out quoted, an array bracketed and an object braced. */
  function Serialize(v: Json): (r: string)
    ensures |r| >= 1
    ensures v.Str? ==> |r| >= 2 && r[0] == Quotation && r[|r| - 1] == Quotation
    ensures v.Array? ==> r[0] == '[' && r[|r| - 1] == ']'
    ensures v.Object? ==> r[0] == '{' && r[|r| - 1] == '}'
    decreases v, 0
  {
    match v
    case Null => "null"
    case Bool(b) => if b then "true" else "false"
    case Num(n) => if NumberText(n) == "" then "0" else NumberText(n)
    case Str(s) => Quote(s)
    case Array(items) => "[" + SerializeItems(items) + "]"
    case Object(ms) => "{" + SerializeMembers(ms) + "}"
  }

  function SerializeItems(items: seq<Json>): string
    decreases items, 1
  {
    if items == [] then ""
    else if |items| == 1 then Serialize(items[0])
    else Serialize(items[0]) + "," + SerializeItems(items[1..])
  }

  function SerializeMembers(ms: seq<(string, Json)>): string
    decreases ms, 1
  {
    if ms == [] then ""
    else
      var key, value := ms[0].0, ms[0].1;
      assert value < ms[0];
      var m := Quote(key) + ":" + Serialize(value);
      if |ms| == 1 then m else m + "," + SerializeMembers(ms[1..])
  }

  /** The strings of a `Vec<&str>` as a JSON array value. */
  function StrArray(xs: seq<string>): (r: seq<Json>)
    ensures |r| == |xs| && forall i :: 0 <= i < |xs| ==> r[i] == Str(xs[i])
  {
    if xs == [] then [] else [Str(xs[0])] + StrArray(xs[1..])
  }

  // ---------------------------------------------------------------------
  // Reading a string literal back: the partner of `Escape`.

  function HexValue(c: char): (r: Option<nat>)
    ensures r.Some? ==> r.value < 16
  {
    if '0' <= c <= '9' then Some(c as int - '0' as int)
    else if 'a' <= c <= 'f' then Some(c as int - 'a' as int + 10)
    else None
  }

  /** The character a two-character escape `\e` stands for. */
  function ShortEscape(e: char): (r: Option<char>)
  {
    if e == Quotation then Some(Quotation)
    else if e == Backslash then Some(Backslash)
    else if e == 'b' then Some(8 as char)
    else if e == 't' then Some(9 as char)
    else if e == 'n' then Some(10 as char)
    else if e == 'f' then Some(12 as char)
    else if e == 'r' then Some(13 as char)
    else None
  }

  /** The character a six-character escape `\u00xy` stands for, for the
      control characters serde_json writes that way. */
  function UnicodeEscape(t: string): (r: Option<char>)
    requires |t| >= 6
  {
    if t[1] == 'u' && t[2] == '0' && t[3] == '0'
       && HexValue(t[4]).Some? && HexValue(t[5]).Some? && HexValue(t[4]).value < 2
    then Some((HexValue(t[4]).value * 16 + HexValue(t[5]).value) as char)
    else None
  }

  /** The characters an escaped text stands for; `None` for a bare quote,
      a bare control character or an escape serde_json does not write. */
  function Unescape(t: string): (r: Option<string>)
    decreases |t|
  {
    if t == [] then Some([])
    else if t[0] == Quotation || t[0] as int < 0x20 then None
    else if t[0] != Backslash then Prepend(t[0], Unescape(t[1..]))
    else if |t| < 2 then None
    else if ShortEscape(t[1]).Some? then Prepend(ShortEscape(t[1]).value, Unescape(t[2..]))
    else if |t| >= 6 && UnicodeEscape(t).Some? then Prepend(UnicodeEscape(t).value, Unescape(t[6..]))
    else None
  }

  function Prepend(c: char, r: Option<string>): Option<string> {
    match r
    case None => None
    case Some(rest) => Some([c] + rest)
  }

  lemma UnescapeControl(c: char, t: string)
    requires c as int < 0x20 && c !in {8 as char, 9 as char, 10 as char, 12 as char, 13 as char}
    ensures Unescape(EscapeChar(c) + t) == Prepend(c, Unescape(t))
  {
    var e := EscapeChar(c);
    var hi, lo := c as int / 16, c as int % 16;
    assert e == [Backslash, 'u', '0', '0', HexLower(hi), HexLower(lo)];
    var u := e + t;
    assert u[1] == 'u' && ShortEscape(u[1]).None?;
    assert UnicodeEscape(u) == Some(c);
    assert u[6..] == t;
  }

  lemma UnescapeChar(c: char, t: string)
    ensures Unescape(EscapeChar(c) + t) == Prepend(c, Unescape(t))
  {
    var e := EscapeChar(c);
    if c as int >= 0x20 && c != Quotation && c != Backslash {
      assert (e + t)[1..] == t;
    } else if c == Quotation || c == Backslash || c in {8 as char, 9 as char, 10 as char, 12 as char, 13 as char} {
      assert |e| == 2;
      assert (e + t)[2..] == t;
    } else {
      UnescapeControl(c, t);
    }
  }

  /** Every escaped text reads back as the string it came from. */
  lemma {:induction false} UnescapeEscape(s: string)
    ensures Unescape(Escape(s)) == Some(s)
  {
    if s != [] {
      UnescapeEscape(s[1..]);
      UnescapeChar(s[0], Escape(s[1..]));
      assert Escape(s) == EscapeChar(s[0]) + Escape(s[1..]);
      assert [s[0]] + s[1..] == s;
    }
  }

  lemma EscapeCharCharacters(c: char)
    ensures forall i :: 0 <= i < |EscapeChar(c)| ==> EscapeChar(c)[i] as int >= 0x20
    ensures Del in EscapeChar(c) <==> c == Del
  {
    if c as int < 0x20 && c !in {8 as char, 9 as char, 10 as char, 12 as char, 13 as char} {
      var hi, lo := c as int / 16, c as int % 16;
      assert EscapeChar(c) == [Backslash, 'u', '0', '0', HexLower(hi), HexLower(lo)];
    }
  }

  /** An escaped text holds no control character below 0x20, and holds DEL
      exactly when the original did. */
  lemma {:induction false} EscapeCharacters(s: string)
    ensures forall i :: 0 <= i < |Escape(s)| ==> Escape(s)[i] as int >= 0x20
    ensures Del in Escape(s) <==> Del in s
  {
    if s != [] {
      EscapeCharacters(s[1..]);
      var e := EscapeChar(s[0]);
      EscapeCharCharacters(s[0]);
      assert Escape(s) == e + Escape(s[1..]);
      assert s == [s[0]] + s[1..];
    }
  }
}
