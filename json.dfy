/** The parsed JSON document the router reads, after serde_json's `Value`,
    with the two operations the router applies to it: indexing an object by
    key, and writing a value back out as compact JSON text (`to_string`). */
module Json {
  import opened Wrappers
  import opened StringOrder

  /** A JSON value. A number is kept as the text serde_json prints for it:
      integer and floating-point formatting are not modelled. Object keys are
      unique, as in serde_json's map. */
  datatype Value =
    | Null
    | Bool(b: bool)
    | Number(literal: string)
    | String(s: string)
    | Array(items: seq<Value>)
    | Object(fields: map<string, Value>)

  /** `v[key]` on a serde_json value: the field's value when `v` is an object
      holding `key`, and `Null` otherwise (indexing never fails). */
  function Field(v: Value, key: string): Value
  {
    match v
    case Object(fields) => if key in fields then fields[key] else Null
    case _ => Null
  }

  /** Re-reading the text of `v` as a `HashMap<String, Value>`: this succeeds,
      with the same keys and values, exactly when `v` is an object. */
  function AsStringMap(v: Value): Option<map<string, Value>>
  {
    if v.Object? then Some(v.fields) else None
  }

  /** A lower-case hexadecimal digit, for `0 <= d < 16`. */
  function HexDigit(d: nat): (c: char)
    requires d < 16
  {
    if d < 10 then (48 + d) as char else (87 + d) as char
  }

  /** The value of a hexadecimal digit of either case. */
  function HexValue(c: char): (r: Option<nat>)
    ensures r.Some? ==> r.value < 16
  {
    if '0' <= c <= '9' then Some(c as nat - 48)
    else if 'a' <= c <= 'f' then Some(c as nat - 87)
    else if 'A' <= c <= 'F' then Some(c as nat - 55)
    else None
  }

  lemma HexRoundTrip(d: nat)
    requires d < 16
    ensures HexValue(HexDigit(d)) == Some(d)
  {
  }

  /** The letter of the two-character escape serde_json uses for `c`, if it
      has one: the quote, the backslash and five control characters. */
  function ShortEscapeOf(c: char): Option<char>
  {
    if c == '"' then Some('"')
    else if c == '\\' then Some('\\')
    else if c == 8 as char then Some('b')
    else if c == 12 as char then Some('f')
    else if c == '\n' then Some('n')
    else if c == '\r' then Some('r')
    else if c == '\t' then Some('t')
    else None
  }

  /** The character a two-character escape `\e` stands for in JSON. */
  function ShortEscape(e: char): Option<char>
  {
    if e == '"' then Some('"')
    else if e == '\\' then Some('\\')
    else if e == '/' then Some('/')
    else if e == 'b' then Some(8 as char)
    else if e == 'f' then Some(12 as char)
    else if e == 'n' then Some('\n')
    else if e == 'r' then Some('\r')
    else if e == 't' then Some('\t')
    else None
  }

  lemma ShortEscapeRoundTrip(c: char)
    requires ShortEscapeOf(c).Some?
    ensures ShortEscape(ShortEscapeOf(c).value) == Some(c)
  {
  }

  /** How serde_json writes one character inside a string literal: a short
      escape where it has one, `\u00XX` for the other control characters below
      U+0020, and every other character as it is. */
  function EscapeChar(c: char): (t: string)
  {
    if ShortEscapeOf(c).Some? then ['\\', ShortEscapeOf(c).value]
    else if c < ' ' then "\\u00" + [HexDigit(c as nat / 16), HexDigit(c as nat % 16)]
    else [c]
  }

  /** The body of a JSON string literal for `s`. */
  function Escape(s: string): string
  {
    if s == [] then [] else EscapeChar(s[0]) + Escape(s[1..])
  }

  function Prepend(c: char, r: Option<string>): Option<string>
  {
    if r.Some? then Some([c] + r.value) else None
  }

  /** Reads the body of a JSON string literal back: `None` when it holds a raw
      quote or control character, a malformed escape, or a `\u` escape of a
      lone surrogate (surrogate pairs are not decoded). */
  function Unescape(t: string): Option<string>
    decreases |t|
  {
    if t == [] then Some([])
    else if t[0] == '"' || t[0] < ' ' then None
    else if t[0] != '\\' then Prepend(t[0], Unescape(t[1..]))
    else if |t| < 2 then None
    else if ShortEscape(t[1]).Some? then Prepend(ShortEscape(t[1]).value, Unescape(t[2..]))
    else if t[1] == 'u' && |t| >= 6 then
      var h0, h1, h2, h3 := HexValue(t[2]), HexValue(t[3]), HexValue(t[4]), HexValue(t[5]);
      if h0.None? || h1.None? || h2.None? || h3.None? then None
      else
        var code := ((h0.value * 16 + h1.value) * 16 + h2.value) * 16 + h3.value;
        if 0xD800 <= code < 0xE000 then None
        else Prepend(code as char, Unescape(t[6..]))
    else None
  }

  /** The escape of one character is read back as that character, whatever
      follows it. */
  lemma UnescapeChar(c: char, rest: string)
    ensures Unescape(EscapeChar(c) + rest) == Prepend(c, Unescape(rest))
  {
    var t := EscapeChar(c) + rest;
    if ShortEscapeOf(c).Some? {
      ShortEscapeRoundTrip(c);
      assert t[2..] == rest;
    } else if c < ' ' {
      var hi, lo := c as nat / 16, c as nat % 16;
      HexRoundTrip(hi);
      HexRoundTrip(lo);
      assert t[2] == '0' && t[3] == '0' && t[4] == HexDigit(hi) && t[5] == HexDigit(lo);
      assert t[6..] == rest;
    } else {
      assert t[1..] == rest;
    }
  }

  /** Escaping is undone by unescaping, so distinct strings are written as
      distinct literals. */
  lemma {:induction false} UnescapeEscape(s: string)
    ensures Unescape(Escape(s)) == Some(s)
  {
    if s != [] {
      UnescapeEscape(s[1..]);
      UnescapeChar(s[0], Escape(s[1..]));
      assert [s[0]] + s[1..] == s;
    }
  }

  /** A string literal: the escaped text between double quotes. */
  function Quote(s: string): (t: string)
    ensures |t| >= 2 && t[0] == '"' && t[|t| - 1] == '"'
    ensures Unescape(t[1..|t| - 1]) == Some(s)
  {
    UnescapeEscape(s);
    var t := "\"" + Escape(s) + "\"";
    assert t[1..|t| - 1] == Escape(s);
    t
  }

  /** `v.to_string()`: compact JSON text with no whitespace, array items in
      order and object members in ascending key order, as serde_json writes
      its default (B-tree) map. */
  function Serialize(v: Value): (t: string)
    ensures v.Array? ==> |t| >= 2 && t[0] == '[' && t[|t| - 1] == ']'
    ensures v.Object? ==> |t| >= 2 && t[0] == '{' && t[|t| - 1] == '}'
    ensures v.String? ==> |t| >= 2 && t[0] == '"' && t[|t| - 1] == '"' && Unescape(t[1..|t| - 1]) == Some(v.s)
    decreases v
  {
    match v
    case Null => "null"
    case Bool(b) => if b then "true" else "false"
    case Number(literal) => literal
    case String(s) => Quote(s)
    case Array(items) => "[" + SerializeItems(items, v) + "]"
    case Object(fields) => "{" + SerializeMembers(fields, SortedKeys(fields.Keys), v) + "}"
  }

  /** The items of an array, comma-separated. */
  function SerializeItems(items: seq<Value>, ghost parent: Value): string
    requires forall i :: 0 <= i < |items| ==> items[i] < parent
    decreases parent, |items|
  {
    if items == [] then ""
    else if |items| == 1 then Serialize(items[0])
    else Serialize(items[0]) + "," + SerializeItems(items[1..], parent)
  }

  /** The members of an object named by `keys`, in that order, as
      comma-separated `"key":value` pairs. */
  function SerializeMembers(fields: map<string, Value>, keys: seq<string>, ghost parent: Value): string
    requires forall i :: 0 <= i < |keys| ==> keys[i] in fields
    requires forall k :: k in fields ==> fields[k] < parent
    decreases parent, |keys|
  {
    if keys == [] then ""
    else
      var member := Quote(keys[0]) + ":" + Serialize(fields[keys[0]]);
      if |keys| == 1 then member
      else member + "," + SerializeMembers(fields, keys[1..], parent)
  }
}
