/**
  The canonical printer that builds the loop guard's `toolArgs`, and the string quoting it relies
  on (escapes per section 7 of RFC 8259; unpaired surrogates escaped as in ECMAScript).
 */
module CanonicalJson {
  import opened Prelude
  import opened Utf16

  /** A number is represented by the digits it prints as. Fields are in enumeration order. */
  datatype Json =
    | Null
    | Undefined
    | Bool(value: bool)
    | Num(lexeme: Text)
    | Str(text: Text)
    | Arr(items: seq<Json>)
    | Obj(fields: seq<Field>)

  datatype Field = Field(key: Text, value: Json)

  const QUOTE: Unit := 0x22
  const COMMA: Unit := 0x2C
  const SLASH: Unit := 0x2F
  const COLON: Unit := 0x3A
  const OPEN_BRACKET: Unit := 0x5B
  const BACKSLASH: Unit := 0x5C
  const CLOSE_BRACKET: Unit := 0x5D
  const OPEN_BRACE: Unit := 0x7B
  const CLOSE_BRACE: Unit := 0x7D
  const NULL_TEXT: Text := [0x6E, 0x75, 0x6C, 0x6C]

  // ----- strings

  predicate IsHigh(u: Unit) {
    0xD800 <= u < 0xDC00
  }

  predicate IsLow(u: Unit) {
    0xDC00 <= u < 0xE000
  }

  function HexDigit(n: int): Unit
    requires 0 <= n < 16
  {
    if n < 10 then 0x30 + n else 0x61 + (n - 10)
  }

  function HexEscape(u: Unit): Text {
    [BACKSLASH, 0x75, HexDigit(u / 0x1000), HexDigit(u / 0x100 % 16), HexDigit(u / 0x10 % 16), HexDigit(u % 16)]
  }

  /** The escape of a unit that may not stand for itself. */
  function EscapeUnit(u: Unit): Text {
    if u == QUOTE || u == BACKSLASH then [BACKSLASH, u]
    else if u == 8 then [BACKSLASH, 0x62]
    else if u == 9 then [BACKSLASH, 0x74]
    else if u == 10 then [BACKSLASH, 0x6E]
    else if u == 12 then [BACKSLASH, 0x66]
    else if u == 13 then [BACKSLASH, 0x72]
    else HexEscape(u)
  }

  predicate StandsForItself(u: Unit) {
    u >= 0x20 && u != QUOTE && u != BACKSLASH
  }

  function Escaped(s: Text): Text {
    if s == [] then []
    else if |s| >= 2 && IsHigh(s[0]) && IsLow(s[1]) then [s[0]] + ([s[1]] + Escaped(s[2..]))
    else if StandsForItself(s[0]) && !IsHigh(s[0]) && !IsLow(s[0]) then [s[0]] + Escaped(s[1..])
    else EscapeUnit(s[0]) + Escaped(s[1..])
  }

  function Quoted(s: Text): Text {
    [QUOTE] + Escaped(s) + [QUOTE]
  }

  // ----- the printer

  predicate KeyLess(a: Text, b: Text) {
    b != [] && (a == [] || a[0] < b[0] || (a[0] == b[0] && KeyLess(a[1..], b[1..])))
  }

  function Insert(f: Field, fs: seq<Field>): (r: seq<Field>)
    ensures multiset(r) == multiset{f} + multiset(fs)
  {
    if fs == [] then [f]
    else if KeyLess(fs[0].key, f.key) then
      assert fs == [fs[0]] + fs[1..];
      [fs[0]] + Insert(f, fs[1..])
    else [f] + fs
  }

  function Sorted(fs: seq<Field>): (r: seq<Field>)
    ensures multiset(r) == multiset(fs)
  {
    if fs == [] then []
    else
      assert fs == [fs[0]] + fs[1..];
      Insert(fs[0], Sorted(fs[1..]))
  }

  function Defined(fs: seq<Field>): (r: seq<Field>)
    ensures forall f :: f in r <==> f in fs && !f.value.Undefined?
  {
    if fs == [] then []
    else (if fs[0].value.Undefined? then [] else [fs[0]]) + Defined(fs[1..])
  }

  /** The fields that get printed, in printing order. */
  function Entries(fs: seq<Field>): (r: seq<Field>)
    ensures forall f :: f in r <==> f in fs && !f.value.Undefined?
  {
    var sorted := Sorted(fs);
    assert forall f :: f in fs <==> f in multiset(fs);
    assert forall f :: f in sorted <==> f in multiset(sorted);
    Defined(sorted)
  }

  function StableStringify(v: Json): Text
    decreases v, 1, 0
  {
    match v
    case Null => NULL_TEXT
    case Undefined => []
    case Bool(b) => if b then TRUE_TEXT else FALSE_TEXT
    case Num(lexeme) => lexeme
    case Str(s) => Quoted(s)
    case Arr(items) => [OPEN_BRACKET] + JoinItems(items) + [CLOSE_BRACKET]
    case Obj(fields) => [OPEN_BRACE] + JoinFields(v, Entries(fields)) + [CLOSE_BRACE]
  }

  function JoinItems(items: seq<Json>): Text
    decreases items, 1, 0
  {
    if items == [] then []
    else if |items| == 1 then StableStringify(items[0])
    else StableStringify(items[0]) + ([COMMA] + JoinItems(items[1..]))
  }

  function FieldText(v: Json, f: Field): Text
    requires v.Obj? && f in v.fields
    decreases v, 0, 0
  {
    Quoted(f.key) + ([COLON] + StableStringify(f.value))
  }

  function JoinFields(v: Json, fs: seq<Field>): Text
    requires v.Obj? && forall f :: f in fs ==> f in v.fields
    decreases v, 0, |fs|
  {
    if fs == [] then []
    else if |fs| == 1 then FieldText(v, fs[0])
    else FieldText(v, fs[0]) + ([COMMA] + JoinFields(v, fs[1..]))
  }

  // ----- the parser

  function HexValue(u: Unit): Option<int>
  {
    if 0x30 <= u <= 0x39 then Some(u - 0x30)
    else if 0x61 <= u <= 0x66 then Some(u - 0x61 + 10)
    else if 0x41 <= u <= 0x46 then Some(u - 0x41 + 10)
    else None
  }

  /** One unit of a string literal, escaped or not, and what follows it. */
  function ParseUnit(t: Text): (r: Option<(Unit, Text)>)
    ensures r.Some? ==> |r.value.1| < |t|
  {
    if t == [] then None
    else if StandsForItself(t[0]) then Some((t[0], t[1..]))
    else if t[0] != BACKSLASH || |t| < 2 then None
    else if t[1] == QUOTE || t[1] == BACKSLASH || t[1] == SLASH then Some((t[1], t[2..]))
    else if t[1] == 0x62 then Some((8, t[2..]))
    else if t[1] == 0x74 then Some((9, t[2..]))
    else if t[1] == 0x6E then Some((10, t[2..]))
    else if t[1] == 0x66 then Some((12, t[2..]))
    else if t[1] == 0x72 then Some((13, t[2..]))
    else if t[1] == 0x75 && |t| >= 6 then
      var u := HexUnit(t[2], t[3], t[4], t[5]);
      if u.Some? then Some((u.value, t[6..])) else None
    else None
  }

  function HexUnit(a: Unit, b: Unit, c: Unit, d: Unit): Option<Unit> {
    var a, b, c, d := HexValue(a), HexValue(b), HexValue(c), HexValue(d);
    if a.Some? && b.Some? && c.Some? && d.Some? then
      Some(a.value * 0x1000 + b.value * 0x100 + c.value * 0x10 + d.value)
    else None
  }

  /** The rest of a string literal after its opening quote. */
  function ParseString(t: Text): (r: Option<(Text, Text)>)
    ensures r.Some? ==> |r.value.1| < |t|
    decreases |t|
  {
    if t == [] then None
    else if t[0] == QUOTE then Some(([], t[1..]))
    else
      var first := ParseUnit(t);
      if first.None? then None
      else
        var rest := ParseString(first.value.1);
        if rest.None? then None
        else Some(([first.value.0] + rest.value.0, rest.value.1))
  }

  predicate IsNumeric(u: Unit) {
    0x30 <= u <= 0x39 || u == 0x2B || u == 0x2D || u == 0x2E || u == 0x45 || u == 0x65
  }

  /** The length of the leading run of number characters. */
  function NumericLength(t: Text): (n: nat)
    ensures n <= |t|
  {
    if t == [] || !IsNumeric(t[0]) then 0 else 1 + NumericLength(t[1..])
  }

  predicate StartsWith(t: Text, p: Text) {
    |p| <= |t| && t[..|p|] == p
  }

  type Parsed<T> = Option<(T, Text)>

  function ParseValue(t: Text): (r: Parsed<Json>)
    ensures r.Some? ==> |r.value.1| < |t|
    decreases |t|, 0
  {
    if t == [] then None
    else if StartsWith(t, NULL_TEXT) then Some((Null, t[4..]))
    else if StartsWith(t, TRUE_TEXT) then Some((Bool(true), t[4..]))
    else if StartsWith(t, FALSE_TEXT) then Some((Bool(false), t[5..]))
    else if t[0] == QUOTE then
      var s := ParseString(t[1..]);
      if s.None? then None else Some((Str(s.value.0), s.value.1))
    else if t[0] == OPEN_BRACKET then
      if |t| > 1 && t[1] == CLOSE_BRACKET then Some((Arr([]), t[2..]))
      else
        var items := ParseItems(t[1..]);
        if items.None? then None else Some((Arr(items.value.0), items.value.1))
    else if t[0] == OPEN_BRACE then
      if |t| > 1 && t[1] == CLOSE_BRACE then Some((Obj([]), t[2..]))
      else
        var fields := ParseFields(t[1..]);
        if fields.None? then None else Some((Obj(fields.value.0), fields.value.1))
    else
      var n := NumericLength(t);
      if n == 0 then None else Some((Num(t[..n]), t[n..]))
  }

  /** An array item; an empty one stands for `undefined`. */
  function ParseItem(t: Text): (r: Parsed<Json>)
    ensures r.Some? ==> |r.value.1| <= |t|
    decreases |t|, 1
  {
    if t != [] && (t[0] == COMMA || t[0] == CLOSE_BRACKET) then Some((Undefined, t)) else ParseValue(t)
  }

  function ParseItems(t: Text): (r: Parsed<seq<Json>>)
    ensures r.Some? ==> |r.value.1| < |t|
    decreases |t|, 2
  {
    var item := ParseItem(t);
    if item.None? || item.value.1 == [] then None
    else
      var rest := item.value.1;
      if rest[0] == CLOSE_BRACKET then Some(([item.value.0], rest[1..]))
      else if rest[0] == COMMA then
        var items := ParseItems(rest[1..]);
        if items.None? then None else Some(([item.value.0] + items.value.0, items.value.1))
      else None
  }

  function ParseField(t: Text): (r: Parsed<Field>)
    ensures r.Some? ==> |r.value.1| < |t|
    decreases |t|, 1
  {
    if t == [] || t[0] != QUOTE then None
    else
      var key := ParseString(t[1..]);
      if key.None? || key.value.1 == [] || key.value.1[0] != COLON then None
      else
        var value := ParseValue(key.value.1[1..]);
        if value.None? then None else Some((Field(key.value.0, value.value.0), value.value.1))
  }

  function ParseFields(t: Text): (r: Parsed<seq<Field>>)
    ensures r.Some? ==> |r.value.1| < |t|
    decreases |t|, 2
  {
    var field := ParseField(t);
    if field.None? || field.value.1 == [] then None
    else
      var rest := field.value.1;
      if rest[0] == CLOSE_BRACE then Some(([field.value.0], rest[1..]))
      else if rest[0] == COMMA then
        var fields := ParseFields(rest[1..]);
        if fields.None? then None else Some(([field.value.0] + fields.value.0, fields.value.1))
      else None
  }
}
