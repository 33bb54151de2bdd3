/**
  The canonical printer is uniquely decodable: parsing what it prints gives the value back up to
  the order of object keys, so two values print alike exactly when they are equal up to that order.
 */
module CanonicalJsonLaws {
  import opened Prelude
  import opened Utf16
  import opened CanonicalJson

  // ----- what is printable, and equality up to key order

  predicate DistinctKeys(fs: seq<Field>) {
    forall i, j :: 0 <= i < j < |fs| ==> fs[i].key != fs[j].key
  }

  predicate WellFormed(v: Json) {
    match v
    case Num(lexeme) => lexeme != [] && forall u :: u in lexeme ==> IsNumeric(u)
    case Arr(items) => forall i :: 0 <= i < |items| ==> WellFormed(items[i])
    case Obj(fields) => DistinctKeys(fields) && forall i :: 0 <= i < |fields| ==> WellFormed(fields[i].value)
    case _ => true
  }

  /** An array holding a single `undefined` prints as the empty array. */
  function Present(items: seq<Json>): seq<Json> {
    if items == [Undefined] then [] else items
  }

  predicate HasEntry(fs: seq<Field>, key: Text) {
    exists i :: 0 <= i < |fs| && fs[i].key == key && !fs[i].value.Undefined?
  }

  predicate BothDefined(f: Field, g: Field) {
    f.key == g.key && !f.value.Undefined? && !g.value.Undefined?
  }

  /** Equality up to key order; a field whose value is `undefined` is as good as absent. */
  ghost predicate Same(v: Json, w: Json)
    decreases v
  {
    match v
    case Arr(items) =>
      && w.Arr?
      && |Present(items)| == |Present(w.items)|
      && forall i :: 0 <= i < |Present(items)| ==>
           (assert Present(items)[i] == items[i]; Same(items[i], Present(w.items)[i]))
    case Obj(fields) =>
      && w.Obj?
      && (forall key :: HasEntry(fields, key) <==> HasEntry(w.fields, key))
      && (forall i, j | 0 <= i < |fields| && 0 <= j < |w.fields| && BothDefined(fields[i], w.fields[j]) ::
            Same(fields[i].value, w.fields[j].value))
    case _ => v == w
  }

  /** The value with its object fields in printing order. */
  function Canon(v: Json): Json
    decreases v, 1, 0
  {
    match v
    case Arr(items) => Arr(if items == [Undefined] then [] else CanonItems(items))
    case Obj(fields) => Obj(CanonFields(v, Entries(fields)))
    case _ => v
  }

  function CanonItems(items: seq<Json>): (r: seq<Json>)
    ensures |r| == |items|
    ensures forall i :: 0 <= i < |items| ==> r[i] == Canon(items[i])
    decreases items, 1, 0
  {
    if items == [] then [] else [Canon(items[0])] + CanonItems(items[1..])
  }

  function CanonField(v: Json, f: Field): Field
    requires v.Obj? && f in v.fields
    decreases v, 0, 0
  {
    Field(f.key, Canon(f.value))
  }

  function CanonFields(v: Json, fs: seq<Field>): (r: seq<Field>)
    requires v.Obj? && forall f :: f in fs ==> f in v.fields
    ensures |r| == |fs|
    ensures forall i :: 0 <= i < |fs| ==> r[i] == CanonField(v, fs[i])
    decreases v, 0, |fs|
  {
    if fs == [] then [] else [CanonField(v, fs[0])] + CanonFields(v, fs[1..])
  }

  // ----- strings

  lemma HexDigitReads(n: int)
    requires 0 <= n < 16
    ensures HexValue(HexDigit(n)) == Some(n)
  {
  }

  lemma HexDigitsSum(u: Unit)
    ensures u == u / 0x1000 * 0x1000 + u / 0x100 % 16 * 0x100 + u / 0x10 % 16 * 0x10 + u % 16
    ensures 0 <= u / 0x1000 < 16
  {
    assert u / 0x100 == u / 0x1000 * 16 + u / 0x100 % 16;
    assert u / 0x10 == u / 0x100 * 16 + u / 0x10 % 16;
  }

  lemma HexEscapeParses(u: Unit, t: Text)
    ensures ParseUnit(HexEscape(u) + t) == Some((u, t))
  {
    HexDigitsSum(u);
    HexDigitReads(u / 0x1000);
    HexDigitReads(u / 0x100 % 16);
    HexDigitReads(u / 0x10 % 16);
    HexDigitReads(u % 16);
    hide HexDigit, HexValue;
    var e := HexEscape(u) + t;
    assert e[0] == BACKSLASH && e[1] == 0x75 && e[6..] == t;
  }

  lemma EscapeParses(u: Unit, t: Text)
    requires !StandsForItself(u) || IsHigh(u) || IsLow(u)
    ensures ParseUnit(EscapeUnit(u) + t) == Some((u, t))
    ensures EscapeUnit(u)[0] == BACKSLASH
  {
    if |EscapeUnit(u)| == 2 {
      assert (EscapeUnit(u) + t)[2..] == t;
    } else {
      HexEscapeParses(u, t);
    }
  }

  lemma Associate(a: Text, b: Text, c: Text)
    ensures a + b + c == a + (b + c)
  {
  }

  lemma UnitThenString(first: Text, u: Unit, t: Text, s: Text, rest: Text)
    requires first != [] && first[0] != QUOTE && ParseUnit(first + t) == Some((u, t))
    requires ParseString(t) == Some((s, rest))
    ensures ParseString(first + t) == Some(([u] + s, rest))
  {
  }

  lemma RawParses(u: Unit, t: Text)
    requires StandsForItself(u)
    ensures ParseUnit([u] + t) == Some((u, t))
  {
    assert ([u] + t)[1..] == t;
  }

  /** Reading a quoted string gives the string back, whatever follows it. */
  lemma {:induction false} StringRoundTrip(s: Text, rest: Text)
    ensures ParseString(Escaped(s) + ([QUOTE] + rest)) == Some((s, rest))
    decreases |s|
  {
    hide *;
    var end := [QUOTE] + rest;
    if s == [] {
      EmptyRoundTrip(rest);
    } else if |s| >= 2 && IsHigh(s[0]) && IsLow(s[1]) {
      StringRoundTrip(s[2..], rest);
      PairStaysRaw(s);
      PairRoundTrip(s[0], s[1], Escaped(s[2..]), end, s[2..], rest);
      assert [s[0], s[1]] + s[2..] == s;
    } else {
      StringRoundTrip(s[1..], rest);
      var first := FirstEscape(s, Escaped(s[1..]) + end);
      UnitThenString(first, s[0], Escaped(s[1..]) + end, s[1..], rest);
      Associate(first, Escaped(s[1..]), end);
      assert [s[0]] + s[1..] == s;
    }
  }

  lemma EmptyRoundTrip(rest: Text)
    ensures ParseString(Escaped([]) + ([QUOTE] + rest)) == Some(([], rest))
  {
    assert Escaped([]) + ([QUOTE] + rest) == [QUOTE] + rest;
    assert ([QUOTE] + rest)[1..] == rest;
  }

  lemma PairStaysRaw(s: Text)
    requires |s| >= 2 && IsHigh(s[0]) && IsLow(s[1])
    ensures Escaped(s) == [s[0], s[1]] + Escaped(s[2..])
  {
  }

  /** A surrogate pair stands for itself. */
  lemma PairRoundTrip(high: Unit, low: Unit, escaped: Text, end: Text, s: Text, rest: Text)
    requires IsHigh(high) && IsLow(low) && ParseString(escaped + end) == Some((s, rest))
    ensures ParseString([high, low] + escaped + end) == Some(([high, low] + s, rest))
  {
    var tail := escaped + end;
    RawParses(low, tail);
    UnitThenString([low], low, tail, s, rest);
    RawParses(high, [low] + tail);
    UnitThenString([high], high, [low] + tail, [low] + s, rest);
    hide *;
    assert [high] + ([low] + tail) == [high, low] + escaped + end;
    assert [high] + ([low] + s) == [high, low] + s;
  }

  lemma FirstEscape(s: Text, tail: Text) returns (first: Text)
    requires s != [] && !(|s| >= 2 && IsHigh(s[0]) && IsLow(s[1]))
    ensures Escaped(s) == first + Escaped(s[1..])
    ensures first != [] && first[0] != QUOTE && ParseUnit(first + tail) == Some((s[0], tail))
  {
    if StandsForItself(s[0]) && !IsHigh(s[0]) && !IsLow(s[0]) {
      RawParses(s[0], tail);
      first := [s[0]];
    } else {
      EscapeParses(s[0], tail);
      first := EscapeUnit(s[0]);
    }
  }

  // ----- values

  /** What may follow a printed value: the end, or a separator. */
  predicate Follows(rest: Text) {
    rest == [] || rest[0] == COMMA || rest[0] == CLOSE_BRACKET || rest[0] == CLOSE_BRACE
  }

  lemma NotLiteral(t: Text)
    requires t != [] && t[0] != NULL_TEXT[0] && t[0] != TRUE_TEXT[0] && t[0] != FALSE_TEXT[0]
    ensures !StartsWith(t, NULL_TEXT) && !StartsWith(t, TRUE_TEXT) && !StartsWith(t, FALSE_TEXT)
  {
  }

  lemma LiteralParses(v: Json, rest: Text)
    requires v.Null? || v.Bool?
    ensures ParseValue(StableStringify(v) + rest) == Some((v, rest))
  {
    var p := StableStringify(v);
    var t := p + rest;
    assert t[..|p|] == p && t[|p|..] == rest;
    assert t[0] == p[0];
  }

  lemma {:induction false} NumericRun(lexeme: Text, rest: Text)
    requires (forall u :: u in lexeme ==> IsNumeric(u)) && (rest == [] || !IsNumeric(rest[0]))
    ensures NumericLength(lexeme + rest) == |lexeme|
  {
    if lexeme == [] {
      assert lexeme + rest == rest;
    } else {
      NumericRun(lexeme[1..], rest);
      assert (lexeme + rest)[1..] == lexeme[1..] + rest;
      assert lexeme[0] in lexeme;
    }
  }

  lemma NumberParses(v: Json, rest: Text)
    requires v.Num? && WellFormed(v) && Follows(rest)
    ensures ParseValue(StableStringify(v) + rest) == Some((v, rest))
  {
    var t := v.lexeme + rest;
    NumericRun(v.lexeme, rest);
    assert v.lexeme[0] in v.lexeme && t[0] == v.lexeme[0];
    NotLiteral(t);
    assert t[..|v.lexeme|] == v.lexeme && t[|v.lexeme|..] == rest;
  }

  lemma StringParses(v: Json, rest: Text)
    requires v.Str?
    ensures ParseValue(StableStringify(v) + rest) == Some((v, rest))
  {
    StringRoundTrip(v.text, rest);
    var t := Quoted(v.text) + rest;
    assert t == [QUOTE] + (Escaped(v.text) + ([QUOTE] + rest));
    NotLiteral(t);
  }

  /** A printed value starts with no separator. */
  lemma FirstUnit(v: Json)
    requires WellFormed(v) && !v.Undefined?
    ensures StableStringify(v) != []
    ensures StableStringify(v)[0] != COMMA && StableStringify(v)[0] != CLOSE_BRACKET
  {
    if v.Num? {
      assert v.lexeme[0] in v.lexeme;
    }
  }

  lemma PrintParses(v: Json, rest: Text)
    requires WellFormed(v) && !v.Undefined? && Follows(rest)
    ensures ParseValue(StableStringify(v) + rest) == Some((Canon(v), rest))
    decreases v, 1, 1
  {
    match v {
      case Null => LiteralParses(v, rest);
      case Bool(_) => LiteralParses(v, rest);
      case Num(_) => NumberParses(v, rest);
      case Str(_) => StringParses(v, rest);
      case Arr(items) =>
        if items == [] || items == [Undefined] {
          EmptyItems(items);
          EmptyParses(v, rest);
        } else {
          ItemsParse(items, rest);
          assert |items| == 1 ==> items == [items[0]];
          ItemsStart(items);
          ArrayParses(JoinItems(items), CanonItems(items), rest);
          Wrapped(OPEN_BRACKET, JoinItems(items), CLOSE_BRACKET, rest);
        }
      case Obj(fields) =>
        if Entries(fields) == [] {
          EmptyParses(v, rest);
        } else {
          ObjectPrintParses(v, rest);
        }
    }
  }

  lemma ObjectPrintParses(v: Json, rest: Text)
    requires WellFormed(v) && v.Obj? && Entries(v.fields) != []
    ensures ParseValue(StableStringify(v) + rest) == Some((Canon(v), rest))
    decreases v, 1, 0
  {
    var fs := Entries(v.fields);
    FieldsParse(v, fs, rest);
    ObjectParses(JoinFields(v, fs), CanonFields(v, fs), rest);
    Wrapped(OPEN_BRACE, JoinFields(v, fs), CLOSE_BRACE, rest);
  }

  lemma Wrapped(open: Unit, inner: Text, close: Unit, rest: Text)
    ensures [open] + inner + [close] + rest == [open] + (inner + ([close] + rest))
  {
  }

  lemma EmptyItems(items: seq<Json>)
    requires items == [] || items == [Undefined]
    ensures JoinItems(items) == []
  {
    if items != [] {
      JoinItemsStep(items);
    }
  }

  lemma EmptyParses(v: Json, rest: Text)
    requires v.Arr? || v.Obj?
    requires StableStringify(v) == if v.Arr? then [OPEN_BRACKET, CLOSE_BRACKET] else [OPEN_BRACE, CLOSE_BRACE]
    ensures ParseValue(StableStringify(v) + rest) == Some((if v.Arr? then Arr([]) else Obj([]), rest))
  {
    var t := StableStringify(v) + rest;
    NotLiteral(t);
    assert t[2..] == rest;
  }

  lemma ArrayParses(inner: Text, items: seq<Json>, rest: Text)
    requires inner != [] && inner[0] != CLOSE_BRACKET
    requires ParseItems(inner + ([CLOSE_BRACKET] + rest)) == Some((items, rest))
    ensures ParseValue([OPEN_BRACKET] + (inner + ([CLOSE_BRACKET] + rest))) == Some((Arr(items), rest))
  {
    var t := [OPEN_BRACKET] + (inner + ([CLOSE_BRACKET] + rest));
    NotLiteral(t);
    assert t[1..] == inner + ([CLOSE_BRACKET] + rest);
    assert t[1] == inner[0];
  }

  lemma ObjectParses(inner: Text, fields: seq<Field>, rest: Text)
    requires inner != [] && inner[0] == QUOTE
    requires ParseFields(inner + ([CLOSE_BRACE] + rest)) == Some((fields, rest))
    ensures ParseValue([OPEN_BRACE] + (inner + ([CLOSE_BRACE] + rest))) == Some((Obj(fields), rest))
  {
    var t := [OPEN_BRACE] + (inner + ([CLOSE_BRACE] + rest));
    NotLiteral(t);
    assert t[1..] == inner + ([CLOSE_BRACE] + rest);
    assert t[1] == inner[0];
  }

  lemma ItemParses(v: Json, rest: Text)
    requires WellFormed(v) && rest != [] && (rest[0] == COMMA || rest[0] == CLOSE_BRACKET)
    ensures ParseItem(StableStringify(v) + rest) == Some((Canon(v), rest))
    decreases v, 2, 0
  {
    var t := StableStringify(v) + rest;
    if v.Undefined? {
      assert t == rest;
    } else {
      PrintParses(v, rest);
      FirstUnit(v);
      assert t[0] == StableStringify(v)[0];
    }
  }

  /** How the item parser goes on after one item. */
  lemma ItemThenItems(first: Text, item: Json, tail: Text, items: seq<Json>, rest: Text)
    requires ParseItem(first + ([COMMA] + tail)) == Some((item, [COMMA] + tail))
    requires ParseItems(tail) == Some((items, rest))
    ensures ParseItems(first + ([COMMA] + tail)) == Some(([item] + items, rest))
  {
    assert ([COMMA] + tail)[1..] == tail;
  }

  lemma ItemThenEnd(first: Text, item: Json, rest: Text)
    requires ParseItem(first + ([CLOSE_BRACKET] + rest)) == Some((item, [CLOSE_BRACKET] + rest))
    ensures ParseItems(first + ([CLOSE_BRACKET] + rest)) == Some(([item], rest))
  {
    assert ([CLOSE_BRACKET] + rest)[1..] == rest;
  }

  lemma JoinItemsStep(items: seq<Json>)
    requires items != []
    ensures JoinItems(items)
         == if |items| == 1 then StableStringify(items[0])
            else StableStringify(items[0]) + ([COMMA] + JoinItems(items[1..]))
  {
  }

  lemma ItemsStart(items: seq<Json>)
    requires items != [] && WellFormed(items[0]) && (items[0].Undefined? ==> |items| > 1)
    ensures JoinItems(items) != [] && JoinItems(items)[0] != CLOSE_BRACKET
  {
    JoinItemsStep(items);
    if !items[0].Undefined? {
      FirstUnit(items[0]);
      if |items| > 1 {
        FirstOfConcat(StableStringify(items[0]), [COMMA] + JoinItems(items[1..]));
      }
    } else {
      FirstOfUndefined(items[0], JoinItems(items[1..]));
    }
  }

  lemma FirstOfConcat(a: Text, b: Text)
    requires a != []
    ensures (a + b)[0] == a[0]
  {
  }

  lemma FirstOfUndefined(v: Json, tail: Text)
    requires v.Undefined?
    ensures StableStringify(v) + ([COMMA] + tail) != [] && (StableStringify(v) + ([COMMA] + tail))[0] == COMMA
  {
  }

  lemma ItemsParse(items: seq<Json>, rest: Text)
    requires items != [] && forall i :: 0 <= i < |items| ==> WellFormed(items[i])
    ensures ParseItems(JoinItems(items) + ([CLOSE_BRACKET] + rest)) == Some((CanonItems(items), rest))
    decreases items, 1, 0
  {
    var end := [CLOSE_BRACKET] + rest;
    var first := StableStringify(items[0]);
    JoinItemsStep(items);
    if |items| == 1 {
      ItemParses(items[0], end);
      ItemThenEnd(first, Canon(items[0]), rest);
      assert CanonItems(items) == [Canon(items[0])];
    } else {
      ItemsParse(items[1..], rest);
      var tail := JoinItems(items[1..]) + end;
      ItemParses(items[0], [COMMA] + tail);
      ItemThenItems(first, Canon(items[0]), tail, CanonItems(items[1..]), rest);
      Associate(first, [COMMA] + JoinItems(items[1..]), end);
      Associate([COMMA], JoinItems(items[1..]), end);
    }
  }

  lemma PartsParse(key: Text, value: Text, v: Json, rest: Text)
    requires ParseValue(value) == Some((v, rest))
    ensures ParseField([QUOTE] + (Escaped(key) + ([QUOTE] + ([COLON] + value)))) == Some((Field(key, v), rest))
  {
    StringRoundTrip(key, [COLON] + value);
    var inner := Escaped(key) + ([QUOTE] + ([COLON] + value));
    assert ([QUOTE] + inner)[1..] == inner;
    assert ([COLON] + value)[1..] == value;
  }

  lemma FieldParses(v: Json, f: Field, rest: Text)
    requires v.Obj? && f in v.fields && WellFormed(f.value) && !f.value.Undefined? && Follows(rest)
    ensures ParseField(FieldText(v, f) + rest) == Some((CanonField(v, f), rest))
    ensures FieldText(v, f)[0] == QUOTE
    decreases v, 0, 0
  {
    PrintParses(f.value, rest);
    FieldConcat(f.key, StableStringify(f.value), rest);
    PartsParse(f.key, StableStringify(f.value) + rest, Canon(f.value), rest);
  }

  lemma FieldConcat(key: Text, value: Text, rest: Text)
    ensures Quoted(key) + ([COLON] + value) + rest
         == [QUOTE] + (Escaped(key) + ([QUOTE] + ([COLON] + (value + rest))))
  {
  }

  lemma FieldThenFields(first: Text, field: Field, tail: Text, fields: seq<Field>, rest: Text)
    requires ParseField(first + ([COMMA] + tail)) == Some((field, [COMMA] + tail))
    requires ParseFields(tail) == Some((fields, rest))
    ensures ParseFields(first + ([COMMA] + tail)) == Some(([field] + fields, rest))
  {
    assert ([COMMA] + tail)[1..] == tail;
  }

  lemma FieldThenEnd(first: Text, field: Field, rest: Text)
    requires ParseField(first + ([CLOSE_BRACE] + rest)) == Some((field, [CLOSE_BRACE] + rest))
    ensures ParseFields(first + ([CLOSE_BRACE] + rest)) == Some(([field], rest))
  {
    assert ([CLOSE_BRACE] + rest)[1..] == rest;
  }

  lemma FieldsParse(v: Json, fs: seq<Field>, rest: Text)
    requires v.Obj? && fs != []
    requires forall f :: f in fs ==> f in v.fields && WellFormed(f.value) && !f.value.Undefined?
    ensures ParseFields(JoinFields(v, fs) + ([CLOSE_BRACE] + rest)) == Some((CanonFields(v, fs), rest))
    ensures JoinFields(v, fs) != [] && JoinFields(v, fs)[0] == QUOTE
    decreases v, 0, |fs|
  {
    hide ParseFields, ParseField, FieldText;
    var end := [CLOSE_BRACE] + rest;
    var first := FieldText(v, fs[0]);
    if |fs| == 1 {
      FieldParses(v, fs[0], end);
      FieldThenEnd(first, CanonField(v, fs[0]), rest);
      assert CanonFields(v, fs) == [CanonField(v, fs[0])];
    } else {
      FieldsParse(v, fs[1..], rest);
      var tail := JoinFields(v, fs[1..]) + end;
      FieldParses(v, fs[0], [COMMA] + tail);
      FieldThenFields(first, CanonField(v, fs[0]), tail, CanonFields(v, fs[1..]), rest);
      assert JoinFields(v, fs) == first + ([COMMA] + JoinFields(v, fs[1..]));
      Associate(first, [COMMA] + JoinFields(v, fs[1..]), end);
      Associate([COMMA], JoinFields(v, fs[1..]), end);
    }
  }

  // ----- what the text determines

  /** Printing without sorting: what `StableStringify` does to an already canonical value. */
  function Plain(c: Json): Text
    decreases c, 0
  {
    match c
    case Arr(items) => [OPEN_BRACKET] + PlainItems(items) + [CLOSE_BRACKET]
    case Obj(fields) => [OPEN_BRACE] + PlainFields(fields) + [CLOSE_BRACE]
    case _ => StableStringify(c)
  }

  function PlainItems(items: seq<Json>): Text
    decreases items, 1
  {
    if items == [] then []
    else if |items| == 1 then Plain(items[0])
    else Plain(items[0]) + ([COMMA] + PlainItems(items[1..]))
  }

  function PlainField(f: Field): Text
    decreases f, 1
  {
    Quoted(f.key) + ([COLON] + Plain(f.value))
  }

  function PlainFields(fs: seq<Field>): Text
    decreases fs, 2
  {
    if fs == [] then []
    else if |fs| == 1 then PlainField(fs[0])
    else PlainField(fs[0]) + ([COMMA] + PlainFields(fs[1..]))
  }

  /** The printed text depends on the canonical form only. */
  lemma PrintIsPlain(v: Json)
    ensures StableStringify(v) == Plain(Canon(v))
    decreases v, 1, 0
  {
    match v {
      case Arr(items) =>
        if items == [Undefined] {
          EmptyItems(items);
        } else {
          ItemsArePlain(items);
        }
      case Obj(fields) => FieldsArePlain(v, Entries(fields));
      case _ =>
    }
  }

  lemma ItemsArePlain(items: seq<Json>)
    ensures JoinItems(items) == PlainItems(CanonItems(items))
    decreases items, 1, 0
  {
    if items != [] {
      JoinItemsStep(items);
      PrintIsPlain(items[0]);
      ItemsArePlain(items[1..]);
      assert CanonItems(items)[1..] == CanonItems(items[1..]);
    }
  }

  lemma FieldsArePlain(v: Json, fs: seq<Field>)
    requires v.Obj? && forall f :: f in fs ==> f in v.fields
    ensures JoinFields(v, fs) == PlainFields(CanonFields(v, fs))
    decreases v, 0, |fs|
  {
    if fs != [] {
      FieldIsPlain(v, fs[0]);
      FieldsArePlain(v, fs[1..]);
      assert CanonFields(v, fs)[1..] == CanonFields(v, fs[1..]);
    }
  }

  lemma FieldIsPlain(v: Json, f: Field)
    requires v.Obj? && f in v.fields
    ensures FieldText(v, f) == PlainField(CanonField(v, f))
    decreases v, 0, 0
  {
    PrintIsPlain(f.value);
  }

  // ----- printing order

  lemma {:induction false} KeyLessTransitive(a: Text, b: Text, c: Text)
    requires KeyLess(a, b) && KeyLess(b, c)
    ensures KeyLess(a, c)
  {
    if a != [] && a[0] == b[0] == c[0] {
      KeyLessTransitive(a[1..], b[1..], c[1..]);
    }
  }

  lemma {:induction false} KeyLessTotal(a: Text, b: Text)
    ensures KeyLess(a, b) || KeyLess(b, a) || a == b
    ensures !(KeyLess(a, b) && KeyLess(b, a)) && !KeyLess(a, a)
  {
    if a != [] && b != [] {
      KeyLessTotal(a[1..], b[1..]);
      assert a == [a[0]] + a[1..] && b == [b[0]] + b[1..];
    }
    if a != [] {
      KeyLessTotal(a[1..], a[1..]);
    }
  }

  ghost predicate StrictlySorted(fs: seq<Field>) {
    forall i, j :: 0 <= i < j < |fs| ==> KeyLess(fs[i].key, fs[j].key)
  }

  ghost predicate HasKey(fs: seq<Field>, key: Text) {
    exists f :: f in fs && f.key == key
  }

  lemma {:induction false} InsertHolds(f: Field, fs: seq<Field>)
    ensures forall g :: g in Insert(f, fs) <==> g == f || g in fs
  {
    if fs != [] && KeyLess(fs[0].key, f.key) {
      InsertHolds(f, fs[1..]);
      assert fs == [fs[0]] + fs[1..];
    }
  }

  lemma PrependKeepsSorted(f: Field, fs: seq<Field>)
    requires StrictlySorted(fs) && forall g :: g in fs ==> KeyLess(f.key, g.key)
    ensures StrictlySorted([f] + fs)
  {
    hide KeyLess;
  }

  lemma {:induction false} InsertKeepsSorted(f: Field, fs: seq<Field>)
    requires StrictlySorted(fs) && forall g :: g in fs ==> g.key != f.key
    ensures StrictlySorted(Insert(f, fs))
    ensures forall g :: g in Insert(f, fs) <==> g == f || g in fs
  {
    InsertHolds(f, fs);
    if fs != [] {
      KeyLessTotal(fs[0].key, f.key);
      if KeyLess(fs[0].key, f.key) {
        InsertKeepsSorted(f, fs[1..]);
        hide KeyLess;
        forall g | g in Insert(f, fs[1..])
          ensures KeyLess(fs[0].key, g.key)
        {
          if g != f {
            var i :| 0 <= i < |fs| - 1 && fs[1..][i] == g;
            assert fs[i + 1] == g;
          }
        }
        PrependKeepsSorted(fs[0], Insert(f, fs[1..]));
      } else {
        hide KeyLess;
        forall g | g in fs
          ensures KeyLess(f.key, g.key)
        {
          if g != fs[0] {
            KeyLessTransitive(f.key, fs[0].key, g.key);
          }
        }
        PrependKeepsSorted(f, fs);
      }
    }
  }

  lemma {:induction false} SortedIsSorted(fs: seq<Field>)
    requires DistinctKeys(fs)
    ensures StrictlySorted(Sorted(fs))
    ensures forall f :: f in Sorted(fs) <==> f in fs
  {
    if fs != [] {
      SortedIsSorted(fs[1..]);
      assert fs == [fs[0]] + fs[1..];
      InsertKeepsSorted(fs[0], Sorted(fs[1..]));
    }
  }

  lemma {:induction false} DefinedKeepsSorted(fs: seq<Field>)
    requires StrictlySorted(fs)
    ensures StrictlySorted(Defined(fs))
  {
    if fs != [] {
      DefinedKeepsSorted(fs[1..]);
      forall f | f in Defined(fs[1..])
        ensures KeyLess(fs[0].key, f.key)
      {
        var i :| 0 <= i < |fs[1..]| && fs[1..][i] == f;
        assert fs[i + 1] == f;
      }
    }
  }

  lemma EntriesAreSorted(fs: seq<Field>)
    requires DistinctKeys(fs)
    ensures StrictlySorted(Entries(fs))
    ensures forall key :: HasEntry(fs, key) <==> HasKey(Entries(fs), key)
  {
    SortedIsSorted(fs);
    DefinedKeepsSorted(Sorted(fs));
    forall key
      ensures HasEntry(fs, key) <==> HasKey(Entries(fs), key)
    {
      if HasEntry(fs, key) {
        var i :| 0 <= i < |fs| && fs[i].key == key && !fs[i].value.Undefined?;
        assert fs[i] in Entries(fs);
      }
      if HasKey(Entries(fs), key) {
        var f :| f in Entries(fs) && f.key == key;
        assert f in fs;
      }
    }
  }

  /** Two sorted field lists with the same keys have them in the same places. */
  lemma {:induction false} SameKeysSamePlaces(fs: seq<Field>, gs: seq<Field>)
    requires StrictlySorted(fs) && StrictlySorted(gs)
    requires forall key :: HasKey(fs, key) <==> HasKey(gs, key)
    ensures |fs| == |gs| && forall i :: 0 <= i < |fs| ==> fs[i].key == gs[i].key
  {
    if fs == [] || gs == [] {
      assert fs != [] ==> HasKey(fs, fs[0].key);
      assert gs != [] ==> HasKey(gs, gs[0].key);
    } else {
      FirstKeysAgree(fs, gs);
      forall key
        ensures HasKey(fs[1..], key) <==> HasKey(gs[1..], key)
      {
        RestKeys(fs, key);
        RestKeys(gs, key);
      }
      SameKeysSamePlaces(fs[1..], gs[1..]);
      forall i | 0 <= i < |fs|
        ensures fs[i].key == gs[i].key
      {
        if i > 0 {
          assert fs[1..][i - 1].key == gs[1..][i - 1].key;
        }
      }
    }
  }

  lemma RestKeys(fs: seq<Field>, key: Text)
    requires StrictlySorted(fs) && fs != []
    ensures HasKey(fs[1..], key) <==> HasKey(fs, key) && key != fs[0].key
  {
    assert fs == [fs[0]] + fs[1..];
    forall f | f in fs[1..]
      ensures f.key != fs[0].key
    {
      var i :| 0 <= i < |fs[1..]| && fs[1..][i] == f;
      assert KeyLess(fs[0].key, fs[i + 1].key);
      KeyLessTotal(fs[0].key, f.key);
    }
  }

  lemma FirstKeysAgree(fs: seq<Field>, gs: seq<Field>)
    requires StrictlySorted(fs) && StrictlySorted(gs) && fs != [] && gs != []
    requires forall key :: HasKey(fs, key) <==> HasKey(gs, key)
    ensures fs[0].key == gs[0].key
  {
    assert HasKey(fs, fs[0].key) && HasKey(gs, gs[0].key);
    FirstIsLeast(fs, gs[0].key);
    FirstIsLeast(gs, fs[0].key);
    KeyLessTotal(fs[0].key, gs[0].key);
  }

  lemma FirstIsLeast(fs: seq<Field>, key: Text)
    requires StrictlySorted(fs) && HasKey(fs, key)
    ensures fs != [] && (fs[0].key == key || KeyLess(fs[0].key, key))
  {
    var f :| f in fs && f.key == key;
    var i :| 0 <= i < |fs| && fs[i] == f;
  }

  // ----- the main equivalence

  /** Being equal up to key order is having the same canonical form. */
  lemma SameIsSameCanon(v: Json, w: Json)
    requires WellFormed(v) && WellFormed(w)
    ensures Same(v, w) <==> Canon(v) == Canon(w)
    decreases v
  {
    if v.Arr? && w.Arr? {
      ArraysAgree(v, w);
    } else if v.Obj? && w.Obj? {
      if Same(v, w) {
        SameObjectsAgree(v, w);
      }
      if Canon(v) == Canon(w) {
        CanonObjectsAgree(v, w);
      }
    }
  }

  lemma ArraysAgree(v: Json, w: Json)
    requires v.Arr? && w.Arr? && WellFormed(v) && WellFormed(w)
    ensures Same(v, w) <==> Canon(v) == Canon(w)
    decreases v, 0
  {
    var a, b := Present(v.items), Present(w.items);
    forall i | 0 <= i < |a| && i < |b|
      ensures Same(a[i], b[i]) <==> Canon(a[i]) == Canon(b[i])
    {
      assert a[i] == v.items[i] && b[i] == w.items[i];
      SameIsSameCanon(v.items[i], w.items[i]);
    }
    assert Canon(v) == Arr(CanonItems(a)) && Canon(w) == Arr(CanonItems(b));
    if Canon(v) == Canon(w) {
      assert CanonItems(a) == CanonItems(b);
      forall i | 0 <= i < |a|
        ensures Same(v.items[i], b[i])
      {
        assert CanonItems(a)[i] == CanonItems(b)[i];
        assert a[i] == v.items[i];
      }
    }
  }

  lemma SameObjectsAgree(v: Json, w: Json)
    requires v.Obj? && w.Obj? && WellFormed(v) && WellFormed(w) && Same(v, w)
    ensures Canon(v) == Canon(w)
    decreases v, 0
  {
    var fs, gs := Entries(v.fields), Entries(w.fields);
    EntriesAreSorted(v.fields);
    EntriesAreSorted(w.fields);
    SameKeysSamePlaces(fs, gs);
    forall k | 0 <= k < |fs|
      ensures CanonField(v, fs[k]) == CanonField(w, gs[k])
    {
      assert fs[k] in v.fields && gs[k] in w.fields;
      var i :| 0 <= i < |v.fields| && v.fields[i] == fs[k];
      var j :| 0 <= j < |w.fields| && w.fields[j] == gs[k];
      assert BothDefined(v.fields[i], w.fields[j]);
      SameIsSameCanon(v.fields[i].value, w.fields[j].value);
    }
    assert CanonFields(v, fs) == CanonFields(w, gs);
  }

  lemma CanonObjectsAgree(v: Json, w: Json)
    requires v.Obj? && w.Obj? && WellFormed(v) && WellFormed(w) && Canon(v) == Canon(w)
    ensures Same(v, w)
    decreases v, 0
  {
    var fs, gs := Entries(v.fields), Entries(w.fields);
    EntriesAreSorted(v.fields);
    EntriesAreSorted(w.fields);
    CanonPlaces(v, fs, w, gs);
    forall key
      ensures HasKey(fs, key) <==> HasKey(gs, key)
    {
      PlacesGiveKeys(fs, gs, key);
      PlacesGiveKeys(gs, fs, key);
    }
    forall i, j | 0 <= i < |v.fields| && 0 <= j < |w.fields| && BothDefined(v.fields[i], w.fields[j])
      ensures Same(v.fields[i].value, w.fields[j].value)
    {
      var k := CommonPlace(fs, gs, v.fields[i], w.fields[j]);
      SameIsSameCanon(v.fields[i].value, w.fields[j].value);
    }
  }

  lemma CanonPlaces(v: Json, fs: seq<Field>, w: Json, gs: seq<Field>)
    requires v.Obj? && (forall f :: f in fs ==> f in v.fields)
    requires w.Obj? && (forall g :: g in gs ==> g in w.fields)
    requires CanonFields(v, fs) == CanonFields(w, gs)
    ensures |fs| == |gs|
    ensures forall k :: 0 <= k < |fs| ==> fs[k].key == gs[k].key && Canon(fs[k].value) == Canon(gs[k].value)
  {
    forall k | 0 <= k < |fs|
      ensures fs[k].key == gs[k].key && Canon(fs[k].value) == Canon(gs[k].value)
    {
      assert CanonFields(v, fs)[k] == CanonFields(w, gs)[k];
    }
  }

  lemma CommonPlace(fs: seq<Field>, gs: seq<Field>, f: Field, g: Field) returns (k: nat)
    requires StrictlySorted(fs) && |fs| == |gs| && forall k :: 0 <= k < |fs| ==> fs[k].key == gs[k].key
    requires f in fs && g in gs && f.key == g.key
    ensures k < |fs| && fs[k] == f && gs[k] == g
  {
    k :| 0 <= k < |fs| && fs[k] == f;
    var l :| 0 <= l < |gs| && gs[l] == g;
    KeyLessTotal(f.key, f.key);
    assert fs[l].key == f.key;
  }

  lemma PlacesGiveKeys(fs: seq<Field>, gs: seq<Field>, key: Text)
    requires |fs| == |gs| && forall k :: 0 <= k < |fs| ==> fs[k].key == gs[k].key
    ensures HasKey(fs, key) ==> HasKey(gs, key)
  {
    if HasKey(fs, key) {
      var f :| f in fs && f.key == key;
      var k :| 0 <= k < |fs| && fs[k] == f;
      assert gs[k] in gs;
    }
  }

  /** Parsing what the printer printed gives the canonical form back, with nothing left over. */
  lemma RoundTrip(v: Json)
    requires WellFormed(v) && !v.Undefined?
    ensures ParseValue(StableStringify(v)) == Some((Canon(v), []))
  {
    PrintParses(v, []);
    assert StableStringify(v) + [] == StableStringify(v);
  }

  /** Two values print alike exactly when they are equal up to key order. */
  lemma PrintsAlikeIffSame(v: Json, w: Json)
    requires WellFormed(v) && WellFormed(w) && !v.Undefined? && !w.Undefined?
    ensures StableStringify(v) == StableStringify(w) <==> Same(v, w)
  {
    SameIsSameCanon(v, w);
    PrintIsPlain(v);
    PrintIsPlain(w);
    RoundTrip(v);
    RoundTrip(w);
  }

  /** Why `Same` needs `Present`: an array holding one `undefined` prints as the empty array. */
  lemma LoneUndefinedPrintsEmpty()
    ensures StableStringify(Arr([Undefined])) == StableStringify(Arr([]))
  {
    EmptyItems([Undefined]);
    EmptyItems([]);
  }

  // ----- no control characters

  ghost predicate Printable(t: Text) {
    forall i :: 0 <= i < |t| ==> t[i] >= 0x20
  }

  lemma PrintableConcat(a: Text, b: Text)
    requires Printable(a) && Printable(b)
    ensures Printable(a + b)
  {
  }

  lemma {:induction false} EscapedIsPrintable(s: Text)
    ensures Printable(Escaped(s))
    decreases |s|
  {
    if s != [] {
      if |s| >= 2 && IsHigh(s[0]) && IsLow(s[1]) {
        EscapedIsPrintable(s[2..]);
      } else {
        EscapedIsPrintable(s[1..]);
        PrintableConcat(EscapeUnit(s[0]), Escaped(s[1..]));
      }
    }
  }

  lemma QuotedIsPrintable(s: Text)
    ensures Printable(Quoted(s))
  {
    EscapedIsPrintable(s);
    PrintableConcat([QUOTE] + Escaped(s), [QUOTE]);
  }

  lemma WrappedIsPrintable(open: Unit, inner: Text, close: Unit)
    requires open >= 0x20 && close >= 0x20 && Printable(inner)
    ensures Printable([open] + inner + [close])
  {
  }

  /** The printer emits no control character, so U+0000 separates the fields of a comparison key. */
  lemma PrintIsPrintable(v: Json)
    requires WellFormed(v)
    ensures Printable(StableStringify(v)) && NulFree(StableStringify(v))
  {
    ValueIsPrintable(v);
    hide StableStringify, WellFormed;
  }

  lemma ValueIsPrintable(v: Json)
    requires WellFormed(v)
    ensures Printable(StableStringify(v))
    decreases v, 1, 0
  {
    hide JoinItems, JoinFields, Quoted, Escaped, Printable;
    match v {
      case Num(lexeme) => NumberIsPrintable(lexeme);
      case Str(text) => QuotedIsPrintable(text);
      case Arr(items) =>
        ItemsArePrintable(items);
        WrappedIsPrintable(OPEN_BRACKET, JoinItems(items), CLOSE_BRACKET);
      case Obj(fields) =>
        FieldsArePrintable(v, Entries(fields));
        WrappedIsPrintable(OPEN_BRACE, JoinFields(v, Entries(fields)), CLOSE_BRACE);
      case _ => LiteralIsPrintable(v);
    }
  }

  lemma LiteralIsPrintable(v: Json)
    requires v.Null? || v.Undefined? || v.Bool?
    ensures Printable(StableStringify(v))
  {
  }

  lemma NumberIsPrintable(lexeme: Text)
    requires WellFormed(Num(lexeme))
    ensures Printable(StableStringify(Num(lexeme)))
  {
    assert StableStringify(Num(lexeme)) == lexeme;
    hide StableStringify;
    forall i | 0 <= i < |lexeme|
      ensures lexeme[i] >= 0x20
    {
      assert lexeme[i] in lexeme;
    }
  }

  lemma ItemsArePrintable(items: seq<Json>)
    requires forall i :: 0 <= i < |items| ==> WellFormed(items[i])
    ensures Printable(JoinItems(items))
    decreases items, 1, 0
  {
    hide StableStringify, JoinItems, WellFormed;
    if items == [] {
      EmptyItems(items);
    } else {
      JoinItemsStep(items);
      ValueIsPrintable(items[0]);
      ItemsArePrintable(items[1..]);
    }
  }

  lemma FieldIsPrintable(v: Json, f: Field)
    requires v.Obj? && f in v.fields && WellFormed(f.value)
    ensures Printable(FieldText(v, f))
    decreases v, 0, 0
  {
    hide StableStringify, Quoted;
    QuotedIsPrintable(f.key);
    ValueIsPrintable(f.value);
  }

  lemma FieldsArePrintable(v: Json, fs: seq<Field>)
    requires v.Obj? && forall f :: f in fs ==> f in v.fields && WellFormed(f.value)
    ensures Printable(JoinFields(v, fs))
    decreases v, 0, |fs|
  {
    if fs != [] {
      FieldIsPrintable(v, fs[0]);
      FieldsArePrintable(v, fs[1..]);
    }
  }
}
