/** The exact form of the printed text: which escapes, which order of keys, which brackets and separators. */
module CanonicalJsonForm {
  import opened Prelude
  import opened Utf16
  import opened CanonicalJson
  import opened CanonicalJsonLaws

  // ----- escapes

  /** The units with an escape of two characters, and its second character. */
  const SHORT_ESCAPES: map<int, int> := map[0x22 := 0x22, 0x5C := 0x5C, 8 := 0x62, 9 := 0x74, 10 := 0x6E, 12 := 0x66, 13 := 0x72]

  /** 0123456789abcdef */
  const HEX_DIGITS: Text := [0x30, 0x31, 0x32, 0x33, 0x34, 0x35, 0x36, 0x37, 0x38, 0x39, 0x61, 0x62, 0x63, 0x64, 0x65, 0x66]

  lemma HexDigitIs(n: int)
    requires 0 <= n < 16
    ensures HexDigit(n) == HEX_DIGITS[n]
  {
  }

  /**
    How one unit on its own is printed: a short escape where there is one, four lower-case hexadecimal digits for other
    control characters and for surrogates, and as it is otherwise.
   */
  lemma UnitIsPrinted(u: Unit)
    ensures Escaped([u])
         == if u in SHORT_ESCAPES then [0x5C, SHORT_ESCAPES[u]]
            else if u < 0x20 || 0xD800 <= u <= 0xDFFF then
              [0x5C, 0x75, HEX_DIGITS[u / 0x1000], HEX_DIGITS[u / 0x100 % 16], HEX_DIGITS[u / 0x10 % 16], HEX_DIGITS[u % 16]]
            else [u]
  {
    HexDigitIs(u / 0x1000);
    HexDigitIs(u / 0x100 % 16);
    HexDigitIs(u / 0x10 % 16);
    HexDigitIs(u % 16);
    hide HexDigit;
    assert [u][1..] == [];
  }

  /** A high and a low surrogate in a row. */
  predicate IsSurrogatePair(u: Unit, v: Unit) {
    0xD800 <= u <= 0xDBFF && 0xDC00 <= v <= 0xDFFF
  }

  /** A text is printed unit by unit, but a surrogate pair stands for itself. */
  lemma TextIsPrintedByUnits(u: Unit, s: Text)
    ensures Escaped([]) == []
    ensures Escaped([u] + s)
         == if s != [] && IsSurrogatePair(u, s[0]) then [u, s[0]] + Escaped(s[1..]) else Escaped([u]) + Escaped(s)
  {
    assert [u][1..] == [] && ([u] + s)[1..] == s;
    hide EscapeUnit;
    if s != [] {
      assert ([u] + s)[2..] == s[1..];
      assert [u] + ([s[0]] + Escaped(s[1..])) == [u, s[0]] + Escaped(s[1..]);
    }
  }

  // ----- the order of keys

  /** At the first difference `a` has the lesser unit, or ends. */
  predicate Precedes(a: Text, b: Text) {
    exists i :: 0 <= i <= |a| && i < |b| && PrecedesAt(a, b, i)
  }

  predicate PrecedesAt(a: Text, b: Text, i: nat)
    requires i <= |a| && i < |b|
  {
    a[..i] == b[..i] && (i == |a| || a[i] < b[i])
  }

  lemma {:induction false} KeyLessIsPrecedes(a: Text, b: Text)
    ensures KeyLess(a, b) <==> Precedes(a, b)
  {
    if a != [] && b != [] {
      KeyLessIsPrecedes(a[1..], b[1..]);
      if a[0] == b[0] && Precedes(a[1..], b[1..]) {
        var i :| 0 <= i <= |a[1..]| && i < |b[1..]| && PrecedesAt(a[1..], b[1..], i);
        assert a[..i + 1] == [a[0]] + a[1..][..i] && b[..i + 1] == [b[0]] + b[1..][..i];
        assert PrecedesAt(a, b, i + 1);
      }
      if a[0] < b[0] {
        assert PrecedesAt(a, b, 0);
      }
      if Precedes(a, b) {
        var i :| 0 <= i <= |a| && i < |b| && PrecedesAt(a, b, i);
        if i > 0 {
          assert a[..i][0] == b[..i][0];
          assert a[1..][..i - 1] == a[..i][1..] && b[1..][..i - 1] == b[..i][1..];
          assert PrecedesAt(a[1..], b[1..], i - 1);
        }
      }
    } else if b != [] {
      assert PrecedesAt(a, b, 0);
    }
  }

  /** The fields of an object are printed in ascending order of their keys, compared unit by unit. */
  lemma KeysAscend(fs: seq<Field>, i: nat, j: nat)
    requires DistinctKeys(fs) && i < j < |Entries(fs)|
    ensures Precedes(Entries(fs)[i].key, Entries(fs)[j].key)
  {
    EntriesAreSorted(fs);
    KeyLessIsPrecedes(Entries(fs)[i].key, Entries(fs)[j].key);
    hide Precedes, KeyLess, Entries;
  }

  // ----- brackets and separators

  /** `{"a":[null,true],"b":""}`, from fields in the other order and one that is undefined. */
  lemma ExampleIsPrinted()
    ensures StableStringify(Obj([Field([0x62], Str([])), Field([0x63], Undefined), Field([0x61], Arr([Null, Bool(true)]))]))
         == [0x7B] + ([0x22, 0x61, 0x22, 0x3A, 0x5B, 0x6E, 0x75, 0x6C, 0x6C, 0x2C, 0x74, 0x72, 0x75, 0x65, 0x5D]
                      + ([0x2C] + [0x22, 0x62, 0x22, 0x3A, 0x22, 0x22])) + [0x7D]
  {
    hide Entries, JoinFields, FieldText, Escaped, JoinItems, Quoted;
    var a, b, c := Field([0x61], Arr([Null, Bool(true)])), Field([0x62], Str([])), Field([0x63], Undefined);
    var v := Obj([b, c, a]);
    assert v.fields[0] == b && v.fields[2] == a;
    assert a in v.fields && b in v.fields;
    ExampleEntries(a, b, c);
    ObjectText(v, [a, b]);
    ExampleFields(v, a, b);
    TwoFields(v, a, b);
    hide StableStringify;
  }

  lemma ObjectText(v: Json, fs: seq<Field>)
    requires v.Obj? && Entries(v.fields) == fs && forall f :: f in fs ==> f in v.fields
    ensures StableStringify(v) == [0x7B] + JoinFields(v, fs) + [0x7D]
  {
    hide JoinFields, Entries;
  }

  /** `null`, `true`, `false`, nothing for an undefined value, and a number as it is. */
  lemma LiteralsArePrinted(lexeme: Text)
    ensures StableStringify(Null) == [0x6E, 0x75, 0x6C, 0x6C]
    ensures StableStringify(Bool(true)) == [0x74, 0x72, 0x75, 0x65]
    ensures StableStringify(Bool(false)) == [0x66, 0x61, 0x6C, 0x73, 0x65]
    ensures StableStringify(Undefined) == []
    ensures StableStringify(Num(lexeme)) == lexeme
  {
  }

  lemma ExampleItems()
    ensures StableStringify(Arr([Null, Bool(true)])) == [0x5B, 0x6E, 0x75, 0x6C, 0x6C, 0x2C, 0x74, 0x72, 0x75, 0x65, 0x5D]
  {
    assert [Null, Bool(true)][1..] == [Bool(true)];
    assert JoinItems([Bool(true)]) == [0x74, 0x72, 0x75, 0x65];
  }

  lemma ExampleFields(v: Json, a: Field, b: Field)
    requires v.Obj? && a in v.fields && b in v.fields
    requires a == Field([0x61], Arr([Null, Bool(true)])) && b == Field([0x62], Str([]))
    ensures FieldText(v, a) == [0x22, 0x61, 0x22, 0x3A, 0x5B, 0x6E, 0x75, 0x6C, 0x6C, 0x2C, 0x74, 0x72, 0x75, 0x65, 0x5D]
    ensures FieldText(v, b) == [0x22, 0x62, 0x22, 0x3A, 0x22, 0x22]
  {
    hide Escaped, JoinItems, HexDigit;
    UnitIsPrinted(0x61);
    UnitIsPrinted(0x62);
    TextIsPrintedByUnits(0x62, []);
    ExampleItems();
    hide StableStringify;
    assert Quoted([0x61]) == [0x22, 0x61, 0x22] && Quoted([0x62]) == [0x22, 0x62, 0x22];
    EmptyString();
  }

  lemma EmptyString()
    ensures StableStringify(Str([])) == [0x22, 0x22]
  {
  }

  lemma TwoFields(v: Json, a: Field, b: Field)
    requires v.Obj? && a in v.fields && b in v.fields
    ensures JoinFields(v, [a, b]) == FieldText(v, a) + ([0x2C] + FieldText(v, b))
  {
    assert [a, b][1..] == [b];
    hide FieldText;
  }

  lemma ExampleEntries(a: Field, b: Field, c: Field)
    requires a.key == [0x61] && b.key == [0x62] && c.key == [0x63]
    requires !a.value.Undefined? && !b.value.Undefined? && c.value.Undefined?
    ensures Entries([b, c, a]) == [a, b]
  {
    hide Sorted, Defined, KeyLess;
    ExampleKeys();
    ExampleSorted(a, b, c);
    ExampleDefined(a, b, c);
  }

  lemma ExampleKeys()
    ensures KeyLess([0x61], [0x62]) && KeyLess([0x61], [0x63]) && !KeyLess([0x63], [0x62])
  {
  }

  lemma ExampleDefined(a: Field, b: Field, c: Field)
    requires !a.value.Undefined? && !b.value.Undefined? && c.value.Undefined?
    ensures Defined([a, b, c]) == [a, b]
  {
    assert [a, b, c][1..] == [b, c] && [b, c][1..] == [c] && [c][1..] == [];
    assert Defined([c]) == [];
    assert Defined([b, c]) == [b];
  }

  lemma ExampleSorted(a: Field, b: Field, c: Field)
    requires KeyLess(a.key, b.key) && !KeyLess(c.key, b.key) && KeyLess(a.key, c.key)
    ensures Sorted([b, c, a]) == [a, b, c]
  {
    hide KeyLess;
    assert [b, c, a][1..] == [c, a] && [c, a][1..] == [a] && [a][1..] == [] && [a, c][1..] == [c];
    assert Sorted([a]) == [a];
    assert Insert(c, []) == [c];
    assert Insert(c, [a]) == [a, c];
    assert Sorted([c, a]) == [a, c];
    assert Insert(b, [c]) == [b, c];
    assert Insert(b, [a, c]) == [a] + [b, c];
  }
}
