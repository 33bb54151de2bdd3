/** Small shared vocabulary: optional values and texts as sequences of UTF-16 code units. */
module Prelude {

  datatype Option<+T> = None | Some(value: T)

  function Max(a: int, b: int): int {
    if a >= b then a else b
  }

  function Min(a: int, b: int): int {
    if a <= b then a else b
  }
}

/** JavaScript strings, modelled as what they are: sequences of UTF-16 code units. */
module Utf16 {

  type Unit = n: int | 0 <= n < 0x10000

  type Text = seq<Unit>

  const NUL: Unit := 0
  const TRUE_TEXT: Text := [0x74, 0x72, 0x75, 0x65]
  const FALSE_TEXT: Text := [0x66, 0x61, 0x6C, 0x73, 0x65]

  predicate NulFree(t: Text) {
    NUL !in t
  }
}
