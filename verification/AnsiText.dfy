/**
  Terminal text as a sequence of tokens, each a visible character or one select-graphic-rendition
  escape, and the colour every visible character is shown in. Escapes count as single codes.
 */
module AnsiText {
  import opened Prelude

  datatype Token = Esc(params: string) | Vis(c: char)

  type Ansi = seq<Token>

  /** The code that set the current colour, or none for the terminal's own. */
  type Color = Option<string>

  datatype Cell = Cell(c: char, color: Color)

  /** How one escape changes a colour. */
  type Effect = (Color, string) -> Color

  predicate SetsStandardFg(params: string) {
    params in {"30", "31", "32", "33", "34", "35", "36", "37", "90", "91", "92", "93", "94", "95", "96", "97"}
  }

  predicate AffectsFg(params: string) {
    params == "" || params == "0" || params == "39" || "38;" <= params || SetsStandardFg(params)
  }

  function FgEffect(fg: Color, params: string): Color {
    if params == "" || params == "0" || params == "39" then None
    else if "38;" <= params || SetsStandardFg(params) then Some(params)
    else fg
  }

  predicate SetsStandardBg(params: string) {
    params in {"40", "41", "42", "43", "44", "45", "46", "47", "100", "101", "102", "103", "104", "105", "106", "107"}
  }

  predicate AffectsBg(params: string) {
    params == "" || params == "0" || params == "49" || "48;" <= params || SetsStandardBg(params)
  }

  function BgEffect(bg: Color, params: string): Color {
    if params == "" || params == "0" || params == "49" then None
    else if "48;" <= params || SetsStandardBg(params) then Some(params)
    else bg
  }

  function ColorAfter(effect: Effect, t: Ansi, color: Color): Color {
    if t == [] then color
    else ColorAfter(effect, t[1..], if t[0].Esc? then effect(color, t[0].params) else color)
  }

  /** The visible characters of a text, each with its colour. */
  function Cells(effect: Effect, t: Ansi, color: Color): seq<Cell> {
    if t == [] then []
    else if t[0].Esc? then Cells(effect, t[1..], effect(color, t[0].params))
    else [Cell(t[0].c, color)] + Cells(effect, t[1..], color)
  }

  /** The text without its escapes. */
  function Plain(t: Ansi): string {
    if t == [] then "" else (if t[0].Esc? then "" else [t[0].c]) + Plain(t[1..])
  }

  predicate AllEscapes(t: Ansi) {
    forall i :: 0 <= i < |t| ==> t[i].Esc?
  }

  function Spaces(n: nat): Ansi {
    seq(n, _ => Vis(' '))
  }

  lemma {:induction false} CellsOfConcat(effect: Effect, a: Ansi, b: Ansi, color: Color)
    ensures Cells(effect, a + b, color) == Cells(effect, a, color) + Cells(effect, b, ColorAfter(effect, a, color))
    ensures ColorAfter(effect, a + b, color) == ColorAfter(effect, b, ColorAfter(effect, a, color))
  {
    if a == [] {
      assert a + b == b;
    } else {
      CellsOfConcat(effect, a[1..], b, if a[0].Esc? then effect(color, a[0].params) else color);
      assert (a + b)[1..] == a[1..] + b;
    }
  }

  lemma {:induction false} EscapesShowNothing(effect: Effect, t: Ansi, color: Color)
    requires AllEscapes(t)
    ensures Cells(effect, t, color) == []
  {
    if t != [] {
      EscapesShowNothing(effect, t[1..], effect(color, t[0].params));
    }
  }

  lemma {:induction false} CellsArePlain(effect: Effect, t: Ansi, color: Color)
    ensures |Cells(effect, t, color)| == |Plain(t)|
    ensures forall i :: 0 <= i < |Plain(t)| ==> Cells(effect, t, color)[i].c == Plain(t)[i]
  {
    if t != [] {
      CellsArePlain(effect, t[1..], if t[0].Esc? then effect(color, t[0].params) else color);
    }
  }

  lemma {:induction false} SpacesShow(effect: Effect, n: nat, color: Color)
    ensures Cells(effect, Spaces(n), color) == seq(n, _ => Cell(' ', color))
    ensures ColorAfter(effect, Spaces(n), color) == color
  {
    if n > 0 {
      SpacesShow(effect, n - 1, color);
      assert Spaces(n)[1..] == Spaces(n - 1);
    }
  }

  /** One more token. */
  lemma CellsOfNext(effect: Effect, t: Ansi, i: nat, color: Color)
    requires i < |t|
    ensures var before := ColorAfter(effect, t[..i], color);
            && Cells(effect, t[..i + 1], color)
               == Cells(effect, t[..i], color) + (if t[i].Esc? then [] else [Cell(t[i].c, before)])
            && ColorAfter(effect, t[..i + 1], color) == (if t[i].Esc? then effect(before, t[i].params) else before)
  {
    assert t[..i + 1] == t[..i] + [t[i]];
    CellsOfConcat(effect, t[..i], [t[i]], color);
    var before := ColorAfter(effect, t[..i], color);
    assert [t[i]][1..] == [];
    assert Cells(effect, [t[i]], before) == if t[i].Esc? then [] else [Cell(t[i].c, before)];
  }

  lemma CellsOfRest(effect: Effect, t: Ansi, i: nat, color: Color)
    requires i <= |t|
    ensures Cells(effect, t, color)
         == Cells(effect, t[..i], color) + Cells(effect, t[i..], ColorAfter(effect, t[..i], color))
  {
    assert t == t[..i] + t[i..];
    CellsOfConcat(effect, t[..i], t[i..], color);
  }
}
