/** Wrapping a coloured line into rows of a fixed width. */
module WrapAnsi {
  import opened Prelude
  import opened AnsiText

  const CUT_MARK := '\U{203A}'

  /** The reset a theme uses: the full reset, alone or with a transparent background after it. */
  predicate IsReset(rst: Ansi) {
    rst == [Esc("0")] || rst == [Esc("0"), Esc("49")]
  }

  /** Background codes: no visible characters, and no effect on the foreground. */
  predicate IsBackground(t: Ansi) {
    forall i :: 0 <= i < |t| ==> t[i].Esc? && !AffectsFg(t[i].params)
  }

  /** The foreground as the wrapper tracks it: it knows no standard colours and no empty reset. */
  function TrackedFg(fg: Color, params: string): Color {
    if params == "0" || params == "39" then None
    else if "38;" <= params then Some(params)
    else fg
  }

  /** The escapes that re-establish background and foreground as `t` leaves them. */
  function StateOf(t: Ansi): (Color, Color) {
    if t == [] then (None, None)
    else
      var (bg, fg) := StateOf(t[..|t| - 1]);
      var last := t[|t| - 1];
      if last.Vis? then (bg, fg)
      else if last.params == "0" then (None, None)
      else if last.params == "39" then (bg, None)
      else if "38;" <= last.params then (bg, Some(last.params))
      else if "48;" <= last.params then (Some(last.params), fg)
      else (bg, fg)
  }

  function Code(color: Color): Ansi {
    if color.Some? then [Esc(color.value)] else []
  }

  function AnsiStateOf(t: Ansi): Ansi {
    Code(StateOf(t).0) + Code(StateOf(t).1)
  }

  method AnsiState(t: Ansi) returns (r: Ansi)
    ensures r == AnsiStateOf(t)
  {
    var fg: Color, bg: Color := None, None;
    for i := 0 to |t|
      invariant StateOf(t[..i]) == (bg, fg)
    {
      assert t[..i + 1][..i] == t[..i];
      if t[i].Vis? {
        continue;
      }
      var params := t[i].params;
      if params == "0" {
        fg, bg := None, None;
      } else if params == "39" {
        fg := None;
      } else if "38;" <= params {
        fg := Some(params);
      } else if "48;" <= params {
        bg := Some(params);
      }
    }
    assert t[..|t|] == t;
    r := Code(bg) + Code(fg);
  }

  function Fg(t: Ansi): Color {
    ColorAfter(TrackedFg, t, None)
  }

  /** A row on its own: the terminal starts it with its own foreground. */
  function RowCells(t: Ansi): seq<Cell> {
    Cells(TrackedFg, t, None)
  }

  ghost predicate GoodState(t: Ansi) {
    var (bg, fg) := StateOf(t);
    && fg == Fg(t)
    && (fg.Some? ==> "38;" <= fg.value)
    && (bg.Some? ==> "48;" <= bg.value)
  }

  lemma {:induction false} StateTracksForeground(t: Ansi)
    ensures GoodState(t)
  {
    if t != [] {
      var n := |t| - 1;
      StateTracksForeground(t[..n]);
      CellsOfNext(TrackedFg, t, n, None);
      assert t[..n + 1] == t;
    }
  }

  /** The state string shows nothing and restores the tracked foreground, which is the real one of a tracked text. */
  lemma StateRestores(t: Ansi)
    ensures AllEscapes(AnsiStateOf(t)) && RowCells(AnsiStateOf(t)) == [] && Fg(AnsiStateOf(t)) == Fg(t)
    ensures RealFg(AnsiStateOf(t)) == Fg(t)
    ensures OnlyTracked(t) ==> RealFg(AnsiStateOf(t)) == RealFg(t)
  {
    StateColors(t, []);
    assert AnsiStateOf(t) + [] == AnsiStateOf(t);
    if OnlyTracked(t) {
      TrackedIsReal(t, None);
    }
    var (bg, fg) := StateOf(t);
    StateTracksForeground(t);
    EscapesShowNothing(TrackedFg, AnsiStateOf(t), None);
    CellsOfConcat(TrackedFg, Code(bg), Code(fg), None);
    if bg.Some? {
      assert [Esc(bg.value)][1..] == [];
      assert bg.value[0] == '4';
    }
    if fg.Some? {
      assert [Esc(fg.value)][1..] == [];
    }
  }

  /** The background as the wrapper tracks it: 24-bit and palette codes, until the full reset. */
  function TrackedBg(bg: Color, params: string): Color {
    if params == "0" then None else if "48;" <= params then Some(params) else bg
  }

  /** No background code but those the wrapper tracks. */
  predicate OnlyTrackedBg(t: Ansi) {
    forall i :: 0 <= i < |t| && t[i].Esc? ==> t[i].params != "" && t[i].params != "49" && !SetsStandardBg(t[i].params)
  }

  lemma {:induction false} StateTracksBackground(t: Ansi)
    ensures StateOf(t).0 == ColorAfter(TrackedBg, t, None)
    ensures OnlyTrackedBg(t) ==> StateOf(t).0 == ColorAfter(BgEffect, t, None)
  {
    if t != [] {
      var n := |t| - 1;
      StateTracksBackground(t[..n]);
      CellsOfNext(TrackedBg, t, n, None);
      CellsOfNext(BgEffect, t, n, None);
      assert t[..n + 1] == t;
      if t[n].Esc? {
        assert "38;" <= t[n].params ==> t[n].params[0] == '3';
        assert "48;" <= t[n].params ==> t[n].params[0] == '4' && t[n].params[2] == ';';
      }
    }
  }

  /** The state string restores the tracked background, too, which is the real one of a text of tracked codes. */
  lemma StateRestoresBackground(t: Ansi)
    ensures ColorAfter(BgEffect, AnsiStateOf(t), None) == ColorAfter(TrackedBg, t, None)
    ensures OnlyTrackedBg(t) ==> ColorAfter(BgEffect, AnsiStateOf(t), None) == ColorAfter(BgEffect, t, None)
  {
    var (bg, fg) := StateOf(t);
    StateTracksBackground(t);
    StateTracksForeground(t);
    CellsOfConcat(BgEffect, Code(bg), Code(fg), None);
    CodeOfBackground(bg, None);
    CodeOfForeground(fg, bg);
    hide ColorAfter, StateOf, OnlyTrackedBg, BgEffect;
  }

  lemma CodeOfBackground(bg: Color, before: Color)
    requires bg.Some? ==> "48;" <= bg.value
    ensures ColorAfter(BgEffect, Code(bg), before) == if bg.Some? then bg else before
  {
    if bg.Some? {
      assert [Esc(bg.value)][1..] == [];
      assert bg.value[0] == '4' && bg.value[2] == ';';
    }
  }

  lemma CodeOfForeground(fg: Color, bg: Color)
    requires fg.Some? ==> "38;" <= fg.value
    ensures ColorAfter(BgEffect, Code(fg), bg) == bg
  {
    if fg.Some? {
      assert [Esc(fg.value)][1..] == [];
      assert fg.value[0] == '3' && fg.value[2] == ';';
    }
  }

  lemma {:induction false} BackgroundKeepsForeground(t: Ansi, fg: Color)
    requires IsBackground(t)
    ensures Cells(TrackedFg, t, fg) == [] && ColorAfter(TrackedFg, t, fg) == fg
  {
    if t != [] {
      BackgroundKeepsForeground(t[1..], fg);
    }
  }

  /** All rows' cells one after the other. */
  function Shown(rows: seq<Ansi>): seq<Cell> {
    if rows == [] then [] else Shown(rows[..|rows| - 1]) + RowCells(rows[|rows| - 1])
  }

  ghost predicate Full(rows: seq<Ansi>, width: nat) {
    forall r :: 0 <= r < |rows| ==> |RowCells(rows[r])| == width
  }

  lemma {:induction false} ShownOfFull(rows: seq<Ansi>, width: nat)
    requires Full(rows, width)
    ensures |Shown(rows)| == |rows| * width
  {
    if rows != [] {
      var n := |rows| - 1;
      ShownOfFull(rows[..n], width);
      assert |RowCells(rows[n])| == width;
      hide Full, RowCells;
      assert |Shown(rows)| == n * width + width;
      OneMore(n, width);
    }
  }

  lemma OneMore(n: nat, width: nat)
    ensures (n + 1) * width == n * width + width
  {
  }

  lemma ShownOfPush(rows: seq<Ansi>, row: Ansi)
    ensures Shown(rows + [row]) == Shown(rows) + RowCells(row)
  {
    assert (rows + [row])[..|rows|] == rows;
  }

  predicate AllSpaces(cells: seq<Cell>) {
    forall i :: 0 <= i < |cells| ==> cells[i].c == ' '
  }

  /** How many characters can be shown when the text does not fit. */
  function Capacity(width: nat, maxRows: int): int {
    Max(1, maxRows) * width - if width > 2 then 1 else 0
  }

  predicate Fits(n: nat, width: nat, maxRows: int) {
    n <= width || n <= Capacity(width, maxRows)
  }

  /**
    What wrapping promises: a bounded number of rows, each exactly `width` columns. A text that
    fits is shown whole, padded with spaces; one that does not is shown up to the capacity, closed
    by the cut mark when there is room for one. Every shown character keeps its tracked foreground.
   */
  ghost predicate Wrapped(text: Ansi, width: nat, maxRows: int, rows: seq<Ansi>) {
    var cells, shown := RowCells(text), Shown(rows);
    && 1 <= |rows| <= Max(1, maxRows)
    && Full(rows, width)
    && (Fits(|cells|, width, maxRows) ==>
          && cells <= shown && AllSpaces(shown[|cells|..])
          && (|rows| > 1 ==> |cells| > |shown| - width))
    && (!Fits(|cells|, width, maxRows) ==>
          && |rows| == Max(1, maxRows)
          && var n := Capacity(width, maxRows);
             && 0 <= n <= |shown| && n < |cells|
             && shown[..n] == cells[..n]
             && (if width > 2 then |shown| == n + 1 && shown[n].c == '\U{203A}' else |shown| == n))
  }

  // ----- one step of the wrapping loop

  /** Rows and the row under construction show the first `i` tokens and end in their foreground. */
  ghost predicate Progress(text: Ansi, i: nat, rows: seq<Ansi>, row: Ansi, vis: int, width: nat) {
    && i <= |text|
    && vis == |RowCells(row)|
    && Full(rows, width)
    && RowCells(text[..i]) == Shown(rows) + RowCells(row)
    && Fg(row) == Fg(text[..i])
  }

  lemma TokenStep(text: Ansi, i: nat, rows: seq<Ansi>, row: Ansi, vis: int, width: nat)
    requires Progress(text, i, rows, row, vis, width) && i < |text|
    ensures Progress(text, i + 1, rows, row + [text[i]], vis + (if text[i].Vis? then 1 else 0), width)
  {
    var row' := row + [text[i]];
    CellsOfNext(TrackedFg, text, i, None);
    CellsOfNext(TrackedFg, row', |row|, None);
    assert row'[..|row|] == row && row'[..|row'|] == row';
    hide ColorAfter, Cells, Shown, TrackedFg;
    if text[i].Vis? {
      var cell := Cell(text[i].c, Fg(row));
      assert Shown(rows) + RowCells(row) + [cell] == Shown(rows) + (RowCells(row) + [cell]);
    } else {
      assert RowCells(row') == RowCells(row);
    }
  }

  lemma ResetShowsNothing(rst: Ansi, fg: Color)
    requires IsReset(rst)
    ensures Cells(TrackedFg, rst, fg) == []
  {
    EscapesShowNothing(TrackedFg, rst, fg);
  }

  lemma BreakStep(text: Ansi, i: nat, rows: seq<Ansi>, row: Ansi, width: nat, fillBg: Ansi, rst: Ansi)
    requires Progress(text, i, rows, row, width, width) && IsBackground(fillBg) && IsReset(rst)
    ensures Progress(text, i, rows + [row + rst], AnsiStateOf(row) + fillBg, 0, width)
  {
    StateRestores(row);
    BackgroundKeepsForeground(fillBg, Fg(row));
    CellsOfConcat(TrackedFg, AnsiStateOf(row), fillBg, None);
    CellsOfConcat(TrackedFg, row, rst, None);
    ResetShowsNothing(rst, Fg(row));
    ShownOfPush(rows, row + rst);
    hide *;
    BreakProgress(text, i, rows, row, row + rst, AnsiStateOf(row) + fillBg, width);
  }

  lemma BreakProgress(text: Ansi, i: nat, rows: seq<Ansi>, row: Ansi, closed: Ansi, next: Ansi, width: nat)
    requires Progress(text, i, rows, row, width, width)
    requires RowCells(closed) == RowCells(row) && RowCells(next) == [] && Fg(next) == Fg(row)
    requires Shown(rows + [closed]) == Shown(rows) + RowCells(closed)
    ensures Progress(text, i, rows + [closed], next, 0, width)
  {
  }

  lemma PaddedRow(row: Ansi, vis: nat, width: nat, fillBg: Ansi, rst: Ansi)
    requires |RowCells(row)| == vis <= width && IsBackground(fillBg) && IsReset(rst)
    ensures var r := row + fillBg + Spaces(width - vis) + rst;
            && |RowCells(r)| == width && RowCells(r)[..vis] == RowCells(row) && AllSpaces(RowCells(r)[vis..])
  {
    CellsOfConcat(TrackedFg, row + fillBg + Spaces(width - vis), rst, None);
    CellsOfConcat(TrackedFg, row + fillBg, Spaces(width - vis), None);
    CellsOfConcat(TrackedFg, row, fillBg, None);
    BackgroundKeepsForeground(fillBg, Fg(row));
    SpacesShow(TrackedFg, width - vis, Fg(row));
    ResetShowsNothing(rst, Fg(row));
  }

  lemma MarkedRow(row: Ansi, rst: Ansi, fgDim: Ansi)
    requires IsReset(rst) && AllEscapes(fgDim)
    ensures var r := row + rst + fgDim + [Vis(CUT_MARK)] + rst;
            && |RowCells(r)| == |RowCells(row)| + 1 && RowCells(r)[..|RowCells(row)|] == RowCells(row)
            && RowCells(r)[|RowCells(row)|].c == CUT_MARK
  {
    var a := row + rst;
    var b := a + fgDim;
    var c := b + [Vis(CUT_MARK)];
    CellsOfConcat(TrackedFg, row, rst, None);
    CellsOfConcat(TrackedFg, a, fgDim, None);
    CellsOfConcat(TrackedFg, b, [Vis(CUT_MARK)], None);
    CellsOfConcat(TrackedFg, c, rst, None);
    ResetShowsNothing(rst, Fg(row));
    ResetShowsNothing(rst, Fg(c));
    EscapesShowNothing(TrackedFg, fgDim, Fg(a));
    assert [Vis(CUT_MARK)][1..] == [];
  }

  // ----- the two ways the loop ends

  lemma WholeIsWrapped(text: Ansi, rows: seq<Ansi>, row: Ansi, last: Ansi, vis: nat, width: nat, maxRows: int)
    requires Progress(text, |text|, rows, row, vis, width) && 0 < vis <= width
    requires |RowCells(last)| == width && RowCells(last)[..vis] == RowCells(row) && AllSpaces(RowCells(last)[vis..])
    requires |rows| < Max(1, maxRows) && Fits(|RowCells(text)|, width, maxRows)
    ensures Wrapped(text, width, maxRows, rows + [last])
  {
    assert text[..|text|] == text;
    ShownOfPush(rows, last);
    hide RowCells, Shown, Fits, Capacity;
    var cells, shown := RowCells(text), Shown(rows + [last]);
    assert shown[|cells|..] == RowCells(last)[vis..];
    assert cells <= shown;
  }

  lemma CutIsWrapped(text: Ansi, i: nat, rows: seq<Ansi>, row: Ansi, last: Ansi, width: nat, maxRows: int)
    requires var eff := if width > 2 then width - 1 else width;
             Progress(text, i, rows, row, eff, width) && 0 < width
             && |RowCells(last)| == width && RowCells(last)[..eff] == RowCells(row)
    requires width > 2 ==> RowCells(last)[width - 1].c == CUT_MARK
    requires |rows| == Max(1, maxRows) - 1 && |RowCells(text)| > width
    requires i < |text| && text[i].Vis?
    ensures Wrapped(text, width, maxRows, rows + [last])
  {
    CellsOfRest(TrackedFg, text, i, None);
    ShownOfPush(rows, last);
    ShownOfFull(rows, width);
    CapacityOf(width, maxRows);
    hide RowCells, Shown, Capacity;
    var cells, shown := RowCells(text), Shown(rows + [last]);
    var done := RowCells(text[..i]);
    assert |done| == Capacity(width, maxRows);
    assert shown[..|done|] == done;
    assert cells[..|done|] == done;
  }

  lemma CapacityOf(width: nat, maxRows: int)
    ensures Capacity(width, maxRows) == (Max(1, maxRows) - 1) * width + if width > 2 then width - 1 else width
  {
  }

  /** Fewer than all rows full and a last row within its width: the text fits. */
  lemma RowsFit(rows: nat, vis: nat, width: nat, maxRows: int, onLastRow: bool)
    requires 0 < width && vis <= (if onLastRow && width > 2 then width - 1 else width)
    requires if onLastRow then rows == Max(1, maxRows) - 1 else rows < Max(1, maxRows) - 1
    ensures Fits(rows * width + vis, width, maxRows)
  {
    CapacityOf(width, maxRows);
    if !onLastRow {
      assert (rows + 1) * width <= (Max(1, maxRows) - 1) * width;
    }
  }

  // ----- the foreground a terminal shows

  function RealCells(t: Ansi): seq<Cell> {
    Cells(FgEffect, t, None)
  }

  function RealFg(t: Ansi): Color {
    ColorAfter(FgEffect, t, None)
  }

  function RealShown(rows: seq<Ansi>): seq<Cell> {
    if rows == [] then [] else RealShown(rows[..|rows| - 1]) + RealCells(rows[|rows| - 1])
  }

  /** How many characters of the text are shown. */
  function KeptCount(text: Ansi, width: nat, maxRows: int): int {
    if Fits(|RowCells(text)|, width, maxRows) then |RowCells(text)| else Capacity(width, maxRows)
  }

  /** The first `n` characters are shown in the colours they have in the unwrapped text. */
  ghost predicate KeepsForeground(text: Ansi, rows: seq<Ansi>, n: int) {
    0 <= n <= |RealCells(text)| && n <= |RealShown(rows)| && RealShown(rows)[..n] == RealCells(text)[..n]
  }

  /** If row `r` starts with a character of the text, the wrapper tracks that character's colour. */
  ghost predicate StartTracked(text: Ansi, width: nat, r: nat) {
    var q := r * width;
    q < |RowCells(text)| && q < |RealCells(text)| ==> RealCells(text)[q].color == RowCells(text)[q].color
  }

  ghost predicate StartsTracked(text: Ansi, width: nat, rows: int) {
    forall r: nat :: 1 <= r < rows ==> StartTracked(text, width, r)
  }

  /** The real colours of what is shown so far are right exactly when all rows so far started tracked. */
  ghost predicate Colored(text: Ansi, i: nat, rows: seq<Ansi>, row: Ansi, width: nat) {
    && i <= |text|
    && |RealShown(rows)| + |RealCells(row)| == |RealCells(text[..i])|
    && (RealShown(rows) + RealCells(row) == RealCells(text[..i]) <==> StartsTracked(text, width, |rows| + 1))
    && (StartsTracked(text, width, |rows| + 1) ==> RealFg(row) == RealFg(text[..i]))
  }

  lemma RealShownOfPush(rows: seq<Ansi>, row: Ansi)
    ensures RealShown(rows + [row]) == RealShown(rows) + RealCells(row)
  {
    assert (rows + [row])[..|rows|] == rows;
  }

  /** Two sequences that both get one more cell are equal exactly when they were and the cells are. */
  lemma PushBoth(a: seq<Cell>, b: seq<Cell>, x: Cell, y: Cell)
    ensures a + [x] == b + [y] <==> a == b && x == y
  {
    if a + [x] == b + [y] {
      assert |a| == |b|;
      assert a == (a + [x])[..|a|] && b == (b + [y])[..|b|];
      assert x == (a + [x])[|a|] && y == (b + [y])[|b|];
    }
  }

  lemma TokenColored(text: Ansi, i: nat, rows: seq<Ansi>, row: Ansi, width: nat)
    requires Colored(text, i, rows, row, width) && i < |text|
    ensures Colored(text, i + 1, rows, row + [text[i]], width)
  {
    var row' := row + [text[i]];
    CellsOfNext(FgEffect, text, i, None);
    CellsOfNext(FgEffect, row', |row|, None);
    assert row'[..|row|] == row && row'[..|row'|] == row';
    hide ColorAfter, Cells, RealShown, StartsTracked, FgEffect;
    if text[i].Vis? {
      var x, y := Cell(text[i].c, RealFg(row)), Cell(text[i].c, RealFg(text[..i]));
      PushBoth(RealShown(rows) + RealCells(row), RealCells(text[..i]), x, y);
      assert RealShown(rows) + RealCells(row') == RealShown(rows) + RealCells(row) + [x];
    } else {
      assert RealCells(row') == RealCells(row) && RealCells(text[..i + 1]) == RealCells(text[..i]);
    }
  }

  lemma SameLength(t: Ansi)
    ensures |RealCells(t)| == |RowCells(t)|
  {
    CellsArePlain(FgEffect, t, None);
    CellsArePlain(TrackedFg, t, None);
  }

  /** The colours of the character at token `i`. */
  lemma CellAt(text: Ansi, i: nat)
    requires i < |text| && text[i].Vis?
    ensures |RealCells(text[..i])| == |RowCells(text[..i])| < |RowCells(text)| == |RealCells(text)|
    ensures RealCells(text)[|RowCells(text[..i])|].color == RealFg(text[..i])
    ensures RowCells(text)[|RowCells(text[..i])|].color == Fg(text[..i])
  {
    SameLength(text);
    SameLength(text[..i]);
    CellsOfRest(FgEffect, text, i, None);
    CellsOfRest(TrackedFg, text, i, None);
  }

  /** A row that follows a break starts in the tracked colour. */
  lemma StateColors(row: Ansi, fillBg: Ansi)
    requires IsBackground(fillBg)
    ensures RealCells(AnsiStateOf(row) + fillBg) == [] && RealFg(AnsiStateOf(row) + fillBg) == Fg(row)
  {
    var (bg, fg) := StateOf(row);
    StateTracksForeground(row);
    RealBackground(fillBg, RealFg(AnsiStateOf(row)));
    CellsOfConcat(FgEffect, AnsiStateOf(row), fillBg, None);
    CellsOfConcat(FgEffect, Code(bg), Code(fg), None);
    EscapesShowNothing(FgEffect, AnsiStateOf(row), None);
    if bg.Some? {
      assert [Esc(bg.value)][1..] == [];
      assert bg.value[0] == '4' && bg.value[2] == ';';
    }
    if fg.Some? {
      assert [Esc(fg.value)][1..] == [];
    }
  }

  lemma {:induction false} RealBackground(t: Ansi, fg: Color)
    requires IsBackground(t)
    ensures Cells(FgEffect, t, fg) == [] && ColorAfter(FgEffect, t, fg) == fg
  {
    if t != [] {
      RealBackground(t[1..], fg);
    }
  }

  lemma StartsTrackedNext(text: Ansi, width: nat, rows: nat)
    requires rows >= 1
    ensures StartsTracked(text, width, rows + 1) <==> StartsTracked(text, width, rows) && StartTracked(text, width, rows)
  {
    hide StartTracked;
  }

  /** A break and the character that caused it. */
  lemma BreakColored(text: Ansi, i: nat, rows: seq<Ansi>, row: Ansi, width: nat, fillBg: Ansi, rst: Ansi)
    requires Colored(text, i, rows, row, width) && Progress(text, i, rows, row, width, width)
    requires IsBackground(fillBg) && IsReset(rst) && i < |text| && text[i].Vis?
    ensures Colored(text, i + 1, rows + [row + rst], AnsiStateOf(row) + fillBg + [text[i]], width)
  {
    var rows', first := rows + [row + rst], AnsiStateOf(row) + fillBg;
    var next := first + [text[i]];
    CellsOfConcat(FgEffect, row, rst, None);
    EscapesShowNothing(FgEffect, rst, RealFg(row));
    RealShownOfPush(rows, row + rst);
    StateColors(row, fillBg);
    CellsOfNext(FgEffect, text, i, None);
    CellsOfNext(FgEffect, next, |first|, None);
    assert next[..|first|] == first && next[..|next|] == next;
    BreakAt(text, i, rows, row, width);
    CellAt(text, i);
    StartsTrackedNext(text, width, |rows| + 1);
    var x, y := Cell(text[i].c, Fg(row)), Cell(text[i].c, RealFg(text[..i]));
    PushBoth(RealShown(rows) + RealCells(row), RealCells(text[..i]), x, y);
    hide ColorAfter, Cells, RealShown, StartsTracked, FgEffect, TrackedFg, AnsiStateOf, IsBackground, IsReset, Fits, Shown, Full;
    assert RealShown(rows') + RealCells(next) == RealShown(rows) + RealCells(row) + [x];
  }

  /** A break comes after a whole number of full rows. */
  lemma BreakAt(text: Ansi, i: nat, rows: seq<Ansi>, row: Ansi, width: nat)
    requires Progress(text, i, rows, row, width, width)
    ensures |RowCells(text[..i])| == (|rows| + 1) * width && Fg(row) == Fg(text[..i])
  {
    ShownOfFull(rows, width);
    OneMore(|rows|, width);
  }

  /** The real colours are kept exactly when every row started tracked. */
  lemma EndColored(text: Ansi, i: nat, rows: seq<Ansi>, row: Ansi, last: Ansi, width: nat)
    requires Colored(text, i, rows, row, width) && row <= last
    ensures KeepsForeground(text, rows + [last], |RowCells(text[..i])|) <==> StartsTracked(text, width, |rows| + 1)
  {
    SameLength(text[..i]);
    CellsOfRest(FgEffect, text, i, None);
    CellsOfRest(FgEffect, last, |row|, None);
    assert last[..|row|] == row;
    RealShownOfPush(rows, last);
    hide Cells, RealShown, StartsTracked, ColorAfter;
    var n := |RealCells(text[..i])|;
    assert RealCells(text)[..n] == RealCells(text[..i]);
    assert (RealShown(rows) + RealCells(last))[..n] == RealShown(rows) + RealCells(row);
  }

  lemma TimesGrows(r: nat, n: nat, width: nat)
    requires r >= n
    ensures r * width >= n * width
  {
  }

  /** Rows beyond those produced would start behind the text. */
  lemma StartsOfWrapped(text: Ansi, width: nat, maxRows: int, rows: seq<Ansi>)
    requires Wrapped(text, width, maxRows, rows)
    ensures StartsTracked(text, width, |rows|) <==> StartsTracked(text, width, Max(1, maxRows))
  {
    ShownOfFull(rows, width);
    if |rows| < Max(1, maxRows) {
      forall r: nat | |rows| <= r < Max(1, maxRows)
        ensures StartTracked(text, width, r)
      {
        TimesGrows(r, |rows|, width);
      }
    }
    hide RowCells, RealCells, StartTracked, Shown, Fits, Capacity;
  }

  /** A text whose foreground codes are all tracked keeps every colour. */
  predicate OnlyTracked(text: Ansi) {
    forall i :: 0 <= i < |text| && text[i].Esc? ==> text[i].params != "" && !SetsStandardFg(text[i].params)
  }

  lemma {:induction false} TrackedIsReal(text: Ansi, fg: Color)
    requires OnlyTracked(text)
    ensures Cells(FgEffect, text, fg) == Cells(TrackedFg, text, fg)
    ensures ColorAfter(FgEffect, text, fg) == ColorAfter(TrackedFg, text, fg)
  {
    if text != [] {
      TrackedIsReal(text[1..], if text[0].Esc? then FgEffect(fg, text[0].params) else fg);
    }
  }

  lemma TrackedColorsAreKept(text: Ansi, width: nat, rows: int)
    requires OnlyTracked(text)
    ensures StartsTracked(text, width, rows)
  {
    TrackedIsReal(text, None);
  }

  /** Red text on a second row: the wrapper re-establishes nothing. */
  lemma StandardColorIsLost()
    ensures var text := [Esc("31"), Vis('a'), Vis('b')];
            AnsiStateOf(text[..2]) == [] && !StartsTracked(text, 1, 2)
  {
    var text := [Esc("31"), Vis('a'), Vis('b')];
    CellAt(text, 2);
    assert text[..2] == [Esc("31"), Vis('a')] && text[..2][..1] == [Esc("31")] && text[..2][..1][..0] == [];
    CellsOfNext(FgEffect, text, 0, None);
    CellsOfNext(FgEffect, text, 1, None);
    CellsOfNext(TrackedFg, text, 0, None);
    CellsOfNext(TrackedFg, text, 1, None);
    assert text[..0] == [];
    assert RealFg(text[..2]) == Some("31") && Fg(text[..2]) == None;
    assert StateOf(text[..2][..1]) == (None, None);
    assert StateOf(text[..2]) == (None, None);
    assert !StartTracked(text, 1, 1);
  }

  /** What the loop keeps: the shape of the rows and the colours shown in them. */
  ghost predicate Wrapping(text: Ansi, i: nat, rows: seq<Ansi>, row: Ansi, vis: int, width: nat) {
    Progress(text, i, rows, row, vis, width) && Colored(text, i, rows, row, width)
  }

  /** What wrapping returns: the promised rows, in real colours exactly when all rows start tracked. */
  ghost predicate WellWrapped(text: Ansi, width: nat, maxRows: int, rows: seq<Ansi>) {
    && Wrapped(text, width, maxRows, rows)
    && (KeepsForeground(text, rows, KeptCount(text, width, maxRows)) <==> StartsTracked(text, width, Max(1, maxRows)))
  }

  lemma StartWraps(text: Ansi, width: nat)
    ensures Wrapping(text, 0, [], [], 0, width)
  {
    assert text[..0] == [];
  }

  lemma TokenWraps(text: Ansi, i: nat, rows: seq<Ansi>, row: Ansi, vis: int, width: nat)
    requires Wrapping(text, i, rows, row, vis, width) && i < |text|
    ensures Wrapping(text, i + 1, rows, row + [text[i]], vis + (if text[i].Vis? then 1 else 0), width)
  {
    hide Progress, Colored;
    TokenStep(text, i, rows, row, vis, width);
    TokenColored(text, i, rows, row, width);
  }

  lemma BreakWraps(text: Ansi, i: nat, rows: seq<Ansi>, row: Ansi, width: nat, fillBg: Ansi, rst: Ansi)
    requires Wrapping(text, i, rows, row, width, width) && IsBackground(fillBg) && IsReset(rst)
    requires i < |text| && text[i].Vis?
    ensures Wrapping(text, i + 1, rows + [row + rst], AnsiStateOf(row) + fillBg + [text[i]], 1, width)
  {
    hide Progress, Colored, AnsiStateOf, IsBackground, IsReset;
    BreakStep(text, i, rows, row, width, fillBg, rst);
    TokenStep(text, i, rows + [row + rst], AnsiStateOf(row) + fillBg, 0, width);
    BreakColored(text, i, rows, row, width, fillBg, rst);
  }

  lemma EndWraps(text: Ansi, i: nat, rows: seq<Ansi>, row: Ansi, last: Ansi, width: nat, maxRows: int)
    requires Colored(text, i, rows, row, width) && row <= last && Wrapped(text, width, maxRows, rows + [last])
    requires KeptCount(text, width, maxRows) == |RowCells(text[..i])|
    ensures WellWrapped(text, width, maxRows, rows + [last])
  {
    hide Colored, KeepsForeground, StartsTracked, KeptCount, Wrapped;
    EndColored(text, i, rows, row, last, width);
    StartsOfWrapped(text, width, maxRows, rows + [last]);
  }

  // ----- how rows open and close

  predicate EndsAs(row: Ansi, end: Ansi) {
    |end| <= |row| && row[|row| - |end|..] == end
  }

  /** The row opens with the state in which the one before it ended, reset apart, and the fill. */
  predicate FollowsOn(before: Ansi, row: Ansi, fillBg: Ansi, rst: Ansi) {
    EndsAs(before, rst) && AnsiStateOf(before[..|before| - |rst|]) + fillBg <= row
  }

  /** Every row ends with the reset, and every further one follows on. */
  ghost predicate Chained(rows: seq<Ansi>, fillBg: Ansi, rst: Ansi) {
    && (forall r :: 0 <= r < |rows| ==> EndsAs(rows[r], rst))
    && forall r :: 0 < r < |rows| ==> FollowsOn(rows[r - 1], rows[r], fillBg, rst)
  }

  /** How the last row ends: filled up, or with the dimmed cut mark when there is room for it. */
  function Ending(text: Ansi, width: nat, maxRows: int, shown: nat, fillBg: Ansi, rst: Ansi, fgDim: Ansi): Ansi {
    if Fits(|RowCells(text)|, width, maxRows) then fillBg + Spaces(Max(0, shown - |RowCells(text)|)) + rst
    else if width > 2 then rst + fgDim + [Vis(CUT_MARK)] + rst
    else fillBg + rst
  }

  ghost predicate Closes(text: Ansi, width: nat, maxRows: int, rows: seq<Ansi>, fillBg: Ansi, rst: Ansi, fgDim: Ansi) {
    && rows != [] && Chained(rows, fillBg, rst)
    && EndsAs(rows[|rows| - 1], Ending(text, width, maxRows, |Shown(rows)|, fillBg, rst, fgDim))
  }

  /** What the loop keeps: the rows so far are chained and the row under construction follows on. */
  ghost predicate Chaining(rows: seq<Ansi>, row: Ansi, fillBg: Ansi, rst: Ansi) {
    Chained(rows, fillBg, rst) && (rows != [] ==> FollowsOn(rows[|rows| - 1], row, fillBg, rst))
  }

  lemma StartChains(fillBg: Ansi, rst: Ansi)
    ensures Chaining([], [], fillBg, rst)
  {
  }

  lemma TokenChains(rows: seq<Ansi>, row: Ansi, t: Token, fillBg: Ansi, rst: Ansi)
    requires Chaining(rows, row, fillBg, rst)
    ensures Chaining(rows, row + [t], fillBg, rst)
  {
    hide AnsiStateOf, Chained, EndsAs;
    assert row <= row + [t];
  }

  lemma EndsAsItself(front: Ansi, end: Ansi)
    ensures EndsAs(front + end, end) && (front + end)[..|front|] == front
  {
  }

  lemma PushChains(rows: seq<Ansi>, row: Ansi, last: Ansi, fillBg: Ansi, rst: Ansi)
    requires Chaining(rows, row, fillBg, rst) && row <= last && EndsAs(last, rst)
    ensures Chained(rows + [last], fillBg, rst)
  {
    hide AnsiStateOf, EndsAs;
    if rows != [] {
      assert FollowsOn(rows[|rows| - 1], last, fillBg, rst);
    }
  }

  lemma BreakChains(rows: seq<Ansi>, row: Ansi, fillBg: Ansi, rst: Ansi)
    requires Chaining(rows, row, fillBg, rst)
    ensures Chaining(rows + [row + rst], AnsiStateOf(row) + fillBg, fillBg, rst)
  {
    EndsAsItself(row, rst);
    hide AnsiStateOf, EndsAs, Chained;
    PushChains(rows, row, row + rst, fillBg, rst);
  }

  lemma CutDoesNotFit(text: Ansi, i: nat, rows: seq<Ansi>, row: Ansi, width: nat, maxRows: int)
    requires 0 < width && Progress(text, i, rows, row, if width > 2 then width - 1 else width, width)
    requires |rows| == Max(1, maxRows) - 1 && |RowCells(text)| > width
    requires i < |text| && text[i].Vis?
    ensures !Fits(|RowCells(text)|, width, maxRows)
  {
    ShownOfFull(rows, width);
    CapacityOf(width, maxRows);
    CellAt(text, i);
    hide Capacity;
  }

  /** Any visible character among the tokens from `i` on. */
  method HasMore(text: Ansi, i: nat) returns (hasMore: bool)
    requires i <= |text|
    ensures hasMore <==> exists j :: i <= j < |text| && text[j].Vis?
  {
    for j := i to |text|
      invariant forall k :: i <= k < j ==> text[k].Esc?
    {
      if text[j].Vis? {
        return true;
      }
    }
    return false;
  }

  /** The text, and when it is short the fill, spaces and, after a fill, the reset. */
  predicate Filled(text: Ansi, width: nat, row: Ansi, fillBg: Ansi, rst: Ansi) {
    var n := |Plain(text)|;
    && (n == width ==> row == text)
    && (n < width ==> row == text + fillBg + Spaces(width - n) + if fillBg == [] then [] else rst)
  }

  /** The whole text on one row. */
  method SingleRow(text: Ansi, width: nat, maxRows: int, fillBg: Ansi, rst: Ansi) returns (rows: seq<Ansi>)
    requires width > 0 && IsBackground(fillBg) && IsReset(rst) && |RowCells(text)| <= width
    ensures WellWrapped(text, width, maxRows, rows)
    ensures |rows| == 1 && Filled(text, width, rows[0], fillBg, rst)
  {
    var pad := width - |Plain(text)|;
    CellsArePlain(TrackedFg, text, None);
    PaddedRow(text, |RowCells(text)|, width, fillBg, rst);
    PaddedWithoutReset(text, width, fillBg);
    assert pad == 0 ==> RowCells(text)[|RowCells(text)|..] == [];
    rows := if pad > 0 then [text + fillBg + Spaces(pad) + (if fillBg != [] then rst else [])] else [text];
    var row := rows[0];
    assert rows == [row] && text <= row;
    assert Filled(text, width, row, fillBg, rst);
    hide *;
    SingleIsWrapped(text, row, width, maxRows);
    SingleColored(text, row, width, maxRows);
  }

  lemma SingleIsWrapped(text: Ansi, row: Ansi, width: nat, maxRows: int)
    requires |RowCells(text)| <= width == |RowCells(row)|
    requires RowCells(row)[..|RowCells(text)|] == RowCells(text)
    requires AllSpaces(RowCells(row)[|RowCells(text)|..])
    ensures Wrapped(text, width, maxRows, [row])
  {
    ShownOfPush([], row);
    assert [] + [row] == [row];
    assert Shown([row]) == RowCells(row);
    hide RowCells, Shown, Capacity, AllSpaces;
  }

  lemma PaddedWithoutReset(text: Ansi, width: nat, fillBg: Ansi)
    requires |RowCells(text)| <= width && IsBackground(fillBg)
    ensures var r := text + fillBg + Spaces(width - |RowCells(text)|) + [];
            && |RowCells(r)| == width && RowCells(r)[..|RowCells(text)|] == RowCells(text)
            && AllSpaces(RowCells(r)[|RowCells(text)|..])
  {
    var n := width - |RowCells(text)|;
    assert text + fillBg + Spaces(n) + [] == text + fillBg + Spaces(n);
    CellsOfConcat(TrackedFg, text + fillBg, Spaces(n), None);
    CellsOfConcat(TrackedFg, text, fillBg, None);
    BackgroundKeepsForeground(fillBg, Fg(text));
    SpacesShow(TrackedFg, n, Fg(text));
  }

  lemma CutCount(text: Ansi, i: nat, rows: seq<Ansi>, row: Ansi, width: nat, maxRows: int)
    requires 0 < width && Progress(text, i, rows, row, if width > 2 then width - 1 else width, width)
    requires |rows| == Max(1, maxRows) - 1 && |RowCells(text)| > width
    requires i < |text| && text[i].Vis?
    ensures KeptCount(text, width, maxRows) == |RowCells(text[..i])|
  {
    ShownOfFull(rows, width);
    CapacityOf(width, maxRows);
    CellAt(text, i);
    hide Capacity;
  }

  lemma CutCloses(text: Ansi, i: nat, rows: seq<Ansi>, row: Ansi, last: Ansi, width: nat, maxRows: int, fillBg: Ansi, rst: Ansi, fgDim: Ansi)
    requires 0 < width && Progress(text, i, rows, row, if width > 2 then width - 1 else width, width)
    requires |rows| == Max(1, maxRows) - 1 && |RowCells(text)| > width
    requires i < |text| && text[i].Vis? && Chaining(rows, row, fillBg, rst)
    requires last == if width > 2 then row + rst + fgDim + [Vis(CUT_MARK)] + rst else row + fillBg + Spaces(0) + rst
    ensures Closes(text, width, maxRows, rows + [last], fillBg, rst, fgDim)
  {
    CutDoesNotFit(text, i, rows, row, width, maxRows);
    CutEnding(text, width, maxRows, |Shown(rows + [last])|, fillBg, rst, fgDim);
    var end := if width > 2 then rst + fgDim + [Vis(CUT_MARK)] else fillBg;
    CutShape(row, rst, fgDim, fillBg);
    hide *;
    LastCloses(text, rows, row, last, end, width, maxRows, fillBg, rst, fgDim);
  }

  lemma CutShape(row: Ansi, rst: Ansi, fgDim: Ansi, fillBg: Ansi)
    ensures row + fillBg + Spaces(0) + rst == row + (fillBg + rst) == row + fillBg + rst
    ensures row + rst + fgDim + [Vis(CUT_MARK)] + rst
         == row + (rst + fgDim + [Vis(CUT_MARK)] + rst)
         == row + (rst + fgDim + [Vis(CUT_MARK)]) + rst
  {
    assert row + fillBg + Spaces(0) == row + fillBg;
  }

  lemma CutEnding(text: Ansi, width: nat, maxRows: int, shown: nat, fillBg: Ansi, rst: Ansi, fgDim: Ansi)
    requires !Fits(|RowCells(text)|, width, maxRows)
    ensures Ending(text, width, maxRows, shown, fillBg, rst, fgDim)
         == (if width > 2 then rst + fgDim + [Vis(CUT_MARK)] else fillBg) + rst
  {
  }

  lemma LastCloses(text: Ansi, rows: seq<Ansi>, row: Ansi, last: Ansi, end: Ansi, width: nat, maxRows: int,
                   fillBg: Ansi, rst: Ansi, fgDim: Ansi)
    requires Chaining(rows, row, fillBg, rst) && last == row + (end + rst) == row + end + rst
    requires Ending(text, width, maxRows, |Shown(rows + [last])|, fillBg, rst, fgDim) == end + rst
    ensures Closes(text, width, maxRows, rows + [last], fillBg, rst, fgDim)
  {
    hide Chaining, Chained, Ending, EndsAs, Shown;
    EndsAsItself(row, end + rst);
    EndsAsItself(row + end, rst);
    PushChains(rows, row, last, fillBg, rst);
  }

  lemma EndCloses(text: Ansi, rows: seq<Ansi>, row: Ansi, last: Ansi, vis: nat, width: nat, maxRows: int, fillBg: Ansi, rst: Ansi, fgDim: Ansi)
    requires Chaining(rows, row, fillBg, rst) && vis <= width
    requires last == row + fillBg + Spaces(width - vis) + rst && Fits(|RowCells(text)|, width, maxRows)
    requires |Shown(rows + [last])| - |RowCells(text)| == width - vis
    ensures Closes(text, width, maxRows, rows + [last], fillBg, rst, fgDim)
  {
    hide Chaining, Closes, AnsiStateOf, Fits, RowCells, Shown;
    var end := fillBg + Spaces(width - vis);
    assert last == row + (end + rst);
    assert last == row + end + rst;
    LastCloses(text, rows, row, last, end, width, maxRows, fillBg, rst, fgDim);
  }

  /** The last row of a text that goes on: the cut mark when the row is wide enough for one. */
  method CutRow(text: Ansi, i: nat, rows: seq<Ansi>, row: Ansi, width: nat, maxRows: int, fillBg: Ansi, rst: Ansi, fgDim: Ansi)
    returns (last: Ansi)
    requires IsBackground(fillBg) && IsReset(rst) && AllEscapes(fgDim) && 0 < width
    requires Wrapping(text, i, rows, row, if width > 2 then width - 1 else width, width)
    requires |rows| == Max(1, maxRows) - 1 && |RowCells(text)| > width
    requires i < |text| && text[i].Vis? && Chaining(rows, row, fillBg, rst)
    ensures WellWrapped(text, width, maxRows, rows + [last])
    ensures Closes(text, width, maxRows, rows + [last], fillBg, rst, fgDim)
  {
    var vis := if width > 2 then width - 1 else width;
    var hasMore := HasMore(text, i);
    MarkedRow(row, rst, fgDim);
    PaddedRow(row, vis, width, fillBg, rst);
    CutCount(text, i, rows, row, width, maxRows);
    if hasMore && width > 2 {
      last := row + rst + fgDim + [Vis(CUT_MARK)] + rst;
    } else {
      last := row + fillBg + Spaces(Max(0, width - vis)) + rst;
    }
    assert row <= last;
    CutCloses(text, i, rows, row, last, width, maxRows, fillBg, rst, fgDim);
    hide Wrapped, Shown, Capacity, Colored, WellWrapped, KeptCount, Closes, Chaining, EndsAs;
    CutIsWrapped(text, i, rows, row, last, width, maxRows);
    EndWraps(text, i, rows, row, last, width, maxRows);
  }

  /** The last row of a text that has ended. */
  method EndRow(text: Ansi, rows: seq<Ansi>, row: Ansi, vis: nat, width: nat, maxRows: int, onLastRow: bool, fillBg: Ansi, rst: Ansi, fgDim: Ansi)
    returns (last: Ansi)
    requires IsBackground(fillBg) && IsReset(rst) && Chaining(rows, row, fillBg, rst)
    requires Wrapping(text, |text|, rows, row, vis, width) && 0 < vis
    requires vis <= (if onLastRow && width > 2 then width - 1 else width)
    requires if onLastRow then |rows| == Max(1, maxRows) - 1 else |rows| < Max(1, maxRows) - 1
    ensures WellWrapped(text, width, maxRows, rows + [last])
    ensures Closes(text, width, maxRows, rows + [last], fillBg, rst, fgDim)
  {
    last := row + fillBg + Spaces(Max(0, width - vis)) + rst;
    assert row <= last;
    PaddedRow(row, vis, width, fillBg, rst);
    ShownOfFull(rows, width);
    RowsFit(|rows|, vis, width, maxRows, onLastRow);
    assert text[..|text|] == text;
    ShownOfPush(rows, last);
    hide Wrapped, Shown, Fits, RowCells, Colored, WellWrapped, Closes, Chaining;
    EndCloses(text, rows, row, last, vis, width, maxRows, fillBg, rst, fgDim);
    WholeIsWrapped(text, rows, row, last, vis, width, maxRows);
    EndWraps(text, |text|, rows, row, last, width, maxRows);
  }

  /** The rows of a text wider than one row. */
  method WrapRows(text: Ansi, width: nat, maxRows: int, fillBg: Ansi, rst: Ansi, fgDim: Ansi) returns (rows: seq<Ansi>)
    requires IsBackground(fillBg) && IsReset(rst) && AllEscapes(fgDim) && 0 < width < |RowCells(text)|
    ensures WellWrapped(text, width, maxRows, rows)
    ensures Closes(text, width, maxRows, rows, fillBg, rst, fgDim)
  {
    assert Max(1, maxRows) == if maxRows >= 1 then maxRows else 1;
    hide *;
    rows := [];
    var row: Ansi, vis, i, onLastRow, effectiveWidth := [], 0, 0, false, width;
    StartWraps(text, width);
    StartChains(fillBg, rst);
    while i < |text|
      invariant 0 <= i <= |text| && 0 <= vis <= effectiveWidth
      invariant Wrapping(text, i, rows, row, vis, width)
      invariant Chaining(rows, row, fillBg, rst)
      invariant i > 0 ==> onLastRow || |rows| < Max(1, maxRows) - 1
      invariant i == 0 ==> rows == [] && vis == 0
      invariant onLastRow ==> |rows| == Max(1, maxRows) - 1
      invariant rows != [] ==> vis > 0
      invariant row == [] ==> i == 0
      invariant effectiveWidth == if onLastRow && width > 2 then width - 1 else width
      decreases |text| - i
    {
      if !onLastRow && |rows| >= maxRows - 1 {
        onLastRow := true;
        effectiveWidth := if width > 2 then width - 1 else width;
      }
      if text[i].Esc? {
        TokenWraps(text, i, rows, row, vis, width);
        TokenChains(rows, row, text[i], fillBg, rst);
        row := row + [text[i]];
        i := i + 1;
        continue;
      }
      if vis >= effectiveWidth {
        if onLastRow {
          var last := CutRow(text, i, rows, row, width, maxRows, fillBg, rst, fgDim);
          rows := rows + [last];
          return;
        }
        BreakWraps(text, i, rows, row, width, fillBg, rst);
        BreakChains(rows, row, fillBg, rst);
        var state := AnsiState(row);
        rows := rows + [row + rst];
        row := state + fillBg;
        vis := 0;
        if |rows| >= maxRows - 1 {
          onLastRow := true;
          effectiveWidth := if width > 2 then width - 1 else width;
        }
      } else {
        TokenWraps(text, i, rows, row, vis, width);
      }
      TokenChains(rows, row, text[i], fillBg, rst);
      row := row + [text[i]];
      vis := vis + 1;
      i := i + 1;
    }
    EndIsVisible(text, rows, row, vis, width);
    if |row| > 0 || |rows| == 0 {
      var last := EndRow(text, rows, row, vis, width, maxRows, onLastRow, fillBg, rst, fgDim);
      rows := rows + [last];
    }
  }

  /**
    Well-wrapped rows for every text and positive width, on one row filled up, on more with each closed by the reset and
    re-opened on the next; one empty row for any other width.
   */
  method WrapAnsi(text: Ansi, width: int, maxRows: int, fillBg: Ansi, rst: Ansi, fgDim: Ansi) returns (rows: seq<Ansi>)
    requires IsBackground(fillBg) && IsReset(rst) && AllEscapes(fgDim)
    ensures width <= 0 ==> rows == [[]]
    ensures width > 0 ==> WellWrapped(text, width, maxRows, rows)
    ensures 0 < width && |Plain(text)| <= width ==> |rows| == 1 && Filled(text, width, rows[0], fillBg, rst)
    ensures 0 < width < |Plain(text)| ==> Closes(text, width, maxRows, rows, fillBg, rst, fgDim)
  {
    if width <= 0 {
      return [[]];
    }
    CellsArePlain(TrackedFg, text, None);
    if |Plain(text)| <= width {
      rows := SingleRow(text, width, maxRows, fillBg, rst);
    } else {
      rows := WrapRows(text, width, maxRows, fillBg, rst, fgDim);
    }
  }

  lemma SingleColored(text: Ansi, row: Ansi, width: nat, maxRows: int)
    requires |RowCells(text)| <= width && text <= row && Wrapped(text, width, maxRows, [row])
    ensures WellWrapped(text, width, maxRows, [row])
  {
    StartsOfWrapped(text, width, maxRows, [row]);
    SameLength(text);
    CellsOfRest(FgEffect, row, |text|, None);
    assert row[..|text|] == text;
    RealShownOfPush([], row);
    assert [] + [row] == [row];
    hide RowCells, RealCells, Wrapped;
  }

  /** At the end of a text wider than a row the last row has shown something. */
  lemma EndIsVisible(text: Ansi, rows: seq<Ansi>, row: Ansi, vis: int, width: nat)
    requires Wrapping(text, |text|, rows, row, vis, width) && |RowCells(text)| > width
    requires rows != [] ==> vis > 0
    ensures vis > 0 && row != []
  {
    assert text[..|text|] == text;
  }
}
