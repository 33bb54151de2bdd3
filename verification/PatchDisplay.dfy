/**
  What a patch preview displays, told by the raw lines of the patch: which lines stand together, where the
  separators are, and which number each line carries.
 */
module PatchDisplay {
  import opened Prelude
  import opened PatchPreview
  import opened PatchLaws

  /** A displayed row: a raw line of the patch, or a separator. */
  datatype Row = Line(raw: string) | Gap

  // ----- which lines stand together

  /** The body lines between the hunk headers, for every stretch between two headers, the last one given apart. */
  datatype Stretches = Stretches(before: seq<Row>, last: seq<string>)

  function LineRows(raws: seq<string>): (r: seq<Row>)
    ensures |r| == |raws| && forall i :: 0 <= i < |r| ==> r[i] == Line(raws[i])
  {
    seq(|raws|, i requires 0 <= i < |raws| => Line(raws[i]))
  }

  /** A stretch put behind others: a gap only between two that are not empty. */
  function Joined(before: seq<Row>, raws: seq<string>): seq<Row> {
    if raws == [] then before
    else if before == [] then LineRows(raws)
    else before + [Gap] + LineRows(raws)
  }

  function StretchesOf(lines: seq<string>): Stretches {
    if lines == [] then Stretches([], [])
    else
      var s, raw := StretchesOf(lines[..|lines| - 1]), lines[|lines| - 1];
      if "@@" <= raw then Stretches(Joined(s.before, s.last), [])
      else if IsBody(raw) then s.(last := s.last + [raw])
      else s
  }

  /** The stretches of body lines that are not empty, in order, with one gap between any two. */
  function Layout(lines: seq<string>): seq<Row> {
    Joined(StretchesOf(lines).before, StretchesOf(lines).last)
  }

  predicate IsRow(row: Row, d: DiffLine) {
    if row.Gap? then d.Separator? else d.Numbered? && IsShownAs(row.raw, d.line)
  }

  ghost predicate Displays(rows: seq<Row>, ds: seq<DiffLine>) {
    |ds| == |rows| && forall i :: 0 <= i < |rows| ==> IsRow(rows[i], ds[i])
  }

  /** The rows so far: a header that follows body lines has put its separator already. */
  function RowsSoFar(s: Stretches): seq<Row> {
    if s.last == [] && s.before != [] then s.before + [Gap] else Joined(s.before, s.last)
  }

  lemma KindsAreRaw(raw: string)
    ensures IsHeader(raw) <==> "@@" <= raw
    ensures IsHeader(raw) ==> !IsMove(raw)
    ensures IsBody(raw) <==> !IsMove(raw) && !IsHeader(raw) && raw != NO_NEWLINE
  {
    assert IsMove(raw) ==> raw[0] == '*';
    assert "@@" <= raw ==> raw[0] == '@';
  }

  ghost predicate EndsInLine(rows: seq<Row>) {
    rows != [] ==> rows[0].Line? && rows[|rows| - 1].Line?
  }

  lemma JoinedEnds(before: seq<Row>, raws: seq<string>)
    requires EndsInLine(before)
    ensures EndsInLine(Joined(before, raws))
  {
  }

  lemma {:induction false} StretchesEnd(lines: seq<string>)
    ensures EndsInLine(StretchesOf(lines).before)
  {
    if lines != [] {
      var s := StretchesOf(lines[..|lines| - 1]);
      StretchesEnd(lines[..|lines| - 1]);
      JoinedEnds(s.before, s.last);
      hide Joined, EndsInLine, IsBody;
    }
  }

  /** One more body line. */
  lemma RowsOfBody(s: Stretches, raw: string)
    requires EndsInLine(s.before)
    ensures RowsSoFar(s.(last := s.last + [raw])) == RowsSoFar(s) + [Line(raw)]
  {
    assert LineRows(s.last + [raw]) == LineRows(s.last) + [Line(raw)];
  }

  /** A header closes the stretch: its separator follows the rows, unless there are none or one is there already. */
  lemma RowsOfHeader(s: Stretches)
    requires EndsInLine(s.before)
    ensures var rows := RowsSoFar(s);
            RowsSoFar(Stretches(Joined(s.before, s.last), [])) == if rows != [] && rows[|rows| - 1].Line? then rows + [Gap] else rows
  {
    JoinedEnds(s.before, s.last);
  }

  lemma DisplaysNext(rows: seq<Row>, ds: seq<DiffLine>, row: Row, d: DiffLine)
    requires Displays(rows, ds) && IsRow(row, d)
    ensures Displays(rows + [row], ds + [d])
  {
  }

  lemma BodyDisplays(s: Pass, starts: seq<HunkStart>, header: HeaderNumbers, raw: string, rows: seq<Row>)
    requires IsBody(raw) && Displays(rows, s.lines)
    ensures Displays(rows + [Line(raw)], PassStep(s, starts, header, raw).lines)
  {
    KindsAreRaw(raw);
    BodyLineByMarker(raw);
    var entered := if s.inHunk then s else EnterHunk(s, starts, None);
    var d := EmitsOne(entered, ParseBodyLine(raw));
    hide EmitLine, ParseBodyLine, IsShownAs, Displays, IsBody, IsMove, IsHeader;
    DisplaysNext(rows, s.lines, Line(raw), d);
  }

  lemma HeaderDisplays(s: Pass, starts: seq<HunkStart>, header: HeaderNumbers, raw: string, rows: seq<Row>)
    requires "@@" <= raw && Displays(rows, s.lines)
    ensures Displays(if rows != [] && rows[|rows| - 1].Line? then rows + [Gap] else rows, PassStep(s, starts, header, raw).lines)
  {
    KindsAreRaw(raw);
    hide IsBody, IsMove, IsHeader, IsShownAs;
    assert rows != [] ==> IsRow(rows[|rows| - 1], s.lines[|rows| - 1]);
    assert PassStep(s, starts, header, raw).lines
        == if s.lines != [] && !s.lines[|s.lines| - 1].Separator? then s.lines + [Separator] else s.lines;
    if rows != [] && rows[|rows| - 1].Line? {
      DisplaysNext(rows, s.lines, Gap, Separator);
    }
  }

  lemma {:induction false} PassDisplays(lines: seq<string>, starts: seq<HunkStart>, header: HeaderNumbers)
    ensures Displays(RowsSoFar(StretchesOf(lines)), PassOf(lines, starts, header).lines)
  {
    hide PassStep, RowsSoFar, Joined, Displays, IsBody, IsMove, IsHeader, EndsInLine;
    if lines == [] {
      NothingDisplayed();
    } else {
      var n := |lines| - 1;
      var s, pass, raw := StretchesOf(lines[..n]), PassOf(lines[..n], starts, header), lines[n];
      PassDisplays(lines[..n], starts, header);
      StretchesEnd(lines[..n]);
      KindsAreRaw(raw);
      if "@@" <= raw {
        HeaderDisplays(pass, starts, header, raw, RowsSoFar(s));
        RowsOfHeader(s);
      } else if IsBody(raw) {
        BodyDisplays(pass, starts, header, raw, RowsSoFar(s));
        RowsOfBody(s, raw);
      } else {
        SkippedStep(pass, starts, header, raw);
      }
    }
  }

  lemma NothingDisplayed()
    ensures Displays(RowsSoFar(Stretches([], [])), [])
  {
  }

  lemma TrimsNothing(ds: seq<DiffLine>)
    requires ds != [] ==> !ds[0].Separator? && !ds[|ds| - 1].Separator?
    ensures TrimBack(TrimFront(ds)) == ds
  {
  }

  lemma TrimsLast(ds: seq<DiffLine>)
    requires ds != [] && !ds[0].Separator? && !ds[|ds| - 1].Separator?
    ensures TrimBack(TrimFront(ds + [Separator])) == ds
  {
    assert (ds + [Separator])[..|ds|] == ds;
    TrimsNothing(ds);
  }

  lemma TrimmedDisplays(s: Stretches, ds: seq<DiffLine>)
    requires EndsInLine(s.before) && Displays(RowsSoFar(s), ds)
    ensures Displays(Joined(s.before, s.last), TrimBack(TrimFront(ds)))
  {
    hide TrimFront, TrimBack, IsShownAs;
    JoinedEnds(s.before, s.last);
    if s.last == [] && s.before != [] {
      var front := ds[..|ds| - 1];
      assert ds == front + [Separator];
      assert IsRow(s.before[0], front[0]) && IsRow(s.before[|front| - 1], front[|front| - 1]);
      TrimsLast(front);
    } else {
      if ds != [] {
        assert IsRow(RowsSoFar(s)[0], ds[0]) && IsRow(RowsSoFar(s)[|ds| - 1], ds[|ds| - 1]);
      }
      TrimsNothing(ds);
    }
  }

  /**
    The whole display, for every patch and source: the stretches of body lines between hunk headers, each line
    with its marker, and exactly one separator between two stretches that are not empty.
   */
  lemma PreviewIsLaidOut(lines: seq<string>, source: Option<string>, header: HeaderNumbers)
    ensures Displays(Layout(lines), UpdateDiff(lines, source, header).lines)
  {
    var starts := InferredStarts(lines, source);
    PassDisplays(lines, starts, header);
    StretchesEnd(lines);
    hide InferredStarts, PassOf, StretchesOf, Displays, TrimFront, TrimBack, RowsSoFar, EndsInLine, Joined;
    TrimmedDisplays(StretchesOf(lines), PassOf(lines, starts, header).lines);
  }

  // ----- which number a line carries

  /** The latest hunk header, or -1. */
  function LastHeader(lines: seq<string>): (h: int)
    ensures -1 <= h < |lines|
  {
    if lines == [] then -1
    else if "@@" <= lines[|lines| - 1] then |lines| - 1
    else LastHeader(lines[..|lines| - 1])
  }

  /** The hunks opened: one for each header, and one for body lines in front of all headers. */
  function OpenedBy(lines: seq<string>): nat {
    if lines == [] then 0
    else
      var n, raw := OpenedBy(lines[..|lines| - 1]), lines[|lines| - 1];
      if "@@" <= raw then n + 1 else if IsBody(raw) && n == 0 then 1 else n
  }

  /** Where the hunk of the next line starts: as its header says, or else as inferred for the hunk by its place. */
  function HunkStartsAt(lines: seq<string>, starts: seq<HunkStart>, header: HeaderNumbers): HunkStart {
    var h := LastHeader(lines);
    if h < 0 then StartAt(starts, 0)
    else if header(lines[h]).Some? then HunkStart(Some(header(lines[h]).value.0), Some(header(lines[h]).value.1))
    else StartAt(starts, OpenedBy(lines[..h]))
  }

  /** The body lines since the latest header that do not start with `c`. */
  function SinceHeader(lines: seq<string>, c: char): nat {
    if lines == [] || "@@" <= lines[|lines| - 1] then 0
    else
      var raw := lines[|lines| - 1];
      SinceHeader(lines[..|lines| - 1], c) + if IsBody(raw) && !([c] <= raw) then 1 else 0
  }

  /** The counters of the pass are the start of the hunk moved by the old and new lines since. */
  ghost predicate Counts(s: Pass, lines: seq<string>, starts: seq<HunkStart>, header: HeaderNumbers) {
    && s.hunkIndex == OpenedBy(lines)
    && s.inHunk == (OpenedBy(lines) > 0)
    && (s.inHunk ==>
          && s.oldLine == Shift(HunkStartsAt(lines, starts, header).oldStart, SinceHeader(lines, '+'))
          && s.newLine == Shift(HunkStartsAt(lines, starts, header).newStart, SinceHeader(lines, '-')))
  }

  lemma HunkStartKept(lines: seq<string>, raw: string, starts: seq<HunkStart>, header: HeaderNumbers)
    requires !("@@" <= raw)
    ensures HunkStartsAt(lines + [raw], starts, header) == HunkStartsAt(lines, starts, header)
  {
    assert (lines + [raw])[..|lines|] == lines;
    var h := LastHeader(lines);
    if h >= 0 {
      assert (lines + [raw])[..h] == lines[..h];
    }
  }

  lemma HunkStartNew(lines: seq<string>, raw: string, starts: seq<HunkStart>, header: HeaderNumbers)
    requires "@@" <= raw
    ensures HunkStartsAt(lines + [raw], starts, header)
         == if header(raw).Some? then HunkStart(Some(header(raw).value.0), Some(header(raw).value.1))
            else StartAt(starts, OpenedBy(lines))
  {
    assert (lines + [raw])[..|lines|] == lines;
  }

  lemma CountsOfAppend(lines: seq<string>, raw: string)
    ensures OpenedBy(lines + [raw]) == if "@@" <= raw then OpenedBy(lines) + 1
                                       else if IsBody(raw) && OpenedBy(lines) == 0 then 1 else OpenedBy(lines)
    ensures SinceHeader(lines + [raw], '+')
         == if "@@" <= raw then 0 else SinceHeader(lines, '+') + if IsBody(raw) && !("+" <= raw) then 1 else 0
    ensures SinceHeader(lines + [raw], '-')
         == if "@@" <= raw then 0 else SinceHeader(lines, '-') + if IsBody(raw) && !("-" <= raw) then 1 else 0
  {
    assert (lines + [raw])[..|lines|] == lines;
  }

  lemma HeaderCounts(s: Pass, lines: seq<string>, raw: string, starts: seq<HunkStart>, header: HeaderNumbers)
    requires Counts(s, lines, starts, header) && "@@" <= raw
    ensures Counts(PassStep(s, starts, header, raw), lines + [raw], starts, header)
  {
    hide HunkStartsAt, OpenedBy, SinceHeader, IsBody;
    KindsAreRaw(raw);
    CountsOfAppend(lines, raw);
    HunkStartNew(lines, raw, starts, header);
    hide IsMove, IsHeader, StartAt;
  }

  /** Without any hunk opened there is no header and no body line so far. */
  lemma {:induction false} NothingOpened(lines: seq<string>)
    requires OpenedBy(lines) == 0
    ensures LastHeader(lines) == -1 && SinceHeader(lines, '+') == 0 == SinceHeader(lines, '-')
  {
    if lines != [] {
      NothingOpened(lines[..|lines| - 1]);
    }
  }

  /** The counters a body line is emitted with. */
  lemma EnteredCounts(s: Pass, lines: seq<string>, starts: seq<HunkStart>, header: HeaderNumbers)
    requires Counts(s, lines, starts, header)
    ensures var entered := if s.inHunk then s else EnterHunk(s, starts, None);
            && entered.inHunk && entered.lines == s.lines
            && entered.hunkIndex == (if OpenedBy(lines) == 0 then 1 else OpenedBy(lines))
            && entered.oldLine == Shift(HunkStartsAt(lines, starts, header).oldStart, SinceHeader(lines, '+'))
            && entered.newLine == Shift(HunkStartsAt(lines, starts, header).newStart, SinceHeader(lines, '-'))
  {
    if OpenedBy(lines) == 0 {
      NothingOpened(lines);
    }
    hide OpenedBy, SinceHeader, LastHeader;
  }

  lemma BodyCounts(s: Pass, lines: seq<string>, raw: string, starts: seq<HunkStart>, header: HeaderNumbers)
    requires Counts(s, lines, starts, header) && IsBody(raw)
    ensures Counts(PassStep(s, starts, header, raw), lines + [raw], starts, header)
    ensures EmitsNumbered(s, PassStep(s, starts, header, raw), lines, raw, starts, header)
  {
    hide HunkStartsAt, OpenedBy, SinceHeader, ParseBodyLine, StartAt;
    KindsAreRaw(raw);
    CountsOfAppend(lines, raw);
    HunkStartKept(lines, raw, starts, header);
    EnteredCounts(s, lines, starts, header);
    BodyLineByMarker(raw);
    hide IsBody, IsMove, IsHeader, EnterHunk;
  }

  /** The line is added with the number of its hunk moved by the old, or new, lines before it in the hunk. */
  ghost predicate EmitsNumbered(before: Pass, after: Pass, lines: seq<string>, raw: string, starts: seq<HunkStart>, header: HeaderNumbers) {
    var start := HunkStartsAt(lines, starts, header);
    exists line: BodyLine ::
      && IsShownAs(raw, line)
      && after.lines == before.lines + [Numbered(line,
           if "+" <= raw then None else Shift(start.oldStart, SinceHeader(lines, '+')),
           if "-" <= raw then None else Shift(start.newStart, SinceHeader(lines, '-')))]
  }

  lemma {:induction false} PassCounts(lines: seq<string>, starts: seq<HunkStart>, header: HeaderNumbers)
    ensures Counts(PassOf(lines, starts, header), lines, starts, header)
  {
    if lines != [] {
      var n := |lines| - 1;
      var s := PassOf(lines[..n], starts, header);
      PassCounts(lines[..n], starts, header);
      assert lines == lines[..n] + [lines[n]];
      KindsAreRaw(lines[n]);
      hide PassStep, IsMove, IsHeader, IsBody;
      if "@@" <= lines[n] {
        HeaderCounts(s, lines[..n], lines[n], starts, header);
      } else if IsBody(lines[n]) {
        BodyCounts(s, lines[..n], lines[n], starts, header);
      } else {
        SkippedStep(s, starts, header, lines[n]);
        CountsOfAppend(lines[..n], lines[n]);
        HunkStartKept(lines[..n], lines[n], starts, header);
        hide HunkStartsAt, OpenedBy, SinceHeader;
      }
    }
  }

  /**
    For every patch, with or without numbers in its headers: a body line carries the start of its hunk, as the header
    says or as inferred, moved by the old (or new) lines that stand before it in the hunk; no other line adds a row
    with numbers.
   */
  lemma LinesCountFromTheirHeader(lines: seq<string>, starts: seq<HunkStart>, header: HeaderNumbers, i: nat)
    requires i < |lines|
    ensures var before, after := PassOf(lines[..i], starts, header), PassOf(lines[..i + 1], starts, header);
            if IsBody(lines[i]) then EmitsNumbered(before, after, lines[..i], lines[i], starts, header)
            else after.lines == before.lines || after.lines == before.lines + [Separator]
  {
    PassCounts(lines[..i], starts, header);
    PassNext(lines, starts, header, i);
    KindsAreRaw(lines[i]);
    hide Counts, EmitsNumbered, PassOf, EmitLine, ParseBodyLine;
    if IsBody(lines[i]) {
      BodyCounts(PassOf(lines[..i], starts, header), lines[..i], lines[i], starts, header);
    }
  }
}
