/**
  Why the numbers of a patch preview are right: the two passes stay aligned hunk by hunk, an old
  number names the source line, and a new number names the line of the patched file.
 */
module PatchLaws {
  import opened Prelude
  import opened TextLines
  import opened PatchPreview

  /** A patch as apply-patch writes it: no numbers in hunk headers, no end-of-file markers. */
  ghost predicate Plain(lines: seq<string>, header: HeaderNumbers) {
    forall i :: 0 <= i < |lines| ==> lines[i] != NO_NEWLINE && (IsHeader(lines[i]) ==> header(lines[i]).None?)
  }

  // ----- hunks grow only at the end

  function Opened(s: Split): nat {
    |s.done| + if s.current.Some? then 1 else 0
  }

  /** `s` is a stage on the way to `hunks`. */
  ghost predicate StageOf(s: Split, hunks: seq<seq<string>>) {
    && s.done <= hunks
    && (s.current.Some? ==> |s.done| < |hunks| && s.current.value <= hunks[|s.done|])
  }

  lemma StageBefore(s: Split, raw: string, hunks: seq<seq<string>>)
    requires StageOf(SplitStep(s, raw), hunks)
    ensures StageOf(s, hunks)
  {
  }

  lemma {:induction false} PrefixIsStage(lines: seq<string>, i: nat)
    requires i <= |lines|
    ensures StageOf(SplitOf(lines[..i]), Hunks(lines))
    decreases |lines| - i
  {
    if i == |lines| {
      assert lines[..i] == lines;
    } else {
      PrefixIsStage(lines, i + 1);
      assert lines[..i + 1][..i] == lines[..i];
      StageBefore(SplitOf(lines[..i]), lines[i], Hunks(lines));
    }
  }

  // ----- what the first pass found, hunk by hunk

  lemma {:induction false} StartsCount(source: seq<string>, hunks: seq<seq<string>>)
    ensures |LocatedAll(source, hunks).starts| == |hunks|
  {
    if hunks != [] {
      StartsCount(source, hunks[..|hunks| - 1]);
    }
  }

  /** The start of hunk `k` depends on the hunks up to it only. */
  lemma {:induction false} StartsOfPrefix(source: seq<string>, hunks: seq<seq<string>>, k: nat)
    requires k < |hunks|
    ensures StartAt(LocatedAll(source, hunks).starts, k) == StartOf(source, LocatedAll(source, hunks[..k]), hunks[k])
    decreases |hunks|
  {
    hide StartOf, MatchOf;
    var n := |hunks| - 1;
    StartsCount(source, hunks[..n]);
    if k < n {
      StartsOfPrefix(source, hunks[..n], k);
      assert hunks[..n][..k] == hunks[..k];
    }
  }

  lemma FindMatches(source: seq<string>, needle: seq<string>, from: nat)
    requires from <= |source|
    ensures Find(source, needle, from) >= 0 ==>
              from <= Find(source, needle, from) && MatchesAt(source, needle, Find(source, needle, from))
  {
    if needle != [] {
      FindIsFirst(source, needle, from);
    }
  }

  lemma FindsSomewhere(source: seq<string>, needle: seq<string>)
    ensures Find(source, needle, 0) < 0 ==> needle != [] && forall i: nat :: !MatchesAt(source, needle, i)
  {
    if needle != [] {
      FindIsFirst(source, needle, 0);
    }
  }

  lemma {:induction false} SearchStaysInside(source: seq<string>, hunks: seq<seq<string>>)
    ensures LocatedAll(source, hunks).searchFrom <= |source|
  {
    if hunks != [] {
      var s, hunk := LocatedAll(source, hunks[..|hunks| - 1]), hunks[|hunks| - 1];
      SearchStaysInside(source, hunks[..|hunks| - 1]);
      FindMatches(source, OldLines(hunk), s.searchFrom);
      FindMatches(source, OldLines(hunk), 0);
    }
  }

  /** A located hunk really stands in the source where the first pass says. */
  lemma LocatedHunkMatches(source: seq<string>, hunks: seq<seq<string>>, k: nat)
    requires k < |hunks|
    ensures var start := StartAt(LocatedAll(source, hunks).starts, k).oldStart;
            if start.Some? then start.value >= 1 && MatchesAt(source, OldLines(hunks[k]), start.value - 1)
            else OldLines(hunks[k]) != [] && forall i: nat :: !MatchesAt(source, OldLines(hunks[k]), i)
    ensures StartAt(LocatedAll(source, hunks).starts, k).oldStart.None? <==> StartAt(LocatedAll(source, hunks).starts, k).newStart.None?
  {
    hide LocatedAll, Find, OldLines;
    var s := LocatedAll(source, hunks[..k]);
    StartsOfPrefix(source, hunks, k);
    SearchStaysInside(source, hunks[..k]);
    FindMatches(source, OldLines(hunks[k]), s.searchFrom);
    FindMatches(source, OldLines(hunks[k]), 0);
    FindsSomewhere(source, OldLines(hunks[k]));
  }

  // ----- the lines of a hunk by position

  lemma {:induction false} OldLinesOfPrefix(part: seq<string>, hunk: seq<string>)
    requires part <= hunk
    ensures OldLines(part) <= OldLines(hunk) && NewLines(part) <= NewLines(hunk)
    decreases |hunk|
  {
    if |part| < |hunk| {
      OldLinesOfPrefix(part, hunk[..|hunk| - 1]);
    } else {
      assert part == hunk;
    }
  }

  /** The line after `part` in `hunk` is its next old line, its next new line, or both. */
  lemma NextLineOfHunk(part: seq<string>, raw: string, hunk: seq<string>)
    requires part + [raw] <= hunk
    ensures var line := ParseBodyLine(raw);
            && (line.marker != Add ==> |OldLines(part)| < |OldLines(hunk)| && OldLines(hunk)[|OldLines(part)|] == line.content)
            && (line.marker != Del ==> |NewLines(part)| < |NewLines(hunk)| && NewLines(hunk)[|NewLines(part)|] == line.content)
  {
    var next := part + [raw];
    assert next[..|next| - 1] == part;
    OldLinesOfPrefix(next, hunk);
  }

  lemma {:induction false} HunkDelta(hunk: seq<string>)
    ensures |NewLines(hunk)| - |OldLines(hunk)| == CountMarker(hunk, Add) - CountMarker(hunk, Del)
  {
    if hunk != [] {
      HunkDelta(hunk[..|hunk| - 1]);
    }
  }

  // ----- alignment of the second pass with the first

  function Shift(start: Option<int>, steps: nat): Option<int> {
    if start.Some? then Some(start.value + steps) else None
  }

  /** The second pass has opened as many hunks as the first, and its counters stand inside the current one. */
  ghost predicate Aligned(s: Pass, split: Split, starts: seq<HunkStart>) {
    && s.hunkIndex == Opened(split)
    && s.inHunk == split.current.Some?
    && (s.inHunk ==>
         && s.oldLine == Shift(StartAt(starts, |split.done|).oldStart, |OldLines(split.current.value)|)
         && s.newLine == Shift(StartAt(starts, |split.done|).newStart, |NewLines(split.current.value)|))
  }

  lemma AlignedStep(s: Pass, split: Split, starts: seq<HunkStart>, header: HeaderNumbers, raw: string)
    requires Aligned(s, split, starts) && raw != NO_NEWLINE && (IsHeader(raw) ==> header(raw).None?)
    ensures Aligned(PassStep(s, starts, header, raw), SplitStep(split, raw), starts)
  {
    hide ParseBodyLine, IsMove, IsHeader, Aligned;
    if IsMove(raw) {
    } else if IsHeader(raw) {
      AlignedHeader(s, split, starts, header, raw);
    } else {
      AlignedBody(s, split, starts, header, raw);
    }
  }

  lemma AlignedHeader(s: Pass, split: Split, starts: seq<HunkStart>, header: HeaderNumbers, raw: string)
    requires Aligned(s, split, starts) && !IsMove(raw) && IsHeader(raw) && header(raw).None?
    ensures Aligned(PassStep(s, starts, header, raw), SplitStep(split, raw), starts)
  {
    hide IsMove, IsHeader, StartAt, EmitLine;
    OfNothing();
  }

  lemma AlignedBody(s: Pass, split: Split, starts: seq<HunkStart>, header: HeaderNumbers, raw: string)
    requires Aligned(s, split, starts) && !IsMove(raw) && !IsHeader(raw) && raw != NO_NEWLINE
    ensures Aligned(PassStep(s, starts, header, raw), SplitStep(split, raw), starts)
  {
    hide ParseBodyLine, IsMove, IsHeader, StartAt;
    OfNothing();
    var part := if split.current.Some? then split.current.value else [];
    assert (part + [raw])[..|part|] == part;
  }

  lemma OfNothing()
    ensures OldLines([]) == [] && NewLines([]) == []
  {
  }

  lemma {:induction false} PassesAlign(lines: seq<string>, starts: seq<HunkStart>, header: HeaderNumbers)
    requires Plain(lines, header)
    ensures Aligned(PassOf(lines, starts, header), SplitOf(lines), starts)
  {
    if lines != [] {
      var n := |lines| - 1;
      PassesAlign(lines[..n], starts, header);
      AlignedStep(PassOf(lines[..n], starts, header), SplitOf(lines[..n]), starts, header, lines[n]);
    }
  }

  // ----- old numbers

  ghost predicate NamesLine(n: Option<int>, text: seq<string>, content: string) {
    n.Some? ==> 1 <= n.value <= |text| && text[n.value - 1] == content
  }

  ghost predicate OldNumbersHold(ds: seq<DiffLine>, source: seq<string>) {
    forall i :: 0 <= i < |ds| && ds[i].Numbered? ==> NamesLine(ds[i].oldNum, source, ds[i].line.content)
  }

  ghost predicate NewNumbersHold(ds: seq<DiffLine>, result: seq<string>) {
    forall i :: 0 <= i < |ds| && ds[i].Numbered? ==> NamesLine(ds[i].newNum, result, ds[i].line.content)
  }

  /** Every line that should carry a number does. */
  ghost predicate AllNumbered(ds: seq<DiffLine>) {
    forall i :: 0 <= i < |ds| && ds[i].Numbered? ==>
      && (ds[i].oldNum.Some? <==> ds[i].line.marker != Add)
      && (ds[i].newNum.Some? <==> ds[i].line.marker != Del)
  }

  /** A position inside a located hunk is a position in the source. */
  lemma OldPosition(source: seq<string>, hunks: seq<seq<string>>, k: nat, part: seq<string>, raw: string)
    requires k < |hunks| && part + [raw] <= hunks[k] && ParseBodyLine(raw).marker != Add
    ensures NamesLine(Shift(StartAt(LocatedAll(source, hunks).starts, k).oldStart, |OldLines(part)|),
                      source, ParseBodyLine(raw).content)
  {
    LocatedHunkMatches(source, hunks, k);
    NextLineOfHunk(part, raw, hunks[k]);
    var start := StartAt(LocatedAll(source, hunks).starts, k).oldStart;
    if start.Some? {
      var at, expected := start.value - 1, OldLines(hunks[k]);
      assert source[at..at + |expected|][|OldLines(part)|] == expected[|OldLines(part)|];
    }
  }

  /** The line a step emits, and where it stands in its hunk. */
  lemma EmittedAt(lines: seq<string>, starts: seq<HunkStart>, header: HeaderNumbers, i: nat)
    returns (k: nat, part: seq<string>)
    requires Plain(lines, header) && i < |lines| && !IsMove(lines[i]) && !IsHeader(lines[i])
    ensures k < |Hunks(lines)| && part + [lines[i]] <= Hunks(lines)[k]
    ensures var before, line := PassOf(lines[..i], starts, header), ParseBodyLine(lines[i]);
            PassOf(lines[..i + 1], starts, header).lines == before.lines + [Numbered(line,
              if line.marker == Add then None else Shift(StartAt(starts, k).oldStart, |OldLines(part)|),
              if line.marker == Del then None else Shift(StartAt(starts, k).newStart, |NewLines(part)|))]
  {
    var before, split := PassOf(lines[..i], starts, header), SplitOf(lines[..i]);
    PassesAlign(lines[..i], starts, header);
    PrefixIsStage(lines, i + 1);
    assert lines[..i + 1][..i] == lines[..i];
    k := |split.done|;
    part := if split.current.Some? then split.current.value else [];
    assert SplitOf(lines[..i + 1]) == SplitStep(split, lines[i]);
  }

  /** Over every source, wherever its hunks were found: each old number names the source line shown. */
  lemma {:induction false} OldNumbersNameSource(lines: seq<string>, source: seq<string>, header: HeaderNumbers, i: nat)
    requires Plain(lines, header) && i <= |lines|
    ensures OldNumbersHold(PassOf(lines[..i], Starts(source, lines), header).lines, source)
  {
    var starts := Starts(source, lines);
    if i > 0 {
      OldNumbersNameSource(lines, source, header, i - 1);
      PassNext(lines, starts, header, i - 1);
      var raw := lines[i - 1];
      hide PassOf;
      if !IsMove(raw) && !IsHeader(raw) {
        var k, part := EmittedAt(lines, starts, header, i - 1);
        hide Starts;
        hide PassStep;
        hide Shift;
        if ParseBodyLine(raw).marker != Add {
          OldPositionOf(source, lines, k, part, raw);
        }
      }
    }
  }

  lemma OldPositionOf(source: seq<string>, lines: seq<string>, k: nat, part: seq<string>, raw: string)
    requires k < |Hunks(lines)| && part + [raw] <= Hunks(lines)[k] && ParseBodyLine(raw).marker != Add
    ensures NamesLine(Shift(StartAt(Starts(source, lines), k).oldStart, |OldLines(part)|), source, ParseBodyLine(raw).content)
  {
    OldPosition(source, Hunks(lines), k, part, raw);
  }

  // ----- the patched file

  /** The text produced so far and how much of the source it accounts for. */
  datatype Patched = Patched(out: seq<string>, consumed: nat)

  /** Each hunk replaces the first match of its old lines after the previous hunk. */
  function PatchedBy(source: seq<string>, hunks: seq<seq<string>>): (p: Patched)
    ensures p.consumed <= |source|
  {
    if hunks == [] then Patched([], 0)
    else
      var p, hunk := PatchedBy(source, hunks[..|hunks| - 1]), hunks[|hunks| - 1];
      var m := Find(source, OldLines(hunk), p.consumed);
      FindMatches(source, OldLines(hunk), p.consumed);
      if m < 0 then p
      else Patched(p.out + source[p.consumed..m] + NewLines(hunk), m + |OldLines(hunk)|)
  }

  function Applied(source: seq<string>, hunks: seq<seq<string>>): seq<string> {
    var p := PatchedBy(source, hunks);
    p.out + source[p.consumed..]
  }

  /** Every hunk is found by the search that goes forward from the previous one. */
  ghost predicate FoundInOrder(source: seq<string>, hunks: seq<seq<string>>) {
    forall k :: 0 <= k < |hunks| ==> FoundNext(source, hunks, k)
  }

  ghost predicate FoundNext(source: seq<string>, hunks: seq<seq<string>>, k: nat)
    requires k < |hunks|
  {
    Find(source, OldLines(hunks[k]), PatchedBy(source, hunks[..k]).consumed) >= 0
  }

  lemma FoundInOrderPrefix(source: seq<string>, hunks: seq<seq<string>>, n: nat)
    requires FoundInOrder(source, hunks) && n <= |hunks|
    ensures FoundInOrder(source, hunks[..n])
  {
    forall k | 0 <= k < n
      ensures FoundNext(source, hunks[..n], k)
    {
      assert FoundNext(source, hunks, k);
      assert hunks[..n][..k] == hunks[..k];
    }
  }

  /** The first pass tracks the patching: where it searches from, and how far lines have moved. */
  lemma {:induction false} FirstPassTracksPatching(source: seq<string>, hunks: seq<seq<string>>)
    requires FoundInOrder(source, hunks)
    ensures var s, p := LocatedAll(source, hunks), PatchedBy(source, hunks);
            s.searchFrom == p.consumed && s.lineDelta == |p.out| - p.consumed
  {
    if hunks != [] {
      var n := |hunks| - 1;
      FoundInOrderPrefix(source, hunks, n);
      FirstPassTracksPatching(source, hunks[..n]);
      assert FoundNext(source, hunks, n);
      var p := PatchedBy(source, hunks[..n]);
      FindMatches(source, OldLines(hunks[n]), p.consumed);
      HunkDelta(hunks[n]);
      hide OldLines, NewLines, CountMarker, Find, MatchesAt;
      assert MatchOf(source, hunks[n], p.consumed) == Find(source, OldLines(hunks[n]), p.consumed);
    }
  }

  lemma {:induction false} PatchedGrows(source: seq<string>, hunks: seq<seq<string>>, n: nat)
    requires n <= |hunks|
    ensures PatchedBy(source, hunks[..n]).out <= PatchedBy(source, hunks).out
    decreases |hunks|
  {
    var last := |hunks| - 1;
    if n < |hunks| {
      PatchedGrows(source, hunks[..last], n);
      assert hunks[..last][..n] == hunks[..n];
      FindMatches(source, OldLines(hunks[last]), PatchedBy(source, hunks[..last]).consumed);
    } else {
      assert hunks[..n] == hunks;
    }
  }

  /** The new number the first pass gives hunk `k`, in terms of the patching. */
  lemma NewStartInPatched(source: seq<string>, hunks: seq<seq<string>>, k: nat)
    requires FoundInOrder(source, hunks) && k < |hunks|
    ensures var p := PatchedBy(source, hunks[..k]);
            var m := Find(source, OldLines(hunks[k]), p.consumed);
            && FoundNext(source, hunks, k)
            && StartAt(LocatedAll(source, hunks).starts, k).newStart == Some(m + 1 + |p.out| - p.consumed)
  {
    StartsOfPrefix(source, hunks, k);
    FoundInOrderPrefix(source, hunks, k);
    FirstPassTracksPatching(source, hunks[..k]);
    assert FoundNext(source, hunks, k);
    hide LocatedAll, PatchedBy, FoundInOrder, OldLines, Find, MatchesAt;
  }

  /** One more hunk puts its new lines behind the text so far and the source up to the match. */
  lemma PatchedAtHunk(source: seq<string>, hunks: seq<seq<string>>, k: nat)
    requires k < |hunks| && FoundNext(source, hunks, k)
    ensures var p := PatchedBy(source, hunks[..k]);
            var m := Find(source, OldLines(hunks[k]), p.consumed);
            && p.consumed <= m <= |source|
            && PatchedBy(source, hunks[..k + 1]).out == p.out + source[p.consumed..m] + NewLines(hunks[k])
  {
    assert hunks[..k + 1][..k] == hunks[..k];
    FindMatches(source, OldLines(hunks[k]), PatchedBy(source, hunks[..k]).consumed);
    hide Find, OldLines, NewLines;
  }

  lemma LineBehind(front: seq<string>, middle: seq<string>, lines: seq<string>, rest: seq<string>, j: nat)
    requires j < |lines|
    ensures (front + middle + lines + rest)[|front| + |middle| + j] == lines[j]
  {
  }

  lemma AppliedAtHunk(source: seq<string>, hunks: seq<seq<string>>, k: nat, j: nat)
    requires k < |hunks| && FoundNext(source, hunks, k) && j < |NewLines(hunks[k])|
    ensures var p := PatchedBy(source, hunks[..k]);
            var line := |p.out| + Find(source, OldLines(hunks[k]), p.consumed) - p.consumed + j;
            && 0 <= line < |Applied(source, hunks)|
            && Applied(source, hunks)[line] == NewLines(hunks[k])[j]
  {
    var p := PatchedBy(source, hunks[..k]);
    var m := Find(source, OldLines(hunks[k]), p.consumed);
    PatchedAtHunk(source, hunks, k);
    PatchedGrows(source, hunks, k + 1);
    hide PatchedBy, Find, OldLines, NewLines, FoundNext;
    var upTo := PatchedBy(source, hunks[..k + 1]).out;
    LineBehind(p.out, source[p.consumed..m], NewLines(hunks[k]), Applied(source, hunks)[|upTo|..], j);
    assert Applied(source, hunks) == upTo + Applied(source, hunks)[|upTo|..];
  }

  /** The new lines of hunk `k` stand in the patched file at the number the first pass gave the hunk. */
  lemma NewPosition(source: seq<string>, hunks: seq<seq<string>>, k: nat, j: nat)
    requires FoundInOrder(source, hunks) && k < |hunks| && j < |NewLines(hunks[k])|
    ensures NamesLine(Shift(StartAt(LocatedAll(source, hunks).starts, k).newStart, j), Applied(source, hunks), NewLines(hunks[k])[j])
  {
    hide LocatedAll, StartAt, PatchedBy, Applied, NewLines, OldLines, Find, FoundInOrder, FoundNext, MatchesAt;
    NewStartInPatched(source, hunks, k);
    AppliedAtHunk(source, hunks, k, j);
  }

  lemma NumbersOfAppend(ds: seq<DiffLine>, d: DiffLine, result: seq<string>)
    requires NewNumbersHold(ds, result) && AllNumbered(ds)
    requires d.Numbered? ==> NamesLine(d.newNum, result, d.line.content)
    requires d.Numbered? ==> (d.oldNum.Some? <==> d.line.marker != Add) && (d.newNum.Some? <==> d.line.marker != Del)
    ensures NewNumbersHold(ds + [d], result) && AllNumbered(ds + [d])
  {
  }

  lemma SeparatorKeepsNumbers(lines: seq<string>, starts: seq<HunkStart>, header: HeaderNumbers, i: nat, result: seq<string>)
    requires 0 < i <= |lines| && (IsMove(lines[i - 1]) || IsHeader(lines[i - 1]))
    requires NewNumbersHold(PassOf(lines[..i - 1], starts, header).lines, result)
    requires AllNumbered(PassOf(lines[..i - 1], starts, header).lines)
    ensures NewNumbersHold(PassOf(lines[..i], starts, header).lines, result)
    ensures AllNumbered(PassOf(lines[..i], starts, header).lines)
  {
    PassNext(lines, starts, header, i - 1);
    hide PassOf;
    NumbersOfAppend(PassOf(lines[..i - 1], starts, header).lines, Separator, result);
  }

  /** Every hunk has its numbers, and its new lines stand in `result` at the new ones. */
  ghost predicate HunksNumbered(source: seq<string>, hunks: seq<seq<string>>, result: seq<string>) {
    forall k :: 0 <= k < |hunks| ==> HunkNumbered(StartAt(LocatedAll(source, hunks).starts, k), hunks[k], result)
  }

  ghost predicate HunkNumbered(start: HunkStart, hunk: seq<string>, result: seq<string>) {
    && start.oldStart.Some? && start.newStart.Some?
    && forall j :: 0 <= j < |NewLines(hunk)| ==> NamesLine(Shift(start.newStart, j), result, NewLines(hunk)[j])
  }

  /** Then every line of the preview is numbered, and each new number names the line of `result`. */
  lemma {:induction false} NewNumbersName(lines: seq<string>, source: seq<string>, header: HeaderNumbers, i: nat, result: seq<string>)
    requires Plain(lines, header) && i <= |lines| && HunksNumbered(source, Hunks(lines), result)
    ensures NewNumbersHold(PassOf(lines[..i], Starts(source, lines), header).lines, result)
    ensures AllNumbered(PassOf(lines[..i], Starts(source, lines), header).lines)
  {
    var starts := Starts(source, lines);
    hide HunksNumbered;
    if i > 0 {
      NewNumbersName(lines, source, header, i - 1, result);
      PassNext(lines, starts, header, i - 1);
      var raw := lines[i - 1];
      hide PassOf;
      if !IsMove(raw) && !IsHeader(raw) {
        var k, part := EmittedAt(lines, starts, header, i - 1);
        NewPositionOf(source, lines, k, part, raw, result);
        var before, after := PassOf(lines[..i - 1], starts, header).lines, PassOf(lines[..i], starts, header).lines;
        hide *;
        NumbersOfAppend(before, after[|before|], result);
      } else {
        hide PassStep;
        SeparatorKeepsNumbers(lines, starts, header, i, result);
      }
    }
  }

  lemma NewPositionOf(source: seq<string>, lines: seq<string>, k: nat, part: seq<string>, raw: string, result: seq<string>)
    requires HunksNumbered(source, Hunks(lines), result)
    requires k < |Hunks(lines)| && part + [raw] <= Hunks(lines)[k]
    ensures Shift(StartAt(Starts(source, lines), k).oldStart, |OldLines(part)|).Some?
    ensures Shift(StartAt(Starts(source, lines), k).newStart, |NewLines(part)|).Some?
    ensures ParseBodyLine(raw).marker != Del ==>
              NamesLine(Shift(StartAt(Starts(source, lines), k).newStart, |NewLines(part)|), result, ParseBodyLine(raw).content)
  {
    var hunks := Hunks(lines);
    NextLineOfHunk(part, raw, hunks[k]);
    assert HunkNumbered(StartAt(LocatedAll(source, hunks).starts, k), hunks[k], result);
    hide ParseBodyLine, LocatedAll, NewLines, OldLines, NamesLine, StartAt, Hunks, HunksNumbered;
  }

  lemma InOrderNumbered(source: seq<string>, hunks: seq<seq<string>>)
    requires FoundInOrder(source, hunks)
    ensures HunksNumbered(source, hunks, Applied(source, hunks))
  {
    hide NamesLine, LocatedAll, Applied, FoundInOrder, StartAt, NewLines, Shift;
    forall k | 0 <= k < |hunks|
      ensures HunkNumbered(StartAt(LocatedAll(source, hunks).starts, k), hunks[k], Applied(source, hunks))
    {
      LocatedInOrder(source, hunks, k);
      forall j | 0 <= j < |NewLines(hunks[k])|
        ensures NamesLine(Shift(StartAt(LocatedAll(source, hunks).starts, k).newStart, j), Applied(source, hunks), NewLines(hunks[k])[j])
      {
        NewPosition(source, hunks, k, j);
      }
    }
  }

  /** When all hunks are found in order, every line is numbered and each new number names the patched line. */
  lemma NewNumbersNamePatched(lines: seq<string>, source: seq<string>, header: HeaderNumbers, i: nat)
    requires Plain(lines, header) && i <= |lines| && FoundInOrder(source, Hunks(lines))
    ensures NewNumbersHold(PassOf(lines[..i], Starts(source, lines), header).lines, Applied(source, Hunks(lines)))
    ensures AllNumbered(PassOf(lines[..i], Starts(source, lines), header).lines)
  {
    hide *;
    InOrderNumbered(source, Hunks(lines));
    NewNumbersName(lines, source, header, i, Applied(source, Hunks(lines)));
  }

  lemma LocatedInOrder(source: seq<string>, hunks: seq<seq<string>>, k: nat)
    requires FoundInOrder(source, hunks) && k < |hunks|
    ensures StartAt(LocatedAll(source, hunks).starts, k).oldStart.Some?
    ensures StartAt(LocatedAll(source, hunks).starts, k).newStart.Some?
  {
    StartsOfPrefix(source, hunks, k);
    FoundInOrderPrefix(source, hunks, k);
    FirstPassTracksPatching(source, hunks[..k]);
    assert FoundNext(source, hunks, k);
  }

  // ----- no line is lost

  /** The patch's body lines in order. */
  function Bodies(lines: seq<string>): seq<BodyLine> {
    if lines == [] then [] else Bodies(lines[..|lines| - 1]) + BodyOf(lines[|lines| - 1])
  }

  function BodyOf(raw: string): seq<BodyLine> {
    if IsMove(raw) || IsHeader(raw) || raw == NO_NEWLINE then [] else [ParseBodyLine(raw)]
  }

  function Shown(ds: seq<DiffLine>): seq<BodyLine> {
    if ds == [] then []
    else Shown(ds[..|ds| - 1]) + if ds[|ds| - 1].Numbered? then [ds[|ds| - 1].line] else []
  }

  function CountShown(bodies: seq<BodyLine>, marker: Marker): nat {
    if bodies == [] then 0
    else CountShown(bodies[..|bodies| - 1], marker) + if bodies[|bodies| - 1].marker == marker then 1 else 0
  }

  function TotalLength(bodies: seq<BodyLine>): nat {
    if bodies == [] then 0 else TotalLength(bodies[..|bodies| - 1]) + |bodies[|bodies| - 1].content|
  }

  lemma ShownOfAppend(ds: seq<DiffLine>, d: DiffLine)
    ensures Shown(ds + [d]) == Shown(ds) + if d.Numbered? then [d.line] else []
  {
    assert (ds + [d])[..|ds|] == ds;
  }

  lemma BodiesOfAppend(bodies: seq<BodyLine>, b: BodyLine)
    ensures CountShown(bodies + [b], Add) == CountShown(bodies, Add) + if b.marker == Add then 1 else 0
    ensures CountShown(bodies + [b], Del) == CountShown(bodies, Del) + if b.marker == Del then 1 else 0
    ensures TotalLength(bodies + [b]) == TotalLength(bodies) + |b.content|
  {
    assert (bodies + [b])[..|bodies|] == bodies;
  }

  ghost predicate Accounts(s: Pass, bodies: seq<BodyLine>) {
    && Shown(s.lines) == bodies
    && s.added == CountShown(bodies, Add)
    && s.removed == CountShown(bodies, Del)
    && s.chars == TotalLength(bodies)
  }

  lemma EmitAccounts(s: Pass, bodies: seq<BodyLine>, line: BodyLine)
    requires Accounts(s, bodies)
    ensures Accounts(EmitLine(s, line), bodies + [line])
  {
    hide Shown, CountShown, TotalLength, EmitLine;
    var d := EmitsOne(s, line);
    ShownOfAppend(s.lines, d);
    BodiesOfAppend(bodies, line);
  }

  lemma EmitsOne(s: Pass, line: BodyLine) returns (d: DiffLine)
    ensures d.Numbered? && d.line == line
    ensures EmitLine(s, line).lines == s.lines + [d]
    ensures EmitLine(s, line).added == s.added + if line.marker == Add then 1 else 0
    ensures EmitLine(s, line).removed == s.removed + if line.marker == Del then 1 else 0
    ensures EmitLine(s, line).chars == s.chars + |line.content|
  {
    d := EmitLine(s, line).lines[|s.lines|];
  }

  lemma EnteringAccounts(s: Pass, starts: seq<HunkStart>, numbers: Option<(int, int)>, bodies: seq<BodyLine>)
    requires Accounts(s, bodies)
    ensures Accounts(EnterHunk(s, starts, numbers), bodies)
  {
    hide Shown, CountShown, TotalLength;
  }

  lemma SeparatorAccounts(s: Pass, bodies: seq<BodyLine>)
    requires Accounts(s, bodies)
    ensures Accounts(s.(lines := s.lines + [Separator]), bodies)
  {
    ShownOfAppend(s.lines, Separator);
    hide Shown, CountShown, TotalLength;
  }

  lemma StepAccounts(s: Pass, starts: seq<HunkStart>, header: HeaderNumbers, raw: string, bodies: seq<BodyLine>)
    requires Accounts(s, bodies)
    ensures Accounts(PassStep(s, starts, header, raw), bodies + BodyOf(raw))
  {
    hide Accounts, EnterHunk, EmitLine, IsMove, IsHeader, ParseBodyLine;
    if IsMove(raw) {
      assert bodies + BodyOf(raw) == bodies;
    } else if IsHeader(raw) {
      SeparatorAccounts(s, bodies);
      EnteringAccounts(s, starts, header(raw), bodies);
      EnteringAccounts(s.(lines := s.lines + [Separator]), starts, header(raw), bodies);
      assert bodies + BodyOf(raw) == bodies;
    } else if raw == NO_NEWLINE {
      assert bodies + BodyOf(raw) == bodies;
    } else {
      EnteringAccounts(s, starts, None, bodies);
      EmitAccounts(if s.inHunk then s else EnterHunk(s, starts, None), bodies, ParseBodyLine(raw));
    }
  }

  lemma {:induction false} PassAccounts(lines: seq<string>, starts: seq<HunkStart>, header: HeaderNumbers)
    ensures Accounts(PassOf(lines, starts, header), Bodies(lines))
  {
    if lines != [] {
      var n := |lines| - 1;
      PassAccounts(lines[..n], starts, header);
      StepAccounts(PassOf(lines[..n], starts, header), starts, header, lines[n], Bodies(lines[..n]));
      hide Accounts, PassStep, BodyOf;
    }
  }

  lemma {:induction false} ShownOfDrop(ds: seq<DiffLine>)
    requires ds != [] && ds[0].Separator?
    ensures Shown(ds[1..]) == Shown(ds)
  {
    if |ds| > 1 {
      var n := |ds| - 1;
      ShownOfDrop(ds[..n]);
      assert ds[1..][..n - 1] == ds[..n][1..];
    }
  }

  lemma {:induction false} TrimFrontKeeps(ds: seq<DiffLine>)
    ensures Shown(TrimFront(ds)) == Shown(ds)
    ensures forall d :: d in TrimFront(ds) ==> d in ds
  {
    if ds != [] && ds[0].Separator? {
      ShownOfDrop(ds);
      TrimFrontKeeps(ds[1..]);
    }
  }

  lemma {:induction false} TrimBackKeeps(ds: seq<DiffLine>)
    ensures Shown(TrimBack(ds)) == Shown(ds)
    ensures forall d :: d in TrimBack(ds) ==> d in ds
  {
    if ds != [] && ds[|ds| - 1].Separator? {
      TrimBackKeeps(ds[..|ds| - 1]);
    }
  }

  // ----- the lines of the patch as they are written

  /** A line of the patch that is neither a move, nor a hunk header, nor the note on a missing final newline. */
  predicate IsBody(raw: string) {
    !("*** Move to: " <= raw) && !("@@" <= raw) && raw != "\\ No newline at end of file"
  }

  function RawBodies(lines: seq<string>): seq<string> {
    if lines == [] then []
    else RawBodies(lines[..|lines| - 1]) + if IsBody(lines[|lines| - 1]) then [lines[|lines| - 1]] else []
  }

  function CountStarting(raws: seq<string>, c: char): nat {
    if raws == [] then 0
    else CountStarting(raws[..|raws| - 1], c) + if [c] <= raws[|raws| - 1] then 1 else 0
  }

  /** Putting the marker back in front gives the raw line; a line that starts with no marker is its own content. */
  predicate IsShownAs(raw: string, line: BodyLine) {
    match line.marker
    case Add => raw == "+" + line.content
    case Del => raw == "-" + line.content
    case Ctx => raw == " " + line.content || (raw == line.content && !("+" <= raw) && !("-" <= raw) && !(" " <= raw))
  }

  ghost predicate ShowsRaw(raws: seq<string>, shown: seq<BodyLine>) {
    |shown| == |raws| && forall i :: 0 <= i < |raws| ==> IsShownAs(raws[i], shown[i])
  }

  /** The marker of a body line is its first character, when that is one; the rest is kept. */
  lemma BodyLineByMarker(raw: string)
    ensures IsShownAs(raw, ParseBodyLine(raw))
    ensures ParseBodyLine(raw).marker == Add <==> "+" <= raw
    ensures ParseBodyLine(raw).marker == Del <==> "-" <= raw
  {
    if raw != "" {
      assert raw == [raw[0]] + raw[1..];
    }
  }

  lemma BodyOfRaw(raw: string)
    ensures BodyOf(raw) == if IsBody(raw) then [ParseBodyLine(raw)] else []
  {
  }

  lemma {:induction false} BodiesAreRaw(lines: seq<string>)
    ensures ShowsRaw(RawBodies(lines), Bodies(lines))
    ensures CountShown(Bodies(lines), Add) == CountStarting(RawBodies(lines), '+')
    ensures CountShown(Bodies(lines), Del) == CountStarting(RawBodies(lines), '-')
  {
    hide ParseBodyLine, IsBody, BodyOf, CountShown, CountStarting, ShowsRaw;
    if lines == [] {
      NothingRaw();
    } else {
      var n := |lines| - 1;
      BodiesAreRaw(lines[..n]);
      BodyOfRaw(lines[n]);
      if IsBody(lines[n]) {
        BodiesOfAppend(Bodies(lines[..n]), ParseBodyLine(lines[n]));
        StartingOfAppend(RawBodies(lines[..n]), lines[n]);
        RawOfAppend(RawBodies(lines[..n]), Bodies(lines[..n]), lines[n]);
      } else {
        assert Bodies(lines) == Bodies(lines[..n]) && RawBodies(lines) == RawBodies(lines[..n]);
      }
    }
  }

  lemma NothingRaw()
    ensures ShowsRaw([], []) && CountShown([], Add) == CountShown([], Del) == 0
    ensures CountStarting([], '+') == CountStarting([], '-') == 0
  {
  }

  lemma RawOfAppend(raws: seq<string>, shown: seq<BodyLine>, raw: string)
    requires ShowsRaw(raws, shown)
    ensures ShowsRaw(raws + [raw], shown + [ParseBodyLine(raw)])
    ensures ParseBodyLine(raw).marker == Add <==> "+" <= raw
    ensures ParseBodyLine(raw).marker == Del <==> "-" <= raw
  {
    BodyLineByMarker(raw);
    hide ParseBodyLine, IsShownAs;
  }

  lemma StartingOfAppend(raws: seq<string>, raw: string)
    ensures CountStarting(raws + [raw], '+') == CountStarting(raws, '+') + if "+" <= raw then 1 else 0
    ensures CountStarting(raws + [raw], '-') == CountStarting(raws, '-') + if "-" <= raw then 1 else 0
  {
    assert (raws + [raw])[..|raws|] == raws;
  }

  /**
    For every patch and source, the preview shows exactly the body lines, in order and with their markers, and
    counts those that start with a plus and with a minus sign.
   */
  lemma PreviewLosesNothing(lines: seq<string>, source: Option<string>, header: HeaderNumbers)
    ensures var diff, raws := UpdateDiff(lines, source, header), RawBodies(lines);
            && ShowsRaw(raws, Shown(diff.lines))
            && diff.added == CountStarting(raws, '+')
            && diff.removed == CountStarting(raws, '-')
            && diff.chars == TotalLength(Shown(diff.lines))
  {
    PreviewShowsBodies(lines, source, header);
    BodiesAreRaw(lines);
    hide UpdateDiff, ShowsRaw;
  }

  lemma PreviewShowsBodies(lines: seq<string>, source: Option<string>, header: HeaderNumbers)
    ensures var diff := UpdateDiff(lines, source, header);
            && Shown(diff.lines) == Bodies(lines)
            && diff.added == CountShown(Bodies(lines), Add)
            && diff.removed == CountShown(Bodies(lines), Del)
            && diff.chars == TotalLength(Bodies(lines))
  {
    var s := PassOf(lines, InferredStarts(lines, source), header);
    PassAccounts(lines, InferredStarts(lines, source), header);
    TrimFrontKeeps(s.lines);
    TrimBackKeeps(TrimFront(s.lines));
  }

  // ----- the preview as a whole

  lemma PartHolds(part: seq<DiffLine>, all: seq<DiffLine>, source: seq<string>, result: seq<string>)
    requires forall d :: d in part ==> d in all
    ensures OldNumbersHold(all, source) ==> OldNumbersHold(part, source)
    ensures NewNumbersHold(all, result) ==> NewNumbersHold(part, result)
    ensures AllNumbered(all) ==> AllNumbered(part)
  {
    forall i | 0 <= i < |part|
      ensures exists j :: 0 <= j < |all| && all[j] == part[i]
    {
      assert part[i] in all;
    }
  }

  /** What holds of the lines of the second pass holds of the preview, which is a part of them. */
  lemma PreviewNumbersName(lines: seq<string>, text: string, header: HeaderNumbers, result: seq<string>)
    requires text != "" && Plain(lines, header) && HunksNumbered(SplitLines(NormalizeToLf(text)), Hunks(lines), result)
    ensures var diff := UpdateDiff(lines, Some(text), header); AllNumbered(diff.lines) && NewNumbersHold(diff.lines, result)
  {
    var source := SplitLines(NormalizeToLf(text));
    var all := PassOf(lines, Starts(source, lines), header).lines;
    TrimFrontKeeps(all);
    TrimBackKeeps(TrimFront(all));
    assert lines[..|lines|] == lines;
    OldNumbersNameSource(lines, source, header, |lines|);
    NewNumbersName(lines, source, header, |lines|, result);
    hide PassOf, TrimFront, TrimBack, Starts, SplitLines, NormalizeToLf, HunksNumbered;
    PartHolds(TrimBack(TrimFront(all)), all, source, result);
  }

  /**
    The numbers of a preview, for a non-empty source: old numbers always name the source line shown;
    when the hunks are found in order every line is numbered and new numbers name the patched line.
   */
  lemma PreviewNumbersAreRight(lines: seq<string>, text: string, header: HeaderNumbers)
    requires text != "" && Plain(lines, header)
    ensures var source, diff := SplitLines(NormalizeToLf(text)), UpdateDiff(lines, Some(text), header);
            && OldNumbersHold(diff.lines, source)
            && (FoundInOrder(source, Hunks(lines)) ==>
                  AllNumbered(diff.lines) && NewNumbersHold(diff.lines, Applied(source, Hunks(lines))))
  {
    var source := SplitLines(NormalizeToLf(text));
    var all := PassOf(lines, Starts(source, lines), header).lines;
    TrimFrontKeeps(all);
    TrimBackKeeps(TrimFront(all));
    assert lines[..|lines|] == lines;
    OldNumbersNameSource(lines, source, header, |lines|);
    if FoundInOrder(source, Hunks(lines)) {
      NewNumbersNamePatched(lines, source, header, |lines|);
    }
    hide PassOf, TrimFront, TrimBack, Starts, SplitLines, NormalizeToLf;
    PartHolds(TrimBack(TrimFront(all)), all, source, Applied(source, Hunks(lines)));
  }
}
