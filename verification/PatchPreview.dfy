/**
  The preview of an update patch: the first pass locates each hunk in the source, the second pass
  numbers the lines. Both walk the same patch lines and must keep the same count of hunks.
 */
module PatchPreview {
  import opened Prelude
  import opened TextLines

  datatype Marker = Add | Del | Ctx

  datatype BodyLine = BodyLine(marker: Marker, content: string)

  datatype DiffLine =
    | Numbered(line: BodyLine, oldNum: Option<int>, newNum: Option<int>)
    | Separator

  datatype ParsedDiff = ParsedDiff(lines: seq<DiffLine>, added: nat, removed: nat, chars: nat)

  datatype HunkStart = HunkStart(oldStart: Option<int>, newStart: Option<int>)

  /** The numbers in a hunk header, when it has any; how they are written is left open. */
  type HeaderNumbers = string -> Option<(int, int)>

  const MOVE_PREFIX := "*** Move to: "
  const HUNK_PREFIX := "@@"
  const NO_NEWLINE := "\\ No newline at end of file"
  const UNKNOWN := HunkStart(None, None)

  predicate IsMove(raw: string) {
    MOVE_PREFIX <= raw
  }

  predicate IsHeader(raw: string) {
    !IsMove(raw) && HUNK_PREFIX <= raw
  }

  /** A line that does not start with a marker counts as context. */
  function ParseBodyLine(raw: string): BodyLine {
    if raw == "" then BodyLine(Ctx, raw)
    else if raw[0] == '+' then BodyLine(Add, raw[1..])
    else if raw[0] == '-' then BodyLine(Del, raw[1..])
    else if raw[0] == ' ' then BodyLine(Ctx, raw[1..])
    else BodyLine(Ctx, raw)
  }

  // ----- locating a hunk

  predicate MatchesAt(haystack: seq<string>, needle: seq<string>, i: nat) {
    i + |needle| <= |haystack| && haystack[i..i + |needle|] == needle
  }

  /** The first match at or after `from`, or -1. */
  function Find(haystack: seq<string>, needle: seq<string>, from: nat): (r: int)
    ensures -1 <= r
    decreases |haystack| - from
  {
    if needle == [] then from
    else if from + |needle| > |haystack| then -1
    else if MatchesAt(haystack, needle, from) then from
    else Find(haystack, needle, from + 1)
  }

  lemma {:induction false} FindIsFirst(haystack: seq<string>, needle: seq<string>, from: nat)
    requires needle != []
    ensures var r := Find(haystack, needle, from);
            && (r >= 0 ==> from <= r && MatchesAt(haystack, needle, r))
            && forall i :: from <= i && (r < 0 || i < r) ==> !MatchesAt(haystack, needle, i)
    decreases |haystack| - from
  {
    if from + |needle| <= |haystack| && !MatchesAt(haystack, needle, from) {
      FindIsFirst(haystack, needle, from + 1);
    }
  }

  method FindLineSequence(haystack: seq<string>, needle: seq<string>, fromIndex: int) returns (r: int)
    ensures r == Find(haystack, needle, Max(0, fromIndex))
  {
    if needle == [] {
      return Max(0, fromIndex);
    }
    var i := Max(0, fromIndex);
    ghost var from := i;
    while i <= |haystack| - |needle|
      invariant from <= i
      invariant Find(haystack, needle, from) == Find(haystack, needle, i)
      decreases |haystack| - i
    {
      var matches := true;
      for j := 0 to |needle|
        invariant matches && forall l :: 0 <= l < j ==> haystack[i + l] == needle[l]
      {
        if haystack[i + j] != needle[j] {
          assert haystack[i..i + |needle|][j] != needle[j];
          matches := false;
          break;
        }
      }
      if matches {
        assert haystack[i..i + |needle|] == needle;
        return i;
      }
      i := i + 1;
    }
    return -1;
  }

  // ----- splitting a patch into hunks

  datatype Split = Split(done: seq<seq<string>>, current: Option<seq<string>>)

  function SplitStep(s: Split, raw: string): Split {
    if IsMove(raw) then s
    else if IsHeader(raw) then Split(if s.current.Some? then s.done + [s.current.value] else s.done, Some([]))
    else Split(s.done, Some((if s.current.Some? then s.current.value else []) + [raw]))
  }

  function SplitOf(lines: seq<string>): Split {
    if lines == [] then Split([], None)
    else SplitStep(SplitOf(lines[..|lines| - 1]), lines[|lines| - 1])
  }

  function Hunks(lines: seq<string>): seq<seq<string>> {
    var s := SplitOf(lines);
    if s.current.Some? then s.done + [s.current.value] else s.done
  }

  /** The lines a hunk expects, and the lines it leaves. */
  function OldLines(hunk: seq<string>): seq<string> {
    if hunk == [] then []
    else
      var line := ParseBodyLine(hunk[|hunk| - 1]);
      OldLines(hunk[..|hunk| - 1]) + if line.marker == Add then [] else [line.content]
  }

  function NewLines(hunk: seq<string>): seq<string> {
    if hunk == [] then []
    else
      var line := ParseBodyLine(hunk[|hunk| - 1]);
      NewLines(hunk[..|hunk| - 1]) + if line.marker == Del then [] else [line.content]
  }

  function CountMarker(hunk: seq<string>, marker: Marker): nat {
    if hunk == [] then 0
    else CountMarker(hunk[..|hunk| - 1], marker) + if ParseBodyLine(hunk[|hunk| - 1]).marker == marker then 1 else 0
  }

  // ----- the first pass

  datatype Located = Located(starts: seq<HunkStart>, searchFrom: nat, lineDelta: int)

  function MatchOf(source: seq<string>, hunk: seq<string>, searchFrom: nat): (r: int)
    ensures -1 <= r
  {
    var forward := Find(source, OldLines(hunk), searchFrom);
    if forward == -1 then Find(source, OldLines(hunk), 0) else forward
  }

  function StartOf(source: seq<string>, s: Located, hunk: seq<string>): HunkStart {
    var m := MatchOf(source, hunk, s.searchFrom);
    if m == -1 then UNKNOWN else HunkStart(Some(m + 1), Some(m + 1 + s.lineDelta))
  }

  function LocateStep(source: seq<string>, s: Located, hunk: seq<string>): Located {
    var m := MatchOf(source, hunk, s.searchFrom);
    var starts := s.starts + [StartOf(source, s, hunk)];
    if m == -1 then s.(starts := starts)
    else Located(starts, m + |OldLines(hunk)|, s.lineDelta + CountMarker(hunk, Add) - CountMarker(hunk, Del))
  }

  function LocatedAll(source: seq<string>, hunks: seq<seq<string>>): Located {
    if hunks == [] then Located([], 0, 0)
    else LocateStep(source, LocatedAll(source, hunks[..|hunks| - 1]), hunks[|hunks| - 1])
  }

  function Starts(source: seq<string>, lines: seq<string>): seq<HunkStart> {
    LocatedAll(source, Hunks(lines)).starts
  }

  method CollectHunks(lines: seq<string>) returns (hunks: seq<seq<string>>)
    ensures hunks == Hunks(lines)
  {
    hunks := [];
    var currentHunk: Option<seq<string>> := None;
    for i := 0 to |lines|
      invariant SplitOf(lines[..i]) == Split(hunks, currentHunk)
    {
      assert lines[..i + 1][..i] == lines[..i];
      var rawLine := lines[i];
      if IsMove(rawLine) {
        continue;
      }
      if IsHeader(rawLine) {
        if currentHunk.Some? {
          hunks := hunks + [currentHunk.value];
        }
        currentHunk := Some([]);
        continue;
      }
      if currentHunk.None? {
        currentHunk := Some([]);
      }
      currentHunk := Some(currentHunk.value + [rawLine]);
    }
    assert lines[..|lines|] == lines;
    if currentHunk.Some? {
      hunks := hunks + [currentHunk.value];
    }
  }

  method ExpectedLines(hunk: seq<string>) returns (oldLines: seq<string>, added: nat, removed: nat)
    ensures oldLines == OldLines(hunk)
    ensures added == CountMarker(hunk, Add) && removed == CountMarker(hunk, Del)
  {
    oldLines, added, removed := [], 0, 0;
    for i := 0 to |hunk|
      invariant oldLines == OldLines(hunk[..i])
      invariant added == CountMarker(hunk[..i], Add) && removed == CountMarker(hunk[..i], Del)
    {
      assert hunk[..i + 1][..i] == hunk[..i];
      var line := ParseBodyLine(hunk[i]);
      if line.marker != Add {
        oldLines := oldLines + [line.content];
      }
      if line.marker == Add {
        added := added + 1;
      } else if line.marker == Del {
        removed := removed + 1;
      }
    }
    assert hunk[..|hunk|] == hunk;
  }

  lemma LocateNothing(source: seq<string>)
    ensures LocatedAll(source, []) == Located([], 0, 0)
  {
  }

  lemma LocateNext(source: seq<string>, hunks: seq<seq<string>>, i: nat)
    requires i < |hunks|
    ensures LocatedAll(source, hunks[..i + 1]) == LocateStep(source, LocatedAll(source, hunks[..i]), hunks[i])
  {
    assert hunks[..i + 1][..i] == hunks[..i];
  }

  method InferApplyPatchHunkStarts(lines: seq<string>, sourceContent: string) returns (starts: seq<HunkStart>)
    ensures starts == Starts(SplitLines(NormalizeToLf(sourceContent)), lines)
  {
    var sourceLines := SplitLines(NormalizeToLf(sourceContent));
    var hunks := CollectHunks(lines);
    starts := [];
    var searchFrom, lineDelta: int := 0, 0;
    LocateNothing(sourceLines);
    hide LocatedAll, Find, OldLines, CountMarker, SplitLines;
    for i := 0 to |hunks|
      invariant searchFrom >= 0 && LocatedAll(sourceLines, hunks[..i]) == Located(starts, searchFrom, lineDelta)
    {
      LocateNext(sourceLines, hunks, i);
      var oldLines, added, removed := ExpectedLines(hunks[i]);
      var matchIndex := FindLineSequence(sourceLines, oldLines, searchFrom);
      if matchIndex == -1 {
        matchIndex := FindLineSequence(sourceLines, oldLines, 0);
      }
      var oldStart := if matchIndex == -1 then None else Some(matchIndex + 1);
      var newStart := if oldStart.None? then None else Some(oldStart.value + lineDelta);
      starts := starts + [HunkStart(oldStart, newStart)];
      if matchIndex == -1 {
        continue;
      }
      searchFrom := matchIndex + |oldLines|;
      lineDelta := lineDelta + added - removed;
    }
    assert hunks[..|hunks|] == hunks;
  }

  // ----- the second pass

  datatype Pass = Pass(
    lines: seq<DiffLine>,
    added: nat,
    removed: nat,
    chars: nat,
    oldLine: Option<int>,
    newLine: Option<int>,
    inHunk: bool,
    hunkIndex: nat
  )

  const PASS_START := Pass([], 0, 0, 0, None, None, false, 0)

  function StartAt(starts: seq<HunkStart>, k: nat): HunkStart {
    if k < |starts| then starts[k] else UNKNOWN
  }

  function Next(n: Option<int>): Option<int> {
    if n.Some? then Some(n.value + 1) else None
  }

  function EnterHunk(s: Pass, starts: seq<HunkStart>, numbers: Option<(int, int)>): Pass {
    var inferred := StartAt(starts, s.hunkIndex);
    s.(oldLine := if numbers.Some? then Some(numbers.value.0) else inferred.oldStart,
       newLine := if numbers.Some? then Some(numbers.value.1) else inferred.newStart,
       hunkIndex := s.hunkIndex + 1,
       inHunk := true)
  }

  function EmitLine(s: Pass, line: BodyLine): Pass {
    var s' := s.(chars := s.chars + |line.content|);
    match line.marker
    case Add => s'.(lines := s.lines + [Numbered(line, None, s.newLine)], added := s.added + 1, newLine := Next(s.newLine))
    case Del => s'.(lines := s.lines + [Numbered(line, s.oldLine, None)], removed := s.removed + 1, oldLine := Next(s.oldLine))
    case Ctx => s'.(lines := s.lines + [Numbered(line, s.oldLine, s.newLine)], oldLine := Next(s.oldLine), newLine := Next(s.newLine))
  }

  function PassStep(s: Pass, starts: seq<HunkStart>, header: HeaderNumbers, raw: string): Pass {
    if IsMove(raw) then s
    else if IsHeader(raw) then
      var separated := if s.lines != [] && !s.lines[|s.lines| - 1].Separator? then s.(lines := s.lines + [Separator]) else s;
      EnterHunk(separated, starts, header(raw))
    else if raw == NO_NEWLINE then s
    else EmitLine(if s.inHunk then s else EnterHunk(s, starts, None), ParseBodyLine(raw))
  }

  function PassOf(lines: seq<string>, starts: seq<HunkStart>, header: HeaderNumbers): Pass {
    if lines == [] then PASS_START
    else PassStep(PassOf(lines[..|lines| - 1], starts, header), starts, header, lines[|lines| - 1])
  }

  function TrimFront(lines: seq<DiffLine>): seq<DiffLine> {
    if lines != [] && lines[0].Separator? then TrimFront(lines[1..]) else lines
  }

  function TrimBack(lines: seq<DiffLine>): seq<DiffLine> {
    if lines != [] && lines[|lines| - 1].Separator? then TrimBack(lines[..|lines| - 1]) else lines
  }

  /** An absent and an empty source both leave the hunks unlocated. */
  function InferredStarts(lines: seq<string>, source: Option<string>): seq<HunkStart> {
    if source.None? || source.value == "" then [] else Starts(SplitLines(NormalizeToLf(source.value)), lines)
  }

  function UpdateDiff(lines: seq<string>, source: Option<string>, header: HeaderNumbers): ParsedDiff {
    var s := PassOf(lines, InferredStarts(lines, source), header);
    ParsedDiff(TrimBack(TrimFront(s.lines)), s.added, s.removed, s.chars)
  }

  method TrimDiffSeparators(lines: seq<DiffLine>) returns (trimmed: seq<DiffLine>)
    ensures trimmed == TrimBack(TrimFront(lines))
  {
    trimmed := lines;
    while trimmed != [] && trimmed[0].Separator?
      invariant TrimFront(trimmed) == TrimFront(lines)
    {
      trimmed := trimmed[1..];
    }
    while trimmed != [] && trimmed[|trimmed| - 1].Separator?
      invariant TrimBack(trimmed) == TrimBack(TrimFront(lines))
    {
      trimmed := trimmed[..|trimmed| - 1];
    }
  }

  lemma PassNothing(starts: seq<HunkStart>, header: HeaderNumbers)
    ensures PassOf([], starts, header) == PASS_START
  {
  }

  lemma PassNext(lines: seq<string>, starts: seq<HunkStart>, header: HeaderNumbers, i: nat)
    requires i < |lines|
    ensures PassOf(lines[..i + 1], starts, header) == PassStep(PassOf(lines[..i], starts, header), starts, header, lines[i])
  {
    assert lines[..i + 1][..i] == lines[..i];
  }

  /** Move lines and the marker of a missing final newline leave everything as it is. */
  lemma SkippedStep(s: Pass, starts: seq<HunkStart>, header: HeaderNumbers, raw: string)
    requires IsMove(raw) || (!IsHeader(raw) && raw == NO_NEWLINE)
    ensures PassStep(s, starts, header, raw) == s
  {
  }

  lemma HeaderStep(s: Pass, starts: seq<HunkStart>, header: HeaderNumbers, raw: string)
    requires !IsMove(raw) && IsHeader(raw)
    ensures var numbers, inferred := header(raw), StartAt(starts, s.hunkIndex);
            PassStep(s, starts, header, raw)
            == Pass(if s.lines != [] && !s.lines[|s.lines| - 1].Separator? then s.lines + [Separator] else s.lines,
                    s.added, s.removed, s.chars,
                    if numbers.Some? then Some(numbers.value.0) else inferred.oldStart,
                    if numbers.Some? then Some(numbers.value.1) else inferred.newStart,
                    true, s.hunkIndex + 1)
  {
  }

  lemma BodyStep(s: Pass, starts: seq<HunkStart>, header: HeaderNumbers, raw: string)
    requires !IsMove(raw) && !IsHeader(raw) && raw != NO_NEWLINE
    ensures var inferred := StartAt(starts, s.hunkIndex);
            PassStep(s, starts, header, raw)
            == EmitLine(if s.inHunk then s
                        else Pass(s.lines, s.added, s.removed, s.chars, inferred.oldStart, inferred.newStart, true, s.hunkIndex + 1),
                        ParseBodyLine(raw))
  {
  }

  lemma EmitParts(s: Pass, line: BodyLine)
    ensures var n := s.chars + |line.content|;
            EmitLine(s, line)
            == (if line.marker == Add then
                  Pass(s.lines + [Numbered(line, None, s.newLine)], s.added + 1, s.removed, n, s.oldLine, Next(s.newLine), s.inHunk, s.hunkIndex)
                else if line.marker == Del then
                  Pass(s.lines + [Numbered(line, s.oldLine, None)], s.added, s.removed + 1, n, Next(s.oldLine), s.newLine, s.inHunk, s.hunkIndex)
                else
                  Pass(s.lines + [Numbered(line, s.oldLine, s.newLine)], s.added, s.removed, n, Next(s.oldLine), Next(s.newLine), s.inHunk, s.hunkIndex))
  {
  }

  /** The loop that numbers the lines of the patch. */
  method NumberLines(lines: seq<string>, inferredStarts: seq<HunkStart>, header: HeaderNumbers)
    returns (diffLines: seq<DiffLine>, added: nat, removed: nat, chars: nat)
    ensures var s := PassOf(lines, inferredStarts, header);
            diffLines == s.lines && added == s.added && removed == s.removed && chars == s.chars
  {
    diffLines, added, removed, chars := [], 0, 0, 0;
    var oldLine: Option<int>, newLine: Option<int> := None, None;
    var inHunk, hunkIndex: nat := false, 0;
    PassNothing(inferredStarts, header);
    hide *;
    for i := 0 to |lines|
      invariant PassOf(lines[..i], inferredStarts, header)
             == Pass(diffLines, added, removed, chars, oldLine, newLine, inHunk, hunkIndex)
    {
      PassNext(lines, inferredStarts, header, i);
      var rawLine := lines[i];
      ghost var s := Pass(diffLines, added, removed, chars, oldLine, newLine, inHunk, hunkIndex);
      if IsMove(rawLine) {
        SkippedStep(s, inferredStarts, header, rawLine);
        continue;
      }
      if IsHeader(rawLine) {
        HeaderStep(s, inferredStarts, header, rawLine);
        if diffLines != [] && !diffLines[|diffLines| - 1].Separator? {
          diffLines := diffLines + [Separator];
        }
        var numbers := header(rawLine);
        var inferred := StartAt(inferredStarts, hunkIndex);
        oldLine := if numbers.Some? then Some(numbers.value.0) else inferred.oldStart;
        newLine := if numbers.Some? then Some(numbers.value.1) else inferred.newStart;
        hunkIndex := hunkIndex + 1;
        inHunk := true;
        continue;
      }
      if rawLine == NO_NEWLINE {
        SkippedStep(s, inferredStarts, header, rawLine);
        continue;
      }
      BodyStep(s, inferredStarts, header, rawLine);
      if !inHunk {
        var inferred := StartAt(inferredStarts, hunkIndex);
        oldLine := inferred.oldStart;
        newLine := inferred.newStart;
        hunkIndex := hunkIndex + 1;
        inHunk := true;
      }
      var line := ParseBodyLine(rawLine);
      EmitParts(Pass(diffLines, added, removed, chars, oldLine, newLine, inHunk, hunkIndex), line);
      chars := chars + |line.content|;
      if line.marker == Add {
        diffLines := diffLines + [Numbered(line, None, newLine)];
        added := added + 1;
        newLine := Next(newLine);
        continue;
      }
      if line.marker == Del {
        diffLines := diffLines + [Numbered(line, oldLine, None)];
        removed := removed + 1;
        oldLine := Next(oldLine);
        continue;
      }
      diffLines := diffLines + [Numbered(line, oldLine, newLine)];
      oldLine := Next(oldLine);
      newLine := Next(newLine);
    }
    assert lines[..|lines|] == lines;
  }

  method ParseApplyPatchUpdateDiff(lines: seq<string>, source: Option<string>, header: HeaderNumbers)
    returns (diff: ParsedDiff)
    ensures diff == UpdateDiff(lines, source, header)
  {
    var inferredStarts: seq<HunkStart> := [];
    if source.Some? && source.value != "" {
      inferredStarts := InferApplyPatchHunkStarts(lines, source.value);
    }
    var diffLines, added, removed, chars := NumberLines(lines, inferredStarts, header);
    diffLines := TrimDiffSeparators(diffLines);
    return ParsedDiff(diffLines, added, removed, chars);
  }
}
