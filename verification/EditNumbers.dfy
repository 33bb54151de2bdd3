/** Which lines of the file, before and after the edits, the numbers in the previews of a multi-edit call name. */
module EditNumbers {
  import opened Prelude
  import opened TextLines
  import opened EditLocalizer

  function Moved(n: Option<int>, delta: int): Option<int> {
    if n.Some? then Some(n.value + delta) else None
  }

  /**
    Every line of an entry carries its number in the chunk, moved to where the chunk begins: an old number in the file
    as it is, a new number in the file with all edits applied.
   */
  lemma LinesAreMovedToTheirChunk(text: string, ms: seq<Match>, diff: ChunkDiff, k: nat, l: nat)
    requires AllInFile(text, ms) && Apart(ms) && k < |ms| && InFile(text, ms[k])
    requires l < |diff(Chunk(text, ms[k]), ms[k].newText)|
    ensures var lines, chunk := Entry(text, ms, diff, k).lines, diff(Chunk(text, ms[k]), ms[k].newText);
            && |lines| == |chunk|
            && lines[l] == if chunk[l].ChunkSeparator? then ChunkSeparator
                           else ChunkLine(chunk[l].content,
                                          Moved(chunk[l].oldNum, LineNumberAtIndex(text, ms[k].matchIndex) - 1),
                                          Moved(chunk[l].newNum, LineNumberAtIndex(Edited(text, ms), NewIndex(ms, k)) - 1))
  {
    hide Edited, NewIndex, LineNumberAtIndex, Apart, AllInFile, Chunk, LineShift;
    StartIsTrue(text, ms, diff, k);
  }

  /** An entry starts where its match, and its replacement, starts. */
  lemma StartIsTrue(text: string, ms: seq<Match>, diff: ChunkDiff, k: nat)
    requires AllInFile(text, ms) && Apart(ms) && k < |ms|
    ensures Entry(text, ms, diff, k).oldStart == LineNumberAtIndex(text, ms[k].matchIndex)
    ensures Entry(text, ms, diff, k).newStart == LineNumberAtIndex(Edited(text, ms), NewIndex(ms, k))
  {
    hide Edited, NewIndex, LineNumberAtIndex, LineShift, OffsetLines;
    NewStartLineIsTrue(text, ms, diff, k, 0);
    assert ms[k].newText[..0] == "" && NewIndex(ms, k) + 0 == NewIndex(ms, k);
  }

  // ----- the lines of a piece of a text

  /** Where two texts meet, the last line of the first and the first of the second become one. */
  function Meet(x: seq<string>, y: seq<string>): (r: seq<string>)
    requires x != [] && y != []
    ensures |r| == |x| + |y| - 1
    ensures forall i :: 0 <= i < |r| ==>
              r[i] == (if i < |x| then x[i] else "") + (if i >= |x| - 1 then y[i - (|x| - 1)] else "")
  {
    x[..|x| - 1] + [x[|x| - 1] + y[0]] + y[1..]
  }

  /** The lines of a text with one more character in front. */
  function Fronted(c: char, x: seq<string>): seq<string>
    requires x != []
  {
    if c == '\n' then [""] + x else [[c] + x[0]] + x[1..]
  }

  lemma MeetOfMore(first: string, x: seq<string>, y: seq<string>)
    requires x != [] && y != []
    ensures Meet([first] + x, y) == [first] + Meet(x, y)
  {
    assert ([first] + x)[..|x|] == [first] + x[..|x| - 1];
    hide *;
  }

  lemma MeetOfOne(first: string, y: seq<string>)
    requires y != []
    ensures Meet([first], y) == [first + y[0]] + y[1..]
  {
  }

  lemma MeetOfFronted(c: char, x: seq<string>, y: seq<string>)
    requires x != [] && y != []
    ensures Meet(Fronted(c, x), y) == Fronted(c, Meet(x, y))
  {
    hide Meet;
    if c == '\n' {
      MeetOfMore("", x, y);
    } else if |x| > 1 {
      MeetOfMore([c] + x[0], x[1..], y);
      MeetOfMore(x[0], x[1..], y);
      assert x == [x[0]] + x[1..];
    } else {
      MeetOfOne(x[0], y);
      MeetOfOne([c] + x[0], y);
      assert x == [x[0]];
      assert [c] + x[0] + y[0] == [c] + (x[0] + y[0]);
    }
  }

  lemma LinesOfFront(s: string)
    requires s != ""
    ensures SplitLines(s) == Fronted(s[0], SplitLines(s[1..]))
  {
  }

  lemma MeetOfNothing(y: seq<string>)
    requires y != []
    ensures Meet([""], y) == y
  {
    assert "" + y[0] == y[0];
  }

  lemma {:induction false} LinesOfConcat(a: string, b: string)
    ensures SplitLines(a + b) == Meet(SplitLines(a), SplitLines(b))
  {
    if a == "" {
      assert a + b == b;
      MeetOfNothing(SplitLines(b));
    } else {
      LinesOfConcat(a[1..], b);
      assert (a + b)[1..] == a[1..] + b && (a + b)[0] == a[0];
      LinesOfFront(a);
      LinesOfFront(a + b);
      MeetOfFronted(a[0], SplitLines(a[1..]), SplitLines(b));
      hide SplitLines, Meet, Fronted;
    }
  }

  /** Line `r` of a piece is its text's line `r` from the one the piece begins in, less what stands around the piece. */
  lemma LineOfPiece(a: string, piece: string, b: string, r: nat)
    requires r < |SplitLines(piece)|
    ensures var all, n := SplitLines(a + piece + b), |SplitLines(a)| - 1 + r;
            && n < |all|
            && all[n] == (if r == 0 then SplitLines(a)[|SplitLines(a)| - 1] else "") + SplitLines(piece)[r]
                         + (if r == |SplitLines(piece)| - 1 then SplitLines(b)[0] else "")
  {
    hide SplitLines, Meet;
    LinesOfConcat(a + piece, b);
    LinesOfConcat(a, piece);
    var n := |SplitLines(a)| - 1 + r;
    assert SplitLines(a + piece)[n] == (if r == 0 then SplitLines(a)[|SplitLines(a)| - 1] else "") + SplitLines(piece)[r];
  }

  // ----- numbers name lines

  /** Line `n` of the text is `content`, but for what stands in front of the chunk's first and behind its last line. */
  ghost predicate NamesLine(text: string, n: int, content: string, first: bool, last: bool) {
    && 1 <= n <= |SplitLines(text)|
    && exists front, back :: SplitLines(text)[n - 1] == front + content + back && (first || front == "") && (last || back == "")
  }

  /** The diff numbers the lines of a chunk by the chunk. */
  ghost predicate NamesChunkLine(chunk: string, n: Option<int>, content: string) {
    n.Some? ==> 1 <= n.value <= |SplitLines(chunk)| && SplitLines(chunk)[n.value - 1] == content
  }

  ghost predicate NumbersChunks(diff: ChunkDiff) {
    forall before, after, l :: 0 <= l < |diff(before, after)| && diff(before, after)[l].ChunkLine? ==>
      && NamesChunkLine(before, diff(before, after)[l].oldNum, diff(before, after)[l].content)
      && NamesChunkLine(after, diff(before, after)[l].newNum, diff(before, after)[l].content)
  }

  lemma NamedLine(text: string, a: string, chunk: string, b: string, n: int, content: string)
    requires text == a + chunk + b && NamesChunkLine(chunk, Some(n), content)
    ensures NamesLine(text, n + |SplitLines(a)| - 1, content, n == 1, n == |SplitLines(chunk)|)
  {
    hide SplitLines;
    LineOfPiece(a, chunk, b, n - 1);
    var front := if n == 1 then SplitLines(a)[|SplitLines(a)| - 1] else "";
    var back := if n == |SplitLines(chunk)| then SplitLines(b)[0] else "";
    assert SplitLines(text)[|SplitLines(a)| - 1 + n - 1] == front + content + back;
  }

  lemma MovedNamesLine(text: string, at: nat, chunk: string, n: int, content: string)
    requires at + |chunk| <= |text| && text[at..at + |chunk|] == chunk && NamesChunkLine(chunk, Some(n), content)
    ensures NamesLine(text, n + LineNumberAtIndex(text, at) - 1, content, n == 1, n == |SplitLines(chunk)|)
  {
    hide SplitLines, NamesLine, NamesChunkLine;
    assert text == text[..at] + chunk + text[at + |chunk|..];
    NamedLine(text, text[..at], chunk, text[at + |chunk|..], n, content);
  }

  lemma EntryLength(text: string, ms: seq<Match>, diff: ChunkDiff, k: nat)
    requires AllInFile(text, ms) && k < |ms| && InFile(text, ms[k])
    ensures |Entry(text, ms, diff, k).lines| == |diff(Chunk(text, ms[k]), ms[k].newText)|
  {
    hide LineShift, LineNumberAtIndex;
  }

  /**
    With a diff that numbers the lines of its chunks, every old number of an entry names that line of the file, and every
    new number that line of the file with all edits applied.
   */
  lemma NumbersNameLines(text: string, ms: seq<Match>, diff: ChunkDiff, k: nat, l: nat)
    requires AllInFile(text, ms) && Apart(ms) && k < |ms| && InFile(text, ms[k]) && NumbersChunks(diff)
    requires l < |Entry(text, ms, diff, k).lines| && Entry(text, ms, diff, k).lines[l].ChunkLine?
    ensures var line, m := Entry(text, ms, diff, k).lines[l], ms[k];
            var oldBase, newBase := LineNumberAtIndex(text, m.matchIndex) - 1, LineNumberAtIndex(Edited(text, ms), NewIndex(ms, k)) - 1;
            && (line.oldNum.Some? ==> NamesLine(text, line.oldNum.value, line.content,
                                                line.oldNum.value == oldBase + 1,
                                                line.oldNum.value == oldBase + |SplitLines(Chunk(text, m))|))
            && (line.newNum.Some? ==> NamesLine(Edited(text, ms), line.newNum.value, line.content,
                                                line.newNum.value == newBase + 1,
                                                line.newNum.value == newBase + |SplitLines(m.newText)|))
  {
    hide Edited, NewIndex, LineNumberAtIndex, Apart, AllInFile, SplitLines, NamesLine, Entry;
    var m, chunk := ms[k], Chunk(text, ms[k]);
    var raw := diff(chunk, m.newText);
    EntryLength(text, ms, diff, k);
    LinesAreMovedToTheirChunk(text, ms, diff, k, l);
    NewStartLineIsTrue(text, ms, diff, k, 0);
    assert raw[l].ChunkLine?;
    if raw[l].oldNum.Some? {
      MovedNamesLine(text, m.matchIndex, chunk, raw[l].oldNum.value, raw[l].content);
    }
    if raw[l].newNum.Some? {
      MovedNamesLine(Edited(text, ms), NewIndex(ms, k), m.newText, raw[l].newNum.value, raw[l].content);
    }
  }
}
