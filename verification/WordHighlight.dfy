/** Word-level highlighting: the changed ranges of a pair of lines, and painting them. */
module WordHighlight {
  import opened Prelude
  import opened AnsiText

  /** One piece of a word diff. */
  datatype Part = Same(value: string) | Removed(value: string) | Added(value: string)

  type Ranges = seq<(int, int)>

  predicate InRange(r: (int, int), p: int) {
    r.0 <= p < r.1
  }

  predicate InRanges(ranges: Ranges, p: int) {
    exists i :: 0 <= i < |ranges| && InRange(ranges[i], p)
  }

  /** In order, none inside out, and none reaching into the next. */
  predicate Sorted(ranges: Ranges) {
    && (forall i :: 0 <= i < |ranges| ==> 0 <= ranges[i].0 <= ranges[i].1)
    && (forall i, j :: 0 <= i < j < |ranges| ==> ranges[i].1 <= ranges[j].0)
  }

  // ----- the changed ranges of a word diff

  datatype Side = Before | After

  predicate OnSide(part: Part, side: Side) {
    if side.Before? then !part.Added? else !part.Removed?
  }

  /** What one part contributes to a side: each character with whether the diff changed it. */
  function Piece(part: Part, side: Side): seq<(char, bool)> {
    if OnSide(part, side) then seq(|part.value|, i requires 0 <= i < |part.value| => (part.value[i], !part.Same?)) else []
  }

  function SideOf(parts: seq<Part>, side: Side): seq<(char, bool)> {
    if parts == [] then [] else SideOf(parts[..|parts| - 1], side) + Piece(parts[|parts| - 1], side)
  }

  function TextOf(cs: seq<(char, bool)>): string {
    seq(|cs|, i requires 0 <= i < |cs| => cs[i].0)
  }

  function SameLength(parts: seq<Part>): nat {
    if parts == [] then 0
    else SameLength(parts[..|parts| - 1]) + if parts[|parts| - 1].Same? then |parts[|parts| - 1].value| else 0
  }

  /** `ranges` holds exactly the changed positions. */
  ghost predicate Marks(ranges: Ranges, cs: seq<(char, bool)>) {
    && Sorted(ranges)
    && (forall i :: 0 <= i < |ranges| ==> ranges[i].1 <= |cs|)
    && forall p :: 0 <= p < |cs| ==> (InRanges(ranges, p) <==> cs[p].1)
  }

  /** The ranges of a side after one more part. */
  function Extended(ranges: Ranges, at: nat, part: Part, side: Side): Ranges {
    if OnSide(part, side) && !part.Same? then ranges + [(at, at + |part.value|)] else ranges
  }

  lemma ExtendedSorted(ranges: Ranges, cs: seq<(char, bool)>, part: Part, side: Side)
    requires Marks(ranges, cs)
    ensures var ranges', cs' := Extended(ranges, |cs|, part, side), cs + Piece(part, side);
            Sorted(ranges') && forall i :: 0 <= i < |ranges'| ==> ranges'[i].1 <= |cs'|
  {
    hide InRanges;
  }

  lemma MarksOfNext(ranges: Ranges, cs: seq<(char, bool)>, part: Part, side: Side)
    requires Marks(ranges, cs)
    ensures Marks(Extended(ranges, |cs|, part, side), cs + Piece(part, side))
  {
    var ranges', cs' := Extended(ranges, |cs|, part, side), cs + Piece(part, side);
    ExtendedSorted(ranges, cs, part, side);
    hide Sorted;
    forall p | 0 <= p < |cs'|
      ensures InRanges(ranges', p) <==> cs'[p].1
    {
      if InRanges(ranges, p) {
        var i :| 0 <= i < |ranges| && InRange(ranges[i], p);
        assert InRange(ranges'[i], p);
      }
      if !part.Same? && p >= |cs| {
        assert InRange(ranges'[|ranges|], p);
      }
      if InRanges(ranges', p) {
        var i :| 0 <= i < |ranges'| && InRange(ranges'[i], p);
        assert i < |ranges| ==> InRange(ranges[i], p);
      }
    }
  }

  lemma SideNext(parts: seq<Part>, i: nat, side: Side)
    requires i < |parts|
    ensures SideOf(parts[..i + 1], side) == SideOf(parts[..i], side) + Piece(parts[i], side)
    ensures |Piece(parts[i], side)| == if OnSide(parts[i], side) then |parts[i].value| else 0
    ensures SameLength(parts[..i + 1]) == SameLength(parts[..i]) + if parts[i].Same? then |parts[i].value| else 0
  {
    assert parts[..i + 1][..i] == parts[..i];
  }

  /** What the two sides share is counted on both. */
  lemma {:induction false} SameWithinSides(parts: seq<Part>)
    ensures SameLength(parts) <= |SideOf(parts, Before)| && SameLength(parts) <= |SideOf(parts, After)|
    ensures SameLength(parts) == |SideOf(parts, Before)| == |SideOf(parts, After)| ==>
              TextOf(SideOf(parts, Before)) == TextOf(SideOf(parts, After))
  {
    if parts != [] {
      var n := |parts| - 1;
      SameWithinSides(parts[..n]);
      SideNext(parts, n, Before);
      SideNext(parts, n, After);
      assert parts[..n + 1] == parts;
      TextOfConcat(SideOf(parts[..n], Before), Piece(parts[n], Before));
      TextOfConcat(SideOf(parts[..n], After), Piece(parts[n], After));
    }
  }

  lemma TextOfConcat(a: seq<(char, bool)>, b: seq<(char, bool)>)
    ensures TextOf(a + b) == TextOf(a) + TextOf(b)
  {
  }

  datatype WordDiff = WordDiff(similarity: real, oldRanges: Ranges, newRanges: Ranges)

  /** What the loop has collected from the first `i` parts. */
  ghost predicate Collected(parts: seq<Part>, i: nat, oldRanges: Ranges, newRanges: Ranges, oldPos: int, newPos: int, same: int)
    requires i <= |parts|
  {
    && oldPos == |SideOf(parts[..i], Before)|
    && newPos == |SideOf(parts[..i], After)|
    && same == SameLength(parts[..i])
    && Marks(oldRanges, SideOf(parts[..i], Before))
    && Marks(newRanges, SideOf(parts[..i], After))
  }

  lemma CollectPart(parts: seq<Part>, i: nat, oldRanges: Ranges, newRanges: Ranges, oldPos: nat, newPos: nat, same: nat)
    requires i < |parts| && Collected(parts, i, oldRanges, newRanges, oldPos, newPos, same)
    ensures var part := parts[i];
            var length := |part.value|;
            Collected(parts, i + 1,
                      Extended(oldRanges, oldPos, part, Before), Extended(newRanges, newPos, part, After),
                      oldPos + (if part.Added? then 0 else length), newPos + (if part.Removed? then 0 else length),
                      same + (if part.Same? then length else 0))
  {
    SideNext(parts, i, Before);
    SideNext(parts, i, After);
    MarksOfNext(oldRanges, SideOf(parts[..i], Before), parts[i], Before);
    MarksOfNext(newRanges, SideOf(parts[..i], After), parts[i], After);
    hide SideOf, SameLength, Marks, Piece, Extended;
  }

  lemma CollectStart(parts: seq<Part>)
    ensures Collected(parts, 0, [], [], 0, 0, 0)
  {
    NothingMarked(parts);
  }

  lemma CollectEnd(parts: seq<Part>, oldRanges: Ranges, newRanges: Ranges, oldPos: int, newPos: int, same: int)
    requires Collected(parts, |parts|, oldRanges, newRanges, oldPos, newPos, same)
    ensures Marks(oldRanges, SideOf(parts, Before)) && Marks(newRanges, SideOf(parts, After)) && same == SameLength(parts)
  {
    assert parts[..|parts|] == parts;
  }

  lemma CollectRemoved(parts: seq<Part>, i: nat, oldRanges: Ranges, newRanges: Ranges, oldPos: nat, newPos: nat, same: nat)
    requires i < |parts| && Collected(parts, i, oldRanges, newRanges, oldPos, newPos, same) && parts[i].Removed?
    ensures var end := oldPos + |parts[i].value|;
            Collected(parts, i + 1, oldRanges + [(oldPos, end)], newRanges, end, newPos, same)
  {
    CollectPart(parts, i, oldRanges, newRanges, oldPos, newPos, same);
    hide Collected;
  }

  lemma CollectAdded(parts: seq<Part>, i: nat, oldRanges: Ranges, newRanges: Ranges, oldPos: nat, newPos: nat, same: nat)
    requires i < |parts| && Collected(parts, i, oldRanges, newRanges, oldPos, newPos, same) && parts[i].Added?
    ensures var end := newPos + |parts[i].value|;
            Collected(parts, i + 1, oldRanges, newRanges + [(newPos, end)], oldPos, end, same)
  {
    CollectPart(parts, i, oldRanges, newRanges, oldPos, newPos, same);
    hide Collected;
  }

  lemma CollectSame(parts: seq<Part>, i: nat, oldRanges: Ranges, newRanges: Ranges, oldPos: nat, newPos: nat, same: nat)
    requires i < |parts| && Collected(parts, i, oldRanges, newRanges, oldPos, newPos, same) && parts[i].Same?
    ensures var length := |parts[i].value|;
            Collected(parts, i + 1, oldRanges, newRanges, oldPos + length, newPos + length, same + length)
  {
    CollectPart(parts, i, oldRanges, newRanges, oldPos, newPos, same);
    hide Collected;
  }

  method CollectRanges(parts: seq<Part>) returns (oldRanges: Ranges, newRanges: Ranges, same: nat)
    ensures Marks(oldRanges, SideOf(parts, Before)) && Marks(newRanges, SideOf(parts, After))
    ensures same == SameLength(parts)
  {
    hide *;
    oldRanges, newRanges, same := [], [], 0;
    var oldPos, newPos := 0, 0;
    CollectStart(parts);
    for i := 0 to |parts|
      invariant oldPos >= 0 && newPos >= 0
      invariant Collected(parts, i, oldRanges, newRanges, oldPos, newPos, same)
    {
      var part := parts[i];
      if part.Removed? {
        CollectRemoved(parts, i, oldRanges, newRanges, oldPos, newPos, same);
        oldRanges := oldRanges + [(oldPos, oldPos + |part.value|)];
        oldPos := oldPos + |part.value|;
      } else if part.Added? {
        CollectAdded(parts, i, oldRanges, newRanges, oldPos, newPos, same);
        newRanges := newRanges + [(newPos, newPos + |part.value|)];
        newPos := newPos + |part.value|;
      } else {
        CollectSame(parts, i, oldRanges, newRanges, oldPos, newPos, same);
        same := same + |part.value|;
        oldPos := oldPos + |part.value|;
        newPos := newPos + |part.value|;
      }
    }
    CollectEnd(parts, oldRanges, newRanges, oldPos, newPos, same);
  }

  function Similarity(same: nat, maxLen: nat): real {
    if maxLen > 0 then same as real / maxLen as real else 1.0
  }

  lemma RatioBounds(r: real, x: real, m: real)
    requires 0.0 < m && 0.0 <= x <= m && r * m == x
    ensures 0.0 <= r <= 1.0
    ensures r == 1.0 <==> x == m
  {
    if r < 0.0 {
      ProductNegative(r, m);
    }
    if r > 1.0 {
      ProductExceeds(r, m);
    }
    if x == m {
      assert (r - 1.0) * m == 0.0;
    }
  }

  lemma ProductNegative(r: real, m: real)
    requires r < 0.0 < m
    ensures r * m < 0.0
  {
  }

  lemma ProductExceeds(r: real, m: real)
    requires r > 1.0 && m > 0.0
    ensures r * m > m
  {
    assert (r - 1.0) * m > 0.0;
  }

  /**
    Whatever the parts: on each side the ranges are sorted and hold exactly the positions that the parts
    of that side change, and the similarity is the length of the shared parts over the longer text's.
   */
  method WordDiffAnalysis(oldText: string, newText: string, parts: seq<Part>) returns (r: WordDiff)
    ensures oldText == "" == newText ==> r == WordDiff(1.0, [], [])
    ensures oldText != "" || newText != "" ==>
              && Marks(r.oldRanges, SideOf(parts, Before)) && Marks(r.newRanges, SideOf(parts, After))
              && r.similarity == Similarity(SameLength(parts), Max(|oldText|, |newText|))
  {
    if oldText == "" && newText == "" {
      return WordDiff(1.0, [], []);
    }
    hide SideOf, SameLength, Marks;
    var oldRanges, newRanges, same := CollectRanges(parts);
    var maxLen := Max(|oldText|, |newText|);
    return WordDiff(Similarity(same, maxLen), oldRanges, newRanges);
  }

  /** The parts of a side, put together, are the text of that side. */
  predicate Spells(parts: seq<Part>, side: Side, text: string) {
    TextOf(SideOf(parts, side)) == text
  }

  /** The similarity is the share of the longer text that is the same; two empty texts are alike. */
  lemma SimilarityIsShare(same: nat, maxLen: nat)
    ensures Similarity(same, maxLen) * maxLen as real == if maxLen > 0 then same as real else 0.0
    ensures maxLen == 0 ==> Similarity(same, maxLen) == 1.0
  {
  }

  /** For parts that spell both texts the similarity is a share, and 1 for equal texts only. */
  lemma SimilarityOfSpelled(parts: seq<Part>, oldText: string, newText: string)
    requires Spells(parts, Before, oldText) && Spells(parts, After, newText)
    ensures var r := Similarity(SameLength(parts), Max(|oldText|, |newText|));
            0.0 <= r <= 1.0 && (r == 1.0 ==> oldText == newText)
  {
    SameWithinSides(parts);
    var same, maxLen := SameLength(parts), Max(|oldText|, |newText|);
    hide SideOf, SameLength;
    if maxLen > 0 {
      SimilarityOne(same, maxLen);
    }
  }

  /** No part of this kind has any text. */
  predicate NothingAdded(parts: seq<Part>) {
    forall i :: 0 <= i < |parts| && parts[i].Added? ==> parts[i].value == ""
  }

  predicate NothingRemoved(parts: seq<Part>) {
    forall i :: 0 <= i < |parts| && parts[i].Removed? ==> parts[i].value == ""
  }

  lemma AddedNext(parts: seq<Part>, n: nat)
    requires |parts| == n + 1
    ensures NothingAdded(parts) <==> NothingAdded(parts[..n]) && (parts[n].Added? ==> parts[n].value == "")
    ensures NothingRemoved(parts) <==> NothingRemoved(parts[..n]) && (parts[n].Removed? ==> parts[n].value == "")
  {
    assert forall i :: 0 <= i < n ==> parts[..n][i] == parts[i];
  }

  lemma {:induction false} SharedIsAll(parts: seq<Part>)
    ensures SameLength(parts) == |SideOf(parts, After)| <==> NothingAdded(parts)
    ensures SameLength(parts) == |SideOf(parts, Before)| <==> NothingRemoved(parts)
  {
    if parts != [] {
      var n := |parts| - 1;
      SharedIsAll(parts[..n]);
      SameWithinSides(parts[..n]);
      SideNext(parts, n, Before);
      SideNext(parts, n, After);
      assert parts[..n + 1] == parts;
      AddedNext(parts, n);
      hide SideOf, SameLength, Piece, NothingAdded, NothingRemoved;
    }
  }

  /** For parts that spell the new text: similarity 1 says that nothing was added and the old text is no longer. */
  lemma SimilarityOneExactly(parts: seq<Part>, oldText: string, newText: string)
    requires Spells(parts, After, newText) && (oldText != "" || newText != "")
    ensures Similarity(SameLength(parts), Max(|oldText|, |newText|)) == 1.0 <==> |oldText| <= |newText| && NothingAdded(parts)
  {
    SameWithinSides(parts);
    SharedIsAll(parts);
    var same, maxLen := SameLength(parts), Max(|oldText|, |newText|);
    assert |TextOf(SideOf(parts, After))| == |SideOf(parts, After)|;
    hide SideOf, SameLength, NothingAdded, NothingRemoved, TextOf;
    SimilarityOne(same, maxLen);
  }

  lemma SimilarityOne(same: nat, maxLen: nat)
    requires same <= maxLen && maxLen > 0
    ensures 0.0 <= Similarity(same, maxLen) <= 1.0
    ensures Similarity(same, maxLen) == 1.0 <==> same == maxLen
  {
    RatioBounds(same as real / maxLen as real, same as real, maxLen as real);
  }

  /** Parts that add nothing to a text they spell: they spell the old text, too, exactly when it is equal and nothing was removed. */
  lemma SharedSpellsExactly(parts: seq<Part>, oldText: string, newText: string)
    requires Spells(parts, After, newText) && NothingAdded(parts)
    ensures NothingRemoved(parts) ==> (Spells(parts, Before, oldText) <==> oldText == newText)
    ensures !NothingRemoved(parts) && Spells(parts, Before, oldText) ==> |oldText| > |newText|
  {
    SameWithinSides(parts);
    SharedIsAll(parts);
    assert forall side :: |TextOf(SideOf(parts, side))| == |SideOf(parts, side)|;
    hide SideOf, SameLength, NothingAdded, NothingRemoved;
  }

  /** Similarity 1 with a word removed. */
  lemma RemovedTextIsSimilar()
    ensures var parts := [Same("a     b"), Removed(" x")];
            && Spells(parts, After, "a     b") && Similarity(SameLength(parts), Max(|"a b x"|, |"a     b"|)) == 1.0
  {
    var parts := [Same("a     b"), Removed(" x")];
    assert parts[..1] == [Same("a     b")] && parts[..2] == parts;
    SideOfOne(Same("a     b"), After);
    SideNext(parts, 1, After);
    hide SideOf, SameLength, Similarity;
    assert SideOf(parts, After) == Piece(Same("a     b"), After);
    assert TextOf(Piece(Same("a     b"), After)) == "a     b";
    SimilarityOneExactly(parts, "a b x", "a     b");
  }

  lemma SideOfOne(part: Part, side: Side)
    ensures SideOf([part], side) == Piece(part, side)
    ensures SameLength([part]) == if part.Same? then |part.value| else 0
  {
    assert [part][..0] == [];
  }

  /** A text that differs in spacing only can be of similarity 1. */
  lemma RespacedTextIsSimilar()
    ensures var parts := [Same("a  b")];
            && Spells(parts, After, "a  b") && !Spells(parts, Before, "a b")
            && Similarity(SameLength(parts), Max(|"a b"|, |"a  b"|)) == 1.0 && "a b" != "a  b"
  {
    SideOfOne(Same("a  b"), Before);
    SideOfOne(Same("a  b"), After);
    assert TextOf(Piece(Same("a  b"), After)) == "a  b" == TextOf(Piece(Same("a  b"), Before));
  }

  lemma NothingMarked(parts: seq<Part>)
    ensures SideOf(parts[..0], Before) == [] == SideOf(parts[..0], After) && SameLength(parts[..0]) == 0
    ensures Marks([], SideOf(parts[..0], Before)) && Marks([], SideOf(parts[..0], After))
  {
  }

  // ----- painting

  /** The escapes the painter uses: one that sets the base background, one that sets the highlight. */
  predicate SetsBg(params: string) {
    params == "49" || "48;" <= params
  }

  function BgOf(params: string): Color {
    if params == "49" then None else Some(params)
  }

  /** The full reset is the line's only escape that touches the background. */
  predicate OnlyResetsBg(line: Ansi) {
    forall i :: 0 <= i < |line| && line[i].Esc? ==> line[i].params == "0" || !AffectsBg(line[i].params)
  }

  function BgCells(t: Ansi): seq<Cell> {
    Cells(BgEffect, t, None)
  }

  function Bg(t: Ansi): Color {
    ColorAfter(BgEffect, t, None)
  }

  /** The background position `p` should have. */
  function Paint(ranges: Ranges, base: string, hl: string, p: int): Color {
    if InRanges(ranges, p) then BgOf(hl) else BgOf(base)
  }

  ghost predicate PaintedText(cells: seq<Cell>, text: string, ranges: Ranges, base: string, hl: string) {
    && |cells| == |text|
    && forall p :: 0 <= p < |cells| ==> cells[p] == Cell(text[p], Paint(ranges, base, hl, p))
  }

  /** A full reset stands before the visible position `p`. */
  ghost predicate ResetBefore(line: Ansi, p: int) {
    exists k :: 0 <= k < |line| && line[k] == Esc("0") && |Plain(line[..k])| <= p
  }

  /** The background of position `p` of a painted line: without ranges, none from the first reset on. */
  ghost function LineBg(line: Ansi, ranges: Ranges, base: string, hl: string, p: int): Color {
    if ranges == [] && ResetBefore(line, p) then None else Paint(ranges, base, hl, p)
  }

  ghost predicate Painted(cells: seq<Cell>, line: Ansi, ranges: Ranges, base: string, hl: string) {
    && |cells| == |Plain(line)|
    && forall p :: 0 <= p < |cells| ==> cells[p] == Cell(Plain(line)[p], LineBg(line, ranges, base, hl, p))
  }

  lemma PlainNext(line: Ansi, i: nat)
    requires i < |line|
    ensures Plain(line[..i + 1]) == Plain(line[..i]) + if line[i].Esc? then "" else [line[i].c]
  {
    assert line[..i + 1] == line[..i] + [line[i]];
    PlainOfConcat(line[..i], [line[i]]);
    assert [line[i]][1..] == [];
  }

  lemma {:induction false} PlainOfConcat(a: Ansi, b: Ansi)
    ensures Plain(a + b) == Plain(a) + Plain(b)
  {
    if a == [] {
      assert a + b == b;
    } else {
      PlainOfConcat(a[1..], b);
      PlainOfFirst(a, b);
      hide Plain;
    }
  }

  lemma PlainOfFirst(a: Ansi, b: Ansi)
    requires a != []
    ensures var first := if a[0].Esc? then [] else [a[0].c];
            && Plain(a) == first + Plain(a[1..])
            && Plain(a + b) == first + Plain(a[1..] + b)
  {
    assert (a + b)[1..] == a[1..] + b;
  }

  /** Emitting one more token. */
  lemma EmitToken(t: Ansi, token: Token)
    ensures BgCells(t + [token]) == BgCells(t) + if token.Esc? then [] else [Cell(token.c, Bg(t))]
    ensures Bg(t + [token]) == if token.Esc? then BgEffect(Bg(t), token.params) else Bg(t)
  {
    var t' := t + [token];
    CellsOfNext(BgEffect, t', |t|, None);
    assert t'[..|t|] == t && t'[..|t| + 1] == t';
  }

  lemma EmitBackground(t: Ansi, params: string)
    requires SetsBg(params)
    ensures BgCells(t + [Esc(params)]) == BgCells(t) && Bg(t + [Esc(params)]) == BgOf(params)
  {
    EmitToken(t, Esc(params));
  }

  predicate IsPaint(token: Token) {
    token.Esc? && SetsBg(token.params)
  }

  /** A painted text without the background codes. */
  function Unpainted(t: Ansi): Ansi {
    if t == [] then [] else Unpainted(t[..|t| - 1]) + if IsPaint(t[|t| - 1]) then [] else [t[|t| - 1]]
  }

  lemma UnpaintedNext(t: Ansi, token: Token)
    ensures Unpainted(t + [token]) == Unpainted(t) + if IsPaint(token) then [] else [token]
  {
    assert (t + [token])[..|t|] == t;
  }

  /** The line's own tokens are no paint. */
  lemma LineIsUnpainted(line: Ansi, i: nat)
    requires OnlyResetsBg(line) && i < |line|
    ensures !IsPaint(line[i])
  {
    if line[i].Esc? && line[i].params == "0" {
      assert !("48;" <= "0");
    }
  }

  lemma {:induction false} BasePainted(line: Ansi, base: string, i: nat)
    requires OnlyResetsBg(line) && SetsBg(base) && i <= |line|
    ensures Unpainted([Esc(base)] + line[..i]) == line[..i]
  {
    if i == 0 {
      UnpaintedNext([], Esc(base));
      assert [Esc(base)] + line[..0] == [] + [Esc(base)];
    } else {
      BasePainted(line, base, i - 1);
      LineIsUnpainted(line, i - 1);
      UnpaintedNext([Esc(base)] + line[..i - 1], line[i - 1]);
      hide Unpainted, IsPaint;
      assert [Esc(base)] + line[..i] == [Esc(base)] + line[..i - 1] + [line[i - 1]];
      assert line[..i] == line[..i - 1] + [line[i - 1]];
    }
  }

  lemma PaintAdds(t: Ansi, params: string)
    requires SetsBg(params)
    ensures Unpainted(t + [Esc(params)]) == Unpainted(t)
  {
    UnpaintedNext(t, Esc(params));
  }

  /** What the painter adds is background codes, and the reset at the end. */
  ghost predicate OnlyPaints(out: Ansi, line: Ansi, rst: Ansi) {
    |rst| <= |out| && out[|out| - |rst|..] == rst && Unpainted(out[..|out| - |rst|]) == line
  }

  lemma ResetPaints(front: Ansi, line: Ansi, rst: Ansi)
    requires Unpainted(front) == line
    ensures OnlyPaints(front + rst, line, rst)
  {
    assert (front + rst)[..|front|] == front;
  }

  /** Skipping the ranges that end at or before `vis` finds the only one that can hold it. */
  lemma PointerIsMembership(ranges: Ranges, k: nat, vis: int)
    requires Sorted(ranges) && k <= |ranges|
    requires forall i :: 0 <= i < k ==> ranges[i].1 <= vis
    requires k < |ranges| ==> vis < ranges[k].1
    ensures InRanges(ranges, vis) <==> k < |ranges| && ranges[k].0 <= vis < ranges[k].1
  {
    if k < |ranges| && ranges[k].0 <= vis {
      assert InRange(ranges[k], vis);
    }
    if InRanges(ranges, vis) {
      var i :| 0 <= i < |ranges| && InRange(ranges[i], vis);
    }
  }

  /** A visible character in the background it should have. */
  lemma PaintNext(out: Ansi, line: Ansi, i: nat, ranges: Ranges, base: string, hl: string)
    requires i < |line| && line[i].Vis? && PaintedText(BgCells(out), Plain(line[..i]), ranges, base, hl)
    requires Bg(out) == Paint(ranges, base, hl, |Plain(line[..i])|)
    ensures PaintedText(BgCells(out + [line[i]]), Plain(line[..i + 1]), ranges, base, hl)
  {
    hide BgCells, Bg, Plain, Paint;
    EmitToken(out, line[i]);
    PlainNext(line, i);
  }

  /**
    Painting preserves the visible text, and a position has the highlight background exactly when some
    range holds it, the base background otherwise; a line without ranges loses it at its first reset.
   */
  method InjectBg(line: Ansi, ranges: Ranges, base: string, hl: string, rst: Ansi) returns (out: Ansi)
    requires Sorted(ranges) && OnlyResetsBg(line) && SetsBg(base) && SetsBg(hl) && AllEscapes(rst)
    ensures Painted(BgCells(out), line, ranges, base, hl) && OnlyPaints(out, line, rst)
  {
    if ranges == [] {
      out := [Esc(base)] + line + rst;
      BasePaints(line, base, hl, rst);
      return;
    }
    hide *;
    out := [Esc(base)];
    var vis, inHL, rangeIndex, i := 0, false, 0, 0;
    PaintingStarts(line, ranges, base, hl);
    while i < |line|
      invariant 0 <= i <= |line| && 0 <= rangeIndex <= |ranges|
      invariant Painting(out, line, i, vis, inHL, ranges, base, hl)
      invariant forall k :: 0 <= k < rangeIndex ==> ranges[k].1 <= vis
      decreases |line| - i
    {
      if line[i].Esc? {
        EscapePaints(out, line, i, vis, inHL, ranges, base, hl);
        out := out + [line[i]];
        if line[i].params == "0" {
          out := out + [Esc(if inHL then hl else base)];
        }
        i := i + 1;
        continue;
      }
      var want;
      rangeIndex, want := AdvanceRange(ranges, rangeIndex, vis);
      if want != inHL {
        SwitchPaints(out, line, i, vis, inHL, want, ranges, base, hl);
        inHL := want;
        out := out + [Esc(if inHL then hl else base)];
      }
      VisiblePaints(out, line, i, vis, inHL, ranges, base, hl);
      out := out + [line[i]];
      vis := vis + 1;
      i := i + 1;
    }
    PaintingEnds(out, line, vis, inHL, ranges, base, hl, rst);
    out := out + rst;
  }

  /** Skipping the ranges that end at or before `vis`, and whether the next one holds it. */
  method AdvanceRange(ranges: Ranges, rangeIndex: nat, vis: int) returns (next: nat, want: bool)
    requires Sorted(ranges) && rangeIndex <= |ranges| && forall k :: 0 <= k < rangeIndex ==> ranges[k].1 <= vis
    ensures next <= |ranges| && forall k :: 0 <= k < next ==> ranges[k].1 <= vis
    ensures want <==> InRanges(ranges, vis)
  {
    next := rangeIndex;
    while next < |ranges| && vis >= ranges[next].1
      invariant next <= |ranges|
      invariant forall k :: 0 <= k < next ==> ranges[k].1 <= vis
    {
      next := next + 1;
    }
    want := next < |ranges| && vis >= ranges[next].0 && vis < ranges[next].1;
    PointerIsMembership(ranges, next, vis);
  }

  /** What the loop keeps: the first `i` tokens painted and nothing but paint added, the current background in force. */
  ghost predicate Painting(out: Ansi, line: Ansi, i: nat, vis: int, inHL: bool, ranges: Ranges, base: string, hl: string) {
    && i <= |line| && vis == |Plain(line[..i])|
    && Bg(out) == BgOf(if inHL then hl else base)
    && PaintedText(BgCells(out), Plain(line[..i]), ranges, base, hl)
    && Unpainted(out) == line[..i]
  }

  lemma PaintingStarts(line: Ansi, ranges: Ranges, base: string, hl: string)
    requires OnlyResetsBg(line) && SetsBg(base)
    ensures Painting([Esc(base)], line, 0, 0, false, ranges, base, hl)
  {
    hide PaintedText, BgCells, Plain, Unpainted;
    StartPainted(line, ranges, base, hl);
    PlainNothing(line);
    BasePainted(line, base, 0);
    EmitBackground([], base);
    assert [] + [Esc(base)] == [Esc(base)] == [Esc(base)] + line[..0];
  }

  lemma EscapePaints(out: Ansi, line: Ansi, i: nat, vis: int, inHL: bool, ranges: Ranges, base: string, hl: string)
    requires Painting(out, line, i, vis, inHL, ranges, base, hl) && OnlyResetsBg(line) && SetsBg(base) && SetsBg(hl)
    requires i < |line| && line[i].Esc?
    ensures var after := out + [line[i]];
            Painting(if line[i].params == "0" then after + [Esc(if inHL then hl else base)] else after, line, i + 1, vis, inHL, ranges, base, hl)
  {
    hide PaintedText, BgCells, Bg, Plain, Unpainted, IsPaint, BgOf, AffectsBg;
    PlainNext(line, i);
    LineIsUnpainted(line, i);
    EmitToken(out, line[i]);
    UnpaintedNext(out, line[i]);
    assert line[..i + 1] == line[..i] + [line[i]];
    assert BgCells(out) + [] == BgCells(out) && Plain(line[..i]) + "" == Plain(line[..i]);
    if line[i].params == "0" {
      EmitBackground(out + [line[i]], if inHL then hl else base);
      PaintAdds(out + [line[i]], if inHL then hl else base);
    } else {
      EscapeKeepsBg(line, i, Bg(out));
    }
  }

  lemma SwitchPaints(out: Ansi, line: Ansi, i: nat, vis: int, inHL: bool, want: bool, ranges: Ranges, base: string, hl: string)
    requires Painting(out, line, i, vis, inHL, ranges, base, hl) && SetsBg(base) && SetsBg(hl)
    ensures Painting(out + [Esc(if want then hl else base)], line, i, vis, want, ranges, base, hl)
  {
    hide PaintedText, BgCells, Bg, Plain, Unpainted, SetsBg, BgOf;
    EmitBackground(out, if want then hl else base);
    PaintAdds(out, if want then hl else base);
  }

  lemma VisiblePaints(out: Ansi, line: Ansi, i: nat, vis: int, inHL: bool, ranges: Ranges, base: string, hl: string)
    requires Painting(out, line, i, vis, inHL, ranges, base, hl) && OnlyResetsBg(line)
    requires i < |line| && line[i].Vis? && (InRanges(ranges, vis) <==> inHL)
    ensures Painting(out + [line[i]], line, i + 1, vis + 1, inHL, ranges, base, hl)
  {
    hide PaintedText, BgCells, Bg, Plain, Unpainted, IsPaint, InRanges, BgOf, OnlyResetsBg;
    LineIsUnpainted(line, i);
    PlainNext(line, i);
    PaintNext(out, line, i, ranges, base, hl);
    EmitToken(out, line[i]);
    UnpaintedNext(out, line[i]);
    assert line[..i + 1] == line[..i] + [line[i]];
  }

  lemma PaintingEnds(out: Ansi, line: Ansi, vis: int, inHL: bool, ranges: Ranges, base: string, hl: string, rst: Ansi)
    requires Painting(out, line, |line|, vis, inHL, ranges, base, hl) && ranges != [] && AllEscapes(rst)
    ensures Painted(BgCells(out + rst), line, ranges, base, hl) && OnlyPaints(out + rst, line, rst)
  {
    hide PaintedText, BgCells, Bg, Plain, Unpainted, Painted, OnlyPaints, AllEscapes;
    assert line[..|line|] == line;
    ResetAddsNothing(out, rst);
    ResetPaints(out, line, rst);
    PaintedWithRanges(BgCells(out + rst), line, ranges, base, hl);
  }

  /** Without ranges. */
  lemma BasePaints(line: Ansi, base: string, hl: string, rst: Ansi)
    requires OnlyResetsBg(line) && SetsBg(base) && AllEscapes(rst)
    ensures var out := [Esc(base)] + line + rst;
            Painted(BgCells(out), line, [], base, hl) && OnlyPaints(out, line, rst)
  {
    hide PaintedText, BgCells, Bg, Plain, Unpainted, Painted, OnlyPaints, AllEscapes, OnlyResetsBg, SetsBg;
    assert line[..|line|] == line;
    BasePainted(line, base, |line|);
    ResetPaints([Esc(base)] + line, line, rst);
    BaseOnly(line, base, hl, |line|);
    ResetAddsNothing([Esc(base)] + line, rst);
  }

  lemma StartPainted(line: Ansi, ranges: Ranges, base: string, hl: string)
    requires SetsBg(base)
    ensures PaintedText(BgCells([Esc(base)]), Plain(line[..0]), ranges, base, hl)
  {
    EmitBackground([], base);
    assert [] + [Esc(base)] == [Esc(base)];
  }

  lemma EscapeKeepsBg(line: Ansi, i: nat, bg: Color)
    requires OnlyResetsBg(line) && i < |line| && line[i].Esc? && line[i].params != "0"
    ensures BgEffect(bg, line[i].params) == bg
  {
  }

  lemma PaintedWithRanges(cells: seq<Cell>, line: Ansi, ranges: Ranges, base: string, hl: string)
    requires ranges != [] && PaintedText(cells, Plain(line), ranges, base, hl)
    ensures Painted(cells, line, ranges, base, hl)
  {
    hide Plain, Paint, ResetBefore;
  }

  lemma PlainNothing(line: Ansi)
    ensures Plain(line[..0]) == ""
  {
  }

  lemma ResetAddsNothing(t: Ansi, rst: Ansi)
    requires AllEscapes(rst)
    ensures BgCells(t + rst) == BgCells(t)
  {
    CellsOfConcat(BgEffect, t, rst, None);
    EscapesShowNothing(BgEffect, rst, Bg(t));
  }

  predicate HasReset(line: Ansi) {
    exists i :: 0 <= i < |line| && line[i] == Esc("0")
  }

  /** Without ranges nothing is re-established: the base background lasts until the line's first reset. */
  lemma {:induction false} WithoutRangesResetsWin(line: Ansi, base: string, i: nat)
    requires OnlyResetsBg(line) && SetsBg(base) && i <= |line|
    ensures Bg([Esc(base)] + line[..i]) == if HasReset(line[..i]) then None else BgOf(base)
  {
    var out := [Esc(base)] + line[..i];
    if i == 0 {
      assert out == [] + [Esc(base)];
      EmitBackground([], base);
    } else {
      WithoutRangesResetsWin(line, base, i - 1);
      assert out == [Esc(base)] + line[..i - 1] + [line[i - 1]];
      EmitToken([Esc(base)] + line[..i - 1], line[i - 1]);
      if HasReset(line[..i - 1]) {
        var k :| 0 <= k < i - 1 && line[..i - 1][k] == Esc("0");
        assert line[..i][k] == Esc("0");
      } else if line[i - 1] == Esc("0") {
        assert line[..i][i - 1] == Esc("0");
      } else {
        assert forall k :: 0 <= k < i - 1 ==> line[..i][k] == line[..i - 1][k];
      }
    }
  }

  lemma {:induction false} PlainGrows(line: Ansi, k: nat, i: nat)
    requires k <= i <= |line|
    ensures |Plain(line[..k])| <= |Plain(line[..i])|
  {
    if k < i {
      PlainGrows(line, k, i - 1);
      PlainNext(line, i - 1);
    }
  }

  lemma ResetBeforeNext(line: Ansi, i: nat, p: nat)
    requires i < |line| && p < |Plain(line[..i])|
    ensures ResetBefore(line[..i + 1], p) <==> ResetBefore(line[..i], p)
  {
    var longer, shorter := line[..i + 1], line[..i];
    assert forall k :: 0 <= k < i ==> longer[k] == shorter[k] && longer[..k] == shorter[..k];
    assert longer[..i] == shorter;
    hide Plain;
    if ResetBefore(shorter, p) {
      var k :| 0 <= k < |shorter| && shorter[k] == Esc("0") && |Plain(shorter[..k])| <= p;
      assert longer[k] == Esc("0");
    }
  }

  lemma ResetBeforeEnd(line: Ansi, i: nat)
    requires i < |line| && line[i].Vis?
    ensures ResetBefore(line[..i + 1], |Plain(line[..i])|) <==> HasReset(line[..i])
  {
    var longer, shorter := line[..i + 1], line[..i];
    if HasReset(shorter) {
      var k :| 0 <= k < i && shorter[k] == Esc("0");
      PlainGrows(line, k, i);
      assert longer[k] == Esc("0") && longer[..k] == line[..k];
    }
    hide Plain;
    if ResetBefore(longer, |Plain(shorter)|) {
      var k :| 0 <= k < |longer| && longer[k] == Esc("0") && |Plain(longer[..k])| <= |Plain(shorter)|;
      assert shorter[k] == Esc("0");
    }
  }

  /** A line painted without ranges, token by token. */
  lemma {:induction false} BaseOnly(line: Ansi, base: string, hl: string, i: nat)
    requires OnlyResetsBg(line) && SetsBg(base) && i <= |line|
    ensures Painted(BgCells([Esc(base)] + line[..i]), line[..i], [], base, hl)
  {
    if i == 0 {
      EmitBackground([], base);
      assert [] + [Esc(base)] == [Esc(base)] + line[..0];
      PlainNothing(line);
    } else {
      var n := i - 1;
      var out := [Esc(base)] + line[..n];
      BaseOnly(line, base, hl, n);
      EmitToken(out, line[n]);
      assert [Esc(base)] + line[..i] == out + [line[n]];
      PlainNext(line, n);
      WithoutRangesResetsWin(line, base, n);
      if line[n].Vis? {
        ResetBeforeEnd(line, n);
      }
      hide BgCells, Bg, Plain, ResetBefore, HasReset;
      forall p: nat | p < |Plain(line[..n])|
        ensures ResetBefore(line[..i], p) <==> ResetBefore(line[..n], p)
      {
        ResetBeforeNext(line, n, p);
      }
    }
  }
}
