/**
  When the ranges of a word diff are right: a diff that ignores spacing shares the new text's spacing, so the
  parts need not spell the old text.
 */
module WordChanges {
  import opened Prelude
  import opened AnsiText
  import opened WordHighlight

  /** The same parts, each shared piece as the other text has it. */
  predicate SameParts(parts: seq<Part>, own: seq<Part>) {
    && |own| == |parts|
    && forall i :: 0 <= i < |parts| ==> parts[i].Same? == own[i].Same? && (parts[i].Same? || own[i] == parts[i])
  }

  predicate ChangedAt(cs: seq<(char, bool)>, p: int) {
    0 <= p < |cs| && cs[p].1
  }

  ghost predicate SameChanges(a: seq<(char, bool)>, b: seq<(char, bool)>) {
    forall p :: ChangedAt(a, p) <==> ChangedAt(b, p)
  }

  /** In front of every change of the side the shared pieces are together as long in `own` as in `parts`. */
  predicate ChangesInPlace(parts: seq<Part>, own: seq<Part>, side: Side)
    requires SameParts(parts, own)
  {
    forall i :: 0 <= i < |parts| ==> InPlaceAt(parts, own, side, i)
  }

  predicate InPlaceAt(parts: seq<Part>, own: seq<Part>, side: Side, i: nat)
    requires SameParts(parts, own) && i < |parts|
  {
    OnSide(parts[i], side) && !parts[i].Same? && parts[i].value != "" ==> SameLength(parts[..i]) == SameLength(own[..i])
  }

  lemma ChangesInPlaceNext(parts: seq<Part>, own: seq<Part>, side: Side)
    requires SameParts(parts, own) && parts != []
    ensures var n := |parts| - 1;
            && SameParts(parts[..n], own[..n])
            && (ChangesInPlace(parts, own, side) <==> ChangesInPlace(parts[..n], own[..n], side) && InPlaceAt(parts, own, side, n))
  {
    var n := |parts| - 1;
    hide SameLength, OnSide;
    forall i | 0 <= i < n
      ensures InPlaceAt(parts[..n], own[..n], side, i) <==> InPlaceAt(parts, own, side, i)
    {
      assert parts[..n][..i] == parts[..i] && own[..n][..i] == own[..i];
    }
  }

  /** Both versions of a side are longer than their shared text by the same changes. */
  lemma {:induction false} ChangedLength(parts: seq<Part>, own: seq<Part>, side: Side)
    requires SameParts(parts, own)
    ensures |SideOf(parts, side)| - SameLength(parts) == |SideOf(own, side)| - SameLength(own)
  {
    if parts != [] {
      var n := |parts| - 1;
      ChangedLength(parts[..n], own[..n], side);
      SideNext(parts, n, side);
      SideNext(own, n, side);
      assert parts[..n + 1] == parts && own[..n + 1] == own;
      hide SideOf, SameLength, Piece;
    }
  }

  lemma UnchangedTail(a: seq<(char, bool)>, b: seq<(char, bool)>, x: seq<(char, bool)>, y: seq<(char, bool)>)
    requires (forall i :: 0 <= i < |x| ==> !x[i].1) && forall i :: 0 <= i < |y| ==> !y[i].1
    ensures SameChanges(a + x, b + y) <==> SameChanges(a, b)
  {
    assert forall p :: ChangedAt(a + x, p) <==> ChangedAt(a, p);
    assert forall p :: ChangedAt(b + y, p) <==> ChangedAt(b, p);
  }

  /** A changed tail: its last position is the last change, so both texts must be equally long before it. */
  lemma ChangedTail(a: seq<(char, bool)>, b: seq<(char, bool)>, x: seq<(char, bool)>)
    requires x != [] && forall i :: 0 <= i < |x| ==> x[i].1
    ensures SameChanges(a + x, b + x) <==> SameChanges(a, b) && |a| == |b|
  {
    if SameChanges(a + x, b + x) {
      assert ChangedAt(a + x, |a + x| - 1) && ChangedAt(b + x, |b + x| - 1);
      assert |a| == |b|;
      forall p
        ensures ChangedAt(a, p) <==> ChangedAt(b, p)
      {
        if 0 <= p < |a| {
          assert ChangedAt(a + x, p) <==> ChangedAt(b + x, p);
        }
      }
    }
    if SameChanges(a, b) && |a| == |b| {
      forall p
        ensures ChangedAt(a + x, p) <==> ChangedAt(b + x, p)
      {
        if 0 <= p < |a| {
          assert ChangedAt(a, p) <==> ChangedAt(b, p);
        }
      }
    }
  }

  lemma FlagsOfPiece(part: Part, side: Side)
    ensures var x := Piece(part, side);
            if OnSide(part, side) && !part.Same? then |x| == |part.value| && forall i :: 0 <= i < |x| ==> x[i].1
            else forall i :: 0 <= i < |x| ==> !x[i].1
  {
  }

  /** The two versions of a side have the same changed positions exactly when every change is in place. */
  lemma {:induction false} SameChangesExactly(parts: seq<Part>, own: seq<Part>, side: Side)
    requires SameParts(parts, own)
    ensures SameChanges(SideOf(parts, side), SideOf(own, side)) <==> ChangesInPlace(parts, own, side)
  {
    if parts == [] {
    } else {
      var n := |parts| - 1;
      SameChangesExactly(parts[..n], own[..n], side);
      ChangedLength(parts[..n], own[..n], side);
      ChangesInPlaceNext(parts, own, side);
      SideNext(parts, n, side);
      SideNext(own, n, side);
      assert parts[..n + 1] == parts && own[..n + 1] == own;
      var a, b, x, y := SideOf(parts[..n], side), SideOf(own[..n], side), Piece(parts[n], side), Piece(own[n], side);
      FlagsOfPiece(parts[n], side);
      FlagsOfPiece(own[n], side);
      hide SideOf, SameLength, SameChanges, ChangesInPlace, Piece, OnSide;
      if OnSide(parts[n], side) && !parts[n].Same? && parts[n].value != "" {
        ChangedTail(a, b, x);
      } else {
        UnchangedTail(a, b, x, y);
      }
    }
  }

  /**
    The ranges collected from the parts mark exactly the changed positions of the text that `own` spells, if and
    only if every change is in place: the shared pieces in front of it are together as long in that text.
   */
  lemma RangesRightExactly(parts: seq<Part>, own: seq<Part>, side: Side, ranges: Ranges)
    requires SameParts(parts, own) && Marks(ranges, SideOf(parts, side))
    ensures (forall p :: InRanges(ranges, p) <==> ChangedAt(SideOf(own, side), p)) <==> ChangesInPlace(parts, own, side)
  {
    SameChangesExactly(parts, own, side);
    MarksAreChanges(ranges, SideOf(parts, side));
    hide SideOf, Marks, InRanges, ChangedAt, ChangesInPlace;
  }

  lemma MarksAreChanges(ranges: Ranges, cs: seq<(char, bool)>)
    requires Marks(ranges, cs)
    ensures forall p :: InRanges(ranges, p) <==> ChangedAt(cs, p)
  {
    forall p
      ensures InRanges(ranges, p) <==> ChangedAt(cs, p)
    {
      if InRanges(ranges, p) {
        var i :| 0 <= i < |ranges| && InRange(ranges[i], p);
        assert 0 <= p < |cs|;
      }
    }
  }

  // ----- changes counted

  function CountChanged(cs: seq<(char, bool)>): nat {
    if cs == [] then 0 else CountChanged(cs[..|cs| - 1]) + if cs[|cs| - 1].1 then 1 else 0
  }

  lemma {:induction false} CountOfConcat(a: seq<(char, bool)>, b: seq<(char, bool)>)
    ensures CountChanged(a + b) == CountChanged(a) + CountChanged(b)
  {
    if b == [] {
      assert a + b == a;
    } else {
      CountOfConcat(a, b[..|b| - 1]);
      assert (a + b)[..|a + b| - 1] == a + b[..|b| - 1];
    }
  }

  lemma {:induction false} CountNothing(cs: seq<(char, bool)>)
    ensures CountChanged(cs) == 0 <==> forall p :: !ChangedAt(cs, p)
  {
    if cs != [] {
      var n := |cs| - 1;
      CountNothing(cs[..n]);
      assert forall p :: 0 <= p < n ==> (ChangedAt(cs, p) <==> ChangedAt(cs[..n], p));
      assert ChangedAt(cs, n) <==> cs[n].1;
      hide CountChanged;
      if forall p :: !ChangedAt(cs, p) {
        assert forall p :: ChangedAt(cs[..n], p) ==> ChangedAt(cs, p);
      }
    }
  }

  lemma {:induction false} CountAlike(a: seq<(char, bool)>, b: seq<(char, bool)>)
    requires |a| == |b| && forall p :: 0 <= p < |a| ==> a[p].1 == b[p].1
    ensures CountChanged(a) == CountChanged(b)
  {
    if a != [] {
      CountAlike(a[..|a| - 1], b[..|b| - 1]);
    }
  }

  /** As many changes, the same within one text: then the same everywhere. */
  lemma WithinIsEverywhere(a: seq<(char, bool)>, b: seq<(char, bool)>)
    requires CountChanged(a) == CountChanged(b) && forall p :: 0 <= p < |b| ==> (ChangedAt(a, p) <==> ChangedAt(b, p))
    ensures SameChanges(a, b)
  {
    if |a| > |b| {
      var front, rest := a[..|b|], a[|b|..];
      assert a == front + rest;
      assert forall p :: 0 <= p < |b| ==> (ChangedAt(a, p) <==> front[p].1) && (ChangedAt(b, p) <==> b[p].1);
      CountOfConcat(front, rest);
      CountAlike(front, b);
      CountNothing(rest);
      forall p | p >= |b|
        ensures !ChangedAt(a, p)
      {
        assert ChangedAt(a, p) ==> ChangedAt(rest, p - |b|);
      }
    }
  }

  lemma CountPiece(part: Part, side: Side)
    ensures CountChanged(Piece(part, side)) == if OnSide(part, side) && !part.Same? then |part.value| else 0
  {
    var x := Piece(part, side);
    if OnSide(part, side) && !part.Same? {
      CountAll(x);
    } else {
      CountNothing(x);
    }
  }

  lemma {:induction false} CountAll(cs: seq<(char, bool)>)
    requires forall p :: 0 <= p < |cs| ==> cs[p].1
    ensures CountChanged(cs) == |cs|
  {
    if cs != [] {
      CountAll(cs[..|cs| - 1]);
    }
  }

  lemma {:induction false} ChangesAreAsMany(parts: seq<Part>, own: seq<Part>, side: Side)
    requires SameParts(parts, own)
    ensures CountChanged(SideOf(parts, side)) == CountChanged(SideOf(own, side))
  {
    if parts != [] {
      var n := |parts| - 1;
      ChangesAreAsMany(parts[..n], own[..n], side);
      SideNext(parts, n, side);
      SideNext(own, n, side);
      assert parts[..n + 1] == parts && own[..n + 1] == own;
      CountOfConcat(SideOf(parts[..n], side), Piece(parts[n], side));
      CountOfConcat(SideOf(own[..n], side), Piece(own[n], side));
      CountPiece(parts[n], side);
      CountPiece(own[n], side);
      hide SideOf, CountChanged, Piece;
    }
  }

  lemma NoRangesNoChanges(ranges: Ranges, marked: seq<(char, bool)>, cs: seq<(char, bool)>)
    requires (forall p :: InRanges(ranges, p) <==> ChangedAt(marked, p)) && CountChanged(marked) == CountChanged(cs)
    ensures ranges == [] ==> forall p :: !InRanges(ranges, p) && !ChangedAt(cs, p)
  {
    CountNothing(marked);
    CountNothing(cs);
    hide CountChanged, ChangedAt;
  }

  // ----- painted lines

  /** Each position has the highlight background when it is changed, else the background of an unmarked one. */
  ghost predicate ShowsChanges(cells: seq<Cell>, line: Ansi, cs: seq<(char, bool)>, ranges: Ranges, base: string, hl: string) {
    forall p :: 0 <= p < |cells| ==> ShownAt(cells[p].color, line, cs, ranges, base, hl, p)
  }

  ghost predicate ShownAt(color: Color, line: Ansi, cs: seq<(char, bool)>, ranges: Ranges, base: string, hl: string, p: int) {
    color == if ChangedAt(cs, p) then BgOf(hl) else if ranges == [] && ResetBefore(line, p) then None else BgOf(base)
  }

  /**
    A line painted with the ranges of a side highlights exactly its changed characters, if and only if every
    change is in place; for a line without ranges, too. `own` are the parts as the line has them.
   */
  lemma HighlightsExactlyChanges(parts: seq<Part>, own: seq<Part>, side: Side, cells: seq<Cell>, line: Ansi, ranges: Ranges,
                                 base: string, hl: string)
    requires SameParts(parts, own) && Marks(ranges, SideOf(parts, side)) && Spells(own, side, Plain(line))
    requires Painted(cells, line, ranges, base, hl) && BgOf(base) != BgOf(hl)
    ensures ShowsChanges(cells, line, SideOf(own, side), ranges, base, hl) <==> ChangesInPlace(parts, own, side)
  {
    var marked, cs := SideOf(parts, side), SideOf(own, side);
    SameChangesExactly(parts, own, side);
    ChangesAreAsMany(parts, own, side);
    MarksAreChanges(ranges, marked);
    NoRangesNoChanges(ranges, marked, cs);
    assert |TextOf(cs)| == |cs|;
    hide SideOf, Marks, Plain, ResetBefore, ChangesInPlace, InRanges, SameParts, BgOf, ChangedAt, CountChanged, TextOf, Painted, ShowsChanges;
    PaintedShows(cells, line, cs, ranges, base, hl);
    if ShowsChanges(cells, line, cs, ranges, base, hl) {
      WithinIsEverywhere(marked, cs);
    }
  }

  /** Painted colours are those of the changes exactly when the ranges hold the changed positions of the line. */
  lemma PaintedShows(cells: seq<Cell>, line: Ansi, cs: seq<(char, bool)>, ranges: Ranges, base: string, hl: string)
    requires Painted(cells, line, ranges, base, hl) && |Plain(line)| == |cs| && BgOf(base) != BgOf(hl)
    requires ranges == [] ==> forall p :: !InRanges(ranges, p) && !ChangedAt(cs, p)
    ensures ShowsChanges(cells, line, cs, ranges, base, hl) <==>
              forall p :: 0 <= p < |cs| ==> (InRanges(ranges, p) <==> ChangedAt(cs, p))
  {
    hide Plain, ResetBefore, BgOf, InRanges, ChangedAt;
    forall p | 0 <= p < |cs|
      ensures ShownAt(cells[p].color, line, cs, ranges, base, hl, p) <==> (InRanges(ranges, p) <==> ChangedAt(cs, p))
    {
      assert cells[p].color == LineBg(line, ranges, base, hl, p);
    }
    hide ShownAt;
    if ShowsChanges(cells, line, cs, ranges, base, hl) {
      assert forall p :: 0 <= p < |cs| ==> ShownAt(cells[p].color, line, cs, ranges, base, hl, p);
    }
  }

  // ----- inputs

  /**
    A word diff that ignores spacing shares the new text's spacing, and the ranges of the old side can miss:
    here they mark a space and not the removed character behind it.
   */
  lemma RespacedTextIsMismarked(ranges: Ranges)
    ensures var parts, own := [Same("a b "), Removed("c"), Added("d")], [Same("a  b "), Removed("c"), Added("d")];
            && Spells(parts, After, "a b d") && Spells(own, Before, "a  b c") && SameParts(parts, own)
            && !ChangesInPlace(parts, own, Before)
            && (Marks(ranges, SideOf(parts, Before)) ==>
                  InRanges(ranges, 4) && !InRanges(ranges, 5) && "a  b c"[4] == ' ' && "a  b c"[5] == 'c')
  {
    var parts, own := [Same("a b "), Removed("c"), Added("d")], [Same("a  b "), Removed("c"), Added("d")];
    OutOfPlace("a b ", "a  b ", "c", "d");
    SidesOfThree("a b ", "c", "d");
    hide SideOf, SameLength, InRanges, ChangesInPlace;
    ChangedAtEnd("a b ", 'c');
    if Marks(ranges, SideOf(parts, Before)) {
      MarkedAtEnd(ranges, Piece(Same("a b "), Before), 'c');
    }
    hide Marks, Piece;
    TextOfThree("a b ", "c", "d");
    TextOfThree("a  b ", "c", "d");
    assert "a  b " + "c" == "a  b c" && "a b " + "d" == "a b d";
  }

  lemma OutOfPlace(same: string, own: string, removed: string, added: string)
    requires |same| != |own| && removed != ""
    ensures var parts, own := [Same(same), Removed(removed), Added(added)], [Same(own), Removed(removed), Added(added)];
            SameParts(parts, own) && !ChangesInPlace(parts, own, Before)
  {
    var parts, owns := [Same(same), Removed(removed), Added(added)], [Same(own), Removed(removed), Added(added)];
    SideOfOne(Same(same), Before);
    SideOfOne(Same(own), Before);
    assert parts[..1] == [Same(same)] && owns[..1] == [Same(own)];
    hide SameLength;
    assert !InPlaceAt(parts, owns, Before, 1);
  }

  lemma TextOfThree(same: string, removed: string, added: string)
    ensures var parts := [Same(same), Removed(removed), Added(added)];
            TextOf(SideOf(parts, Before)) == same + removed && TextOf(SideOf(parts, After)) == same + added
  {
    SidesOfThree(same, removed, added);
    hide SideOf, Piece;
    TextOfConcat(Piece(Same(same), Before), Piece(Removed(removed), Before));
    TextOfConcat(Piece(Same(same), After), Piece(Added(added), After));
    TextOfPiece(Same(same), Before);
    TextOfPiece(Same(same), After);
    TextOfPiece(Removed(removed), Before);
    TextOfPiece(Added(added), After);
  }

  /** Parts need not spell the old text for its ranges to be right: a change in front of all shared text is in place. */
  lemma FrontChangeIsInPlace(removed: string, added: string, same: string, own: string)
    requires same != own
    ensures var parts, owns := [Removed(removed), Added(added), Same(same)], [Removed(removed), Added(added), Same(own)];
            && SameParts(parts, owns) && ChangesInPlace(parts, owns, Before)
            && Spells(owns, Before, removed + own) && !Spells(parts, Before, removed + own)
  {
    var parts, owns := [Removed(removed), Added(added), Same(same)], [Removed(removed), Added(added), Same(own)];
    assert parts[..0] == owns[..0] == [];
    hide SideOf, TextOf;
    TextInFront(removed, added, same);
    TextInFront(removed, added, own);
    assert (removed + same)[|removed|..] == same && (removed + own)[|removed|..] == own;
  }

  lemma TextInFront(removed: string, added: string, same: string)
    ensures TextOf(SideOf([Removed(removed), Added(added), Same(same)], Before)) == removed + same
  {
    SideOfThree(Removed(removed), Added(added), Same(same), Before);
    hide SideOf, Piece;
    TextOfConcat(Piece(Removed(removed), Before), Piece(Same(same), Before));
    TextOfPiece(Removed(removed), Before);
    TextOfPiece(Same(same), Before);
    NoPiece(added);
  }

  lemma NoPiece(added: string)
    ensures Piece(Added(added), Before) == []
  {
  }

  lemma TextOfPiece(part: Part, side: Side)
    ensures TextOf(Piece(part, side)) == if OnSide(part, side) then part.value else ""
  {
  }

  lemma ChangedAtEnd(same: string, c: char)
    ensures |Piece(Same(same), Before)| == |same| && Piece(Removed([c]), Before) == [(c, true)]
  {
  }

  lemma SideOfThree(a: Part, b: Part, c: Part, side: Side)
    ensures SideOf([a, b, c], side) == Piece(a, side) + Piece(b, side) + Piece(c, side)
  {
    hide SideOf, SameLength;
    var parts := [a, b, c];
    assert parts[..2] == [a, b] && parts[..1] == [a] && parts[..3] == parts;
    SideOfOne(a, side);
    SideNext(parts, 1, side);
    SideNext(parts, 2, side);
  }

  lemma SidesOfThree(same: string, removed: string, added: string)
    ensures var parts := [Same(same), Removed(removed), Added(added)];
            && SideOf(parts, Before) == Piece(Same(same), Before) + Piece(Removed(removed), Before)
            && SideOf(parts, After) == Piece(Same(same), After) + Piece(Added(added), After)
  {
    hide SideOf;
    SideOfThree(Same(same), Removed(removed), Added(added), Before);
    SideOfThree(Same(same), Removed(removed), Added(added), After);
    assert Piece(Added(added), Before) == [] == Piece(Removed(removed), After);
  }

  lemma MarkedAtEnd(ranges: Ranges, cs: seq<(char, bool)>, c: char)
    requires Marks(ranges, cs + [(c, true)])
    ensures InRanges(ranges, |cs|) && !InRanges(ranges, |cs| + 1)
  {
    assert (cs + [(c, true)])[|cs|] == (c, true);
  }
}
