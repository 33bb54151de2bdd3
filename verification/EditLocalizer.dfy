/**
  Line numbers for the previews of a multi-edit call: edits are put in file order, and a running
  line delta turns each old start line into a start line in the edited file.
 */
module EditLocalizer {
  import opened Prelude
  import opened TextLines

  /** Where one operation's old text was found, and what replaces it. */
  datatype Match = Match(editIndex: nat, matchIndex: nat, matchLength: nat, newText: string)

  datatype ChunkLine = ChunkLine(content: string, oldNum: Option<int>, newNum: Option<int>) | ChunkSeparator

  /** The diff library: numbers the lines of an old and a new chunk, both from 1. */
  type ChunkDiff = (string, string) -> seq<ChunkLine>

  datatype LocalizedEdit = LocalizedEdit(oldStart: int, newStart: int, lines: seq<ChunkLine>)

  function LineNumberAtIndex(text: string, index: int): int {
    |SplitLines(text[..Min(|text|, Max(0, index))])|
  }

  function OffsetLine(line: ChunkLine, oldOffset: int, newOffset: int): ChunkLine {
    if line.ChunkSeparator? then line
    else line.(oldNum := if line.oldNum.None? then None else Some(line.oldNum.value + oldOffset),
               newNum := if line.newNum.None? then None else Some(line.newNum.value + newOffset))
  }

  function OffsetLines(lines: seq<ChunkLine>, oldOffset: int, newOffset: int): (r: seq<ChunkLine>)
    ensures |r| == |lines| && forall i :: 0 <= i < |r| ==> r[i] == OffsetLine(lines[i], oldOffset, newOffset)
  {
    seq(|lines|, i requires 0 <= i < |lines| => OffsetLine(lines[i], oldOffset, newOffset))
  }

  // ----- file order

  predicate InFile(text: string, m: Match) {
    m.matchIndex + m.matchLength <= |text|
  }

  predicate AllInFile(text: string, ms: seq<Match>) {
    forall i :: 0 <= i < |ms| ==> InFile(text, ms[i])
  }

  /** In order, and no match reaches into the next. */
  predicate Apart(ms: seq<Match>) {
    forall i :: 0 < i < |ms| ==> ms[i - 1].matchIndex + ms[i - 1].matchLength <= ms[i].matchIndex
  }

  /** Behind the matches that do not start later: the sort is stable. */
  function InsertByIndex(m: Match, ms: seq<Match>): (r: seq<Match>)
    ensures multiset(r) == multiset(ms) + multiset{m}
  {
    if ms == [] then [m]
    else if ms[|ms| - 1].matchIndex <= m.matchIndex then ms + [m]
    else
      assert ms == ms[..|ms| - 1] + [ms[|ms| - 1]];
      InsertByIndex(m, ms[..|ms| - 1]) + [ms[|ms| - 1]]
  }

  function SortedByIndex(ms: seq<Match>): (r: seq<Match>)
    ensures multiset(r) == multiset(ms)
  {
    if ms == [] then []
    else
      assert ms == ms[..|ms| - 1] + [ms[|ms| - 1]];
      InsertByIndex(ms[|ms| - 1], SortedByIndex(ms[..|ms| - 1]))
  }

  lemma SortedKeeps(text: string, ms: seq<Match>)
    ensures |SortedByIndex(ms)| == |ms|
    ensures forall m :: m in SortedByIndex(ms) <==> m in ms
    ensures AllInFile(text, ms) ==> AllInFile(text, SortedByIndex(ms))
  {
    var r := SortedByIndex(ms);
    assert |multiset(r)| == |multiset(ms)|;
    forall m
      ensures m in r <==> m in ms
    {
      assert m in multiset(r) <==> m in multiset(ms);
    }
    forall i | 0 <= i < |r| && AllInFile(text, ms)
      ensures InFile(text, r[i])
    {
      assert r[i] in ms;
    }
  }

  // ----- the edited file

  function Splice(text: string, m: Match): string
    requires InFile(text, m)
  {
    text[..m.matchIndex] + m.newText + text[m.matchIndex + m.matchLength..]
  }

  lemma SpliceLength(text: string, m: Match)
    requires InFile(text, m)
    ensures |Splice(text, m)| == |text| + |m.newText| - m.matchLength
  {
  }

  lemma BeforeLast(text: string, ms: seq<Match>)
    requires AllInFile(text, ms) && Apart(ms) && ms != []
    ensures AllInFile(Splice(text, ms[|ms| - 1]), ms[..|ms| - 1]) && Apart(ms[..|ms| - 1])
    ensures forall i :: 0 <= i < |ms| - 1 ==> ms[i].matchIndex + ms[i].matchLength <= ms[|ms| - 1].matchIndex
  {
    EndsBefore(ms, |ms| - 1);
  }

  lemma {:induction false} EndsBefore(ms: seq<Match>, k: nat)
    requires Apart(ms) && k < |ms|
    ensures forall i :: 0 <= i < k ==> ms[i].matchIndex + ms[i].matchLength <= ms[k].matchIndex
  {
    if k > 0 {
      EndsBefore(ms, k - 1);
      assert ms[k - 1].matchIndex + ms[k - 1].matchLength <= ms[k].matchIndex;
    }
  }

  /** The edits applied one at a time from the last, so that earlier positions stay valid. */
  function Edited(text: string, ms: seq<Match>): string
    requires AllInFile(text, ms) && Apart(ms)
    decreases |ms|
  {
    if ms == [] then text
    else
      BeforeLast(text, ms);
      Edited(Splice(text, ms[|ms| - 1]), ms[..|ms| - 1])
  }

  /** How far the edits before some point move it, in characters and in lines. */
  function CharShift(ms: seq<Match>): int {
    if ms == [] then 0
    else CharShift(ms[..|ms| - 1]) + |ms[|ms| - 1].newText| - ms[|ms| - 1].matchLength
  }

  function Chunk(text: string, m: Match): string
    requires InFile(text, m)
  {
    text[m.matchIndex..m.matchIndex + m.matchLength]
  }

  function LineShift(text: string, ms: seq<Match>): int
    requires AllInFile(text, ms)
  {
    if ms == [] then 0
    else
      var last := ms[|ms| - 1];
      LineShift(text, ms[..|ms| - 1]) + CountLineBreaks(last.newText) - CountLineBreaks(Chunk(text, last))
  }

  function Numbered(text: string, m: Match, diff: ChunkDiff, lineDelta: int): LocalizedEdit
    requires InFile(text, m)
  {
    var oldStart := LineNumberAtIndex(text, m.matchIndex);
    var newStart := oldStart + lineDelta;
    LocalizedEdit(oldStart, newStart, OffsetLines(diff(Chunk(text, m), m.newText), oldStart - 1, newStart - 1))
  }

  /** The entry for the `k`-th edit in file order. */
  function Entry(text: string, ms: seq<Match>, diff: ChunkDiff, k: nat): LocalizedEdit
    requires AllInFile(text, ms) && k < |ms|
  {
    Numbered(text, ms[k], diff, LineShift(text, ms[..k]))
  }

  /** The matches carry their position in the call. */
  predicate Indexed(matches: seq<Option<Match>>) {
    forall i :: 0 <= i < |matches| && matches[i].Some? ==> matches[i].value.editIndex == i
  }

  predicate AllFound(matches: seq<Option<Match>>) {
    forall i :: 0 <= i < |matches| ==> matches[i].Some?
  }

  function Values(matches: seq<Option<Match>>): (r: seq<Match>)
    requires AllFound(matches)
    ensures |r| == |matches| && forall i :: 0 <= i < |r| ==> r[i] == matches[i].value
  {
    seq(|matches|, i requires 0 <= i < |matches| => matches[i].value)
  }

  lemma LineShiftNext(text: string, ms: seq<Match>, k: nat)
    requires AllInFile(text, ms) && k < |ms|
    ensures LineShift(text, ms[..k + 1])
         == LineShift(text, ms[..k]) + CountLineBreaks(ms[k].newText) - CountLineBreaks(Chunk(text, ms[k]))
  {
    assert ms[..k + 1][..k] == ms[..k];
  }

  lemma CountTwice(ms: seq<Match>, k: nat, l: nat)
    requires k < l < |ms| && ms[k] == ms[l]
    ensures multiset(ms)[ms[k]] >= 2
  {
    assert ms == ms[..l] + [ms[l]] + ms[l + 1..];
    assert ms[k] in ms[..l];
  }

  lemma {:induction false} CountOnce(ms: seq<Match>, m: Match)
    requires forall i, j :: 0 <= i < j < |ms| ==> ms[i] != ms[j]
    ensures multiset(ms)[m] <= 1
  {
    if ms != [] {
      var n := |ms| - 1;
      assert ms == ms[..n] + [ms[n]];
      CountOnce(ms[..n], m);
    }
  }

  lemma StandsAtIndex(matches: seq<Option<Match>>, m: Match)
    requires Indexed(matches) && AllFound(matches) && m in Values(matches)
    ensures m.editIndex < |matches| && m == Values(matches)[m.editIndex]
  {
    var i :| 0 <= i < |matches| && Values(matches)[i] == m;
  }

  /** In file order, too, every operation of the call occurs exactly once. */
  lemma EachOnce(matches: seq<Option<Match>>)
    requires Indexed(matches) && AllFound(matches)
    ensures var ms := SortedByIndex(Values(matches));
            && (forall k :: 0 <= k < |ms| ==> ms[k].editIndex < |matches|)
            && (forall k, l :: 0 <= k < l < |ms| ==> ms[k].editIndex != ms[l].editIndex)
            && forall e :: 0 <= e < |matches| ==> matches[e].value in ms
  {
    var vs := Values(matches);
    var ms := SortedByIndex(vs);
    SortedKeeps("", vs);
    hide SortedByIndex, Values;
    SortedOnce(vs);
    forall k | 0 <= k < |ms|
      ensures ms[k].editIndex < |matches| && ms[k] == vs[ms[k].editIndex]
    {
      StandsAtIndex(matches, ms[k]);
    }
    forall k, l | 0 <= k < l < |ms|
      ensures ms[k].editIndex != ms[l].editIndex
    {
      assert ms[k] != ms[l];
    }
    forall e | 0 <= e < |matches|
      ensures matches[e].value in ms
    {
      assert vs[e] in vs;
    }
  }

  lemma SortedOnce(vs: seq<Match>)
    requires forall i, j :: 0 <= i < j < |vs| ==> vs[i] != vs[j]
    ensures var ms := SortedByIndex(vs); forall k, l :: 0 <= k < l < |ms| ==> ms[k] != ms[l]
  {
    var ms := SortedByIndex(vs);
    forall k, l | 0 <= k < l < |ms|
      ensures ms[k] != ms[l]
    {
      if ms[k] == ms[l] {
        CountTwice(ms, k, l);
        CountOnce(vs, ms[k]);
      }
    }
  }

  /** The loop over the ordered edits. */
  method Localize(text: string, ordered: seq<Match>, diff: ChunkDiff) returns (localized: seq<Option<LocalizedEdit>>)
    requires AllInFile(text, ordered)
    requires forall k :: 0 <= k < |ordered| ==> ordered[k].editIndex < |ordered|
    requires forall k, l :: 0 <= k < l < |ordered| ==> ordered[k].editIndex != ordered[l].editIndex
    ensures |localized| == |ordered|
    ensures forall k :: 0 <= k < |ordered| ==> localized[ordered[k].editIndex] == Some(Entry(text, ordered, diff, k))
  {
    hide LineShift, CountLineBreaks, LineNumberAtIndex, OffsetLines, Numbered;
    localized := seq(|ordered|, _ => None);
    var lineDelta := 0;
    NoShift(text);
    for k := 0 to |ordered|
      invariant |localized| == |ordered| && lineDelta == LineShift(text, ordered[..k])
      invariant forall j :: 0 <= j < k ==> localized[ordered[j].editIndex] == Some(Entry(text, ordered, diff, j))
    {
      LineShiftNext(text, ordered, k);
      var m := ordered[k];
      assert InFile(text, m);
      var entry := LocalizeOne(text, m, diff, lineDelta);
      localized := localized[m.editIndex := Some(entry)];
      lineDelta := lineDelta + CountLineBreaks(m.newText) - CountLineBreaks(text[m.matchIndex..m.matchIndex + m.matchLength]);
    }
  }

  lemma NoShift(text: string)
    ensures LineShift(text, []) == 0
  {
  }

  method LocalizeOne(text: string, m: Match, diff: ChunkDiff, lineDelta: int) returns (entry: LocalizedEdit)
    requires InFile(text, m)
    ensures entry == Numbered(text, m, diff, lineDelta)
  {
    var oldChunk := text[m.matchIndex..m.matchIndex + m.matchLength];
    var oldStartLine := LineNumberAtIndex(text, m.matchIndex);
    var newStartLine := oldStartLine + lineDelta;
    entry := LocalizedEdit(oldStartLine, newStartLine,
                           OffsetLines(diff(oldChunk, m.newText), oldStartLine - 1, newStartLine - 1));
  }

  /**
    Entries come back in the order of the call. Nothing comes back when an operation has no unique
    match, or when two matches overlap.
   */
  method ComputeLocalizedEditDiffs(text: string, matches: seq<Option<Match>>, diff: ChunkDiff)
    returns (r: Option<seq<LocalizedEdit>>)
    requires Indexed(matches) && forall i :: 0 <= i < |matches| && matches[i].Some? ==> InFile(text, matches[i].value)
    ensures r.Some? <==> matches != [] && AllFound(matches) && Apart(SortedByIndex(Values(matches)))
    ensures r.Some? ==> |r.value| == |matches|
    ensures r.Some? ==>
              var ms := SortedByIndex(Values(matches));
              && AllInFile(text, ms)
              && forall k :: 0 <= k < |ms| ==>
                   ms[k].editIndex < |matches| && r.value[ms[k].editIndex] == Entry(text, ms, diff, k)
  {
    hide SortedByIndex, Entry, LineNumberAtIndex;
    if matches == [] {
      return None;
    }
    if exists i :: 0 <= i < |matches| && matches[i].None? {
      return None;
    }
    var ordered := SortedByIndex(Values(matches));
    SortedKeeps(text, Values(matches));
    for i := 1 to |ordered|
      invariant forall j :: 0 < j < i ==> ordered[j - 1].matchIndex + ordered[j - 1].matchLength <= ordered[j].matchIndex
    {
      if ordered[i - 1].matchIndex + ordered[i - 1].matchLength > ordered[i].matchIndex {
        return None;
      }
    }
    EachOnce(matches);
    var localized := Localize(text, ordered, diff);
    forall e | 0 <= e < |matches|
      ensures localized[e].Some?
    {
      assert matches[e].value in ordered;
    }
    r := Some(seq(|localized|, i requires 0 <= i < |localized| && localized[i].Some? => localized[i].value));
  }

  // ----- file order is what it should be

  ghost predicate InOrder(ms: seq<Match>) {
    forall i, j :: 0 <= i < j < |ms| ==> ms[i].matchIndex <= ms[j].matchIndex
  }

  lemma {:induction false} InsertHolds(m: Match, ms: seq<Match>, x: Match)
    requires x in InsertByIndex(m, ms)
    ensures x == m || x in ms
  {
    if ms != [] && ms[|ms| - 1].matchIndex > m.matchIndex && x != ms[|ms| - 1] {
      InsertHolds(m, ms[..|ms| - 1], x);
    }
  }

  lemma PushKeepsOrder(ms: seq<Match>, m: Match)
    requires InOrder(ms) && forall x :: x in ms ==> x.matchIndex <= m.matchIndex
    ensures InOrder(ms + [m])
  {
    var r := ms + [m];
    forall i, j | 0 <= i < j < |r|
      ensures r[i].matchIndex <= r[j].matchIndex
    {
      assert ms[i] in ms;
    }
  }

  lemma {:induction false} InsertKeepsOrder(m: Match, ms: seq<Match>)
    requires InOrder(ms)
    ensures InOrder(InsertByIndex(m, ms))
  {
    var n := |ms| - 1;
    if ms != [] && ms[n].matchIndex > m.matchIndex {
      InsertKeepsOrder(m, ms[..n]);
      forall x | x in InsertByIndex(m, ms[..n])
        ensures x.matchIndex <= ms[n].matchIndex
      {
        InsertHolds(m, ms[..n], x);
      }
      PushKeepsOrder(InsertByIndex(m, ms[..n]), ms[n]);
    } else {
      forall x | x in ms
        ensures x.matchIndex <= m.matchIndex
      {
      }
      PushKeepsOrder(ms, m);
    }
  }

  lemma {:induction false} SortedInOrder(ms: seq<Match>)
    ensures InOrder(SortedByIndex(ms))
  {
    if ms != [] {
      SortedInOrder(ms[..|ms| - 1]);
      InsertKeepsOrder(ms[|ms| - 1], SortedByIndex(ms[..|ms| - 1]));
    }
  }

  predicate Disjoint(a: Match, b: Match) {
    a.matchIndex + a.matchLength <= b.matchIndex || b.matchIndex + b.matchLength <= a.matchIndex
  }

  ghost predicate PairwiseDisjoint(ms: seq<Match>) {
    forall i, j :: 0 <= i < j < |ms| ==> Disjoint(ms[i], ms[j])
  }

  lemma ApartIsDisjoint(r: seq<Match>, a: Match, b: Match)
    requires Apart(r) && a in r && b in r && a != b
    ensures Disjoint(a, b)
  {
    var k :| 0 <= k < |r| && r[k] == a;
    var l :| 0 <= l < |r| && r[l] == b;
    EndsBefore(r, Max(k, l));
  }

  lemma DisjointInOrder(ms: seq<Match>, a: Match, b: Match)
    requires PairwiseDisjoint(ms) && a in ms && b in ms && a != b
    requires a.matchIndex <= b.matchIndex && b.matchLength >= 1
    ensures a.matchIndex + a.matchLength <= b.matchIndex
  {
    var i :| 0 <= i < |ms| && ms[i] == a;
    var j :| 0 <= j < |ms| && ms[j] == b;
    assert Disjoint(ms[i], ms[j]);
  }

  /** For matches of non-empty text the overlap check refuses exactly the overlapping ones. */
  lemma RefusesExactlyOverlaps(ms: seq<Match>)
    requires forall i :: 0 <= i < |ms| ==> ms[i].matchLength >= 1
    requires forall i, j :: 0 <= i < j < |ms| ==> ms[i] != ms[j]
    ensures Apart(SortedByIndex(ms)) <==> PairwiseDisjoint(ms)
  {
    var r := SortedByIndex(ms);
    SortedKeeps("", ms);
    SortedInOrder(ms);
    SortedOnce(ms);
    hide SortedByIndex, Disjoint;
    if Apart(r) {
      forall i, j | 0 <= i < j < |ms|
        ensures Disjoint(ms[i], ms[j])
      {
        ApartIsDisjoint(r, ms[i], ms[j]);
      }
    }
    if PairwiseDisjoint(ms) {
      forall k | 0 < k < |r|
        ensures r[k - 1].matchIndex + r[k - 1].matchLength <= r[k].matchIndex
      {
        assert r[k - 1] in r && r[k] in r;
        DisjointInOrder(ms, r[k - 1], r[k]);
      }
    }
  }

  // ----- why the delta is right

  lemma BreaksOfPieces(text: string, i: nat, j: nat)
    requires i <= j <= |text|
    ensures CountLineBreaks(text[..j]) == CountLineBreaks(text[..i]) + CountLineBreaks(text[i..j])
  {
    assert text[..j] == text[..i] + text[i..j];
    BreaksOfConcat(text[..i], text[i..j]);
  }

  lemma LineNumberCountsBreaks(text: string, index: nat)
    requires index <= |text|
    ensures LineNumberAtIndex(text, index) == CountLineBreaks(text[..index]) + 1
  {
    LinesAndBreaks(text[..index]);
  }

  /** A splice before position `q` moves it by the edit's own character and line change. */
  lemma SpliceMoves(text: string, m: Match, q: nat)
    requires InFile(text, m) && m.matchIndex + m.matchLength <= q <= |text|
    ensures var q' := q + |m.newText| - m.matchLength;
            && 0 <= q' <= |Splice(text, m)|
            && Splice(text, m)[q'..] == text[q..]
            && CountLineBreaks(Splice(text, m)[..q'])
               == CountLineBreaks(text[..q]) + CountLineBreaks(m.newText) - CountLineBreaks(Chunk(text, m))
  {
    var at, end := m.matchIndex, m.matchIndex + m.matchLength;
    var q' := q + |m.newText| - m.matchLength;
    var r := Splice(text, m);
    assert r[..q'] == text[..at] + (m.newText + text[end..q]);
    BreaksOfConcat(text[..at], m.newText + text[end..q]);
    BreaksOfConcat(m.newText, text[end..q]);
    BreaksOfPieces(text, at, end);
    BreaksOfPieces(text, end, q);
  }

  lemma LineShiftLocal(text: string, text': string, ms: seq<Match>, upTo: nat)
    requires AllInFile(text, ms) && AllInFile(text', ms) && upTo <= |text| && upTo <= |text'|
    requires text[..upTo] == text'[..upTo]
    requires forall i :: 0 <= i < |ms| ==> ms[i].matchIndex + ms[i].matchLength <= upTo
    ensures LineShift(text, ms) == LineShift(text', ms)
  {
    if ms != [] {
      var n := |ms| - 1;
      LineShiftLocal(text, text', ms[..n], upTo);
      assert Chunk(text, ms[n]) == text[..upTo][ms[n].matchIndex..ms[n].matchIndex + ms[n].matchLength];
      assert Chunk(text', ms[n]) == text'[..upTo][ms[n].matchIndex..ms[n].matchIndex + ms[n].matchLength];
    }
  }

  /** A position behind all edits moves by their total change; what follows it is untouched. */
  lemma {:induction false} EditsMove(text: string, ms: seq<Match>, q: nat)
    requires AllInFile(text, ms) && Apart(ms) && q <= |text|
    requires forall i :: 0 <= i < |ms| ==> ms[i].matchIndex + ms[i].matchLength <= q
    ensures var q' := q + CharShift(ms);
            && 0 <= q' <= |Edited(text, ms)|
            && Edited(text, ms)[q'..] == text[q..]
            && CountLineBreaks(Edited(text, ms)[..q']) == CountLineBreaks(text[..q]) + LineShift(text, ms)
    decreases |ms|
  {
    if ms != [] {
      var n := |ms| - 1;
      var last := ms[n];
      BeforeLast(text, ms);
      SpliceMoves(text, last, q);
      SpliceLength(text, last);
      var text' := Splice(text, last);
      var q1 := q + |last.newText| - last.matchLength;
      assert text'[..last.matchIndex] == text[..last.matchIndex];
      LineShiftLocal(text, text', ms[..n], last.matchIndex);
      EditsMove(text', ms[..n], q1);
    }
  }

  /** Editing leaves what comes before the first edit alone and puts its replacement there. */
  lemma {:induction false} FirstEditInPlace(text: string, ms: seq<Match>)
    requires AllInFile(text, ms) && Apart(ms) && ms != []
    ensures var m, edited := ms[0], Edited(text, ms);
            && m.matchIndex + |m.newText| <= |edited|
            && edited[..m.matchIndex] == text[..m.matchIndex]
            && edited[m.matchIndex..m.matchIndex + |m.newText|] == m.newText
    decreases |ms|
  {
    var n := |ms| - 1;
    BeforeLast(text, ms);
    if n > 0 {
      assert ms[..n][0] == ms[0];
      FirstEditInPlace(Splice(text, ms[n]), ms[..n]);
      assert InFile(text, ms[0]);
      assert Splice(text, ms[n])[..ms[0].matchIndex] == text[..ms[0].matchIndex];
    } else {
      assert ms[..n] == [];
      assert InFile(text, ms[0]);
    }
  }

  lemma PartsAreApart(text: string, ms: seq<Match>, k: nat)
    requires AllInFile(text, ms) && Apart(ms) && k <= |ms|
    ensures AllInFile(text, ms[k..]) && Apart(ms[k..])
    ensures AllInFile(text, ms[..k]) && Apart(ms[..k])
  {
  }

  lemma EarlierStayInFile(text: string, edited: string, ms: seq<Match>, k: nat)
    requires AllInFile(text, ms) && Apart(ms) && k < |ms|
    requires ms[k].matchIndex <= |edited|
    ensures AllInFile(edited, ms[..k])
  {
    EndsBefore(ms, k);
  }

  /** The edits from `k` on come first, then the ones before. */
  lemma {:induction false} EditedInTwo(text: string, ms: seq<Match>, k: nat)
    requires AllInFile(text, ms) && Apart(ms) && k < |ms|
    ensures AllInFile(text, ms[k..]) && Apart(ms[k..])
    ensures AllInFile(Edited(text, ms[k..]), ms[..k]) && Apart(ms[..k])
    ensures Edited(text, ms) == Edited(Edited(text, ms[k..]), ms[..k])
    ensures var m := ms[k];
            && m.matchIndex + |m.newText| <= |Edited(text, ms[k..])|
            && Edited(text, ms[k..])[..m.matchIndex] == text[..m.matchIndex]
            && Edited(text, ms[k..])[m.matchIndex..m.matchIndex + |m.newText|] == m.newText
    decreases |ms|
  {
    PartsAreApart(text, ms, k);
    FirstEditInPlace(text, ms[k..]);
    EarlierStayInFile(text, Edited(text, ms[k..]), ms, k);
    hide AllInFile, Apart, CharShift, CountLineBreaks;
    EditedSplits(text, ms, k);
  }

  lemma {:induction false} EditedSplits(text: string, ms: seq<Match>, k: nat)
    requires AllInFile(text, ms) && Apart(ms) && k < |ms|
    requires AllInFile(text, ms[k..]) && Apart(ms[k..])
    requires AllInFile(Edited(text, ms[k..]), ms[..k]) && Apart(ms[..k])
    ensures Edited(text, ms) == Edited(Edited(text, ms[k..]), ms[..k])
    decreases |ms|
  {
    var n := |ms| - 1;
    BeforeLast(text, ms);
    if k == n {
      assert ms[k..] == [ms[n]];
      assert ms[k..][..0] == [];
    } else {
      var text' := Splice(text, ms[n]);
      assert ms[k..][..n - k] == ms[..n][k..] && ms[..n][..k] == ms[..k];
      assert ms[k..][n - k] == ms[n];
      PartsAreApart(text', ms[..n], k);
      assert Edited(text, ms[k..]) == Edited(text', ms[..n][k..]);
      hide AllInFile, Apart, Splice;
      EditedSplits(text', ms[..n], k);
    }
  }

  /** Where the replacement of edit `k` begins in the edited file. */
  function NewIndex(ms: seq<Match>, k: nat): int
    requires k < |ms|
  {
    ms[k].matchIndex + CharShift(ms[..k])
  }

  /**
    The running delta is right: each edit's replacement stands in the edited file where the character
    shifts put it, and its new start line is that place's line number there. The same holds for every
    position inside the replacement, so each line of its diff is numbered by its own line.
   */
  lemma NewStartLineIsTrue(text: string, ms: seq<Match>, diff: ChunkDiff, k: nat, offset: nat)
    requires AllInFile(text, ms) && Apart(ms) && k < |ms| && offset <= |ms[k].newText|
    ensures var m, index, edited := ms[k], NewIndex(ms, k), Edited(text, ms);
            && 0 <= index && index + |m.newText| <= |edited|
            && edited[index..index + |m.newText|] == m.newText
            && LineNumberAtIndex(edited, index + offset)
               == Entry(text, ms, diff, k).newStart + CountLineBreaks(m.newText[..offset])
  {
    var edited, index := Edited(text, ms), NewIndex(ms, k);
    ReplacementFound(text, ms, k, offset);
    hide Edited, Apart, LineShift, CharShift, NewIndex, CountLineBreaks;
    LineNumberCountsBreaks(edited, index + offset);
    LineNumberCountsBreaks(text, ms[k].matchIndex);
  }

  lemma ReplacementFound(text: string, ms: seq<Match>, k: nat, offset: nat)
    requires AllInFile(text, ms) && Apart(ms) && k < |ms| && offset <= |ms[k].newText|
    ensures var m, index, edited := ms[k], NewIndex(ms, k), Edited(text, ms);
            && 0 <= index && index + |m.newText| <= |edited|
            && edited[index..index + |m.newText|] == m.newText
            && CountLineBreaks(edited[..index + offset])
               == CountLineBreaks(text[..m.matchIndex]) + LineShift(text, ms[..k]) + CountLineBreaks(m.newText[..offset])
  {
    hide *;
    var m := ms[k];
    EditedInTwo(text, ms, k);
    EndsBefore(ms, k);
    FirstInFile(text, ms, k);
    NewIndexIs(ms, k);
    var rest := Edited(text, ms[k..]);
    EditsMove(rest, ms[..k], m.matchIndex);
    LineShiftLocal(text, rest, ms[..k], m.matchIndex);
    ReplacementInPlace(Edited(text, ms), NewIndex(ms, k), rest, m.matchIndex, m.newText, offset);
  }

  lemma FirstInFile(text: string, ms: seq<Match>, k: nat)
    requires AllInFile(text, ms) && k < |ms|
    ensures AllInFile(text, ms[..k]) && ms[k].matchIndex <= |text|
  {
    assert InFile(text, ms[k]);
  }

  lemma NewIndexIs(ms: seq<Match>, k: nat)
    requires k < |ms|
    ensures NewIndex(ms, k) == ms[k].matchIndex + CharShift(ms[..k])
  {
  }

  lemma ReplacementInPlace(edited: string, index: nat, rest: string, at: nat, newText: string, offset: nat)
    requires index <= |edited| && at + |newText| <= |rest| && offset <= |newText|
    requires edited[index..] == rest[at..] && rest[at..at + |newText|] == newText
    ensures index + |newText| <= |edited| && edited[index..index + |newText|] == newText
    ensures CountLineBreaks(edited[..index + offset]) == CountLineBreaks(edited[..index]) + CountLineBreaks(newText[..offset])
  {
    assert |edited[index..]| == |rest[at..]|;
    assert edited[index..index + |newText|] == rest[at..][..|newText|];
    assert edited[index..index + offset] == edited[index..index + |newText|][..offset];
    BreaksOfPieces(edited, index, index + offset);
  }
}
