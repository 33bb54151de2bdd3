/**
  Hunks in any order. A hunk that the forward search misses is looked for from the top, so the hunks of a patch
  may stand in the file in another order than in the patch; the new numbers are then right only if the hunks
  that the first pass has counted too early or too late balance.
 */
module PatchOrder {
  import opened Prelude
  import opened TextLines
  import opened PatchPreview
  import opened PatchLaws

  /** A located hunk: the `oldLength` source lines from `start` on give way to `lines`. */
  datatype Edit = Edit(start: nat, oldLength: nat, lines: seq<string>)

  function Delta(e: Edit): int {
    |e.lines| - e.oldLength
  }

  predicate Covers(e: Edit, q: nat) {
    e.start <= q < e.start + e.oldLength
  }

  // ----- the patched file, by a walk over the source

  /** The new lines of the edits that start at source line `q`. */
  function LinesAt(es: seq<Edit>, q: nat): seq<string> {
    if es == [] then []
    else LinesAt(es[..|es| - 1], q) + if es[|es| - 1].start == q then es[|es| - 1].lines else []
  }

  predicate Covered(es: seq<Edit>, q: nat) {
    exists i :: 0 <= i < |es| && Covers(es[i], q)
  }

  function KeptAt(source: seq<string>, es: seq<Edit>, q: nat): seq<string>
    requires q < |source|
  {
    if Covered(es, q) then [] else [source[q]]
  }

  /** The patched file up to source line `q`, and without the edits that start there. */
  function UpTo(source: seq<string>, es: seq<Edit>, q: nat): seq<string>
    requires q <= |source|
  {
    if q == 0 then []
    else UpTo(source, es, q - 1) + LinesAt(es, q - 1) + KeptAt(source, es, q - 1)
  }

  /** The patched file up to source line `q`, with the edits that start there. */
  function Through(source: seq<string>, es: seq<Edit>, q: nat): seq<string>
    requires q <= |source|
  {
    UpTo(source, es, q) + LinesAt(es, q)
  }

  function Result(source: seq<string>, es: seq<Edit>): seq<string> {
    Through(source, es, |source|)
  }

  ghost predicate Inside(source: seq<string>, es: seq<Edit>) {
    forall i :: 0 <= i < |es| ==> es[i].start + es[i].oldLength <= |source|
  }

  /** For `a` listed before `b`: no source line is in both, and at one place the later adds its lines behind the earlier's. */
  predicate Clear(a: Edit, b: Edit) {
    a.start + a.oldLength <= b.start || (b.start < a.start && b.start + b.oldLength <= a.start)
  }

  ghost predicate Apart(es: seq<Edit>) {
    forall i, j :: 0 <= i < j < |es| ==> Clear(es[i], es[j])
  }

  lemma {:induction false} ThroughGrows(source: seq<string>, es: seq<Edit>, p: nat, q: nat)
    requires p <= q <= |source|
    ensures Through(source, es, p) <= Through(source, es, q)
  {
    if p < q {
      ThroughGrows(source, es, p, q - 1);
    }
  }

  lemma {:induction false} LinesAtGrows(es: seq<Edit>, n: nat, q: nat)
    requires n <= |es|
    ensures LinesAt(es[..n], q) <= LinesAt(es, q)
    decreases |es|
  {
    if n < |es| {
      LinesAtGrows(es[..|es| - 1], n, q);
      assert es[..|es| - 1][..n] == es[..n];
    } else {
      assert es[..n] == es;
    }
  }

  lemma EditInResult(source: seq<string>, es: seq<Edit>, k: nat)
    requires Inside(source, es) && k < |es|
    ensures UpTo(source, es, es[k].start) + LinesAt(es[..k], es[k].start) + es[k].lines <= Result(source, es)
  {
    var start := es[k].start;
    hide UpTo, LinesAt, Through;
    LinesOfEdit(es, k);
    ThroughOf(source, es, start);
    ThroughGrows(source, es, start, |source|);
    hide *;
    PrefixBehind(UpTo(source, es, start), LinesAt(es[..k], start) + es[k].lines, LinesAt(es, start));
    assert UpTo(source, es, start) + LinesAt(es[..k], start) + es[k].lines
        == UpTo(source, es, start) + (LinesAt(es[..k], start) + es[k].lines);
  }

  lemma PrefixBehind(front: seq<string>, a: seq<string>, b: seq<string>)
    requires a <= b
    ensures front + a <= front + b
  {
  }

  lemma LinesOfAppend(es: seq<Edit>, e: Edit, q: nat)
    ensures LinesAt(es + [e], q) == LinesAt(es, q) + if e.start == q then e.lines else []
  {
    assert (es + [e])[..|es|] == es;
  }

  lemma LinesOfEdit(es: seq<Edit>, k: nat)
    requires k < |es|
    ensures LinesAt(es[..k], es[k].start) + es[k].lines <= LinesAt(es, es[k].start)
  {
    hide LinesAt;
    LinesOfAppend(es[..k], es[k], es[k].start);
    assert es[..k] + [es[k]] == es[..k + 1];
    LinesAtGrows(es, k + 1, es[k].start);
  }

  lemma ThroughOf(source: seq<string>, es: seq<Edit>, q: nat)
    requires q <= |source|
    ensures Through(source, es, q) == UpTo(source, es, q) + LinesAt(es, q)
  {
  }

  // ----- how long it is

  function Inserted(es: seq<Edit>, q: nat): nat {
    if es == [] then 0 else Inserted(es[..|es| - 1], q) + if es[|es| - 1].start < q then |es[|es| - 1].lines| else 0
  }

  /** How many source lines in front of `q` an edit removes. */
  function RemovedBy(e: Edit, q: nat): nat {
    Min(e.oldLength, Max(0, q - e.start))
  }

  function Removed(es: seq<Edit>, q: nat): nat {
    if es == [] then 0 else Removed(es[..|es| - 1], q) + RemovedBy(es[|es| - 1], q)
  }

  lemma {:induction false} InsertedNext(es: seq<Edit>, q: nat)
    ensures Inserted(es, q + 1) == Inserted(es, q) + |LinesAt(es, q)|
  {
    if es != [] {
      InsertedNext(es[..|es| - 1], q);
    }
  }

  lemma {:induction false} RemovedNext(es: seq<Edit>, q: nat)
    requires Apart(es)
    ensures Removed(es, q + 1) == Removed(es, q) + if Covered(es, q) then 1 else 0
  {
    if es != [] {
      var n := |es| - 1;
      RemovedNext(es[..n], q);
      assert forall i :: 0 <= i < n ==> es[..n][i] == es[i] && Clear(es[i], es[n]);
      assert Covered(es, q) <==> Covered(es[..n], q) || Covers(es[n], q);
    }
  }

  lemma {:induction false} NothingYet(es: seq<Edit>)
    ensures Inserted(es, 0) == 0 == Removed(es, 0)
  {
    if es != [] {
      NothingYet(es[..|es| - 1]);
    }
  }

  lemma UpToNothing(source: seq<string>, es: seq<Edit>)
    ensures UpTo(source, es, 0) == []
  {
  }

  lemma UpToNext(source: seq<string>, es: seq<Edit>, q: nat)
    requires q < |source|
    ensures |UpTo(source, es, q + 1)| == |UpTo(source, es, q)| + |LinesAt(es, q)| + if Covered(es, q) then 0 else 1
  {
    hide LinesAt, Covered;
  }

  lemma {:induction false} UpToLength(source: seq<string>, es: seq<Edit>, q: nat)
    requires Apart(es) && q <= |source|
    ensures |UpTo(source, es, q)| == q + Inserted(es, q) - Removed(es, q)
  {
    hide Inserted, Removed, LinesAt, Covered, Apart, UpTo;
    if q == 0 {
      NothingYet(es);
      UpToNothing(source, es);
    } else {
      UpToLength(source, es, q - 1);
      UpToNext(source, es, q - 1);
      InsertedNext(es, q - 1);
      RemovedNext(es, q - 1);
    }
  }

  /** How far the edits that start before `q`, or behind it, move what follows them. */
  function DeltaBefore(es: seq<Edit>, q: nat): int {
    if es == [] then 0 else DeltaBefore(es[..|es| - 1], q) + if es[|es| - 1].start < q then Delta(es[|es| - 1]) else 0
  }

  function DeltaBehind(es: seq<Edit>, q: nat): int {
    if es == [] then 0 else DeltaBehind(es[..|es| - 1], q) + if es[|es| - 1].start > q then Delta(es[|es| - 1]) else 0
  }

  function TotalDelta(es: seq<Edit>): int {
    if es == [] then 0 else TotalDelta(es[..|es| - 1]) + Delta(es[|es| - 1])
  }

  lemma {:induction false} WholeEditsBefore(es: seq<Edit>, q: nat)
    requires forall i :: 0 <= i < |es| ==> es[i].start + es[i].oldLength <= q || q <= es[i].start
    ensures Inserted(es, q) - Removed(es, q) == DeltaBefore(es, q)
  {
    if es != [] {
      WholeEditsBefore(es[..|es| - 1], q);
    }
  }

  lemma OthersClear(es: seq<Edit>, k: nat)
    requires Apart(es) && k < |es|
    ensures forall i :: 0 <= i < |es| ==> es[i].start + es[i].oldLength <= es[k].start || es[k].start <= es[i].start
  {
    forall i | 0 <= i < |es|
      ensures es[i].start + es[i].oldLength <= es[k].start || es[k].start <= es[i].start
    {
      if i < k {
        assert Clear(es[i], es[k]);
      } else if i > k {
        assert Clear(es[k], es[i]);
      }
    }
  }

  /** Edits that start at the same line as a later one only add lines. */
  lemma {:induction false} AddedThere(es: seq<Edit>, q: nat)
    requires forall i :: 0 <= i < |es| && es[i].start == q ==> es[i].oldLength == 0
    ensures DeltaBefore(es, q + 1) == DeltaBefore(es, q) + |LinesAt(es, q)|
  {
    if es != [] {
      AddedThere(es[..|es| - 1], q);
    }
  }

  lemma AddedBefore(es: seq<Edit>, k: nat)
    requires Apart(es) && k < |es|
    ensures DeltaBefore(es[..k], es[k].start + 1) == DeltaBefore(es[..k], es[k].start) + |LinesAt(es[..k], es[k].start)|
  {
    forall i | 0 <= i < k && es[i].start == es[k].start
      ensures es[i].oldLength == 0
    {
      assert Clear(es[i], es[k]);
    }
    AddedThere(es[..k], es[k].start);
  }

  /**
    Where the new lines of edit `k` stand: at its place in the source, moved by the edits in front of it in the file,
    to which those listed earlier for the same place belong.
   */
  function Place(es: seq<Edit>, k: nat): int
    requires k < |es|
  {
    es[k].start + DeltaBefore(es[..k], es[k].start + 1) + DeltaBefore(es[k + 1..], es[k].start)
  }

  predicate StandsAt(result: seq<string>, lines: seq<string>, place: int) {
    0 <= place <= |result| - |lines| && result[place..place + |lines|] == lines
  }

  lemma EditPlace(source: seq<string>, es: seq<Edit>, k: nat)
    requires Inside(source, es) && Apart(es) && k < |es|
    ensures StandsAt(Result(source, es), es[k].lines, Place(es, k))
  {
    hide UpTo, Result, Inserted, Removed, DeltaBefore, Apart, LinesAt;
    var q := es[k].start;
    EditInResult(source, es, k);
    UpToLength(source, es, q);
    OthersClear(es, k);
    WholeEditsBefore(es, q);
    AddedBefore(es, k);
    DeltaWithout(es, k);
    LinesBehind(UpTo(source, es, q) + LinesAt(es[..k], q), es[k].lines, Result(source, es));
  }

  lemma LinesBehind(front: seq<string>, lines: seq<string>, result: seq<string>)
    requires front + lines <= result
    ensures StandsAt(result, lines, |front|)
  {
    assert result[..|front| + |lines|] == front + lines;
  }

  /** An edit does not move its own place. */
  lemma DeltaWithout(es: seq<Edit>, k: nat)
    requires k < |es|
    ensures DeltaBefore(es, es[k].start) == DeltaBefore(es[..k], es[k].start) + DeltaBefore(es[k + 1..], es[k].start)
  {
    hide DeltaBefore;
    var q, rest := es[k].start, es[k + 1..];
    DeltaOfConcat(es[..k], [es[k]] + rest, q);
    DeltaOfConcat([es[k]], rest, q);
    DeltaOfOne(es[k], q);
    assert es == es[..k] + ([es[k]] + rest);
  }

  lemma DeltaOfOne(e: Edit, q: nat)
    ensures DeltaBefore([e], q) == if e.start < q then Delta(e) else 0
  {
    assert [e][..0] == [];
  }

  lemma {:induction false} DeltaOfConcat(a: seq<Edit>, b: seq<Edit>, q: nat)
    ensures DeltaBefore(a + b, q) == DeltaBefore(a, q) + DeltaBefore(b, q)
  {
    if b == [] {
      assert a + b == a;
    } else {
      DeltaOfConcat(a, b[..|b| - 1], q);
      assert (a + b)[..|a + b| - 1] == a + b[..|b| - 1];
    }
  }

  lemma {:induction false} DeltaSplits(es: seq<Edit>, q: nat)
    ensures TotalDelta(es) == DeltaBefore(es, q + 1) + DeltaBehind(es, q)
  {
    if es != [] {
      DeltaSplits(es[..|es| - 1], q);
    }
  }

  /** The edits counted before `k` that stand behind it move as many lines as those not yet counted that stand before it. */
  predicate Balanced(es: seq<Edit>, k: nat)
    requires k < |es|
  {
    DeltaBehind(es[..k], es[k].start) == DeltaBefore(es[k + 1..], es[k].start)
  }

  lemma CountedRightExactly(es: seq<Edit>, k: nat)
    requires k < |es|
    ensures es[k].start + TotalDelta(es[..k]) == Place(es, k) <==> Balanced(es, k)
  {
    DeltaSplits(es[..k], es[k].start);
  }

  // ----- the hunks of a patch

  /** The hunks as edits, where the first pass has located them. */
  function EditsOf(source: seq<string>, hunks: seq<seq<string>>): (es: seq<Edit>)
    ensures |es| == |hunks|
  {
    if hunks == [] then []
    else
      var before, hunk := hunks[..|hunks| - 1], hunks[|hunks| - 1];
      var m := MatchOf(source, hunk, LocatedAll(source, before).searchFrom);
      EditsOf(source, before) + [Edit(Max(0, m), |OldLines(hunk)|, NewLines(hunk))]
  }

  ghost predicate AllLocated(source: seq<string>, hunks: seq<seq<string>>) {
    forall k :: 0 <= k < |hunks| ==> LocatedAt(source, hunks, k)
  }

  ghost predicate LocatedAt(source: seq<string>, hunks: seq<seq<string>>, k: nat)
    requires k < |hunks|
  {
    MatchOf(source, hunks[k], LocatedAll(source, hunks[..k]).searchFrom) != -1
  }

  lemma AllLocatedPrefix(source: seq<string>, hunks: seq<seq<string>>, n: nat)
    requires AllLocated(source, hunks) && n <= |hunks|
    ensures AllLocated(source, hunks[..n])
  {
    forall k | 0 <= k < n
      ensures LocatedAt(source, hunks[..n], k)
    {
      assert LocatedAt(source, hunks, k);
      assert hunks[..n][..k] == hunks[..k];
    }
  }

  lemma {:induction false} EditsOfPrefix(source: seq<string>, hunks: seq<seq<string>>, n: nat)
    requires n <= |hunks|
    ensures EditsOf(source, hunks)[..n] == EditsOf(source, hunks[..n])
    decreases |hunks|
  {
    if n < |hunks| {
      EditsOfPrefix(source, hunks[..|hunks| - 1], n);
      assert hunks[..|hunks| - 1][..n] == hunks[..n];
    } else {
      assert hunks[..n] == hunks;
    }
  }

  lemma EditAt(source: seq<string>, hunks: seq<seq<string>>, k: nat)
    requires k < |hunks|
    ensures EditsOf(source, hunks)[k]
         == Edit(Max(0, MatchOf(source, hunks[k], LocatedAll(source, hunks[..k]).searchFrom)), |OldLines(hunks[k])|, NewLines(hunks[k]))
  {
    EditsOfPrefix(source, hunks, k + 1);
    assert hunks[..k + 1][..k] == hunks[..k];
    assert EditsOf(source, hunks)[k] == EditsOf(source, hunks)[..k + 1][k];
  }

  lemma {:induction false} LineDeltaIsTotal(source: seq<string>, hunks: seq<seq<string>>)
    requires AllLocated(source, hunks)
    ensures LocatedAll(source, hunks).lineDelta == TotalDelta(EditsOf(source, hunks))
  {
    if hunks != [] {
      var n := |hunks| - 1;
      AllLocatedPrefix(source, hunks, n);
      LineDeltaIsTotal(source, hunks[..n]);
      assert LocatedAt(source, hunks, n);
      HunkDelta(hunks[n]);
      hide MatchOf, OldLines, NewLines, CountMarker, AllLocated;
    }
  }

  lemma LocatedStart(source: seq<string>, hunks: seq<seq<string>>, k: nat)
    requires k < |hunks| && LocatedAt(source, hunks, k)
    ensures var s, start := LocatedAll(source, hunks[..k]), EditsOf(source, hunks)[k].start;
            StartOf(source, s, hunks[k]) == HunkStart(Some(start + 1), Some(start + 1 + s.lineDelta))
  {
    hide MatchOf, LocatedAll, EditsOf, OldLines, NewLines;
    EditAt(source, hunks, k);
  }

  /** The new number the first pass gives a hunk, whatever the order of the hunks. */
  lemma NewStartIs(source: seq<string>, hunks: seq<seq<string>>, k: nat)
    requires AllLocated(source, hunks) && k < |hunks|
    ensures var es, start := EditsOf(source, hunks), StartAt(LocatedAll(source, hunks).starts, k);
            start == HunkStart(Some(es[k].start + 1), Some(es[k].start + 1 + TotalDelta(es[..k])))
  {
    hide LocatedAll, LocatedAt, EditsOf, TotalDelta, StartAt, StartOf;
    AllLocatedPrefix(source, hunks, k);
    LocatedStart(source, hunks, k);
    hide AllLocated;
    StartsOfPrefix(source, hunks, k);
    LineDeltaIsTotal(source, hunks[..k]);
    EditsOfPrefix(source, hunks, k);
  }

  lemma EditsInside(source: seq<string>, hunks: seq<seq<string>>)
    requires AllLocated(source, hunks)
    ensures Inside(source, EditsOf(source, hunks))
  {
    hide LocatedAll, MatchOf, OldLines, NewLines, EditsOf, AllLocated;
    forall k | 0 <= k < |hunks|
      ensures EditsOf(source, hunks)[k].start + EditsOf(source, hunks)[k].oldLength <= |source|
    {
      LocatedHunkMatches(source, hunks, k);
      NewStartIs(source, hunks, k);
      EditAt(source, hunks, k);
    }
  }

  /**
    For hunks that are all located and do not overlap, in whatever order: the new lines of a hunk stand in the
    patched file at one place, and its new number names that place exactly when the hunk is balanced.
   */
  lemma NewStartRightExactly(source: seq<string>, hunks: seq<seq<string>>, k: nat)
    requires AllLocated(source, hunks) && Apart(EditsOf(source, hunks)) && k < |hunks|
    ensures var es := EditsOf(source, hunks);
            && StandsAt(Result(source, es), NewLines(hunks[k]), Place(es, k))
            && (StartAt(LocatedAll(source, hunks).starts, k).newStart == Some(Place(es, k) + 1) <==> Balanced(es, k))
  {
    var es := EditsOf(source, hunks);
    hide Result, EditsOf, LocatedAll, NewLines, OldLines, MatchOf, Balanced, TotalDelta, DeltaBefore, Place, AllLocated, Apart, Inside, StandsAt, StartAt;
    EditsInside(source, hunks);
    NewStartIs(source, hunks, k);
    EditAt(source, hunks, k);
    EditPlace(source, es, k);
    CountedRightExactly(es, k);
  }

  lemma StandingLines(start: HunkStart, hunk: seq<string>, result: seq<string>, place: int)
    requires start.oldStart.Some? && start.newStart == Some(place + 1) && StandsAt(result, NewLines(hunk), place)
    ensures HunkNumbered(start, hunk, result)
  {
    hide NewLines;
    forall j | 0 <= j < |NewLines(hunk)|
      ensures NamesLine(Shift(start.newStart, j), result, NewLines(hunk)[j])
    {
      assert result[place..place + |NewLines(hunk)|][j] == result[place + j];
    }
  }

  lemma BalancedIsNumbered(source: seq<string>, hunks: seq<seq<string>>)
    requires AllLocated(source, hunks) && Apart(EditsOf(source, hunks))
    requires forall k :: 0 <= k < |hunks| ==> Balanced(EditsOf(source, hunks), k)
    ensures HunksNumbered(source, hunks, Result(source, EditsOf(source, hunks)))
  {
    var es := EditsOf(source, hunks);
    hide Result, EditsOf, LocatedAll, StartAt, NewLines, OldLines, MatchOf, Balanced, TotalDelta, AllLocated, Apart, StandsAt, HunkNumbered, Place;
    forall k | 0 <= k < |hunks|
      ensures HunkNumbered(StartAt(LocatedAll(source, hunks).starts, k), hunks[k], Result(source, es))
    {
      NewStartRightExactly(source, hunks, k);
      NewStartIs(source, hunks, k);
      StandingLines(StartAt(LocatedAll(source, hunks).starts, k), hunks[k], Result(source, es), Place(es, k));
    }
  }

  /** Then the whole preview is numbered, and each new number names the line of the patched file. */
  lemma BalancedPreviewIsRight(lines: seq<string>, text: string, header: HeaderNumbers)
    requires text != "" && Plain(lines, header)
    requires var source, hunks := SplitLines(NormalizeToLf(text)), Hunks(lines);
             && AllLocated(source, hunks) && Apart(EditsOf(source, hunks))
             && forall k :: 0 <= k < |hunks| ==> Balanced(EditsOf(source, hunks), k)
    ensures var source, diff := SplitLines(NormalizeToLf(text)), UpdateDiff(lines, Some(text), header);
            AllNumbered(diff.lines) && NewNumbersHold(diff.lines, Result(source, EditsOf(source, Hunks(lines))))
  {
    var source := SplitLines(NormalizeToLf(text));
    hide Result, EditsOf, LocatedAll, Hunks, Balanced, AllLocated, Apart, SplitLines, NormalizeToLf, Plain, OldNumbersHold, NewNumbersHold;
    BalancedIsNumbered(source, Hunks(lines));
    PreviewNumbersName(lines, text, header, Result(source, EditsOf(source, Hunks(lines))));
  }

  // ----- hunks in order

  ghost predicate InOrder(es: seq<Edit>) {
    forall i, j :: 0 <= i < j < |es| ==> es[i].start + es[i].oldLength <= es[j].start
  }

  ghost predicate EndBy(es: seq<Edit>, c: nat) {
    forall i :: 0 <= i < |es| ==> es[i].start + es[i].oldLength <= c
  }

  lemma {:induction false} NothingBehind(es: seq<Edit>, q: nat)
    requires forall i :: 0 <= i < |es| ==> es[i].start <= q
    ensures DeltaBehind(es, q) == 0
  {
    if es != [] {
      NothingBehind(es[..|es| - 1], q);
    }
  }

  lemma {:induction false} NothingBefore(es: seq<Edit>, q: nat)
    requires forall i :: 0 <= i < |es| ==> q <= es[i].start
    ensures DeltaBefore(es, q) == 0
  {
    if es != [] {
      NothingBefore(es[..|es| - 1], q);
    }
  }

  lemma InOrderIsBalanced(es: seq<Edit>, k: nat)
    requires InOrder(es) && k < |es|
    ensures Balanced(es, k)
  {
    var rest := es[k + 1..];
    forall j | 0 <= j < |rest|
      ensures es[k].start <= rest[j].start
    {
      assert es[k].start + es[k].oldLength <= es[k + 1 + j].start;
    }
    NothingBehind(es[..k], es[k].start);
    NothingBefore(rest, es[k].start);
  }

  lemma {:induction false} NothingStarts(es: seq<Edit>, q: nat)
    requires forall i :: 0 <= i < |es| ==> es[i].start != q
    ensures LinesAt(es, q) == []
  {
    if es != [] {
      NothingStarts(es[..|es| - 1], q);
    }
  }

  /** Behind the last edit the source is kept. */
  lemma {:induction false} KeptBehind(source: seq<string>, es: seq<Edit>, c: nat, q: nat)
    requires EndBy(es, c) && c <= q <= |source|
    ensures Through(source, es, q) == Through(source, es, c) + source[c..q]
  {
    if c < q {
      KeptBehind(source, es, c, q - 1);
      NothingStarts(es, q);
      assert !Covered(es, q - 1);
      assert source[c..q] == source[c..q - 1] + [source[q - 1]];
    }
  }

  lemma CoveredByAppend(es: seq<Edit>, e: Edit, q: nat)
    ensures Covered(es + [e], q) <==> Covered(es, q) || Covers(e, q)
  {
    if Covers(e, q) {
      assert (es + [e])[|es|] == e;
    }
    if Covered(es, q) {
      var i :| 0 <= i < |es| && Covers(es[i], q);
      assert (es + [e])[i] == es[i];
    }
  }

  lemma KeptByAppend(source: seq<string>, es: seq<Edit>, e: Edit, q: nat)
    requires q < |source|
    ensures KeptAt(source, es + [e], q) == if Covers(e, q) then [] else KeptAt(source, es, q)
  {
    hide Covered;
    CoveredByAppend(es, e, q);
  }

  lemma UpToStep(source: seq<string>, es: seq<Edit>, q: nat)
    requires q < |source|
    ensures UpTo(source, es, q + 1) == UpTo(source, es, q) + LinesAt(es, q) + KeptAt(source, es, q)
  {
  }

  lemma {:induction false} SameInFront(source: seq<string>, es: seq<Edit>, e: Edit, q: nat)
    requires q <= e.start && q <= |source|
    ensures UpTo(source, es + [e], q) == UpTo(source, es, q)
  {
    hide UpTo, LinesAt, KeptAt;
    if q == 0 {
      UpToNothing(source, es);
      UpToNothing(source, es + [e]);
    } else {
      SameInFront(source, es, e, q - 1);
      UpToStep(source, es, q - 1);
      UpToStep(source, es + [e], q - 1);
      LinesOfAppend(es, e, q - 1);
      KeptByAppend(source, es, e, q - 1);
    }
  }

  lemma {:induction false} RemovedWithin(source: seq<string>, es: seq<Edit>, e: Edit, q: nat)
    requires EndBy(es, e.start) && e.start <= q <= e.start + e.oldLength && q <= |source|
    ensures Through(source, es + [e], q) == Through(source, es, e.start) + e.lines
  {
    hide UpTo, LinesAt, KeptAt;
    LinesOfAppend(es, e, q);
    if q == e.start {
      SameInFront(source, es, e, q);
    } else {
      RemovedWithin(source, es, e, q - 1);
      UpToStep(source, es + [e], q - 1);
      KeptByAppend(source, es, e, q - 1);
      NothingStarts(es, q);
    }
  }

  /** One more hunk found forward, on both sides. */
  lemma AppendedEdit(source: seq<string>, es: seq<Edit>, e: Edit, c: nat)
    requires EndBy(es, c) && c <= e.start && e.start + e.oldLength <= |source|
    ensures Through(source, es + [e], e.start + e.oldLength) == Through(source, es, c) + source[c..e.start] + e.lines
  {
    hide Through;
    KeptBehind(source, es, c, e.start);
    RemovedWithin(source, es, e, e.start + e.oldLength);
  }

  lemma FoundIsLocated(source: seq<string>, hunks: seq<seq<string>>, k: nat)
    requires FoundInOrder(source, hunks) && k < |hunks|
    ensures LocatedAt(source, hunks, k)
    ensures MatchOf(source, hunks[k], LocatedAll(source, hunks[..k]).searchFrom)
         == Find(source, OldLines(hunks[k]), PatchedBy(source, hunks[..k]).consumed)
  {
    hide LocatedAll, PatchedBy, Find, OldLines;
    FoundInOrderPrefix(source, hunks, k);
    FirstPassTracksPatching(source, hunks[..k]);
    assert FoundNext(source, hunks, k);
  }

  /** Patching hunk by hunk is the walk over the source, and leaves the edits in order. */
  lemma {:induction false} PatchingIsWalking(source: seq<string>, hunks: seq<seq<string>>)
    requires FoundInOrder(source, hunks)
    ensures var es, p := EditsOf(source, hunks), PatchedBy(source, hunks);
            InOrder(es) && EndBy(es, p.consumed) && p.out == Through(source, es, p.consumed)
  {
    hide OldLines, NewLines, Find, MatchOf, Through, FoundInOrder;
    if hunks == [] {
      ThroughNothing(source);
    } else {
      var n := |hunks| - 1;
      FoundInOrderPrefix(source, hunks, n);
      PatchingIsWalking(source, hunks[..n]);
      FoundIsLocated(source, hunks, n);
      var es, p := EditsOf(source, hunks[..n]), PatchedBy(source, hunks[..n]);
      FindMatches(source, OldLines(hunks[n]), p.consumed);
      AppendedEdit(source, es, EditsOf(source, hunks)[n], p.consumed);
    }
  }

  lemma ThroughNothing(source: seq<string>)
    ensures Through(source, [], 0) == []
  {
  }

  /** Hunks found in order are located, apart and balanced, and the walk gives the file that applying them gives. */
  lemma FoundInOrderIsBalanced(source: seq<string>, hunks: seq<seq<string>>)
    requires FoundInOrder(source, hunks)
    ensures var es := EditsOf(source, hunks);
            && AllLocated(source, hunks) && Apart(es) && (forall k :: 0 <= k < |hunks| ==> Balanced(es, k))
            && Result(source, es) == Applied(source, hunks)
  {
    var es, p := EditsOf(source, hunks), PatchedBy(source, hunks);
    hide LocatedAt, EditsOf, PatchedBy, Balanced, Through, FoundInOrder, EndBy;
    forall k | 0 <= k < |hunks|
      ensures LocatedAt(source, hunks, k) && Balanced(es, k)
    {
      FoundIsLocated(source, hunks, k);
      PatchingIsWalking(source, hunks);
      InOrderIsBalanced(es, k);
    }
    PatchingIsWalking(source, hunks);
    KeptBehind(source, es, p.consumed, |source|);
  }

  /** The second hunk stands in front of the first: it gets number 2, but its line is line 1 of the patched file. */
  lemma OutOfOrderIsMisnumbered()
    ensures var source, hunks := ["a", "b"], [["+x", " b"], [" a"]];
            var es := EditsOf(source, hunks);
            && es == [Edit(1, 1, ["x", "b"]), Edit(0, 1, ["a"])] && AllLocated(source, hunks) && Apart(es)
            && !Balanced(es, 1) && Place(es, 1) == 0
            && StartAt(LocatedAll(source, hunks).starts, 1).newStart == Some(2)
  {
    var source, hunks := ["a", "b"], [["+x", " b"], [" a"]];
    hide LocatedAll, EditsOf, Balanced, Place, TotalDelta, StartAt, MatchOf;
    OutOfOrderEdits();
    NewStartIs(source, hunks, 1);
    OutOfOrderDeltas();
    assert EditsOf(source, hunks)[..1] == [Edit(1, 1, ["x", "b"])];
  }

  lemma OutOfOrderDeltas()
    ensures var es := [Edit(1, 1, ["x", "b"]), Edit(0, 1, ["a"])];
            TotalDelta([es[0]]) == 1 && !Balanced(es, 1) && Place(es, 1) == 0
  {
    var es := [Edit(1, 1, ["x", "b"]), Edit(0, 1, ["a"])];
    assert es[..1] == [es[0]] && [es[0]][..0] == [] && es[2..] == [];
    assert TotalDelta([]) == 0 == DeltaBehind([], 0) == DeltaBefore([], 0);
  }

  lemma OutOfOrderEdits()
    ensures var source, hunks := ["a", "b"], [["+x", " b"], [" a"]];
            AllLocated(source, hunks) && EditsOf(source, hunks) == [Edit(1, 1, ["x", "b"]), Edit(0, 1, ["a"])]
  {
    var source, hunks := ["a", "b"], [["+x", " b"], [" a"]];
    OutOfOrderHunks();
    OutOfOrderMatches();
    hide OldLines, NewLines, CountMarker, MatchOf;
    assert hunks[..1] == [["+x", " b"]] && hunks[..1][..0] == [] && hunks[..0] == [];
    assert LocatedAll(source, hunks[..1]).searchFrom == 2;
    assert EditsOf(source, hunks[..1]) == [Edit(1, 1, ["x", "b"])];
    assert LocatedAt(source, hunks, 0) && LocatedAt(source, hunks, 1);
  }

  lemma OutOfOrderMatches()
    ensures MatchOf(["a", "b"], ["+x", " b"], 0) == 1 && MatchOf(["a", "b"], [" a"], 2) == 0
  {
    var source := ["a", "b"];
    OutOfOrderHunks();
    hide OldLines, NewLines;
    assert source[0..1] == ["a"] && source[1..2] == ["b"];
    assert !MatchesAt(source, ["b"], 0) && MatchesAt(source, ["b"], 1) && MatchesAt(source, ["a"], 0);
  }

  lemma OutOfOrderHunks()
    ensures OldLines(["+x", " b"]) == ["b"] && NewLines(["+x", " b"]) == ["x", "b"]
    ensures OldLines([" a"]) == ["a"] == NewLines([" a"])
    ensures CountMarker(["+x", " b"], Add) == 1 && CountMarker(["+x", " b"], Del) == 0
  {
    var hunk := ["+x", " b"];
    assert hunk[..1] == ["+x"] && hunk[..1][..0] == [] && [" a"][..0] == [];
    assert ParseBodyLine("+x") == BodyLine(Add, "x") && ParseBodyLine(" b") == BodyLine(Ctx, "b") && ParseBodyLine(" a") == BodyLine(Ctx, "a");
  }
}
