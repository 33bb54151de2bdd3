/** What a warning of the loop guard says, when it comes, and how long the same one stays away. */
module LoopGuardWarnings {
  import opened Prelude
  import opened Utf16
  import opened CountMap
  import opened ToolHistory
  import opened LoopDetectors
  import opened LoopGuardRuns

  // ----- no warning soon after the same

  /** Two task-total bash warnings with one key have 15 records of that key between them. */
  lemma BashTotalsAreSpaced(ex: Extractors, es: seq<Event>, i: nat, j: nat, a: Entry, b: Entry, m: bool, n: bool)
    requires i < j < |es| && a.key == b.key
    requires OutcomeAt(ex, es, i) == Warn(BashTotal(a, m)) && OutcomeAt(ex, es, j) == Warn(BashTotal(b, n))
    ensures Matches(if n then ex.norm else ex.bash, es[i + 1..j + 1], b.key) >= 15
  {
    hide OutcomeAt, Matches;
    BashWarningsAreSpaced(ex, es, i, j, b, n);
  }

  /** Two task-total edit-run warnings with one file have 12 edits of it between them, and with one command 12 runs. */
  lemma EditRunTotalsAreSpaced(ex: Extractors, es: seq<Event>, i: nat, j: nat, a: (Entry, Entry), b: (Entry, Entry))
    requires i < j < |es|
    requires OutcomeAt(ex, es, i) == Warn(EditRunTotal(a.0, a.1)) && OutcomeAt(ex, es, j) == Warn(EditRunTotal(b.0, b.1))
    ensures a.0.key == b.0.key ==> Matches(ex.edit, es[i + 1..j + 1], b.0.key) >= 12
    ensures a.1.key == b.1.key ==>
              || Matches(ex.bash, es[i + 1..j + 1], b.1.key) >= 12
              || Matches(ex.norm, es[i + 1..j + 1], b.1.key) >= 12
  {
    hide OutcomeAt, Matches;
    EditRunWarningsAreSpaced(ex, es, i, j, b.0, b.1);
  }

  // ----- the flag that arms the probe

  lemma OutcomesOfPrefix(ex: Extractors, es: seq<Event>, n: nat, i: nat)
    requires i < n <= |es|
    ensures OutcomeAt(ex, es[..n], i) == OutcomeAt(ex, es, i)
  {
    assert es[..n][..i] == es[..i];
  }

  /** A warning with no reset since. */
  ghost predicate WarnsLast(ex: Extractors, es: seq<Event>, i: nat)
    requires i < |es|
  {
    OutcomeAt(ex, es, i).Warn? && forall k :: i < k < |es| ==> es[k].Call?
  }

  lemma WarnsLastNext(ex: Extractors, es: seq<Event>, i: nat)
    requires i < |es| - 1
    ensures WarnsLast(ex, es, i) <==> es[|es| - 1].Call? && WarnsLast(ex, es[..|es| - 1], i)
  {
    hide OutcomeAt;
    OutcomesOfPrefix(ex, es, |es| - 1, i);
    assert forall k :: i < k < |es| - 1 ==> es[k] == es[..|es| - 1][k];
  }

  /** Over every run the guard is armed exactly when it has warned since the last reset; recording never triggers. */
  lemma {:induction false} WarnedExactly(ex: Extractors, es: seq<Event>)
    ensures After(ex, es).warned <==> exists i :: 0 <= i < |es| && WarnsLast(ex, es, i)
    ensures !After(ex, es).triggered
  {
    hide *;
    NeverWarned(ex);
    if es != [] {
      var n := |es| - 1;
      WarnedExactly(ex, es[..n]);
      WarnedStep(ex, es);
      forall i | 0 <= i < n
        ensures WarnsLast(ex, es, i) <==> es[n].Call? && WarnsLast(ex, es[..n], i)
      {
        WarnsLastNext(ex, es, i);
      }
    }
  }

  lemma NeverWarned(ex: Extractors)
    ensures !After(ex, []).warned && !After(ex, []).triggered
  {
  }

  lemma WarnedStep(ex: Extractors, es: seq<Event>)
    requires es != []
    ensures var n := |es| - 1;
            && After(ex, es).warned == (es[n].Call? && (WarnsLast(ex, es, n) || After(ex, es[..n]).warned))
            && (WarnsLast(ex, es, n) ==> es[n].Call?)
            && After(ex, es).triggered == (es[n].Call? && After(ex, es[..n]).triggered)
  {
    hide Detect, FiredKeys, Push;
    var n := |es| - 1;
    if es[n].Call? {
      PushKeepsFlags(ex, After(ex, es[..n]), es[n].rec);
    }
  }

  lemma PushKeepsFlags(ex: Extractors, st: GuardState, rec: ToolHistoryRecord)
    ensures Push(ex, st, rec).warned == st.warned && Push(ex, st, rec).triggered == st.triggered
  {
    hide Slid, Tallied;
  }

  // ----- the first detector that applies

  /** The condition of each detector, in the order they are tried. */
  ghost predicate Applies(ex: Extractors, st: GuardState, rank: nat) {
    match rank
    case 0 => Reps(st.history, 1, ExactKey) >= 3
    case 1 => Reps(st.history, 2, ExactKey) > 5
    case 2 => Reps(st.history, 3, ExactKey) > 3
    case 3 => Reps(st.history, 2, FuzzyKey) > 6
    case 4 => Reps(st.history, 3, FuzzyKey) > 4
    case 5 => CycleAt(st.editCounts, st.bashCounts, st.bashCountsNorm, 8)
    case 6 => CycleAt(st.editCountsTotal, st.bashCountsTotal, st.bashCountsNormTotal, 12)
    case 7 => !AllBelow(st.bashCounts, 12)
    case 8 => !AllBelow(st.bashCountsNorm, 12)
    case 9 => !AllBelow(st.bashCountsTotal, 15)
    case 10 => !AllBelow(st.bashCountsNormTotal, 15)
    case _ => false
  }

  function RankOf(d: Detection): nat {
    match d
    case Consecutive(_) => 0
    case ExactNgram(n, _) => if n == 2 then 1 else 2
    case FuzzyNgram(n, _) => if n == 2 then 3 else 4
    case EditRun(_, _) => 5
    case EditRunTotal(_, _) => 6
    case BashWindow(_, normalized) => if normalized then 8 else 7
    case BashTotal(_, normalized) => if normalized then 10 else 9
  }

  ghost predicate FirstToApply(ex: Extractors, st: GuardState, rank: nat) {
    Applies(ex, st, rank) && forall r :: 0 <= r < rank ==> !Applies(ex, st, r)
  }

  lemma NgramsInOrder(ex: Extractors, st: GuardState)
    ensures var d := NgramDetection(st.history);
            && (d.None? <==> forall r :: 0 <= r < 5 ==> !Applies(ex, st, r))
            && (d.Some? ==> RankOf(d.value) < 5 && FirstToApply(ex, st, RankOf(d.value)))
  {
    hide Reps;
    assert !(forall r :: 0 <= r < 5 ==> !Applies(ex, st, r)) <==>
             Applies(ex, st, 0) || Applies(ex, st, 1) || Applies(ex, st, 2) || Applies(ex, st, 3) || Applies(ex, st, 4);
  }

  lemma CyclesInOrder(ex: Extractors, st: GuardState)
    requires Valid(ex, st)
    ensures EditRunDetection(st).Some? <==> Applies(ex, st, 5)
    ensures EditRunTotalDetection(st).Some? <==> Applies(ex, st, 6)
    ensures EditRunDetection(st).Some? ==> RankOf(EditRunDetection(st).value) == 5
    ensures EditRunTotalDetection(st).Some? ==> RankOf(EditRunTotalDetection(st).value) == 6
  {
    hide EditRunPair, CycleAt, AllBelow, WellFormed, CountsWindow, Reps;
    ValidTallies(ex, st);
    PairMeansCycle(st.editCounts, st.bashCounts, st.bashCountsNorm, 8);
    PairMeansCycle(st.editCountsTotal, st.bashCountsTotal, st.bashCountsNormTotal, 12);
  }

  lemma ValidTallies(ex: Extractors, st: GuardState)
    requires Valid(ex, st)
    ensures WellFormed(st.editCounts) && WellFormed(st.bashCounts) && WellFormed(st.bashCountsNorm)
    ensures WellFormed(st.editCountsTotal) && WellFormed(st.bashCountsTotal) && WellFormed(st.bashCountsNormTotal)
  {
  }

  lemma CommandsInOrder(ex: Extractors, st: GuardState)
    requires Valid(ex, st)
    ensures TopAtLeast(st.bashCounts, 12) <==> Applies(ex, st, 7)
    ensures TopAtLeast(st.bashCountsNorm, 12) <==> Applies(ex, st, 8)
    ensures TopAtLeast(st.bashCountsTotal, 15) <==> Applies(ex, st, 9)
    ensures TopAtLeast(st.bashCountsNormTotal, 15) <==> Applies(ex, st, 10)
  {
    hide CycleAt, AllBelow, TopAtLeast, WellFormed, CountsWindow, Reps;
    ValidTallies(ex, st);
    TopBelow(st.bashCounts, 12);
    TopBelow(st.bashCountsNorm, 12);
    TopBelow(st.bashCountsTotal, 15);
    TopBelow(st.bashCountsNormTotal, 15);
  }

  /** A warning comes exactly when some detector applies, and is that of the first. */
  lemma WarnsByFirstDetector(ex: Extractors, st: GuardState)
    requires Valid(ex, st)
    ensures Detect(st).None? <==> forall r :: 0 <= r <= 10 ==> !Applies(ex, st, r)
    ensures Detect(st).Some? ==> FirstToApply(ex, st, RankOf(Detect(st).value))
  {
    NgramsInOrder(ex, st);
    CyclesInOrder(ex, st);
    CommandsInOrder(ex, st);
    hide NgramDetection, EditRunDetection, EditRunTotalDetection, TopAtLeast, Applies;
  }

  // ----- what the detection says is so

  /** The entry's count is that of its key, and no key counts more. */
  ghost predicate HighestOf(m: Tally, e: Entry) {
    Get(m, e.key) == e.count && forall key :: Get(m, key) <= e.count
  }

  /** The entry is the highest of either tally, the raw one first. */
  ghost predicate HighestOfBoth(raw: Tally, norm: Tally, e: Entry) {
    || (HighestOf(raw, e) && forall key :: Get(norm, key) <= e.count)
    || (HighestOf(norm, e) && forall key :: Get(raw, key) < e.count)
  }

  ghost predicate IsTrue(st: GuardState, d: Detection) {
    match d
    case Consecutive(count) => count == Reps(st.history, 1, ExactKey)
    case ExactNgram(n, reps) => (n == 2 || n == 3) && reps == Reps(st.history, n, ExactKey)
    case FuzzyNgram(n, reps) => (n == 2 || n == 3) && reps == Reps(st.history, n, FuzzyKey)
    case EditRun(edit, bash) => HighestOf(st.editCounts, edit) && HighestOfBoth(st.bashCounts, st.bashCountsNorm, bash)
    case EditRunTotal(edit, bash) =>
      HighestOf(st.editCountsTotal, edit) && HighestOfBoth(st.bashCountsTotal, st.bashCountsNormTotal, bash)
    case BashWindow(top, normalized) => HighestOf(if normalized then st.bashCountsNorm else st.bashCounts, top)
    case BashTotal(top, normalized) => HighestOf(if normalized then st.bashCountsNormTotal else st.bashCountsTotal, top)
  }

  lemma TopIsHighest(m: Tally)
    requires WellFormed(m)
    ensures Top(m).Some? ==> HighestOf(m, Top(m).value) && Top(m).value.count >= 1
    ensures Top(m).None? ==> forall key :: Get(m, key) == 0
  {
    TopReaches(m, 1);
    if m != [] {
      var at := TopIsEarliestMaximum(m);
      forall key
        ensures Get(m, key) <= m[at].count
      {
        assert Index(m, key) >= 0 ==> m[Index(m, key)].count <= m[at].count;
      }
    }
  }

  lemma HigherIsHighest(raw: Tally, norm: Tally)
    requires WellFormed(raw) && WellFormed(norm)
    ensures var e := PickHigher(Top(raw), Top(norm)); e.Some? ==> HighestOfBoth(raw, norm, e.value)
  {
    TopIsHighest(raw);
    TopIsHighest(norm);
    hide Get, Top, WellFormed;
  }

  lemma NgramsAreTrue(st: GuardState)
    ensures var d := NgramDetection(st.history); d.Some? ==> IsTrue(st, d.value)
  {
    hide Reps;
  }

  lemma PairsAreTrue(edits: Tally, raw: Tally, norm: Tally, threshold: int)
    requires WellFormed(edits) && WellFormed(raw) && WellFormed(norm)
    ensures var pair := EditRunPair(edits, raw, norm, threshold);
            pair.Some? ==> HighestOf(edits, pair.value.0) && HighestOfBoth(raw, norm, pair.value.1)
  {
    hide HighestOf, HighestOfBoth, Top, PickHigher, WellFormed;
    TopIsHighest(edits);
    HigherIsHighest(raw, norm);
  }

  lemma CyclesAreTrue(ex: Extractors, st: GuardState)
    requires Valid(ex, st)
    ensures EditRunDetection(st).Some? ==> IsTrue(st, EditRunDetection(st).value)
    ensures EditRunTotalDetection(st).Some? ==> IsTrue(st, EditRunTotalDetection(st).value)
  {
    PairsAreTrue(st.editCounts, st.bashCounts, st.bashCountsNorm, EDIT_RUN_THRESHOLD);
    PairsAreTrue(st.editCountsTotal, st.bashCountsTotal, st.bashCountsNormTotal, EDIT_RUN_TOTAL_THRESHOLD);
    hide HighestOf, HighestOfBoth, EditRunPair, Reps, Valid;
  }

  lemma CommandsAreTrue(ex: Extractors, st: GuardState)
    requires Valid(ex, st)
    ensures BashDetection(st).Some? ==> IsTrue(st, BashDetection(st).value)
  {
    TopIsHighest(st.bashCounts);
    TopIsHighest(st.bashCountsNorm);
    TopIsHighest(st.bashCountsTotal);
    TopIsHighest(st.bashCountsNormTotal);
    hide HighestOf, HighestOfBoth, Top, Reps, Valid;
  }

  /** Every count a warning reports is the count of its key, or of its repetition, and the highest. */
  lemma WarningsAreTrue(ex: Extractors, st: GuardState)
    requires Valid(ex, st) && Detect(st).Some?
    ensures IsTrue(st, Detect(st).value)
  {
    hide IsTrue, NgramDetection, EditRunDetection, EditRunTotalDetection, BashDetection, Valid;
    NgramsAreTrue(st);
    CyclesAreTrue(ex, st);
    CommandsAreTrue(ex, st);
  }

  /**
    Over every run a call is answered with a warning exactly when some detector applies to the state with its record;
    the warning is that of the first detector that applies, and what it reports is so.
   */
  lemma RecordsAreAnswered(ex: Extractors, es: seq<Event>, j: nat)
    requires j < |es| && es[j].Call?
    ensures var st, outcome := PushedAt(ex, es, j), OutcomeAt(ex, es, j);
            && (outcome.Ok? <==> forall r :: 0 <= r <= 10 ==> !Applies(ex, st, r))
            && (outcome.Warn? ==> FirstToApply(ex, st, RankOf(outcome.detection)) && IsTrue(st, outcome.detection))
  {
    RunsStayValid(ex, es[..j]);
    PushKeepsValid(ex, After(ex, es[..j]), es[j].rec);
    var st := PushedAt(ex, es, j);
    hide Push, Valid, After, Applies, FirstToApply, IsTrue, Detect, Cleared, FiredKeys, RankOf;
    WarnsByFirstDetector(ex, st);
    if Detect(st).Some? {
      WarningsAreTrue(ex, st);
    }
  }

  // ----- the cycle part of the probe

  ghost predicate MayBlock(m: Tally, key: Option<Text>, threshold: int) {
    key.Some? && Get(m, key.value) >= threshold && forall k :: Get(m, k) <= Get(m, key.value)
  }

  ghost predicate MustBlock(m: Tally, key: Option<Text>, threshold: int) {
    key.Some? && Get(m, key.value) >= threshold && forall k :: k != key.value ==> Get(m, k) < Get(m, key.value)
  }

  lemma ExtendsTop(m: Tally, key: Option<Text>, threshold: int)
    requires WellFormed(m) && threshold >= 1
    ensures MustBlock(m, key, threshold) ==> Extends(key, Top(m), threshold)
    ensures Extends(key, Top(m), threshold) ==> MayBlock(m, key, threshold)
  {
    if key.Some? {
      ProbeSeesTopKeys(m, key.value, threshold);
    }
    hide Get, Top;
  }

  /**
    The cycle part of the probe blocks only a call whose own file or command has the highest count of its tally
    and has reached 8 in the window or 12 in the task; and always when no other key has as high a count.
   */
  lemma CycleProbeSeesOwnKeys(ex: Extractors, st: GuardState, toolName: Text, toolArgs: Text)
    requires Valid(ex, st)
    ensures var edit, bash := ex.edit(toolName, toolArgs), ex.bash(toolName, toolArgs);
            && (ExtendsCycle(ex, st, toolName, toolArgs) ==>
                  || MayBlock(st.editCounts, edit, 8) || MayBlock(st.bashCounts, bash, 8)
                  || MayBlock(st.editCountsTotal, edit, 12) || MayBlock(st.bashCountsTotal, bash, 12))
            && (|| MustBlock(st.editCounts, edit, 8) || MustBlock(st.bashCounts, bash, 8)
                || MustBlock(st.editCountsTotal, edit, 12) || MustBlock(st.bashCountsTotal, bash, 12) ==>
                  ExtendsCycle(ex, st, toolName, toolArgs))
  {
    var edit, bash := ex.edit(toolName, toolArgs), ex.bash(toolName, toolArgs);
    ExtendsTop(st.editCounts, edit, 8);
    ExtendsTop(st.bashCounts, bash, 8);
    ExtendsTop(st.editCountsTotal, edit, 12);
    ExtendsTop(st.bashCountsTotal, bash, 12);
    hide MayBlock, MustBlock, Extends, Valid;
  }

  /**
    Over every run: the probe blocks a call exactly when the guard has warned since the last reset, some record has come
    since the last warning, and the call extends a cycle or, recorded with the result the latest same call had, would be
    answered by an n-gram or consecutive warning.
   */
  lemma ProbeBlocksExactly(ex: Extractors, es: seq<Event>, toolName: Text, toolArgs: Text)
    ensures var st := After(ex, es);
            var proxy := Proxy(st.history, toolName, toolArgs);
            Blocks(ex, st, toolName, toolArgs) <==>
              && (exists i :: 0 <= i < |es| && WarnsLast(ex, es, i))
              && SinceClear(ex, es) != []
              && (|| ExtendsCycle(ex, st, toolName, toolArgs)
                  || (proxy.Some? && IsNgramWarning(Step(ex, st, proxy.value).1)))
  {
    var st := After(ex, es);
    WarnedExactly(ex, es);
    WindowHoldsLatest(ex, es);
    RunsStayValid(ex, es);
    if Proxy(st.history, toolName, toolArgs).Some? {
      ProbePredictsRecord(ex, st, toolName, toolArgs);
    }
    hide Step, After, Proxy, ExtendsCycle, WarnsLast, SinceClear, CountsWindow, NgramDetection, IsNgramWarning;
  }
}
