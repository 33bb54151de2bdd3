/** What the loop guard keeps over every run of records and resets. */
module LoopGuardRuns {
  import opened Prelude
  import opened Utf16
  import opened CountMap
  import opened ToolHistory
  import opened LoopDetectors

  datatype Event = Call(rec: ToolHistoryRecord) | Reset

  ghost function Applied(ex: Extractors, st: GuardState, e: Event): GuardState {
    match e
    case Reset => INITIAL
    case Call(rec) => Step(ex, st, rec).0
  }

  ghost function After(ex: Extractors, es: seq<Event>): GuardState {
    if es == [] then INITIAL else Applied(ex, After(ex, es[..|es| - 1]), es[|es| - 1])
  }

  ghost function OutcomeAt(ex: Extractors, es: seq<Event>, i: nat): Outcome
    requires i < |es|
  {
    match es[i]
    case Reset => Ok
    case Call(rec) => Step(ex, After(ex, es[..i]), rec).1
  }

  // ----- the window tallies are recounts of the window

  /** The call has this key; an empty key is none. */
  predicate Carries(f: Extractor, rec: ToolHistoryRecord, key: Text) {
    key != [] && f(rec.toolName, rec.toolArgs) == Some(key)
  }

  function Recount(f: Extractor, h: History, key: Text): nat {
    if h == [] then 0
    else Recount(f, h[1..], key) + if Carries(f, h[0], key) then 1 else 0
  }

  ghost predicate CountsWindow(f: Extractor, m: Tally, h: History) {
    WellFormed(m) && forall key :: Get(m, key) == Recount(f, h, key)
  }

  ghost predicate Valid(ex: Extractors, st: GuardState) {
    && |st.history| <= WINDOW_SIZE
    && CountsWindow(ex.edit, st.editCounts, st.history)
    && CountsWindow(ex.bash, st.bashCounts, st.history)
    && CountsWindow(ex.norm, st.bashCountsNorm, st.history)
    && WellFormed(st.editCountsTotal)
    && WellFormed(st.bashCountsTotal)
    && WellFormed(st.bashCountsNormTotal)
  }

  lemma {:induction false} RecountOfPush(f: Extractor, h: History, rec: ToolHistoryRecord, key: Text)
    ensures Recount(f, h + [rec], key) == Recount(f, h, key) + if Carries(f, rec, key) then 1 else 0
  {
    if h != [] {
      RecountOfPush(f, h[1..], rec, key);
      assert (h + [rec])[1..] == h[1..] + [rec];
    }
  }

  lemma TalliedCounts(f: Extractor, m: Tally, rec: ToolHistoryRecord, key: Text)
    requires WellFormed(m)
    ensures WellFormed(Tallied(f, m, rec))
    ensures Get(Tallied(f, m, rec), key) == Get(m, key) + if Carries(f, rec, key) then 1 else 0
  {
    if KeyOf(f, rec).Some? {
      GetOfIncrement(m, KeyOf(f, rec).value, key);
    }
  }

  lemma TalliedWindow(f: Extractor, m: Tally, h: History, rec: ToolHistoryRecord)
    requires CountsWindow(f, m, h)
    ensures CountsWindow(f, Tallied(f, m, rec), h + [rec])
  {
    TalliedCounts(f, m, rec, []);
    forall key
      ensures Get(Tallied(f, m, rec), key) == Recount(f, h + [rec], key)
    {
      TalliedCounts(f, m, rec, key);
      RecountOfPush(f, h, rec, key);
    }
  }

  lemma EvictedWindow(f: Extractor, m: Tally, h: History)
    requires CountsWindow(f, m, h) && h != []
    ensures CountsWindow(f, Untallied(f, m, h[0]), h[1..])
  {
    var evicted := KeyOf(f, h[0]);
    if evicted.Some? {
      GetOfDecrement(m, evicted.value, []);
      forall key
        ensures Get(Untallied(f, m, h[0]), key) == Recount(f, h[1..], key)
      {
        GetOfDecrement(m, evicted.value, key);
      }
    }
  }

  lemma SlidWindow(f: Extractor, m: Tally, h: History, rec: ToolHistoryRecord)
    requires CountsWindow(f, m, h)
    ensures CountsWindow(f, Slid(f, m, h, rec), if |h| + 1 > WINDOW_SIZE then (h + [rec])[1..] else h + [rec])
  {
    TalliedWindow(f, m, h, rec);
    if |h| + 1 > WINDOW_SIZE {
      EvictedWindow(f, Tallied(f, m, rec), h + [rec]);
    }
  }

  lemma PushKeepsValid(ex: Extractors, st: GuardState, rec: ToolHistoryRecord)
    requires Valid(ex, st)
    ensures Valid(ex, Push(ex, st, rec))
  {
    SlidWindow(ex.edit, st.editCounts, st.history, rec);
    SlidWindow(ex.bash, st.bashCounts, st.history, rec);
    SlidWindow(ex.norm, st.bashCountsNorm, st.history, rec);
    TalliedCounts(ex.edit, st.editCountsTotal, rec, []);
    TalliedCounts(ex.bash, st.bashCountsTotal, rec, []);
    TalliedCounts(ex.norm, st.bashCountsNormTotal, rec, []);
  }

  lemma ClearedKeepsValid(ex: Extractors, st: GuardState, fired: seq<Text>)
    requires Valid(ex, st)
    ensures Valid(ex, Cleared(st, fired))
  {
    GetOfDeleteAll(st.editCountsTotal, fired, []);
    GetOfDeleteAll(st.bashCountsTotal, fired, []);
    GetOfDeleteAll(st.bashCountsNormTotal, fired, []);
  }

  /** In every reachable state the window holds at most 30 records and each window tally recounts it. */
  lemma {:induction false} RunsStayValid(ex: Extractors, es: seq<Event>)
    ensures Valid(ex, After(ex, es))
  {
    if es != [] {
      var before, e := After(ex, es[..|es| - 1]), es[|es| - 1];
      RunsStayValid(ex, es[..|es| - 1]);
      if e.Call? {
        PushKeepsValid(ex, before, e.rec);
        var pushed := Push(ex, before, e.rec);
        var detected := Detect(pushed);
        if detected.Some? {
          ClearedKeepsValid(ex, pushed, FiredKeys(detected.value));
        }
      }
    }
  }

  // ----- what the window holds

  /** The records since the last reset or warning. */
  ghost function SinceClear(ex: Extractors, es: seq<Event>): History {
    if es == [] then []
    else
      var n := |es| - 1;
      if es[n].Reset? || OutcomeAt(ex, es, n).Warn? then [] else SinceClear(ex, es[..n]) + [es[n].rec]
  }

  /** The window is the last 30 records since the last reset or warning. */
  lemma StepWindow(ex: Extractors, st: GuardState, rec: ToolHistoryRecord)
    ensures var pushed, step := st.history + [rec], Step(ex, st, rec);
            step.0.history == if step.1.Warn? then []
                              else if |pushed| > WINDOW_SIZE then pushed[1..] else pushed
  {
  }

  function Latest(all: History): History {
    if |all| > 30 then all[|all| - 30..] else all
  }

  lemma {:induction false} WindowHoldsLatest(ex: Extractors, es: seq<Event>)
    ensures After(ex, es).history == Latest(SinceClear(ex, es))
  {
    if es != [] {
      var n := |es| - 1;
      WindowHoldsLatest(ex, es[..n]);
      var all, window := SinceClear(ex, es[..n]), After(ex, es[..n]).history;
      if es[n].Call? {
        StepWindow(ex, After(ex, es[..n]), es[n].rec);
        LatestOfPush(all, es[n].rec);
        assert After(ex, es) == Step(ex, After(ex, es[..n]), es[n].rec).0;
      }
    }
  }

  lemma LatestOfPush(all: History, rec: ToolHistoryRecord)
    ensures var pushed := Latest(all) + [rec];
            Latest(all + [rec]) == if |pushed| > WINDOW_SIZE then pushed[1..] else pushed
  {
  }

  /** No more records than events since a clearing event. */
  lemma {:induction false} ClearBounds(ex: Extractors, es: seq<Event>, i: nat)
    requires i < |es| && (es[i].Reset? || OutcomeAt(ex, es, i).Warn?)
    ensures |SinceClear(ex, es)| <= |es| - 1 - i
    decreases |es|
  {
    hide Step;
    var n := |es| - 1;
    if i < n {
      assert es[..n][..i] == es[..i];
      ClearBounds(ex, es[..n], i);
    }
  }

  // ----- detection is exactly reaching a threshold

  ghost predicate CycleAt(edits: Tally, raw: Tally, norm: Tally, threshold: int) {
    && (exists e :: Get(edits, e) >= threshold)
    && (exists b :: Get(raw, b) >= threshold || Get(norm, b) >= threshold)
  }

  ghost predicate NgramsQuiet(h: History) {
    && Reps(h, 1, ExactKey) < CONSECUTIVE_IDENTICAL_THRESHOLD
    && Reps(h, 2, ExactKey) <= EXACT_2GRAM_THRESHOLD
    && Reps(h, 3, ExactKey) <= EXACT_3GRAM_THRESHOLD
    && Reps(h, 2, FuzzyKey) <= FUZZY_2GRAM_THRESHOLD
    && Reps(h, 3, FuzzyKey) <= FUZZY_3GRAM_THRESHOLD
  }

  ghost predicate AllBelow(m: Tally, threshold: int) {
    forall key :: Get(m, key) < threshold
  }

  ghost predicate Quiet(st: GuardState) {
    && NgramsQuiet(st.history)
    && !CycleAt(st.editCounts, st.bashCounts, st.bashCountsNorm, EDIT_RUN_THRESHOLD)
    && !CycleAt(st.editCountsTotal, st.bashCountsTotal, st.bashCountsNormTotal, EDIT_RUN_TOTAL_THRESHOLD)
    && AllBelow(st.bashCounts, BASH_REPEAT_THRESHOLD)
    && AllBelow(st.bashCountsNorm, BASH_REPEAT_THRESHOLD)
    && AllBelow(st.bashCountsTotal, BASH_REPEAT_TOTAL_THRESHOLD)
    && AllBelow(st.bashCountsNormTotal, BASH_REPEAT_TOTAL_THRESHOLD)
  }

  lemma PairMeansCycle(edits: Tally, raw: Tally, norm: Tally, threshold: int)
    requires WellFormed(edits) && WellFormed(raw) && WellFormed(norm) && threshold >= 1
    ensures EditRunPair(edits, raw, norm, threshold).Some? <==> CycleAt(edits, raw, norm, threshold)
  {
    TopReaches(edits, threshold);
    TopReaches(raw, threshold);
    TopReaches(norm, threshold);
  }

  lemma TopBelow(m: Tally, threshold: int)
    requires WellFormed(m) && threshold >= 1
    ensures !TopAtLeast(m, threshold) <==> AllBelow(m, threshold)
  {
    TopReaches(m, threshold);
  }

  /** No detector fires exactly when every repetition count and every tally is below its threshold. */
  lemma DetectsExactlyAtThresholds(ex: Extractors, st: GuardState)
    requires Valid(ex, st)
    ensures Detect(st).None? <==> Quiet(st)
    ensures NgramDetection(st.history).None? <==> NgramsQuiet(st.history)
  {
    NgramsMeanQuiet(st.history);
    PairMeansCycle(st.editCounts, st.bashCounts, st.bashCountsNorm, EDIT_RUN_THRESHOLD);
    PairMeansCycle(st.editCountsTotal, st.bashCountsTotal, st.bashCountsNormTotal, EDIT_RUN_TOTAL_THRESHOLD);
    BashMeansBelow(st);
    hide CycleAt, EditRunPair, AllBelow, BashDetection, NgramDetection, NgramsQuiet, WellFormed;
  }

  lemma NgramsMeanQuiet(h: History)
    ensures NgramDetection(h).None? <==> NgramsQuiet(h)
  {
    hide Reps;
  }

  lemma BashMeansBelow(st: GuardState)
    requires WellFormed(st.bashCounts) && WellFormed(st.bashCountsNorm)
    requires WellFormed(st.bashCountsTotal) && WellFormed(st.bashCountsNormTotal)
    ensures BashDetection(st).None? <==>
              && AllBelow(st.bashCounts, BASH_REPEAT_THRESHOLD)
              && AllBelow(st.bashCountsNorm, BASH_REPEAT_THRESHOLD)
              && AllBelow(st.bashCountsTotal, BASH_REPEAT_TOTAL_THRESHOLD)
              && AllBelow(st.bashCountsNormTotal, BASH_REPEAT_TOTAL_THRESHOLD)
  {
    TopBelow(st.bashCounts, BASH_REPEAT_THRESHOLD);
    TopBelow(st.bashCountsNorm, BASH_REPEAT_THRESHOLD);
    TopBelow(st.bashCountsTotal, BASH_REPEAT_TOTAL_THRESHOLD);
    TopBelow(st.bashCountsNormTotal, BASH_REPEAT_TOTAL_THRESHOLD);
    hide AllBelow, WellFormed;
  }

  /** After an `ok` result nothing is at its threshold, over every run. */
  lemma OkLeavesAllBelow(ex: Extractors, es: seq<Event>, rec: ToolHistoryRecord)
    requires OutcomeAt(ex, es + [Call(rec)], |es|).Ok?
    ensures Quiet(After(ex, es + [Call(rec)]))
  {
    var all := es + [Call(rec)];
    assert all[..|es|] == es;
    RunsStayValid(ex, all);
    DetectsExactlyAtThresholds(ex, After(ex, all));
  }

  // ----- task totals

  datatype TotalKind = Edits | RawBash | NormBash

  function TotalOf(st: GuardState, kind: TotalKind): Tally {
    match kind
    case Edits => st.editCountsTotal
    case RawBash => st.bashCountsTotal
    case NormBash => st.bashCountsNormTotal
  }

  function ExtractorOf(ex: Extractors, kind: TotalKind): Extractor {
    match kind
    case Edits => ex.edit
    case RawBash => ex.bash
    case NormBash => ex.norm
  }

  predicate IsMatch(f: Extractor, e: Event, key: Text) {
    e.Call? && Carries(f, e.rec, key)
  }

  function Matches(f: Extractor, es: seq<Event>, key: Text): nat {
    if es == [] then 0
    else Matches(f, es[..|es| - 1], key) + if IsMatch(f, es[|es| - 1], key) then 1 else 0
  }

  /** Event `i` starts the count of `key` over: a reset, or a warning that fired on it. */
  ghost predicate Cut(ex: Extractors, es: seq<Event>, i: nat, key: Text)
    requires i < |es|
  {
    es[i].Reset? || Fired(OutcomeAt(ex, es, i), key)
  }

  predicate Fired(outcome: Outcome, key: Text) {
    outcome.Warn? && Names(outcome.detection, key)
  }

  /** A task-total detection names the keys it is about. */
  predicate Names(d: Detection, key: Text) {
    || (d.EditRunTotal? && (key == d.edit.key || key == d.bash.key))
    || (d.BashTotal? && key == d.top.key)
  }

  lemma FiredAreNamed(d: Detection, key: Text)
    ensures key in FiredKeys(d) <==> Names(d, key)
  {
  }

  lemma CutsOfPrefix(ex: Extractors, es: seq<Event>, n: nat, key: Text)
    requires n <= |es|
    ensures forall i :: 0 <= i < n ==> Cut(ex, es[..n], i, key) == Cut(ex, es, i, key)
  {
    forall i | 0 <= i < n
      ensures Cut(ex, es[..n], i, key) == Cut(ex, es, i, key)
    {
      assert es[..n][..i] == es[..i];
    }
  }

  lemma TotalOfPush(ex: Extractors, st: GuardState, rec: ToolHistoryRecord, kind: TotalKind, key: Text)
    requires Valid(ex, st)
    ensures Get(TotalOf(Push(ex, st, rec), kind), key)
         == Get(TotalOf(st, kind), key) + if IsMatch(ExtractorOf(ex, kind), Call(rec), key) then 1 else 0
  {
    TalliedCounts(ExtractorOf(ex, kind), TotalOf(st, kind), rec, key);
  }

  lemma TotalOfStep(ex: Extractors, es: seq<Event>, kind: TotalKind, key: Text)
    requires es != []
    ensures Get(TotalOf(After(ex, es), kind), key)
         == if Cut(ex, es, |es| - 1, key) then 0
            else Get(TotalOf(After(ex, es[..|es| - 1]), kind), key)
                 + if IsMatch(ExtractorOf(ex, kind), es[|es| - 1], key) then 1 else 0
  {
    var before, e := After(ex, es[..|es| - 1]), es[|es| - 1];
    if e.Call? {
      RunsStayValid(ex, es[..|es| - 1]);
      TotalOfCall(ex, before, e.rec, kind, key);
      hide Step;
      assert After(ex, es) == Step(ex, before, e.rec).0;
    }
  }

  lemma TotalOfCall(ex: Extractors, st: GuardState, rec: ToolHistoryRecord, kind: TotalKind, key: Text)
    requires Valid(ex, st)
    ensures Get(TotalOf(Step(ex, st, rec).0, kind), key)
         == if Fired(Step(ex, st, rec).1, key) then 0
            else Get(TotalOf(st, kind), key) + if IsMatch(ExtractorOf(ex, kind), Call(rec), key) then 1 else 0
  {
    hide Detect, Push, Valid, Get;
    var pushed := Push(ex, st, rec);
    PushKeepsValid(ex, st, rec);
    TotalOfPush(ex, st, rec, kind, key);
    if Detect(pushed).Some? {
      ValidTotals(ex, pushed, kind);
      FiredAreNamed(Detect(pushed).value, key);
      GetOfDeleteAll(TotalOf(pushed, kind), FiredKeys(Detect(pushed).value), key);
    }
  }

  lemma ValidTotals(ex: Extractors, st: GuardState, kind: TotalKind)
    requires Valid(ex, st)
    ensures WellFormed(TotalOf(st, kind))
  {
  }

  /** A task total is the number of matching records since the key's count last started over. */
  lemma {:induction false} TotalCountsSinceLastCut(ex: Extractors, es: seq<Event>, kind: TotalKind, key: Text, from: nat)
    requires from <= |es| && (from == 0 || Cut(ex, es, from - 1, key))
    requires forall i :: from <= i < |es| ==> !Cut(ex, es, i, key)
    ensures Get(TotalOf(After(ex, es), kind), key) == Matches(ExtractorOf(ex, kind), es[from..], key)
    decreases |es|
  {
    hide After, Cut, Matches, Get;
    if from < |es| {
      var n := |es| - 1;
      CutsOfPrefix(ex, es, n, key);
      TotalCountsSinceLastCut(ex, es[..n], kind, key, from);
      TotalOfStep(ex, es, kind, key);
      MatchesOfLast(ExtractorOf(ex, kind), es, from, key);
    } else {
      NoTotalYet(ex, kind, key);
      assert es[from..] == [];
      if from > 0 {
        TotalOfStep(ex, es, kind, key);
      }
    }
  }

  lemma NoTotalYet(ex: Extractors, kind: TotalKind, key: Text)
    ensures Get(TotalOf(After(ex, []), kind), key) == 0 == Matches(ExtractorOf(ex, kind), [], key)
  {
  }

  lemma MatchesOfLast(f: Extractor, es: seq<Event>, from: nat, key: Text)
    requires from < |es|
    ensures Matches(f, es[from..], key)
         == Matches(f, es[..|es| - 1][from..], key) + if IsMatch(f, es[|es| - 1], key) then 1 else 0
  {
    var n := |es| - 1;
    assert es[from..][..n - from] == es[..n][from..];
  }

  /** Where the count of `key` last started over: one past the last cut, or the beginning. */
  lemma {:induction false} FindLastCut(ex: Extractors, es: seq<Event>, n: nat, key: Text) returns (from: nat)
    requires n <= |es|
    ensures from <= n && (from == 0 || Cut(ex, es, from - 1, key))
    ensures forall i :: from <= i < n ==> !Cut(ex, es, i, key)
  {
    hide Cut;
    from := n;
    if n > 0 && !Cut(ex, es, n - 1, key) {
      from := FindLastCut(ex, es, n - 1, key);
    }
  }

  lemma {:induction false} FewerMatches(f: Extractor, es: seq<Event>, from: nat, key: Text)
    requires from <= |es|
    ensures Matches(f, es[from..], key) <= Matches(f, es, key)
    decreases |es|
  {
    if from < |es| {
      var n := |es| - 1;
      FewerMatches(f, es[..n], from, key);
      assert es[from..][..n - from] == es[..n][from..];
    }
  }

  /** The state the detectors see at event `j`. */
  ghost function PushedAt(ex: Extractors, es: seq<Event>, j: nat): GuardState
    requires j < |es| && es[j].Call?
  {
    Push(ex, After(ex, es[..j]), es[j].rec)
  }

  /** Between a cut and a later event, the total that event sees came from fresh records only. */
  lemma TotalIsFresh(ex: Extractors, es: seq<Event>, i: nat, j: nat, kind: TotalKind, key: Text)
    requires i < j < |es| && es[j].Call? && Cut(ex, es, i, key)
    ensures Get(TotalOf(PushedAt(ex, es, j), kind), key)
         <= Matches(ExtractorOf(ex, kind), es[i + 1..j + 1], key)
  {
    hide After, Cut, Matches, Push;
    var prefix := es[..j];
    CutsOfPrefix(ex, es, j, key);
    var from := FindLastCut(ex, prefix, j, key);
    RunsStayValid(ex, prefix);
    TotalOfPush(ex, After(ex, prefix), es[j].rec, kind, key);
    TotalCountsSinceLastCut(ex, prefix, kind, key, from);
    assert from >= i + 1;
    MatchesOfWindow(ExtractorOf(ex, kind), es, i + 1, from, j, key);
  }

  lemma MatchesOfWindow(f: Extractor, es: seq<Event>, start: nat, from: nat, j: nat, key: Text)
    requires start <= from <= j < |es|
    ensures Matches(f, es[..j][from..], key) + (if IsMatch(f, es[j], key) then 1 else 0)
         <= Matches(f, es[start..j + 1], key)
  {
    var before := es[start..j];
    assert es[..j][from..] == before[from - start..];
    FewerMatches(f, before, from - start, key);
    assert es[start..j + 1][..j - start] == before;
  }

  /** A task-total detection names keys whose totals reached the threshold. */
  lemma TotalDetectionReached(ex: Extractors, st: GuardState)
    requires Valid(ex, st) && Detect(st).Some?
    ensures var d := Detect(st).value;
            && (d.BashTotal? ==>
                 Get(TotalOf(st, if d.normalized then NormBash else RawBash), d.top.key) >= BASH_REPEAT_TOTAL_THRESHOLD)
            && (d.EditRunTotal? ==>
                 && Get(st.editCountsTotal, d.edit.key) >= EDIT_RUN_TOTAL_THRESHOLD
                 && (|| Get(st.bashCountsTotal, d.bash.key) >= EDIT_RUN_TOTAL_THRESHOLD
                     || Get(st.bashCountsNormTotal, d.bash.key) >= EDIT_RUN_TOTAL_THRESHOLD))
  {
    hide Get, Top, Reps, CountsWindow, WellFormed;
    TopReaches(st.editCountsTotal, EDIT_RUN_TOTAL_THRESHOLD);
    TopReaches(st.bashCountsTotal, EDIT_RUN_TOTAL_THRESHOLD);
    TopReaches(st.bashCountsNormTotal, EDIT_RUN_TOTAL_THRESHOLD);
  }

  lemma WarningAt(ex: Extractors, es: seq<Event>, j: nat)
    requires j < |es| && OutcomeAt(ex, es, j).Warn?
    ensures es[j].Call? && Valid(ex, PushedAt(ex, es, j))
    ensures Detect(PushedAt(ex, es, j)) == Some(OutcomeAt(ex, es, j).detection)
  {
    RunsStayValid(ex, es[..j]);
    PushKeepsValid(ex, After(ex, es[..j]), es[j].rec);
  }

  /** Two task-total bash warnings on one key are 15 fresh records of that key apart. */
  lemma BashWarningsAreSpaced(ex: Extractors, es: seq<Event>, i: nat, j: nat, top: Entry, normalized: bool)
    requires i < j < |es| && Cut(ex, es, i, top.key) && OutcomeAt(ex, es, j) == Warn(BashTotal(top, normalized))
    ensures Matches(if normalized then ex.norm else ex.bash, es[i + 1..j + 1], top.key) >= BASH_REPEAT_TOTAL_THRESHOLD
  {
    hide Cut, PushedAt, Matches, Valid, Get, Detect;
    WarningAt(ex, es, j);
    TotalDetectionReached(ex, PushedAt(ex, es, j));
    TotalIsFresh(ex, es, i, j, if normalized then NormBash else RawBash, top.key);
  }

  /** A task-total edit-run warning needs 12 fresh edits and 12 fresh runs since either key last fired. */
  lemma EditRunWarningsAreSpaced(ex: Extractors, es: seq<Event>, i: nat, j: nat, edit: Entry, bash: Entry)
    requires i < j < |es| && OutcomeAt(ex, es, j) == Warn(EditRunTotal(edit, bash))
    ensures Cut(ex, es, i, edit.key) ==> Matches(ex.edit, es[i + 1..j + 1], edit.key) >= EDIT_RUN_TOTAL_THRESHOLD
    ensures Cut(ex, es, i, bash.key) ==>
              || Matches(ex.bash, es[i + 1..j + 1], bash.key) >= EDIT_RUN_TOTAL_THRESHOLD
              || Matches(ex.norm, es[i + 1..j + 1], bash.key) >= EDIT_RUN_TOTAL_THRESHOLD
  {
    hide Cut, PushedAt, Matches, Valid, Get, Detect;
    WarningAt(ex, es, j);
    TotalDetectionReached(ex, PushedAt(ex, es, j));
    if Cut(ex, es, i, edit.key) {
      TotalIsFresh(ex, es, i, j, Edits, edit.key);
    }
    if Cut(ex, es, i, bash.key) {
      TotalIsFresh(ex, es, i, j, RawBash, bash.key);
      TotalIsFresh(ex, es, i, j, NormBash, bash.key);
    }
  }

  /** The records a window detection needs in the window. */
  function RecordsNeeded(d: Detection): nat {
    match d
    case Consecutive(_) => 3
    case ExactNgram(_, _) => 12
    case FuzzyNgram(n, _) => if n == 2 then 14 else 15
    case EditRun(_, _) => 8
    case BashWindow(_, _) => 12
    case _ => 0
  }

  lemma RecountFits(f: Extractor, h: History, key: Text)
    ensures Recount(f, h, key) <= |h|
  {
  }

  lemma TopFits(f: Extractor, m: Tally, h: History)
    requires CountsWindow(f, m, h) && m != []
    ensures Top(m).value.count <= |h|
  {
    TopReaches(m, 1);
    RecountFits(f, h, Top(m).value.key);
  }

  lemma DetectionNeedsRecords(ex: Extractors, st: GuardState)
    requires Valid(ex, st) && Detect(st).Some?
    ensures |st.history| >= RecordsNeeded(Detect(st).value)
  {
    hide Get, Top, Reps;
    var h := st.history;
    RepsFitHistory(h, 1, ExactKey);
    RepsFitHistory(h, 2, ExactKey);
    RepsFitHistory(h, 3, ExactKey);
    RepsFitHistory(h, 2, FuzzyKey);
    RepsFitHistory(h, 3, FuzzyKey);
    if st.editCounts != [] {
      TopFits(ex.edit, st.editCounts, h);
    }
    if st.bashCounts != [] {
      TopFits(ex.bash, st.bashCounts, h);
    }
    if st.bashCountsNorm != [] {
      TopFits(ex.norm, st.bashCountsNorm, h);
    }
  }

  /** A window detector cannot fire again before its own batch of records since the last warning or reset. */
  lemma WindowWarningsAreSpaced(ex: Extractors, es: seq<Event>, i: nat, j: nat)
    requires i < j < |es| && (es[i].Reset? || OutcomeAt(ex, es, i).Warn?)
    requires OutcomeAt(ex, es, j).Warn?
    ensures j - i >= RecordsNeeded(OutcomeAt(ex, es, j).detection)
  {
    hide Step, Detect;
    var prefix := es[..j];
    WarningAt(ex, es, j);
    DetectionNeedsRecords(ex, PushedAt(ex, es, j));
    WindowHoldsLatest(ex, prefix);
    assert prefix[..i] == es[..i];
    ClearBounds(ex, prefix, i);
  }

  // ----- the probe

  ghost predicate CleanHistory(h: History) {
    forall r :: r in h ==> Clean(r)
  }

  lemma {:induction false} ProxyIsLatest(h: History, toolName: Text, toolArgs: Text)
    ensures var proxy := Proxy(h, toolName, toolArgs);
            && (proxy.Some? ==> proxy.value in h && exists i :: 0 <= i < |h| && h[i] == proxy.value && IsLatest(h, toolName, toolArgs, i))
            && (proxy.None? <==> forall r :: r in h ==> r.toolName != toolName || r.toolArgs != toolArgs)
  {
    if h != [] {
      var n := |h| - 1;
      ProxyIsLatest(h[..n], toolName, toolArgs);
      assert h == h[..n] + [h[n]];
      if h[n].toolName == toolName && h[n].toolArgs == toolArgs {
        assert IsLatest(h, toolName, toolArgs, n);
      } else if Proxy(h[..n], toolName, toolArgs).Some? {
        var i :| 0 <= i < n && h[..n][i] == Proxy(h[..n], toolName, toolArgs).value && IsLatest(h[..n], toolName, toolArgs, i);
        assert IsLatest(h, toolName, toolArgs, i);
      }
    }
  }

  /** The record is the latest of this call. */
  predicate IsLatest(h: History, toolName: Text, toolArgs: Text, i: nat)
    requires i < |h|
  {
    && h[i].toolName == toolName && h[i].toolArgs == toolArgs
    && forall j :: i < j < |h| ==> h[j].toolName != toolName || h[j].toolArgs != toolArgs
  }

  /**
    The short-circuit is sound: when the window holds no record of this call, no n-gram or
    consecutive detector can fire on the extended window, whatever the call's result would be.
   */
  lemma ShortCircuitIsSound(h: History, call: ToolHistoryRecord)
    requires CleanHistory(h) && Clean(call) && Proxy(h, call.toolName, call.toolArgs).None?
    ensures NgramDetection(Extended(h, call)).None?
  {
    var x := Extended(h, call);
    ProxyIsLatest(h, call.toolName, call.toolArgs);
    forall i | 0 <= i < |x| - 1
      ensures ExactKey(x[i]) != ExactKey(x[|x| - 1]) && FuzzyKey(x[i]) != FuzzyKey(x[|x| - 1])
    {
      assert x[i] in h;
      ExactKeyIsCollisionFree(x[i], call);
      FuzzyKeyIsCollisionFree(x[i], call);
    }
    FreshTailRepeatsOnce(x, 1, ExactKey);
    FreshTailRepeatsOnce(x, 2, ExactKey);
    FreshTailRepeatsOnce(x, 3, ExactKey);
    FreshTailRepeatsOnce(x, 2, FuzzyKey);
    FreshTailRepeatsOnce(x, 3, FuzzyKey);
  }

  /**
    The cycle part of the probe reacts to a call's own key: only when that key has a highest count and
    is at the threshold, and always when it is at the threshold and alone has the highest count.
   */
  lemma ProbeSeesTopKeys(m: Tally, key: Text, threshold: int)
    requires CountMap.WellFormed(m) && threshold >= 1
    ensures Extends(Some(key), Top(m), threshold) ==>
              Get(m, key) >= threshold && forall k :: Get(m, k) <= Get(m, key)
    ensures Get(m, key) >= threshold && (forall k :: k != key ==> Get(m, k) < Get(m, key)) ==>
              Extends(Some(key), Top(m), threshold)
  {
    TopReaches(m, threshold);
    forall k
      ensures Top(m).Some? ==> Get(m, k) <= Top(m).value.count
    {
      if Get(m, k) >= 1 {
        TopReaches(m, Get(m, k));
      }
    }
    hide Top, Get;
  }

  /**
    The n-gram part of the probe predicts: it blocks a call exactly when recording that call, with
    the result the latest same call had, would be answered by an n-gram or consecutive warning.
   */
  lemma ProbePredictsRecord(ex: Extractors, st: GuardState, toolName: Text, toolArgs: Text)
    requires |st.history| <= WINDOW_SIZE && Proxy(st.history, toolName, toolArgs).Some?
    ensures ExtendsNgram(st, toolName, toolArgs)
       <==> IsNgramWarning(Step(ex, st, Proxy(st.history, toolName, toolArgs).value).1)
  {
    hide Step, NgramDetection, Proxy, IsNgramWarning, Slid, Tallied;
    var rec := Proxy(st.history, toolName, toolArgs).value;
    ProxyIsLatest(st.history, toolName, toolArgs);
    assert Push(ex, st, rec).history == Extended(st.history, rec);
    NgramWarning(ex, st, rec);
    assert rec.(toolName := toolName, toolArgs := toolArgs) == rec;
  }

  predicate IsNgramWarning(outcome: Outcome) {
    outcome.Warn? && (outcome.detection.Consecutive? || outcome.detection.ExactNgram? || outcome.detection.FuzzyNgram?)
  }

  lemma NgramWarning(ex: Extractors, st: GuardState, rec: ToolHistoryRecord)
    ensures IsNgramWarning(Step(ex, st, rec).1) <==> NgramDetection(Push(ex, st, rec).history).Some?
  {
  }
}
