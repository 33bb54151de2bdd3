/** The loop guard itself: fields updated in place by `Record`, `Reset` and `BlockIfLoop`. */
module LoopGuardClass {
  import opened Prelude
  import opened Utf16
  import opened CountMap
  import opened ToolHistory
  import opened LoopDetectors

  class LoopGuard {
    const extractors: Extractors

    var history: History
    var editCounts: Tally
    var bashCounts: Tally
    var bashCountsNorm: Tally
    var editCountsTotal: Tally
    var bashCountsTotal: Tally
    var bashCountsNormTotal: Tally
    var warned: bool
    var triggered: bool

    ghost function State(): GuardState
      reads this
    {
      GuardState(history, editCounts, bashCounts, bashCountsNorm, editCountsTotal, bashCountsTotal,
                 bashCountsNormTotal, warned, triggered)
    }

    constructor (extractors: Extractors)
      ensures this.extractors == extractors && State() == INITIAL
    {
      this.extractors := extractors;
      history := [];
      editCounts, bashCounts, bashCountsNorm := [], [], [];
      editCountsTotal, bashCountsTotal, bashCountsNormTotal := [], [], [];
      warned, triggered := false, false;
    }

    method Reset()
      modifies this
      ensures State() == INITIAL
    {
      history := [];
      editCounts, bashCounts, bashCountsNorm := [], [], [];
      editCountsTotal, bashCountsTotal, bashCountsNormTotal := [], [], [];
      warned, triggered := false, false;
    }

    method Record(rec: ToolHistoryRecord) returns (outcome: Outcome)
      modifies this
      ensures (State(), outcome) == Step(extractors, old(State()), rec)
    {
      hide Detect, Tallied, Untallied;
      TallyRecord(rec);
      SlideWindow(rec);
      assert State() == Push(extractors, old(State()), rec);
      var detected := RunDetectors();
      if detected.None? {
        return Ok;
      }
      warned := true;
      history := [];
      editCounts, bashCounts, bashCountsNorm := [], [], [];
      ForgetTotals(FiredKeys(detected.value));
      return Warn(detected.value);
    }

    method TallyRecord(rec: ToolHistoryRecord)
      modifies this
      ensures State() == old(State()).(
        editCounts := Tallied(extractors.edit, old(editCounts), rec),
        bashCounts := Tallied(extractors.bash, old(bashCounts), rec),
        bashCountsNorm := Tallied(extractors.norm, old(bashCountsNorm), rec),
        editCountsTotal := Tallied(extractors.edit, old(editCountsTotal), rec),
        bashCountsTotal := Tallied(extractors.bash, old(bashCountsTotal), rec),
        bashCountsNormTotal := Tallied(extractors.norm, old(bashCountsNormTotal), rec))
    {
      hide Increment, KeyOf;
      var edit := KeyOf(extractors.edit, rec);
      if edit.Some? {
        editCounts := Increment(editCounts, edit.value);
        editCountsTotal := Increment(editCountsTotal, edit.value);
      }
      var bash := KeyOf(extractors.bash, rec);
      if bash.Some? {
        bashCounts := Increment(bashCounts, bash.value);
        bashCountsTotal := Increment(bashCountsTotal, bash.value);
      }
      var norm := KeyOf(extractors.norm, rec);
      if norm.Some? {
        bashCountsNorm := Increment(bashCountsNorm, norm.value);
        bashCountsNormTotal := Increment(bashCountsNormTotal, norm.value);
      }
    }

    method SlideWindow(rec: ToolHistoryRecord)
      modifies this
      ensures State() == (
        var pushed := old(history) + [rec];
        if |pushed| <= WINDOW_SIZE then old(State()).(history := pushed)
        else old(State()).(
          history := pushed[1..],
          editCounts := Untallied(extractors.edit, old(editCounts), pushed[0]),
          bashCounts := Untallied(extractors.bash, old(bashCounts), pushed[0]),
          bashCountsNorm := Untallied(extractors.norm, old(bashCountsNorm), pushed[0])))
    {
      history := history + [rec];
      if |history| > WINDOW_SIZE {
        var evicted := history[0];
        history := history[1..];
        editCounts := Untallied(extractors.edit, editCounts, evicted);
        bashCounts := Untallied(extractors.bash, bashCounts, evicted);
        bashCountsNorm := Untallied(extractors.norm, bashCountsNorm, evicted);
      }
    }

    method ForgetTotals(fired: seq<Text>)
      modifies this
      ensures State() == old(State()).(
        editCountsTotal := DeleteAll(old(editCountsTotal), fired),
        bashCountsTotal := DeleteAll(old(bashCountsTotal), fired),
        bashCountsNormTotal := DeleteAll(old(bashCountsNormTotal), fired))
    {
      for i := 0 to |fired|
        invariant State() == old(State()).(
          editCountsTotal := editCountsTotal,
          bashCountsTotal := bashCountsTotal,
          bashCountsNormTotal := bashCountsNormTotal)
        invariant DeleteAll(editCountsTotal, fired[i..]) == DeleteAll(old(editCountsTotal), fired)
        invariant DeleteAll(bashCountsTotal, fired[i..]) == DeleteAll(old(bashCountsTotal), fired)
        invariant DeleteAll(bashCountsNormTotal, fired[i..]) == DeleteAll(old(bashCountsNormTotal), fired)
      {
        assert fired[i..][1..] == fired[i + 1..];
        editCountsTotal := Delete(editCountsTotal, fired[i]);
        bashCountsTotal := Delete(bashCountsTotal, fired[i]);
        bashCountsNormTotal := Delete(bashCountsNormTotal, fired[i]);
      }
    }

    method RunDetectors() returns (d: Option<Detection>)
      ensures d == Detect(State())
    {
      d := DetectNgramOnly();
      if d.None? {
        d := DetectEditRunCycle();
      }
      if d.None? {
        d := DetectEditRunCycleTotal();
      }
      if d.None? {
        d := DetectBashRepetition();
      }
    }

    method DetectNgramOnly() returns (d: Option<Detection>)
      ensures d == NgramDetection(history)
    {
      d := DetectConsecutiveIdenticalCalls();
      if d.None? {
        d := DetectExactNgram();
      }
      if d.None? {
        d := DetectFuzzyNgram();
      }
    }

    method DetectConsecutiveIdenticalCalls() returns (d: Option<Detection>)
      ensures d == ConsecutiveDetection(history)
    {
      if history == [] {
        RepsFitHistory(history, 1, ExactKey);
        return None;
      }
      var targetKey := ExactKey(history[|history| - 1]);
      var count := 0;
      var i := |history|;
      while i > 0
        invariant 0 <= i <= |history| && count == |history| - i
        invariant forall j :: i <= j < |history| ==> ExactKey(history[j]) == targetKey
      {
        if ExactKey(history[i - 1]) != targetKey {
          break;
        }
        count := count + 1;
        i := i - 1;
      }
      if i > 0 {
        assert ExactKey(history[i - 1]) != ExactKey(history[i - 1 + 1]);
      }
      RepsIs(history, 1, ExactKey, count);
      if count < CONSECUTIVE_IDENTICAL_THRESHOLD {
        return None;
      }
      return Some(Consecutive(count));
    }

    method DetectExactNgram() returns (d: Option<Detection>)
      ensures d == ExactNgramDetection(history)
    {
      var r2 := CountContiguousNgramReps(history, 2, ExactKey);
      if r2 > EXACT_2GRAM_THRESHOLD {
        return Some(ExactNgram(2, r2));
      }
      var r3 := CountContiguousNgramReps(history, 3, ExactKey);
      if r3 > EXACT_3GRAM_THRESHOLD {
        return Some(ExactNgram(3, r3));
      }
      return None;
    }

    method DetectFuzzyNgram() returns (d: Option<Detection>)
      ensures d == FuzzyNgramDetection(history)
    {
      var r2 := CountContiguousNgramReps(history, 2, FuzzyKey);
      if r2 > FUZZY_2GRAM_THRESHOLD {
        return Some(FuzzyNgram(2, r2));
      }
      var r3 := CountContiguousNgramReps(history, 3, FuzzyKey);
      if r3 > FUZZY_3GRAM_THRESHOLD {
        return Some(FuzzyNgram(3, r3));
      }
      return None;
    }

    method DetectEditRunCycle() returns (d: Option<Detection>)
      ensures d == EditRunDetection(State())
    {
      var topEdit := MapMax(editCounts);
      var topBashRaw := MapMax(bashCounts);
      var topBashNorm := MapMax(bashCountsNorm);
      var topBash := PickHigher(topBashRaw, topBashNorm);
      if topEdit.None? || topBash.None? {
        return None;
      }
      if topEdit.value.count < EDIT_RUN_THRESHOLD || topBash.value.count < EDIT_RUN_THRESHOLD {
        return None;
      }
      return Some(EditRun(topEdit.value, topBash.value));
    }

    method DetectEditRunCycleTotal() returns (d: Option<Detection>)
      ensures d == EditRunTotalDetection(State())
    {
      var topEdit := MapMax(editCountsTotal);
      var topBashRaw := MapMax(bashCountsTotal);
      var topBashNorm := MapMax(bashCountsNormTotal);
      var topBash := PickHigher(topBashRaw, topBashNorm);
      if topEdit.None? || topBash.None? {
        return None;
      }
      if topEdit.value.count < EDIT_RUN_TOTAL_THRESHOLD || topBash.value.count < EDIT_RUN_TOTAL_THRESHOLD {
        return None;
      }
      return Some(EditRunTotal(topEdit.value, topBash.value));
    }

    method DetectBashRepetition() returns (d: Option<Detection>)
      ensures d == BashDetection(State())
    {
      var raw := MapMax(bashCounts);
      if raw.Some? && raw.value.count >= BASH_REPEAT_THRESHOLD {
        return Some(BashWindow(raw.value, false));
      }
      var norm := MapMax(bashCountsNorm);
      if norm.Some? && norm.value.count >= BASH_REPEAT_THRESHOLD {
        return Some(BashWindow(norm.value, true));
      }
      var rawTotal := MapMax(bashCountsTotal);
      if rawTotal.Some? && rawTotal.value.count >= BASH_REPEAT_TOTAL_THRESHOLD {
        return Some(BashTotal(rawTotal.value, false));
      }
      var normTotal := MapMax(bashCountsNormTotal);
      if normTotal.Some? && normTotal.value.count >= BASH_REPEAT_TOTAL_THRESHOLD {
        return Some(BashTotal(normTotal.value, true));
      }
      return None;
    }

    /** The probe swaps a hypothetical window in and back out; only `triggered` may change for good. */
    method BlockIfLoop(toolName: Text, toolArgs: Text) returns (blocked: bool)
      modifies this
      ensures blocked == Blocks(extractors, old(State()), toolName, toolArgs)
      ensures blocked ==> old(warned) && old(history) != []
      ensures State() == old(State()).(triggered := old(triggered) || blocked)
    {
      hide ExtendsCycle, NgramDetection, Proxy;
      if !warned || history == [] {
        return false;
      }
      var cycle := CheckExtendsCycle(toolName, toolArgs);
      if cycle {
        triggered := true;
        return true;
      }
      var proxy := FindProxy(toolName, toolArgs);
      if proxy.None? {
        return false;
      }
      var hypo := ToolHistoryRecord(toolName, toolArgs, proxy.value.isError, proxy.value.outputFingerprint);
      var saved := history;
      history := (if |saved| > WINDOW_SIZE - 1 then saved[|saved| - (WINDOW_SIZE - 1)..] else saved) + [hypo];
      var detected := DetectNgramOnly();
      history := saved;
      if detected.None? {
        return false;
      }
      triggered := true;
      return true;
    }

    method CheckExtendsCycle(toolName: Text, toolArgs: Text) returns (cycle: bool)
      ensures cycle == ExtendsCycle(extractors, State(), toolName, toolArgs)
    {
      var callEditTarget := extractors.edit(toolName, toolArgs);
      var callBashPrefix := extractors.bash(toolName, toolArgs);
      var topEdit := MapMax(editCounts);
      var topBash := MapMax(bashCounts);
      var topEditTotal := MapMax(editCountsTotal);
      var topBashTotal := MapMax(bashCountsTotal);
      var extendsWindowCycle :=
        || Extends(callEditTarget, topEdit, EDIT_RUN_THRESHOLD)
        || Extends(callBashPrefix, topBash, EDIT_RUN_THRESHOLD);
      var extendsTotalCycle :=
        || Extends(callEditTarget, topEditTotal, EDIT_RUN_TOTAL_THRESHOLD)
        || Extends(callBashPrefix, topBashTotal, EDIT_RUN_TOTAL_THRESHOLD);
      return extendsWindowCycle || extendsTotalCycle;
    }

    method FindProxy(toolName: Text, toolArgs: Text) returns (proxy: Option<ToolHistoryRecord>)
      ensures proxy == Proxy(history, toolName, toolArgs)
    {
      proxy := None;
      var i := |history|;
      assert history[..|history|] == history;
      while i > 0
        invariant 0 <= i <= |history| && proxy.None?
        invariant Proxy(history[..i], toolName, toolArgs) == Proxy(history, toolName, toolArgs)
      {
        var r := history[i - 1];
        assert history[..i][..i - 1] == history[..i - 1];
        if r.toolName == toolName && r.toolArgs == toolArgs {
          return Some(r);
        }
        i := i - 1;
      }
    }
  }
}
