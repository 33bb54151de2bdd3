/**
  What one tool call does to the loop guard, as functions on its state: tallying, the
  sliding window, the six detectors in their order, and the reaction to a detection.
 */
module LoopDetectors {
  import opened Prelude
  import opened Utf16
  import opened CountMap
  import opened ToolHistory

  const WINDOW_SIZE := 30
  const CONSECUTIVE_IDENTICAL_THRESHOLD := 3
  const FUZZY_2GRAM_THRESHOLD := 6
  const FUZZY_3GRAM_THRESHOLD := 4
  const EXACT_2GRAM_THRESHOLD := 5
  const EXACT_3GRAM_THRESHOLD := 3
  const EDIT_RUN_THRESHOLD := 8
  const EDIT_RUN_TOTAL_THRESHOLD := 12
  const BASH_REPEAT_THRESHOLD := 12
  const BASH_REPEAT_TOTAL_THRESHOLD := 15

  /** A key extractor sees the tool name and the arguments only. */
  type Extractor = (Text, Text) -> Option<Text>

  datatype Extractors = Extractors(edit: Extractor, bash: Extractor, norm: Extractor)

  /** An absent key and an empty key are both skipped. */
  function KeyOf(f: Extractor, rec: ToolHistoryRecord): Option<Text> {
    var key := f(rec.toolName, rec.toolArgs);
    if key.Some? && key.value == [] then None else key
  }

  datatype Detection =
    | Consecutive(count: nat)
    | ExactNgram(n: nat, reps: nat)
    | FuzzyNgram(n: nat, reps: nat)
    | EditRun(edit: Entry, bash: Entry)
    | EditRunTotal(edit: Entry, bash: Entry)
    | BashWindow(top: Entry, normalized: bool)
    | BashTotal(top: Entry, normalized: bool)

  datatype Outcome = Ok | Warn(detection: Detection)

  datatype GuardState = GuardState(
    history: History,
    editCounts: Tally,
    bashCounts: Tally,
    bashCountsNorm: Tally,
    editCountsTotal: Tally,
    bashCountsTotal: Tally,
    bashCountsNormTotal: Tally,
    warned: bool,
    triggered: bool
  )

  const INITIAL := GuardState([], [], [], [], [], [], [], false, false)

  function Tallied(f: Extractor, m: Tally, rec: ToolHistoryRecord): Tally {
    var key := KeyOf(f, rec);
    if key.Some? then Increment(m, key.value) else m
  }

  function Untallied(f: Extractor, m: Tally, rec: ToolHistoryRecord): Tally {
    var key := KeyOf(f, rec);
    if key.Some? then Decrement(m, key.value) else m
  }

  /** A window tally after the record entered and, when the window overflows, the oldest one left. */
  function Slid(f: Extractor, m: Tally, history: History, rec: ToolHistoryRecord): Tally {
    var m' := Tallied(f, m, rec);
    if |history| + 1 > WINDOW_SIZE then Untallied(f, m', (history + [rec])[0]) else m'
  }

  function Push(ex: Extractors, st: GuardState, rec: ToolHistoryRecord): GuardState {
    var history := st.history + [rec];
    st.(
      history := if |history| > WINDOW_SIZE then history[1..] else history,
      editCounts := Slid(ex.edit, st.editCounts, st.history, rec),
      bashCounts := Slid(ex.bash, st.bashCounts, st.history, rec),
      bashCountsNorm := Slid(ex.norm, st.bashCountsNorm, st.history, rec),
      editCountsTotal := Tallied(ex.edit, st.editCountsTotal, rec),
      bashCountsTotal := Tallied(ex.bash, st.bashCountsTotal, rec),
      bashCountsNormTotal := Tallied(ex.norm, st.bashCountsNormTotal, rec)
    )
  }

  /** JavaScript's `??` */
  function OrElse<T>(a: Option<T>, b: Option<T>): Option<T> {
    if a.Some? then a else b
  }

  function PickHigher(a: Option<Entry>, b: Option<Entry>): Option<Entry> {
    if a.None? then b
    else if b.None? then a
    else if a.value.count >= b.value.count then a else b
  }

  ghost function ConsecutiveDetection(h: History): Option<Detection> {
    var count := Reps(h, 1, ExactKey);
    if count < CONSECUTIVE_IDENTICAL_THRESHOLD then None else Some(Consecutive(count))
  }

  ghost function ExactNgramDetection(h: History): Option<Detection> {
    var r2, r3 := Reps(h, 2, ExactKey), Reps(h, 3, ExactKey);
    if r2 > EXACT_2GRAM_THRESHOLD then Some(ExactNgram(2, r2))
    else if r3 > EXACT_3GRAM_THRESHOLD then Some(ExactNgram(3, r3))
    else None
  }

  ghost function FuzzyNgramDetection(h: History): Option<Detection> {
    var r2, r3 := Reps(h, 2, FuzzyKey), Reps(h, 3, FuzzyKey);
    if r2 > FUZZY_2GRAM_THRESHOLD then Some(FuzzyNgram(2, r2))
    else if r3 > FUZZY_3GRAM_THRESHOLD then Some(FuzzyNgram(3, r3))
    else None
  }

  ghost function NgramDetection(h: History): Option<Detection> {
    OrElse(ConsecutiveDetection(h), OrElse(ExactNgramDetection(h), FuzzyNgramDetection(h)))
  }

  /** Both entries of an edit-run cycle, when both reach the threshold. */
  function EditRunPair(edits: Tally, raw: Tally, norm: Tally, threshold: int): Option<(Entry, Entry)> {
    var edit, bash := Top(edits), PickHigher(Top(raw), Top(norm));
    if edit.None? || bash.None? || edit.value.count < threshold || bash.value.count < threshold then None
    else Some((edit.value, bash.value))
  }

  function EditRunDetection(st: GuardState): Option<Detection> {
    var pair := EditRunPair(st.editCounts, st.bashCounts, st.bashCountsNorm, EDIT_RUN_THRESHOLD);
    if pair.None? then None else Some(EditRun(pair.value.0, pair.value.1))
  }

  function EditRunTotalDetection(st: GuardState): Option<Detection> {
    var pair := EditRunPair(st.editCountsTotal, st.bashCountsTotal, st.bashCountsNormTotal, EDIT_RUN_TOTAL_THRESHOLD);
    if pair.None? then None else Some(EditRunTotal(pair.value.0, pair.value.1))
  }

  predicate TopAtLeast(m: Tally, threshold: int) {
    Top(m).Some? && Top(m).value.count >= threshold
  }

  function BashDetection(st: GuardState): Option<Detection> {
    if TopAtLeast(st.bashCounts, BASH_REPEAT_THRESHOLD) then
      Some(BashWindow(Top(st.bashCounts).value, false))
    else if TopAtLeast(st.bashCountsNorm, BASH_REPEAT_THRESHOLD) then
      Some(BashWindow(Top(st.bashCountsNorm).value, true))
    else if TopAtLeast(st.bashCountsTotal, BASH_REPEAT_TOTAL_THRESHOLD) then
      Some(BashTotal(Top(st.bashCountsTotal).value, false))
    else if TopAtLeast(st.bashCountsNormTotal, BASH_REPEAT_TOTAL_THRESHOLD) then
      Some(BashTotal(Top(st.bashCountsNormTotal).value, true))
    else None
  }

  ghost function Detect(st: GuardState): Option<Detection> {
    OrElse(NgramDetection(st.history),
           OrElse(EditRunDetection(st), OrElse(EditRunTotalDetection(st), BashDetection(st))))
  }

  /** The keys whose task totals start over after a warning. */
  function FiredKeys(d: Detection): seq<Text> {
    match d
    case EditRunTotal(edit, bash) => [edit.key, bash.key]
    case BashTotal(top, _) => [top.key]
    case _ => []
  }

  function Cleared(st: GuardState, fired: seq<Text>): GuardState {
    st.(
      warned := true,
      history := [],
      editCounts := [],
      bashCounts := [],
      bashCountsNorm := [],
      editCountsTotal := DeleteAll(st.editCountsTotal, fired),
      bashCountsTotal := DeleteAll(st.bashCountsTotal, fired),
      bashCountsNormTotal := DeleteAll(st.bashCountsNormTotal, fired)
    )
  }

  ghost function Step(ex: Extractors, st: GuardState, rec: ToolHistoryRecord): (GuardState, Outcome) {
    var pushed := Push(ex, st, rec);
    var detected := Detect(pushed);
    if detected.None? then (pushed, Ok)
    else (Cleared(pushed, FiredKeys(detected.value)), Warn(detected.value))
  }

  // ----- the probe

  function Proxy(h: History, toolName: Text, toolArgs: Text): Option<ToolHistoryRecord> {
    if h == [] then None
    else
      var r := h[|h| - 1];
      if r.toolName == toolName && r.toolArgs == toolArgs then Some(r) else Proxy(h[..|h| - 1], toolName, toolArgs)
  }

  /** The window as it would be with one more record: the oldest of a full window drops out. */
  function Extended(h: History, rec: ToolHistoryRecord): History {
    (if |h| > WINDOW_SIZE - 1 then h[|h| - (WINDOW_SIZE - 1)..] else h) + [rec]
  }

  /** The call has the most frequent key, and that key is already at the threshold. */
  predicate Extends(key: Option<Text>, top: Option<Entry>, threshold: int) {
    key.Some? && top.Some? && key.value == top.value.key && top.value.count >= threshold
  }

  predicate ExtendsCycle(ex: Extractors, st: GuardState, toolName: Text, toolArgs: Text) {
    || Extends(ex.edit(toolName, toolArgs), Top(st.editCounts), EDIT_RUN_THRESHOLD)
    || Extends(ex.bash(toolName, toolArgs), Top(st.bashCounts), EDIT_RUN_THRESHOLD)
    || Extends(ex.edit(toolName, toolArgs), Top(st.editCountsTotal), EDIT_RUN_TOTAL_THRESHOLD)
    || Extends(ex.bash(toolName, toolArgs), Top(st.bashCountsTotal), EDIT_RUN_TOTAL_THRESHOLD)
  }

  ghost predicate ExtendsNgram(st: GuardState, toolName: Text, toolArgs: Text) {
    var proxy := Proxy(st.history, toolName, toolArgs);
    && proxy.Some?
    && NgramDetection(Extended(st.history, proxy.value.(toolName := toolName, toolArgs := toolArgs))).Some?
  }

  ghost predicate Blocks(ex: Extractors, st: GuardState, toolName: Text, toolArgs: Text) {
    && st.warned
    && st.history != []
    && (ExtendsCycle(ex, st, toolName, toolArgs) || ExtendsNgram(st, toolName, toolArgs))
  }
}
