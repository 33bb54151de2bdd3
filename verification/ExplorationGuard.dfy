/** Nudging an agent that only reads, or only talks, turn after turn. */
module ExplorationGuard {
  import opened Prelude

  /** The steers the guard can send at the end of a turn. */
  datatype Steer = NoToolWarning | NoToolMandatory | NoToolSubagentAbort | HypothesisReminder | ReadOnlyMandatory

  datatype Limits = Limits(hypothesis: int, steer: int, noToolWarn: int, noToolSteer: int)

  /** What a turn did: which kinds of tool it called, and whether the guard was on when it ended. */
  datatype Turn = Turn(enabled: bool, anyTool: bool, writeTool: bool, readTool: bool, subagent: bool)

  datatype Counters = Counters(readOnly: int, noTool: int)

  function EndTurn(limits: Limits, c: Counters, t: Turn): (Counters, seq<Steer>) {
    if !t.enabled then (Counters(0, 0), [])
    else if !t.anyTool then
      var n := c.noTool + 1;
      if n == limits.noToolSteer then
        (c.(noTool := 0), [if t.subagent then NoToolSubagentAbort else NoToolMandatory])
      else (c.(noTool := n), if n == limits.noToolWarn then [NoToolWarning] else [])
    else if t.writeTool || !t.readTool then (Counters(0, 0), [])
    else
      var n := c.readOnly + 1;
      var reminder := if n == limits.hypothesis then [HypothesisReminder] else [];
      if n == limits.steer then (Counters(0, 0), reminder + [ReadOnlyMandatory]) else (Counters(n, 0), reminder)
  }

  class Guard {
    const readTools: set<string>
    const writeTools: set<string>
    const limits: Limits

    var consecutiveReadOnlyTurns: int
    var consecutiveNoToolTurns: int
    var currentTurnHasWriteTool: bool
    var currentTurnHasAnyTool: bool
    var currentTurnHasReadTool: bool
    var subagentAbortPending: bool

    ghost function Streaks(): Counters
      reads this
    {
      Counters(consecutiveReadOnlyTurns, consecutiveNoToolTurns)
    }

    ghost function ThisTurn(enabled: bool, subagent: bool): Turn
      reads this
    {
      Turn(enabled, currentTurnHasAnyTool, currentTurnHasWriteTool, currentTurnHasReadTool, subagent)
    }

    constructor (readTools: set<string>, writeTools: set<string>, limits: Limits)
      ensures this.readTools == readTools && this.writeTools == writeTools && this.limits == limits
      ensures Streaks() == Counters(0, 0) && !subagentAbortPending
      ensures !currentTurnHasAnyTool && !currentTurnHasWriteTool && !currentTurnHasReadTool
    {
      this.readTools, this.writeTools, this.limits := readTools, writeTools, limits;
      consecutiveReadOnlyTurns, consecutiveNoToolTurns := 0, 0;
      currentTurnHasWriteTool, currentTurnHasAnyTool, currentTurnHasReadTool := false, false, false;
      subagentAbortPending := false;
    }

    method Reset()
      modifies this
      ensures Streaks() == Counters(0, 0) && !subagentAbortPending
      ensures !currentTurnHasAnyTool && !currentTurnHasWriteTool && !currentTurnHasReadTool
    {
      consecutiveReadOnlyTurns, consecutiveNoToolTurns := 0, 0;
      currentTurnHasWriteTool, currentTurnHasAnyTool, currentTurnHasReadTool := false, false, false;
      subagentAbortPending := false;
    }

    method TurnStart()
      modifies this`currentTurnHasWriteTool, this`currentTurnHasAnyTool, this`currentTurnHasReadTool
      ensures !currentTurnHasAnyTool && !currentTurnHasWriteTool && !currentTurnHasReadTool
    {
      currentTurnHasWriteTool, currentTurnHasAnyTool, currentTurnHasReadTool := false, false, false;
    }

    method RecordToolCall(toolName: string)
      modifies this`currentTurnHasWriteTool, this`currentTurnHasAnyTool, this`currentTurnHasReadTool
      ensures currentTurnHasAnyTool
      ensures currentTurnHasWriteTool == (old(currentTurnHasWriteTool) || toolName in writeTools)
      ensures currentTurnHasReadTool == (old(currentTurnHasReadTool) || toolName in readTools)
    {
      currentTurnHasAnyTool := true;
      if toolName in writeTools {
        currentTurnHasWriteTool := true;
      }
      if toolName in readTools {
        currentTurnHasReadTool := true;
      }
    }

    method TurnEnd(enabled: bool, subagent: bool) returns (steers: seq<Steer>)
      modifies this`consecutiveReadOnlyTurns, this`consecutiveNoToolTurns, this`subagentAbortPending
      ensures (Streaks(), steers) == EndTurn(limits, old(Streaks()), old(ThisTurn(enabled, subagent)))
      ensures subagentAbortPending == (old(subagentAbortPending) || NoToolSubagentAbort in steers)
    {
      steers := [];
      if !enabled {
        consecutiveReadOnlyTurns := 0;
        consecutiveNoToolTurns := 0;
        return;
      }
      if !currentTurnHasAnyTool {
        consecutiveNoToolTurns := consecutiveNoToolTurns + 1;
        if consecutiveNoToolTurns == limits.noToolSteer {
          if subagent {
            steers := [NoToolSubagentAbort];
            subagentAbortPending := true;
          } else {
            steers := [NoToolMandatory];
          }
          consecutiveNoToolTurns := 0;
        } else if consecutiveNoToolTurns == limits.noToolWarn {
          steers := [NoToolWarning];
        }
        return;
      }
      consecutiveNoToolTurns := 0;
      if currentTurnHasWriteTool || !currentTurnHasReadTool {
        consecutiveReadOnlyTurns := 0;
        return;
      }
      consecutiveReadOnlyTurns := consecutiveReadOnlyTurns + 1;
      if consecutiveReadOnlyTurns == limits.hypothesis {
        steers := [HypothesisReminder];
      }
      if consecutiveReadOnlyTurns == limits.steer {
        steers := steers + [ReadOnlyMandatory];
        consecutiveReadOnlyTurns := 0;
      }
    }
  }

  // ----- over whole runs

  datatype Event = Ended(turn: Turn) | UserReset

  ghost function After(limits: Limits, es: seq<Event>): Counters {
    if es == [] || es[|es| - 1].UserReset? then Counters(0, 0)
    else EndTurn(limits, After(limits, es[..|es| - 1]), es[|es| - 1].turn).0
  }

  ghost function SteersAt(limits: Limits, es: seq<Event>, i: nat): seq<Steer>
    requires i < |es|
  {
    if es[i].UserReset? then [] else EndTurn(limits, After(limits, es[..i]), es[i].turn).1
  }

  /** The current streak of turns without any tool. */
  function NoToolStreak(es: seq<Event>): nat {
    if es == [] then 0
    else
      var e := es[|es| - 1];
      if e.Ended? && e.turn.enabled && !e.turn.anyTool then NoToolStreak(es[..|es| - 1]) + 1 else 0
  }

  predicate IsReadOnly(t: Turn) {
    t.anyTool && !t.writeTool && t.readTool
  }

  /** The read-only turns since the last writing, neutral or suppressed turn; turns without tools do not count. */
  function ReadOnlyStreak(es: seq<Event>): nat {
    if es == [] then 0
    else
      var e := es[|es| - 1];
      if e.UserReset? || !e.turn.enabled then 0
      else if !e.turn.anyTool then ReadOnlyStreak(es[..|es| - 1])
      else if IsReadOnly(e.turn) then ReadOnlyStreak(es[..|es| - 1]) + 1
      else 0
  }

  ghost predicate Mandatory(limits: Limits, es: seq<Event>, i: nat)
    requires i < |es|
  {
    NoToolMandatory in SteersAt(limits, es, i) || NoToolSubagentAbort in SteersAt(limits, es, i)
  }

  /** How many mandatory no-tool steers the current no-tool streak has produced. */
  ghost function NoToolSteers(limits: Limits, es: seq<Event>): nat {
    if NoToolStreak(es) == 0 then 0
    else NoToolSteers(limits, es[..|es| - 1]) + if Mandatory(limits, es, |es| - 1) then 1 else 0
  }

  /** How many mandatory read-only steers the current read-only streak has produced. */
  ghost function ReadOnlySteers(limits: Limits, es: seq<Event>): nat
    decreases |es|
  {
    if es == [] || ReadOnlyStreak(es) == 0 then 0
    else
      ReadOnlySteers(limits, es[..|es| - 1]) + if ReadOnlyMandatory in SteersAt(limits, es, |es| - 1) then 1 else 0
  }

  lemma MultiplesApart(d: int, t: nat)
    ensures d >= 1 ==> d * t >= t
    ensures d <= -1 ==> d * t + t <= 0
  {
  }

  lemma DivModAre(k: nat, q: nat, r: nat, t: nat)
    requires t >= 1 && r < t && k == q * t + r
    ensures k / t == q && k % t == r
  {
    var d := k / t - q;
    assert k == k / t * t + k % t;
    assert d * t == k / t * t - q * t;
    MultiplesApart(d, t);
  }

  lemma DivModNext(k: nat, t: nat)
    requires t >= 1
    ensures k % t + 1 == t ==> (k + 1) % t == 0 && (k + 1) / t == k / t + 1
    ensures k % t + 1 != t ==> (k + 1) % t == k % t + 1 && (k + 1) / t == k / t
  {
    var q, r := k / t, k % t;
    assert k == q * t + r;
    if r + 1 == t {
      assert (q + 1) * t == q * t + t;
      DivModAre(k + 1, q + 1, 0, t);
    } else {
      DivModAre(k + 1, q, r + 1, t);
    }
  }

  /** What is left of a streak of `k` turns, and how many periods it holds; a threshold below 1 is never met. */
  function Rest(k: nat, t: int): nat {
    if t >= 1 then k % t else k
  }

  function Periods(k: nat, t: int): nat {
    if t >= 1 then k / t else 0
  }

  lemma RestNext(k: nat, t: int)
    ensures Rest(0, t) == 0 == Periods(0, t)
    ensures Rest(k, t) + 1 == t ==> Rest(k + 1, t) == 0 && Periods(k + 1, t) == Periods(k, t) + 1
    ensures Rest(k, t) + 1 != t ==> Rest(k + 1, t) == Rest(k, t) + 1 && Periods(k + 1, t) == Periods(k, t)
  {
    if t >= 1 {
      DivModNext(k, t);
      DivModAre(0, 0, 0, t);
    }
  }

  lemma {:induction false} NoToolIsStreak(limits: Limits, es: seq<Event>)
    ensures After(limits, es).noTool == Rest(NoToolStreak(es), limits.noToolSteer)
    ensures NoToolSteers(limits, es) == Periods(NoToolStreak(es), limits.noToolSteer)
  {
    if es == [] {
      RestNext(0, limits.noToolSteer);
    } else {
      var n := |es| - 1;
      NoToolIsStreak(limits, es[..n]);
      RestNext(NoToolStreak(es[..n]), limits.noToolSteer);
      hide Rest, Periods;
    }
  }

  lemma {:induction false} ReadOnlyIsStreak(limits: Limits, es: seq<Event>)
    ensures After(limits, es).readOnly == Rest(ReadOnlyStreak(es), limits.steer)
    ensures ReadOnlySteers(limits, es) == Periods(ReadOnlyStreak(es), limits.steer)
  {
    if es == [] {
      RestNext(0, limits.steer);
    } else {
      var n := |es| - 1;
      ReadOnlyIsStreak(limits, es[..n]);
      RestNext(ReadOnlyStreak(es[..n]), limits.steer);
      hide Rest, Periods;
    }
  }

  /**
    In every run each counter is its streak modulo its steer threshold, and the streak has produced
    exactly streak div threshold mandatory steers.
   */
  lemma CountersAreStreaks(limits: Limits, es: seq<Event>)
    ensures After(limits, es).noTool == Rest(NoToolStreak(es), limits.noToolSteer)
    ensures After(limits, es).readOnly == Rest(ReadOnlyStreak(es), limits.steer)
    ensures NoToolSteers(limits, es) == Periods(NoToolStreak(es), limits.noToolSteer)
    ensures ReadOnlySteers(limits, es) == Periods(ReadOnlyStreak(es), limits.steer)
  {
    hide *;
    NoToolIsStreak(limits, es);
    ReadOnlyIsStreak(limits, es);
  }

  /** The turn that ended was counted as read-only, or as one without tools. */
  predicate ReadsOnly(e: Event) {
    e.Ended? && e.turn.enabled && IsReadOnly(e.turn)
  }

  predicate TalksOnly(e: Event) {
    e.Ended? && e.turn.enabled && !e.turn.anyTool
  }

  lemma StreakNext(es: seq<Event>, i: nat)
    requires i < |es|
    ensures ReadsOnly(es[i]) ==> ReadOnlyStreak(es[..i + 1]) == ReadOnlyStreak(es[..i]) + 1
    ensures TalksOnly(es[i]) ==> NoToolStreak(es[..i + 1]) == NoToolStreak(es[..i]) + 1
  {
    assert es[..i + 1][..i] == es[..i];
  }

  /** The place of the last of `k` turns in the period of a steer, counted from 1. */
  function Place(k: nat, t: int): int {
    if k == 0 then 0 else Rest(k - 1, t) + 1
  }

  /** The last place is where the streak is a multiple of the threshold. */
  lemma LastPlace(k: nat, t: nat)
    requires k >= 1 && t >= 1
    ensures Place(k, t) == t <==> k % t == 0
  {
    RestNext(k - 1, t);
  }

  /** What one turn sends, by the counters before it. */
  lemma TurnSends(limits: Limits, c: Counters, t: Turn)
    ensures var sent := EndTurn(limits, c, t).1;
            && (ReadOnlyMandatory in sent <==> (ReadsOnly(Ended(t)) && c.readOnly + 1 == limits.steer))
            && (HypothesisReminder in sent <==> (ReadsOnly(Ended(t)) && c.readOnly + 1 == limits.hypothesis))
            && (NoToolMandatory in sent <==> (TalksOnly(Ended(t)) && !t.subagent && c.noTool + 1 == limits.noToolSteer))
            && (NoToolSubagentAbort in sent <==> (TalksOnly(Ended(t)) && t.subagent && c.noTool + 1 == limits.noToolSteer))
            && (NoToolWarning in sent <==> (TalksOnly(Ended(t)) && c.noTool + 1 == limits.noToolWarn != limits.noToolSteer))
  {
  }

  lemma SteersBefore(limits: Limits, es: seq<Event>, i: nat)
    requires i < |es|
    ensures var sent, c := SteersAt(limits, es, i), After(limits, es[..i]);
            && (ReadOnlyMandatory in sent <==> (ReadsOnly(es[i]) && c.readOnly + 1 == limits.steer))
            && (HypothesisReminder in sent <==> (ReadsOnly(es[i]) && c.readOnly + 1 == limits.hypothesis))
            && (Mandatory(limits, es, i) <==> (TalksOnly(es[i]) && c.noTool + 1 == limits.noToolSteer))
            && (NoToolWarning in sent <==> (TalksOnly(es[i]) && c.noTool + 1 == limits.noToolWarn != limits.noToolSteer))
            && (NoToolSubagentAbort in sent ==> es[i].Ended? && es[i].turn.subagent)
  {
    if es[i].Ended? {
      TurnSends(limits, After(limits, es[..i]), es[i].turn);
    }
    hide EndTurn, After, IsReadOnly;
  }

  /**
    In every run a steer is sent at the end of a turn exactly when that turn brings its streak to the
    steer's place in the period; and only a sub-agent is told that it will be aborted.
   */
  lemma SteersExactly(limits: Limits, es: seq<Event>, i: nat)
    requires i < |es|
    ensures var sent, readAt, talkAt := SteersAt(limits, es, i),
              Place(ReadOnlyStreak(es[..i + 1]), limits.steer), Place(NoToolStreak(es[..i + 1]), limits.noToolSteer);
            && (ReadOnlyMandatory in sent <==> (ReadsOnly(es[i]) && readAt == limits.steer))
            && (HypothesisReminder in sent <==> (ReadsOnly(es[i]) && readAt == limits.hypothesis))
            && (Mandatory(limits, es, i) <==> (TalksOnly(es[i]) && talkAt == limits.noToolSteer))
            && (NoToolWarning in sent <==> (TalksOnly(es[i]) && talkAt == limits.noToolWarn != limits.noToolSteer))
            && (NoToolSubagentAbort in sent ==> es[i].Ended? && es[i].turn.subagent)
  {
    CountersAreStreaks(limits, es[..i]);
    StreakNext(es, i);
    SteersBefore(limits, es, i);
    hide SteersAt, After, NoToolStreak, ReadOnlyStreak, Mandatory, Rest;
  }
}
