/**
  The bounded worker pool behind the parallel probe. Code between two awaits runs
  atomically, so an execution is a sequence of settlements: some in-flight thunk settles, and its
  worker stores the value and claims the next item in the same turn. A schedule lists the
  workers in the order their thunks settle.
 */
module WorkerPool {
  import opened Prelude

  /** What a thunk's promise settles to. */
  datatype Settled<T> = Resolved(value: T) | Rejected

  /** A worker awaits one item, has returned, or has thrown because its item was rejected. */
  datatype Worker = Awaiting(item: nat) | Finished | Failed(item: nat)

  /** `started` logs the thunks in the order they were called. */
  datatype Pool<T> = Pool(nextIndex: nat, workers: seq<Worker>, results: seq<Option<T>>, started: seq<nat>)

  function WorkerCount(n: nat, limit: int): nat {
    Max(1, Min(limit, n))
  }

  /** One pass through the top of a worker's loop: `i = nextIndex++`, then call thunk `i` or return. */
  function Claim<T>(p: Pool<T>, n: nat): (Pool<T>, Worker) {
    var i := p.nextIndex;
    if i >= n then (p.(nextIndex := i + 1), Finished)
    else (p.(nextIndex := i + 1, started := p.started + [i]), Awaiting(i))
  }

  /** The workers are created one after the other, each running up to its first await. */
  function Spawned<T>(n: nat, count: nat): Pool<T> {
    if count == 0 then Pool(0, [], seq(n, _ => None), [])
    else
      var (p, worker) := Claim(Spawned<T>(n, count - 1), n);
      p.(workers := p.workers + [worker])
  }

  predicate Enabled<T>(p: Pool<T>, w: nat) {
    w < |p.workers| && p.workers[w].Awaiting?
  }

  /** The thunk worker `w` awaits settles. */
  function Settle<T>(items: seq<Settled<T>>, p: Pool<T>, w: nat): Pool<T>
    requires Enabled(p, w) && p.workers[w].item < |items| && |p.results| == |items|
  {
    var i := p.workers[w].item;
    if items[i].Rejected? then p.(workers := p.workers[w := Failed(i)])
    else
      var (p', worker) := Claim(p.(results := p.results[i := Some(items[i].value)]), |items|);
      p'.(workers := p'.workers[w := worker])
  }

  // ----- the invariant

  predicate Holds(worker: Worker, i: nat) {
    worker == Awaiting(i) || worker == Failed(i)
  }

  function Claimed<T>(p: Pool<T>): nat {
    |p.started|
  }

  ghost predicate Valid<T>(items: seq<Settled<T>>, limit: int, p: Pool<T>) {
    var n := |items|;
    && |p.workers| == WorkerCount(n, limit)
    && Consistent(items, p)
  }

  ghost predicate Consistent<T>(items: seq<Settled<T>>, p: Pool<T>) {
    && |p.results| == |items|
    && ClaimsInOrder(items, p)
    && HoldsOpenItems(items, p)
    && ResultsAreRight(items, p)
  }

  /** Items are claimed in order, each once, and no worker finishes while unclaimed ones remain. */
  ghost predicate ClaimsInOrder<T>(items: seq<Settled<T>>, p: Pool<T>) {
    && |p.started| == Min(p.nextIndex, |items|)
    && (forall i :: 0 <= i < |p.started| ==> p.started[i] == i)
    && (forall w :: 0 <= w < |p.workers| && p.workers[w].Finished? ==> Claimed(p) == |items|)
  }

  /** A worker holds a claimed item without a result, no two hold the same, and only a rejection stops one. */
  ghost predicate HoldsOpenItems<T>(items: seq<Settled<T>>, p: Pool<T>)
    requires |p.results| == |items|
  {
    && (forall w :: 0 <= w < |p.workers| && !p.workers[w].Finished? ==>
          && p.workers[w].item < Claimed(p)
          && p.workers[w].item < |items|
          && p.results[p.workers[w].item].None?
          && (p.workers[w].Failed? ==> items[p.workers[w].item].Rejected?))
    && (forall w, w' :: 0 <= w < w' < |p.workers| && !p.workers[w].Finished? && !p.workers[w'].Finished? ==>
          p.workers[w].item != p.workers[w'].item)
  }

  /** A claimed item has its own value or is held; an unclaimed one has no value. */
  ghost predicate ResultsAreRight<T>(items: seq<Settled<T>>, p: Pool<T>)
    requires |p.results| == |items|
  {
    && (forall i :: 0 <= i < |items| && p.results[i].None? && i < Claimed(p) ==> Held(p.workers, i))
    && (forall i :: 0 <= i < |items| && p.results[i].Some? ==> i < Claimed(p) && items[i] == Resolved(p.results[i].value))
  }

  predicate Held(workers: seq<Worker>, i: nat) {
    exists w :: 0 <= w < |workers| && Holds(workers[w], i)
  }

  lemma {:induction false} SpawnedClaims<T>(n: nat, count: nat)
    requires count <= n
    ensures var p := Spawned<T>(n, count);
            && p.nextIndex == count && p.results == seq(n, _ => None)
            && |p.workers| == |p.started| == count
            && forall w :: 0 <= w < count ==> p.workers[w] == Awaiting(w) && p.started[w] == w
  {
    if count > 0 {
      SpawnedClaims<T>(n, count - 1);
    }
  }

  /** Nothing has settled yet and worker `w` holds item `w`. */
  ghost predicate AllAwait<T>(items: seq<Settled<T>>, p: Pool<T>) {
    && p.nextIndex == |p.workers| == |p.started| <= |items|
    && |p.results| == |items|
    && (forall i :: 0 <= i < |items| ==> p.results[i].None?)
    && forall w :: 0 <= w < |p.workers| ==> p.workers[w] == Awaiting(w) && p.started[w] == w
  }

  lemma AwaitingIsConsistent<T>(items: seq<Settled<T>>, p: Pool<T>)
    requires AllAwait(items, p)
    ensures Consistent(items, p)
  {
    forall i | 0 <= i < Claimed(p)
      ensures Held(p.workers, i)
    {
      assert Holds(p.workers[i], i);
    }
  }

  lemma SpawnedIsValid<T>(items: seq<Settled<T>>, limit: int)
    requires items != []
    ensures Valid(items, limit, Spawned(|items|, WorkerCount(|items|, limit)))
  {
    SpawnedClaims<T>(|items|, WorkerCount(|items|, limit));
    hide Spawned, Consistent;
    AwaitingIsConsistent(items, Spawned<T>(|items|, WorkerCount(|items|, limit)));
  }

  lemma HeldOfUpdate(workers: seq<Worker>, w: nat, worker: Worker, j: nat)
    requires w < |workers|
    ensures Holds(worker, j) || (Held(workers, j) && !Holds(workers[w], j)) ==> Held(workers[w := worker], j)
  {
    if Holds(worker, j) {
      assert Holds(workers[w := worker][w], j);
    } else if Held(workers, j) && !Holds(workers[w], j) {
      var v :| 0 <= v < |workers| && Holds(workers[v], j);
      assert Holds(workers[w := worker][v], j);
    }
  }

  lemma RejectKeepsConsistent<T>(items: seq<Settled<T>>, p: Pool<T>, w: nat)
    requires Consistent(items, p) && Enabled(p, w) && items[p.workers[w].item].Rejected?
    ensures Consistent(items, Settle(items, p, w))
  {
    var i := p.workers[w].item;
    forall j | 0 <= j < |items| && p.results[j].None? && j < Claimed(p)
      ensures Held(p.workers[w := Failed(i)], j)
    {
      HeldOfUpdate(p.workers, w, Failed(i), j);
    }
  }

  lemma ResolveKeepsConsistent<T>(items: seq<Settled<T>>, p: Pool<T>, w: nat)
    requires Consistent(items, p) && Enabled(p, w) && items[p.workers[w].item].Resolved?
    ensures Consistent(items, Settle(items, p, w))
  {
    var i, q := p.workers[w].item, Settle(items, p, w);
    assert q.workers == p.workers[w := q.workers[w]];
    assert HoldsOpenItems(items, q) by {
      hide Held;
    }
    forall j | 0 <= j < |items| && q.results[j].None? && j < Claimed(q)
      ensures Held(q.workers, j)
    {
      HeldOfUpdate(p.workers, w, q.workers[w], j);
    }
  }

  /** Every settlement keeps the pool consistent. */
  lemma SettleKeepsValid<T>(items: seq<Settled<T>>, limit: int, p: Pool<T>, w: nat)
    requires Valid(items, limit, p) && Enabled(p, w)
    ensures Valid(items, limit, Settle(items, p, w))
  {
    if items[p.workers[w].item].Rejected? {
      RejectKeepsConsistent(items, p, w);
    } else {
      ResolveKeepsConsistent(items, p, w);
    }
  }

  // ----- whole runs

  predicate CanSettle<T>(items: seq<Settled<T>>, p: Pool<T>, w: nat) {
    Enabled(p, w) && p.workers[w].item < |items| && |p.results| == |items|
  }

  /** The pool after the settlements of a schedule. */
  function After<T>(items: seq<Settled<T>>, limit: int, schedule: seq<nat>): Pool<T> {
    if schedule == [] then Spawned(|items|, WorkerCount(|items|, limit))
    else
      var before, w := After(items, limit, schedule[..|schedule| - 1]), schedule[|schedule| - 1];
      if CanSettle(items, before, w) then Settle(items, before, w) else before
  }

  /** Every entry of the schedule names a worker that is in flight at that point. */
  ghost predicate IsRun<T>(items: seq<Settled<T>>, limit: int, schedule: seq<nat>) {
    && items != []
    && forall k :: 0 <= k < |schedule| ==> Enabled(After(items, limit, schedule[..k]), schedule[k])
  }

  lemma {:induction false} RunsStayValid<T>(items: seq<Settled<T>>, limit: int, schedule: seq<nat>)
    requires IsRun(items, limit, schedule)
    ensures Valid(items, limit, After(items, limit, schedule))
    decreases |schedule|
  {
    if schedule == [] {
      SpawnedIsValid(items, limit);
    } else {
      var n := |schedule| - 1;
      ShorterRun(items, limit, schedule);
      RunsStayValid(items, limit, schedule[..n]);
      SettleKeepsValid(items, limit, After(items, limit, schedule[..n]), schedule[n]);
    }
  }

  lemma ShorterRun<T>(items: seq<Settled<T>>, limit: int, schedule: seq<nat>)
    requires IsRun(items, limit, schedule) && schedule != []
    ensures IsRun(items, limit, schedule[..|schedule| - 1])
    ensures Enabled(After(items, limit, schedule[..|schedule| - 1]), schedule[|schedule| - 1])
  {
    var shorter := schedule[..|schedule| - 1];
    forall k | 0 <= k < |shorter|
      ensures Enabled(After(items, limit, shorter[..k]), shorter[k])
    {
      assert shorter[..k] == schedule[..k];
    }
  }

  function InFlight(workers: seq<Worker>): nat {
    if workers == [] then 0 else InFlight(workers[1..]) + if workers[0].Awaiting? then 1 else 0
  }

  lemma {:induction false} InFlightOfUpdate(workers: seq<Worker>, w: nat, worker: Worker)
    requires w < |workers|
    ensures InFlight(workers[w := worker])
         == InFlight(workers) - (if workers[w].Awaiting? then 1 else 0) + (if worker.Awaiting? then 1 else 0)
  {
    if w > 0 {
      InFlightOfUpdate(workers[1..], w - 1, worker);
      assert workers[w := worker][1..] == workers[1..][w - 1 := worker];
    } else {
      assert workers[w := worker][1..] == workers[1..];
    }
  }

  lemma {:induction false} InFlightOfAll(workers: seq<Worker>)
    requires forall w :: 0 <= w < |workers| ==> workers[w].Awaiting?
    ensures InFlight(workers) == |workers|
  {
    if workers != [] {
      InFlightOfAll(workers[1..]);
    }
  }

  lemma {:induction false} InFlightBounds(workers: seq<Worker>)
    ensures InFlight(workers) <= |workers|
    ensures InFlight(workers) == 0 <==> forall w :: 0 <= w < |workers| ==> !workers[w].Awaiting?
  {
    if workers != [] {
      InFlightBounds(workers[1..]);
      assert forall w :: 0 <= w < |workers[1..]| ==> workers[1..][w] == workers[w + 1];
      assert forall w :: 1 <= w < |workers| ==> workers[w] == workers[1..][w - 1];
    }
  }

  lemma SettleCounts<T>(items: seq<Settled<T>>, p: Pool<T>, w: nat)
    requires Consistent(items, p) && Enabled(p, w)
    ensures var q := Settle(items, p, w);
            Claimed(q) - InFlight(q.workers) == Claimed(p) - InFlight(p.workers) + 1
  {
    var q := Settle(items, p, w);
    assert q.workers == p.workers[w := q.workers[w]];
    InFlightOfUpdate(p.workers, w, q.workers[w]);
  }

  /** Every settlement settles one more item: claimed minus in-flight counts the run's steps. */
  lemma {:induction false} StepsCountSettledItems<T>(items: seq<Settled<T>>, limit: int, schedule: seq<nat>)
    requires IsRun(items, limit, schedule)
    ensures var p := After(items, limit, schedule);
            Claimed(p) - InFlight(p.workers) == |schedule|
    decreases |schedule|
  {
    if schedule == [] {
      var count := WorkerCount(|items|, limit);
      SpawnedClaims<T>(|items|, count);
      InFlightOfAll(Spawned<T>(|items|, count).workers);
    } else {
      var n := |schedule| - 1;
      ShorterRun(items, limit, schedule);
      StepsCountSettledItems(items, limit, schedule[..n]);
      RunsStayValid(items, limit, schedule[..n]);
      SettleCounts(items, After(items, limit, schedule[..n]), schedule[n]);
    }
  }

  /**
    Safety in every reachable state: thunks start in order and at most once, no more than the limit
    are in flight, no worker finishes while unclaimed items remain, and a run settles no more often
    than there are items, so it terminates.
   */
  lemma RunsAreSafe<T>(items: seq<Settled<T>>, limit: int, schedule: seq<nat>)
    requires IsRun(items, limit, schedule)
    ensures var p := After(items, limit, schedule);
            && |p.started| <= |items|
            && (forall i :: 0 <= i < |p.started| ==> p.started[i] == i)
            && InFlight(p.workers) <= Max(1, Min(limit, |items|))
            && (forall w :: 0 <= w < |p.workers| && p.workers[w].Finished? ==> |p.started| == |items|)
    ensures |schedule| <= |items|
  {
    var p := After(items, limit, schedule);
    RunsStayValid(items, limit, schedule);
    StepsCountSettledItems(items, limit, schedule);
    InFlightBounds(p.workers);
  }

  predicate AllResolved<T>(items: seq<Settled<T>>) {
    forall i :: 0 <= i < |items| ==> items[i].Resolved?
  }

  predicate AtRest<T>(p: Pool<T>) {
    forall w :: 0 <= w < |p.workers| ==> !p.workers[w].Awaiting?
  }

  /** The results array is complete: every thunk started, and result `i` is the value of thunk `i`. */
  ghost predicate Complete<T>(items: seq<Settled<T>>, p: Pool<T>)
    requires AllResolved(items)
  {
    && |p.started| == |p.results| == |items|
    && (forall w :: 0 <= w < |p.workers| ==> p.workers[w].Finished?)
    && forall i :: 0 <= i < |items| ==> p.results[i] == Some(items[i].value)
  }

  lemma RestingIsComplete<T>(items: seq<Settled<T>>, limit: int, p: Pool<T>)
    requires Valid(items, limit, p) && AllResolved(items) && AtRest(p)
    ensures Complete(items, p)
  {
    assert p.workers[0].Finished?;
    forall i | 0 <= i < |items|
      ensures p.results[i] == Some(items[i].value)
    {
      assert !Held(p.workers, i);
    }
  }

  /**
    When every thunk succeeds the pool neither stops early nor runs on: it is at rest exactly after
    as many settlements as items, and then the results are complete and in input order.
   */
  lemma RunsComplete<T>(items: seq<Settled<T>>, limit: int, schedule: seq<nat>)
    requires IsRun(items, limit, schedule) && AllResolved(items)
    ensures var p := After(items, limit, schedule);
            (AtRest(p) <==> |schedule| == |items|) && (AtRest(p) ==> Complete(items, p))
  {
    var p := After(items, limit, schedule);
    RunsStayValid(items, limit, schedule);
    StepsCountSettledItems(items, limit, schedule);
    InFlightBounds(p.workers);
    if AtRest(p) {
      RestingIsComplete(items, limit, p);
    }
  }

  /**
    The pool is never less busy than it may be: when every thunk succeeds, as many are in flight as the limit allows, or
    all that have not settled yet. A limit below 1 counts as 1.
   */
  lemma RunsAreBusy<T>(items: seq<Settled<T>>, limit: int, schedule: seq<nat>)
    requires IsRun(items, limit, schedule) && AllResolved(items)
    ensures InFlight(After(items, limit, schedule).workers)
         == Min(if limit < 1 then 1 else limit, |items| - |schedule|)
  {
    var p := After(items, limit, schedule);
    RunsStayValid(items, limit, schedule);
    StepsCountSettledItems(items, limit, schedule);
    InFlightBounds(p.workers);
    BusyWhileUnclaimed(items, limit, p);
    hide After, InFlight, IsRun, Valid;
  }

  lemma BusyWhileUnclaimed<T>(items: seq<Settled<T>>, limit: int, p: Pool<T>)
    requires Valid(items, limit, p) && AllResolved(items)
    ensures |p.workers| == Max(1, Min(limit, |items|)) && Claimed(p) <= |items|
    ensures Claimed(p) < |items| ==> InFlight(p.workers) == |p.workers|
  {
    hide ResultsAreRight, InFlight;
    if Claimed(p) < |items| {
      forall w | 0 <= w < |p.workers|
        ensures p.workers[w].Awaiting?
      {
        assert !p.workers[w].Finished?;
      }
      InFlightOfAll(p.workers);
    }
  }

  lemma RunExtends<T>(items: seq<Settled<T>>, limit: int, schedule: seq<nat>, w: nat)
    requires IsRun(items, limit, schedule) && Enabled(After(items, limit, schedule), w)
    ensures IsRun(items, limit, schedule + [w])
  {
    var longer := schedule + [w];
    forall k | 0 <= k < |longer|
      ensures Enabled(After(items, limit, longer[..k]), longer[k])
    {
      assert longer[..k] == schedule[..k];
      assert schedule[..|schedule|] == schedule;
    }
  }

  /** Every run goes on until the pool is at rest, so no run is stuck and none goes on for ever. */
  lemma {:induction false} RunGoesOn<T>(items: seq<Settled<T>>, limit: int, schedule: seq<nat>) returns (full: seq<nat>)
    requires IsRun(items, limit, schedule)
    ensures schedule <= full && IsRun(items, limit, full) && AtRest(After(items, limit, full))
    decreases |items| - |schedule|
  {
    RunsAreSafe(items, limit, schedule);
    full := schedule;
    var p := After(items, limit, schedule);
    if !AtRest(p) {
      var w :| 0 <= w < |p.workers| && p.workers[w].Awaiting?;
      RunExtends(items, limit, schedule, w);
      RunsAreSafe(items, limit, schedule + [w]);
      full := RunGoesOn(items, limit, schedule + [w]);
    }
  }

  // ----- the pool as it runs: a shared index and a results array filled in place

  class ConcurrentMap<T> {
    const items: seq<Settled<T>>
    const results: array<Option<T>>
    var nextIndex: nat
    var workers: seq<Worker>
    ghost var started: seq<nat>

    ghost function State(): Pool<T>
      reads this, results
    {
      Pool(nextIndex, workers, results[..], started)
    }

    constructor (items: seq<Settled<T>>, limit: int)
      ensures this.items == items && fresh(results)
      ensures State() == Spawned(|items|, WorkerCount(|items|, limit))
    {
      this.items := items;
      results := new Option<T>[|items|](_ => None);
      nextIndex, workers, started := 0, [], [];
      new;
      assert results[..] == seq(|items|, _ => None);
      for count := 0 to WorkerCount(|items|, limit)
        invariant State() == Spawned(|items|, count)
      {
        var worker := NextItem();
        workers := workers + [worker];
      }
    }

    /** `const i = nextIndex++; if (i >= items.length) return;` and the call of thunk `i`. */
    method NextItem() returns (worker: Worker)
      modifies this`nextIndex, this`started
      ensures (State(), worker) == Claim(old(State()), |items|)
    {
      var i := nextIndex;
      nextIndex := nextIndex + 1;
      if i >= |items| {
        return Finished;
      }
      started := started + [i];
      return Awaiting(i);
    }

    /** The continuation of worker `w` after its await. */
    method Continue(w: nat)
      requires CanSettle(items, State(), w)
      modifies this`nextIndex, this`started, this`workers, results
      ensures State() == Settle(items, old(State()), w)
    {
      var i := workers[w].item;
      if items[i].Rejected? {
        workers := workers[w := Failed(i)];
        return;
      }
      results[i] := Some(items[i].value);
      assert results[..] == old(results[..])[i := Some(items[i].value)];
      var worker := NextItem();
      workers := workers[w := worker];
    }
  }
}
