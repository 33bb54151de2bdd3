/** The cache of highlighted blocks: a map in insertion order, re-inserted on every touch. */
module HighlightCache {
  import opened Prelude

  const CACHE_LIMIT := 48

  type Entries<V> = seq<(string, V)>

  function Index<V>(es: Entries<V>, key: string): (r: int)
    ensures -1 <= r < |es|
    ensures r >= 0 ==> es[r].0 == key
    ensures forall i :: 0 <= i < (if r < 0 then |es| else r) ==> es[i].0 != key
  {
    if es == [] then -1
    else if es[0].0 == key then 0
    else
      var r := Index(es[1..], key);
      if r < 0 then -1 else r + 1
  }

  /** `map.delete(key)` */
  function Without<V>(es: Entries<V>, key: string): Entries<V> {
    var i := Index(es, key);
    if i < 0 then es else es[..i] + es[i + 1..]
  }

  /** `map.get(key)` */
  function Find<V>(es: Entries<V>, key: string): Option<V> {
    var i := Index(es, key);
    if i < 0 then None else Some(es[i].1)
  }

  /** What a fetch answers: the held value, or the freshly rendered one. */
  function Answer<V>(es: Entries<V>, key: string, rendered: V): V {
    var hit := Find(es, key);
    if hit.Some? then hit.value else rendered
  }

  function Newest<V>(es: Entries<V>): Entries<V> {
    if |es| > CACHE_LIMIT then es[|es| - CACHE_LIMIT..] else es
  }

  function Touched<V>(es: Entries<V>, key: string, value: V): Entries<V> {
    Newest(Without(es, key) + [(key, value)])
  }

  class Cache<V> {
    var entries: Entries<V>

    constructor ()
      ensures entries == []
    {
      entries := [];
    }

    method Clear()
      modifies this
      ensures entries == []
    {
      entries := [];
    }

    method Touch(key: string, value: V) returns (r: V)
      modifies this
      ensures r == value && entries == Touched(old(entries), key, value)
    {
      entries := Without(entries, key);
      entries := entries + [(key, value)];
      while |entries| > CACHE_LIMIT
        invariant Newest(entries) == Touched(old(entries), key, value)
      {
        entries := entries[1..];
      }
      return value;
    }

    /** A hit is touched with the value it has; a miss stores the freshly rendered one. */
    method Fetch(key: string, rendered: V) returns (r: V)
      modifies this
      ensures r == Answer(old(entries), key, rendered)
      ensures entries == Touched(old(entries), key, r)
    {
      var hit := Find(entries, key);
      if hit.Some? {
        r := Touch(key, hit.value);
      } else {
        r := Touch(key, rendered);
      }
    }
  }

  // ----- over every run of touches and clears

  datatype Op<V> = Touch(key: string, value: V) | Clear

  function After<V>(ops: seq<Op<V>>): Entries<V> {
    if ops == [] then []
    else
      match ops[|ops| - 1]
      case Clear => []
      case Touch(key, value) => Touched(After(ops[..|ops| - 1]), key, value)
  }

  /** When `key` was last touched since the last clear, or -1. */
  function LastTouch<V>(ops: seq<Op<V>>, key: string): (r: int)
    ensures -1 <= r < |ops|
    ensures r >= 0 ==> ops[r].Touch? && ops[r].key == key
  {
    if ops == [] || ops[|ops| - 1].Clear? then -1
    else if ops[|ops| - 1].key == key then |ops| - 1
    else LastTouch(ops[..|ops| - 1], key)
  }

  /** The entries in order of last touch, each with its last value. */
  ghost predicate InTouchOrder<V>(ops: seq<Op<V>>, es: Entries<V>) {
    && (forall i :: 0 <= i < |es| ==>
          var t := LastTouch(ops, es[i].0);
          t >= 0 && ops[t].value == es[i].1)
    && forall i, j :: 0 <= i < j < |es| ==> LastTouch(ops, es[i].0) < LastTouch(ops, es[j].0)
  }

  predicate Holds<V>(es: Entries<V>, key: string) {
    exists i :: 0 <= i < |es| && es[i].0 == key
  }

  /** Whatever is missing was touched before everything held, and the cache is full. */
  ghost predicate HoldsNewest<V>(ops: seq<Op<V>>, es: Entries<V>) {
    forall key :: LastTouch(ops, key) >= 0 && !Holds(es, key) ==>
      |es| == 48 && LastTouch(ops, key) < LastTouch(ops, es[0].0)
  }

  predicate DistinctKeys<V>(es: Entries<V>) {
    forall i, j :: 0 <= i < j < |es| ==> es[i].0 != es[j].0
  }

  lemma TouchOrderIsDistinct<V>(ops: seq<Op<V>>, es: Entries<V>)
    requires InTouchOrder(ops, es)
    ensures DistinctKeys(es)
  {
    hide LastTouch;
  }

  /** Where an entry that deleting leaves came from. */
  function Origin(at: int, i: nat): nat {
    if at < 0 || i < at then i else i + 1
  }

  /** What deleting leaves, by position. */
  lemma WithoutByPosition<V>(es: Entries<V>, key: string)
    requires DistinctKeys(es)
    ensures var at, rest := Index(es, key), Without(es, key);
            && |rest| == (if at < 0 then |es| else |es| - 1)
            && forall i :: 0 <= i < |rest| ==> Origin(at, i) < |es| && rest[i] == es[Origin(at, i)] && rest[i].0 != key
  {
    var at, rest := Index(es, key), Without(es, key);
    forall i | 0 <= i < |rest|
      ensures Origin(at, i) < |es| && rest[i] == es[Origin(at, i)] && rest[i].0 != key
    {
      if at >= 0 {
        assert es[at].0 == key;
      }
    }
  }

  lemma LastTouchOfNext<V>(ops: seq<Op<V>>, key: string, value: V, other: string)
    ensures LastTouch(ops + [Touch(key, value)], other) == if other == key then |ops| else LastTouch(ops, other)
  {
    assert (ops + [Touch(key, value)])[..|ops|] == ops;
  }

  /** Deleting and re-inserting `key` puts it last and keeps the order of the others. */
  lemma ReinsertKeepsOrder<V>(ops: seq<Op<V>>, es: Entries<V>, key: string, value: V)
    requires InTouchOrder(ops, es)
    ensures InTouchOrder(ops + [Touch(key, value)], Without(es, key) + [(key, value)])
  {
    hide LastTouch, Without, Index, DistinctKeys;
    TouchOrderIsDistinct(ops, es);
    WithoutByPosition(es, key);
    var rest := Without(es, key);
    forall i | 0 <= i < |rest|
      ensures LastTouch(ops + [Touch(key, value)], rest[i].0) == LastTouch(ops, rest[i].0)
    {
      LastTouchOfNext(ops, key, value, rest[i].0);
    }
    LastTouchOfNext(ops, key, value, key);
  }

  lemma DropOldestKeepsOrder<V>(ops: seq<Op<V>>, es: Entries<V>)
    requires InTouchOrder(ops, es)
    ensures InTouchOrder(ops, Newest(es))
  {
  }

  lemma {:induction false} NewestAreHeld<V>(ops: seq<Op<V>>, es: Entries<V>, key: string, value: V)
    requires InTouchOrder(ops, es) && HoldsNewest(ops, es) && |es| <= CACHE_LIMIT
    ensures HoldsNewest(ops + [Touch(key, value)], Touched(es, key, value))
  {
    var ops', all, kept := ops + [Touch(key, value)], Without(es, key) + [(key, value)], Touched(es, key, value);
    assert ops'[..|ops|] == ops;
    ReinsertKeepsOrder(ops, es, key, value);
    forall k | LastTouch(ops', k) >= 0 && !Holds(kept, k)
      ensures |kept| == CACHE_LIMIT && LastTouch(ops', k) < LastTouch(ops', kept[0].0)
    {
      assert kept[|kept| - 1] == (key, value);
      assert k != key;
      MissingIsOlder(ops, es, key, value, k);
    }
  }

  /** The first entry kept is the new one, or an old one no older than the oldest. */
  lemma FirstKept<V>(ops: seq<Op<V>>, es: Entries<V>, key: string, value: V)
    requires InTouchOrder(ops, es) && |es| == CACHE_LIMIT
    ensures var kept := Touched(es, key, value);
            && |kept| == CACHE_LIMIT
            && LastTouch(ops, es[0].0) <= LastTouch(ops + [Touch(key, value)], kept[0].0)
            && (Index(es, key) < 0 ==> LastTouch(ops, es[0].0) < LastTouch(ops + [Touch(key, value)], kept[0].0))
  {
    var at, rest, kept := Index(es, key), Without(es, key), Touched(es, key, value);
    hide LastTouch, Without, Index, DistinctKeys;
    TouchOrderIsDistinct(ops, es);
    WithoutByPosition(es, key);
    LastTouchOfNext(ops, key, value, kept[0].0);
    if at < 0 {
      assert kept[0] == rest[1] == es[1];
    } else {
      assert kept[0] == rest[0] == es[Origin(at, 0)];
    }
  }

  /** A key held before is still held, or it was the oldest of a full cache and `key` was new. */
  lemma DroppedWasOldest<V>(ops: seq<Op<V>>, es: Entries<V>, key: string, value: V, k: string)
    requires InTouchOrder(ops, es) && |es| <= CACHE_LIMIT
    requires k != key && Holds(es, k)
    ensures Holds(Touched(es, key, value), k) || (|es| == CACHE_LIMIT && es[0].0 == k && Index(es, key) < 0)
  {
    var at, all, kept := Index(es, key), Without(es, key) + [(key, value)], Touched(es, key, value);
    hide LastTouch, Without, Index, DistinctKeys;
    TouchOrderIsDistinct(ops, es);
    WithoutByPosition(es, key);
    var i :| 0 <= i < |es| && es[i].0 == k;
    var j := if at < 0 || i < at then i else i - 1;
    assert all[j] == es[i];
    if |all| <= CACHE_LIMIT {
      assert kept[j].0 == k;
    } else if j > 0 {
      assert kept[j - 1].0 == k;
    }
  }

  lemma MissingIsOlder<V>(ops: seq<Op<V>>, es: Entries<V>, key: string, value: V, k: string)
    requires InTouchOrder(ops, es) && HoldsNewest(ops, es) && |es| <= CACHE_LIMIT
    requires k != key && LastTouch(ops, k) >= 0 && !Holds(Touched(es, key, value), k)
    ensures var kept := Touched(es, key, value);
            |kept| == CACHE_LIMIT && LastTouch(ops, k) < LastTouch(ops + [Touch(key, value)], kept[0].0)
  {
    if Holds(es, k) {
      DroppedWasOldest(ops, es, key, value, k);
    }
    hide Touched, LastTouch, InTouchOrder, Index;
    FirstKept(ops, es, key, value);
  }

  /**
    After every run the cache holds exactly the keys touched last since the last clear, at most 48 of
    them, in order of last touch and each with its last value.
   */
  lemma {:induction false} HoldsMostRecentlyTouched<V>(ops: seq<Op<V>>)
    ensures var es := After(ops);
            |es| <= 48 && InTouchOrder(ops, es) && HoldsNewest(ops, es)
  {
    if ops != [] {
      var n := |ops| - 1;
      HoldsMostRecentlyTouched(ops[..n]);
      if ops[n].Touch? {
        var es := After(ops[..n]);
        assert ops == ops[..n] + [Touch(ops[n].key, ops[n].value)];
        ReinsertKeepsOrder(ops[..n], es, ops[n].key, ops[n].value);
        DropOldestKeepsOrder(ops, Without(es, ops[n].key) + [(ops[n].key, ops[n].value)]);
        NewestAreHeld(ops[..n], es, ops[n].key, ops[n].value);
      }
    }
  }

  // ----- over every run of stores, fetches and clears

  lemma FindOfEntry<V>(es: Entries<V>, i: nat)
    requires DistinctKeys(es) && i < |es|
    ensures Find(es, es[i].0) == Some(es[i].1)
  {
  }

  lemma FindOfMissing<V>(es: Entries<V>, key: string)
    ensures Find(es, key).None? <==> !Holds(es, key)
  {
    if Index(es, key) >= 0 {
      assert es[Index(es, key)].0 == key;
    }
  }

  /** After every run a key that is held has the value it was last touched with, and no other key has any. */
  lemma FindIsLastTouched<V>(ops: seq<Op<V>>, key: string)
    ensures var hit := Find(After(ops), key);
            && (hit.Some? <==> Holds(After(ops), key))
            && (hit.Some? ==> LastTouch(ops, key) >= 0 && hit.value == ops[LastTouch(ops, key)].value)
  {
    var es := After(ops);
    HoldsMostRecentlyTouched(ops);
    TouchOrderIsDistinct(ops, es);
    FindOfMissing(es, key);
    hide LastTouch, Find, DistinctKeys, HoldsNewest;
    if Holds(es, key) {
      var i :| 0 <= i < |es| && es[i].0 == key;
      FindOfEntry(es, i);
    }
  }

  /** What a caller does: store a value, fetch one with a rendering at hand, or empty the cache. */
  datatype Call<V> = Store(key: string, given: V) | Fetch(key: string, given: V) | Empty

  /** The touches and clears that the calls come to. */
  function Served<V>(calls: seq<Call<V>>): (ops: seq<Op<V>>)
    ensures |ops| == |calls|
  {
    if calls == [] then []
    else
      var ops, call := Served(calls[..|calls| - 1]), calls[|calls| - 1];
      match call
      case Store(key, value) => ops + [Touch(key, value)]
      case Fetch(key, rendered) => ops + [Touch(key, Answer(After(ops), key, rendered))]
      case Empty => ops + [Clear]
  }

  function Held<V>(calls: seq<Call<V>>): Entries<V> {
    After(Served(calls))
  }

  /** The call put its own value into the cache: a store, or a fetch that missed. */
  predicate Stores<V>(calls: seq<Call<V>>, i: nat)
    requires i < |calls|
  {
    calls[i].Store? || (calls[i].Fetch? && !Holds(Held(calls[..i]), calls[i].key))
  }

  /** The latest call that put a value for the key, with no clear since. */
  predicate IsLastStore<V>(calls: seq<Call<V>>, i: nat, key: string)
    requires i < |calls|
  {
    && Stores(calls, i) && calls[i].key == key
    && forall k :: i < k < |calls| ==> !calls[k].Empty? && (Stores(calls, k) ==> calls[k].key != key)
  }

  ghost predicate LastGave<V>(calls: seq<Call<V>>, i: nat, key: string, value: V)
    requires i < |calls|
  {
    IsLastStore(calls, i, key) && calls[i].given == value
  }

  lemma StoresOfPrefix<V>(calls: seq<Call<V>>, n: nat, i: nat)
    requires i < n <= |calls|
    ensures Stores(calls[..n], i) == Stores(calls, i)
  {
    assert calls[..n][..i] == calls[..i];
  }

  lemma LastStoreStays<V>(calls: seq<Call<V>>, i: nat, key: string)
    requires i < |calls| - 1 && IsLastStore(calls[..|calls| - 1], i, key)
    requires var n := |calls| - 1; !calls[n].Empty? && (Stores(calls, n) ==> calls[n].key != key)
    ensures IsLastStore(calls, i, key)
  {
    hide Stores;
    var n := |calls| - 1;
    StoresOfPrefix(calls, n, i);
    forall k | i < k < |calls|
      ensures !calls[k].Empty? && (Stores(calls, k) ==> calls[k].key != key)
    {
      if k < n {
        StoresOfPrefix(calls, n, k);
        assert calls[..n][k] == calls[k];
      }
    }
  }

  lemma HeldBefore<V>(es: Entries<V>, key: string, value: V, other: string)
    requires DistinctKeys(es) && other != key && Holds(Touched(es, key, value), other)
    ensures Holds(es, other)
  {
    hide Without, Index, DistinctKeys;
    WithoutByPosition(es, key);
    var rest, kept := Without(es, key), Touched(es, key, value);
    var i :| 0 <= i < |kept| && kept[i].0 == other;
    var j := i + |rest| + 1 - |kept|;
    assert kept[i] == (rest + [(key, value)])[j];
    assert rest[j] == es[Origin(Index(es, key), j)];
  }

  /** A touch answers for its own key; what other held keys answer stays. */
  lemma FindAfterTouch<V>(ops: seq<Op<V>>, key: string, value: V, other: string)
    ensures var es, es' := After(ops), After(ops + [Touch(key, value)]);
            && (other == key && Holds(es', key) ==> Find(es', key) == Some(value))
            && (other != key && Holds(es', other) ==> Holds(es, other) && Find(es', other) == Find(es, other))
  {
    var ops' := ops + [Touch(key, value)];
    assert ops'[..|ops|] == ops;
    HoldsMostRecentlyTouched(ops);
    TouchOrderIsDistinct(ops, After(ops));
    FindIsLastTouched(ops, other);
    FindIsLastTouched(ops', other);
    LastTouchOfNext(ops, key, value, other);
    if other != key && Holds(After(ops'), other) {
      HeldBefore(After(ops), key, value, other);
    }
    hide LastTouch, Find, Touched, InTouchOrder, HoldsNewest, DistinctKeys;
  }

  /** Over every run, a held key answers with the value that the latest call which put one has given. */
  lemma {:induction false} HeldIsLastStored<V>(calls: seq<Call<V>>, key: string)
    requires Holds(Held(calls), key)
    ensures Find(Held(calls), key).Some?
    ensures exists i :: 0 <= i < |calls| && LastGave(calls, i, key, Find(Held(calls), key).value)
    decreases |calls|
  {
    hide After, Find, Answer, Holds, IsLastStore;
    NothingHeld<V>(key);
    assert calls != [];
    var n := |calls| - 1;
    var before, call := calls[..n], calls[n];
    HeldAfter(calls);
    if call.Empty? {
      assert false;
    } else {
      var value := if call.Store? then call.given else Answer(Held(before), call.key, call.given);
      FindAfterTouch(Served(before), call.key, value, key);
      AnswerIs(Held(before), call.key, call.given);
      if call.key == key && Stores(calls, n) {
        LastIsLastStore(calls);
        assert LastGave(calls, n, key, value);
      } else {
        HeldIsLastStored(before, key);
        var i :| 0 <= i < n && LastGave(before, i, key, Find(Held(before), key).value);
        LastStoreStays(calls, i, key);
        assert LastGave(calls, i, key, Find(Held(before), key).value);
      }
    }
  }

  lemma NothingHeld<V>(key: string)
    ensures !Holds(Held<V>([]), key) && !Holds<V>([], key)
  {
  }

  lemma HeldAfter<V>(calls: seq<Call<V>>)
    requires calls != []
    ensures var n := |calls| - 1;
            var before, call := calls[..n], calls[n];
            && (call.Empty? ==> Held(calls) == [])
            && (call.Store? ==> Held(calls) == After(Served(before) + [Touch(call.key, call.given)]))
            && (call.Fetch? ==> Held(calls) == After(Served(before) + [Touch(call.key, Answer(Held(before), call.key, call.given))]))
            && (Stores(calls, n) <==> call.Store? || (call.Fetch? && !Holds(Held(before), call.key)))
  {
  }

  lemma AnswerIs<V>(es: Entries<V>, key: string, rendered: V)
    ensures if Holds(es, key) then Find(es, key) == Some(Answer(es, key, rendered)) else Answer(es, key, rendered) == rendered
  {
    FindOfMissing(es, key);
  }

  lemma LastIsLastStore<V>(calls: seq<Call<V>>)
    requires calls != [] && Stores(calls, |calls| - 1)
    ensures IsLastStore(calls, |calls| - 1, calls[|calls| - 1].key)
  {
  }

  /** So a fetch answers with what was last put for its key while that is held, and with its own rendering otherwise. */
  lemma FetchAnswersLastStored<V>(calls: seq<Call<V>>, key: string, rendered: V)
    ensures var answer := Answer(Held(calls), key, rendered);
            if Holds(Held(calls), key) then exists i :: 0 <= i < |calls| && LastGave(calls, i, key, answer)
            else answer == rendered
  {
    AnswerIs(Held(calls), key, rendered);
    hide Holds, Held, LastGave, Answer, Find;
    if Holds(Held(calls), key) {
      HeldIsLastStored(calls, key);
    }
  }
}
