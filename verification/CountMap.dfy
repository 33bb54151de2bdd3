/**
  The `Map<string, number>` tallies of the loop guard. A JavaScript `Map` iterates in
  insertion order, and that order decides ties between equal counts, so a tally is the
  sequence of its entries in insertion order.
 */
module CountMap {
  import opened Prelude
  import opened Utf16

  datatype Entry = Entry(key: Text, count: int)

  type Tally = seq<Entry>

  /** Keys are distinct and every count is positive: no entry stands for zero. */
  ghost predicate WellFormed(m: Tally) {
    && (forall i, j :: 0 <= i < j < |m| ==> m[i].key != m[j].key)
    && (forall i :: 0 <= i < |m| ==> m[i].count >= 1)
  }

  function Index(m: Tally, key: Text): (r: int)
    ensures -1 <= r < |m|
    ensures r >= 0 ==> m[r].key == key
    ensures r < 0 ==> forall i :: 0 <= i < |m| ==> m[i].key != key
  {
    if m == [] then -1
    else if m[0].key == key then 0
    else
      var r := Index(m[1..], key);
      if r < 0 then -1 else r + 1
  }

  /** `map.get(key) ?? 0` */
  function Get(m: Tally, key: Text): int {
    var i := Index(m, key);
    if i < 0 then 0 else m[i].count
  }

  /** `map.set(key, count)`: an existing key keeps its place, a new one goes last. */
  function Put(m: Tally, key: Text, count: int): Tally {
    var i := Index(m, key);
    if i < 0 then m + [Entry(key, count)] else m[i := Entry(key, count)]
  }

  /** `map.delete(key)` */
  function Delete(m: Tally, key: Text): Tally {
    var i := Index(m, key);
    if i < 0 then m else m[..i] + m[i + 1..]
  }

  function Increment(m: Tally, key: Text): Tally {
    Put(m, key, Get(m, key) + 1)
  }

  function Decrement(m: Tally, key: Text): Tally {
    var v := Get(m, key) - 1;
    if v <= 0 then Delete(m, key) else Put(m, key, v)
  }

  /** `firedKeys` are deleted one after the other. */
  function DeleteAll(m: Tally, keys: seq<Text>): Tally {
    if keys == [] then m else DeleteAll(Delete(m, keys[0]), keys[1..])
  }

  lemma IndexIs(m: Tally, i: nat)
    requires i < |m| && forall a, b :: 0 <= a < b < |m| ==> m[a].key != m[b].key
    ensures Index(m, m[i].key) == i
  {
  }

  lemma GetOfEntry(m: Tally, i: nat)
    requires WellFormed(m) && i < |m|
    ensures Get(m, m[i].key) == m[i].count
  {
  }

  lemma GetOfPut(m: Tally, key: Text, count: int, other: Text)
    requires WellFormed(m) && count >= 1
    ensures WellFormed(Put(m, key, count))
    ensures Get(Put(m, key, count), other) == if other == key then count else Get(m, other)
  {
    var r, i := Put(m, key, count), Index(m, other);
    var at := Index(m, key);
    if other == key {
      IndexIs(r, if at < 0 then |m| else at);
    } else if i >= 0 {
      assert r[i] == m[i];
      IndexIs(r, i);
    } else {
      assert forall j :: 0 <= j < |r| ==> r[j].key != other;
    }
  }

  lemma GetOfDelete(m: Tally, key: Text, other: Text)
    requires WellFormed(m)
    ensures WellFormed(Delete(m, key))
    ensures Get(Delete(m, key), other) == if other == key then 0 else Get(m, other)
  {
    var at, r := Index(m, key), Delete(m, key);
    if at >= 0 {
      assert forall j :: 0 <= j < |r| ==> r[j] == m[if j < at then j else j + 1];
      var i := Index(m, other);
      if other == key || i < 0 {
        assert forall j :: 0 <= j < |r| ==> r[j].key != other;
      } else {
        IndexIs(r, if i < at then i else i - 1);
      }
    }
  }

  /** Incrementing moves exactly one key, by one. */
  lemma GetOfIncrement(m: Tally, key: Text, other: Text)
    requires WellFormed(m)
    ensures WellFormed(Increment(m, key))
    ensures Get(Increment(m, key), other) == Get(m, other) + if other == key then 1 else 0
  {
    hide Get, Put, WellFormed;
    GetNonNegative(m, key);
    GetOfPut(m, key, Get(m, key) + 1, other);
  }

  /** Decrementing moves exactly one key, by one, never below zero. */
  lemma GetOfDecrement(m: Tally, key: Text, other: Text)
    requires WellFormed(m)
    ensures WellFormed(Decrement(m, key))
    ensures Get(Decrement(m, key), other) == if other == key then Max(0, Get(m, other) - 1) else Get(m, other)
  {
    hide Get, Delete, Put, WellFormed;
    var v := Get(m, key) - 1;
    if v <= 0 {
      GetNonNegative(m, key);
      GetOfDelete(m, key, other);
    } else {
      GetOfPut(m, key, v, other);
    }
  }

  lemma GetNonNegative(m: Tally, key: Text)
    requires WellFormed(m)
    ensures Get(m, key) >= 0
  {
  }

  lemma GetOfDeleteAll(m: Tally, keys: seq<Text>, other: Text)
    requires WellFormed(m)
    ensures WellFormed(DeleteAll(m, keys))
    ensures Get(DeleteAll(m, keys), other) == if other in keys then 0 else Get(m, other)
  {
    if keys != [] {
      GetOfDelete(m, keys[0], other);
      GetOfDeleteAll(Delete(m, keys[0]), keys[1..], other);
      assert other in keys <==> other == keys[0] || other in keys[1..];
    }
  }

  /** The entry `mapMax` returns: the earliest of those with the highest count. */
  function Top(m: Tally): (r: Option<Entry>)
    ensures r.None? <==> m == []
  {
    if m == [] then None
    else
      var last := m[|m| - 1];
      var best := Top(m[..|m| - 1]);
      if best.None? || last.count > best.value.count then Some(last) else best
  }

  lemma {:induction false} TopIsEarliestMaximum(m: Tally) returns (at: nat)
    requires m != []
    ensures at < |m| && Top(m) == Some(m[at])
    ensures forall i :: 0 <= i < |m| ==> m[i].count <= m[at].count
    ensures forall i :: 0 <= i < at ==> m[i].count < m[at].count
  {
    var n := |m| - 1;
    at := n;
    if n > 0 {
      var before := TopIsEarliestMaximum(m[..n]);
      if m[n].count <= m[before].count {
        at := before;
      }
    }
  }

  method MapMax(m: Tally) returns (best: Option<Entry>)
    ensures best == Top(m)
  {
    best := None;
    for i := 0 to |m|
      invariant best == Top(m[..i])
    {
      assert m[..i + 1][..i] == m[..i];
      if best.None? || m[i].count > best.value.count {
        best := Some(m[i]);
      }
    }
    assert m[..|m|] == m;
  }

  /** The highest count reaches a threshold exactly when some key's count does. */
  lemma TopReaches(m: Tally, threshold: int)
    requires WellFormed(m) && threshold >= 1
    ensures (Top(m).Some? && Top(m).value.count >= threshold) <==> exists k :: Get(m, k) >= threshold
    ensures Top(m).Some? ==> Get(m, Top(m).value.key) == Top(m).value.count
  {
    if m != [] {
      var at := TopIsEarliestMaximum(m);
      GetOfEntry(m, at);
      forall k | Get(m, k) >= threshold
        ensures m[at].count >= threshold
      {
        assert m[Index(m, k)].count >= threshold;
      }
    }
  }
}
