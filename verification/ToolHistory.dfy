/**
  The records of the loop guard's history, the two comparison keys, and the count of
  contiguous repetitions of the trailing n-gram.
 */
module ToolHistory {
  import opened Utf16

  datatype ToolHistoryRecord = ToolHistoryRecord(
    toolName: Text,
    toolArgs: Text,
    isError: bool,
    outputFingerprint: Text
  )

  type History = seq<ToolHistoryRecord>

  function ExactKey(r: ToolHistoryRecord): Text {
    r.toolName + [NUL] + (r.toolArgs + [NUL] + ((if r.isError then TRUE_TEXT else FALSE_TEXT) + [NUL] + r.outputFingerprint))
  }

  function FuzzyKey(r: ToolHistoryRecord): Text {
    r.toolName + [NUL] + r.toolArgs
  }

  /** What the separator relies on: neither the tool name nor the printed arguments hold U+0000. */
  predicate Clean(r: ToolHistoryRecord) {
    NulFree(r.toolName) && NulFree(r.toolArgs)
  }

  lemma FirstNul(x: Text, y: Text)
    requires NulFree(x)
    ensures (x + [NUL] + y)[|x|] == NUL
    ensures forall i :: 0 <= i < |x| ==> (x + [NUL] + y)[i] != NUL
  {
  }

  lemma NulSplits(x: Text, y: Text, x': Text, y': Text)
    requires NulFree(x) && NulFree(x')
    requires x + [NUL] + y == x' + [NUL] + y'
    ensures x == x' && y == y'
  {
    var s, s' := x + [NUL] + y, x' + [NUL] + y';
    FirstNul(x, y);
    FirstNul(x', y');
    assert |x| == |x'|;
    assert x == s[..|x|] && x' == s'[..|x|];
    assert y == s[|x| + 1..] && y' == s'[|x| + 1..];
  }

  /** Comparing exact keys compares all four fields. */
  lemma ExactKeyIsCollisionFree(a: ToolHistoryRecord, b: ToolHistoryRecord)
    requires Clean(a) && Clean(b)
    ensures ExactKey(a) == ExactKey(b) <==> a == b
  {
    if ExactKey(a) == ExactKey(b) {
      var ea, eb := if a.isError then TRUE_TEXT else FALSE_TEXT, if b.isError then TRUE_TEXT else FALSE_TEXT;
      NulSplits(a.toolName, a.toolArgs + [NUL] + (ea + [NUL] + a.outputFingerprint),
                b.toolName, b.toolArgs + [NUL] + (eb + [NUL] + b.outputFingerprint));
      NulSplits(a.toolArgs, ea + [NUL] + a.outputFingerprint, b.toolArgs, eb + [NUL] + b.outputFingerprint);
      NulSplits(ea, a.outputFingerprint, eb, b.outputFingerprint);
      assert TRUE_TEXT[0] != FALSE_TEXT[0];
    }
  }

  /** Comparing fuzzy keys compares the tool name and the arguments. */
  lemma FuzzyKeyIsCollisionFree(a: ToolHistoryRecord, b: ToolHistoryRecord)
    requires NulFree(a.toolName) && NulFree(b.toolName)
    ensures FuzzyKey(a) == FuzzyKey(b) <==> a.toolName == b.toolName && a.toolArgs == b.toolArgs
  {
    if FuzzyKey(a) == FuzzyKey(b) {
      NulSplits(a.toolName, a.toolArgs, b.toolName, b.toolArgs);
    }
  }

  /** How many records `r` repetitions of an n-gram cover. */
  function Span(r: nat, n: nat): nat {
    r * n
  }

  /** The last `r * n` records have period `n`. */
  ghost predicate Repeats(h: History, n: nat, key: ToolHistoryRecord -> Text, r: nat) {
    && Span(r, n) <= |h|
    && forall i :: |h| - Span(r, n) <= i < |h| - n ==> key(h[i]) == key(h[i + n])
  }

  /** Having period `n` means being `r` copies of the trailing n-gram. */
  lemma {:induction false} RepeatsAreCopies(h: History, n: nat, key: ToolHistoryRecord -> Text, r: nat, b: nat, i: nat)
    requires n >= 1 && Repeats(h, n, key, r) && b < r && i < n
    ensures 0 <= |h| - Span(b + 1, n)
    ensures key(h[|h| - Span(b + 1, n) + i]) == key(h[|h| - n + i])
  {
    Multiples(b + 1, r, n);
    if b > 0 {
      RepeatsAreCopies(h, n, key, r, b - 1, i);
      Multiples(1, b, n);
      var at := |h| - Span(b + 1, n) + i;
      assert at + n == |h| - Span(b - 1 + 1, n) + i;
      assert |h| - Span(r, n) <= at < |h| - n;
    }
  }

  lemma Multiples(a: nat, b: nat, n: nat)
    requires a <= b
    ensures Span(1, n) == n
    ensures Span(a, n) <= Span(b, n)
    ensures Span(a + 1, n) == Span(a, n) + n && Span(b + 1, n) == Span(b, n) + n
  {
  }

  /** The greatest number of repetitions, counted upwards from `r`. */
  ghost function RepsFrom(h: History, n: nat, key: ToolHistoryRecord -> Text, r: nat): nat
    requires n >= 1 && Repeats(h, n, key, r)
    decreases |h| - r
  {
    if Repeats(h, n, key, r + 1) then
      (assert r + 1 <= Span(r + 1, n); RepsFrom(h, n, key, r + 1))
    else r
  }

  ghost function Reps(h: History, n: nat, key: ToolHistoryRecord -> Text): nat
    requires n >= 1
  {
    RepsFrom(h, n, key, 0)
  }

  lemma FewerRepeats(h: History, n: nat, key: ToolHistoryRecord -> Text, r: nat, fewer: nat)
    requires Repeats(h, n, key, r) && fewer <= r
    ensures Repeats(h, n, key, fewer)
  {
    assert Span(fewer, n) <= Span(r, n);
  }

  lemma {:induction false} RepsFromIsGreatest(h: History, n: nat, key: ToolHistoryRecord -> Text, r: nat)
    requires n >= 1 && Repeats(h, n, key, r)
    ensures Repeats(h, n, key, RepsFrom(h, n, key, r))
    ensures !Repeats(h, n, key, RepsFrom(h, n, key, r) + 1)
    decreases |h| - r
  {
    if Repeats(h, n, key, r + 1) {
      assert r + 1 <= Span(r + 1, n);
      RepsFromIsGreatest(h, n, key, r + 1);
    }
  }

  /** `Reps` is maximal: exactly the counts up to it are repetition counts of the tail. */
  lemma RepsIsGreatest(h: History, n: nat, key: ToolHistoryRecord -> Text, r: nat)
    requires n >= 1
    ensures Repeats(h, n, key, r) <==> r <= Reps(h, n, key)
  {
    RepsFromIsGreatest(h, n, key, 0);
    if r <= Reps(h, n, key) {
      FewerRepeats(h, n, key, Reps(h, n, key), r);
    } else if Repeats(h, n, key, r) {
      FewerRepeats(h, n, key, r, Reps(h, n, key) + 1);
    }
  }

  lemma RepsIs(h: History, n: nat, key: ToolHistoryRecord -> Text, r: nat)
    requires n >= 1 && Repeats(h, n, key, r) && !Repeats(h, n, key, r + 1)
    ensures r == Reps(h, n, key)
  {
    RepsIsGreatest(h, n, key, r);
    RepsIsGreatest(h, n, key, r + 1);
  }

  ghost predicate BlockIs(h: History, at: int, key: ToolHistoryRecord -> Text, tail: seq<Text>) {
    && 0 <= at <= |h| - |tail|
    && forall i :: 0 <= i < |tail| ==> key(h[at + i]) == tail[i]
  }

  /** The block before the counted ones equals the tail exactly when the repetition goes on. */
  lemma BlockExtends(h: History, n: nat, key: ToolHistoryRecord -> Text, r: nat, tail: seq<Text>)
    requires n >= 1 && r >= 1 && |tail| == n
    requires Repeats(h, n, key, r) && BlockIs(h, |h| - Span(r, n), key, tail)
    requires |h| >= Span(r + 1, n)
    ensures Repeats(h, n, key, r + 1) <==> BlockIs(h, |h| - Span(r + 1, n), key, tail)
    ensures r < |h| && |h| - Span(r + 1, n) + n <= |h|
  {
    var start := |h| - Span(r + 1, n);
    Multiples(1, r, n);
    assert r <= Span(r, n);
    forall j | 0 <= j < n
      ensures key(h[start + j + n]) == tail[j]
    {
      assert start + j + n == |h| - Span(r, n) + j;
    }
    if BlockIs(h, start, key, tail) {
      forall i | start <= i < |h| - n
        ensures key(h[i]) == key(h[i + n])
      {
        if i < start + n {
          assert key(h[start + (i - start)]) == tail[i - start] == key(h[start + (i - start) + n]);
        }
      }
    } else {
      var j :| 0 <= j < n && key(h[start + j]) != tail[j];
      assert key(h[start + j]) != key(h[start + j + n]);
    }
  }

  lemma OneRepeat(h: History, n: nat, key: ToolHistoryRecord -> Text)
    requires |h| >= n
    ensures Repeats(h, n, key, 1)
  {
  }

  method TailKeys(h: History, n: nat, key: ToolHistoryRecord -> Text) returns (tailKeys: seq<Text>)
    requires n <= |h|
    ensures |tailKeys| == n && BlockIs(h, |h| - Span(1, n), key, tailKeys)
  {
    var tailStart := |h| - n;
    tailKeys := [];
    for i := 0 to n
      invariant |tailKeys| == i
      invariant forall j :: 0 <= j < i ==> tailKeys[j] == key(h[tailStart + j])
    {
      tailKeys := tailKeys + [key(h[tailStart + i])];
    }
  }

  method BlockMatches(h: History, start: nat, key: ToolHistoryRecord -> Text, tailKeys: seq<Text>) returns (matches: bool)
    requires start + |tailKeys| <= |h|
    ensures matches <==> BlockIs(h, start, key, tailKeys)
  {
    for i := 0 to |tailKeys|
      invariant forall j :: 0 <= j < i ==> key(h[start + j]) == tailKeys[j]
    {
      if key(h[start + i]) != tailKeys[i] {
        return false;
      }
    }
    return true;
  }

  method CountContiguousNgramReps(h: History, n: nat, key: ToolHistoryRecord -> Text) returns (reps: nat)
    requires n >= 1
    ensures reps == Reps(h, n, key)
  {
    hide *;
    if |h| < n {
      RepsFitHistory(h, n, key);
      return 0;
    }
    OneRepeat(h, n, key);
    var tailKeys := TailKeys(h, n, key);
    reps := 1;
    while |h| >= Span(reps + 1, n)
      invariant reps >= 1 && Repeats(h, n, key, reps) && BlockIs(h, |h| - Span(reps, n), key, tailKeys)
      decreases |h| - reps
    {
      BlockExtends(h, n, key, reps, tailKeys);
      var matches := BlockMatches(h, |h| - Span(reps + 1, n), key, tailKeys);
      if !matches {
        RepsIs(h, n, key, reps);
        return;
      }
      reps := reps + 1;
    }
    TooShort(h, n, key, reps + 1);
    RepsIs(h, n, key, reps);
  }

  lemma TooShort(h: History, n: nat, key: ToolHistoryRecord -> Text, r: nat)
    requires |h| < Span(r, n)
    ensures !Repeats(h, n, key, r)
  {
  }

  /** With clean records a fuzzy repetition count is never below the exact one. */
  lemma FuzzyRepsAtLeastExact(h: History, n: nat)
    requires n >= 1 && forall r :: r in h ==> Clean(r)
    ensures Reps(h, n, FuzzyKey) >= Reps(h, n, ExactKey)
  {
    var r := Reps(h, n, ExactKey);
    RepsIsGreatest(h, n, ExactKey, r);
    forall i | |h| - Span(r, n) <= i < |h| - n
      ensures FuzzyKey(h[i]) == FuzzyKey(h[i + n])
    {
      ExactKeyIsCollisionFree(h[i], h[i + n]);
    }
    RepsIsGreatest(h, n, FuzzyKey, r);
  }

  /** A last record whose key occurs nowhere before ends no repetition. */
  lemma FreshTailRepeatsOnce(h: History, n: nat, key: ToolHistoryRecord -> Text)
    requires n >= 1 && h != []
    requires forall i :: 0 <= i < |h| - 1 ==> key(h[i]) != key(h[|h| - 1])
    ensures Reps(h, n, key) <= 1
  {
    RepsIsGreatest(h, n, key, 2);
    var i := |h| - 1 - n;
    if i >= 0 {
      assert key(h[i]) != key(h[i + n]);
    }
  }

  /** Each repetition takes `n` records. */
  lemma RepsFitHistory(h: History, n: nat, key: ToolHistoryRecord -> Text)
    requires n >= 1
    ensures Reps(h, n, key) * n <= |h|
  {
    RepsIsGreatest(h, n, key, Reps(h, n, key));
  }
}
