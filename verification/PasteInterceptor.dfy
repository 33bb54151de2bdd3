/** Turning raw carriage-return pastes into newlines, without touching a typed Enter. */
module PasteInterceptor {
  import opened Prelude
  import opened TextLines

  const ESC := '\U{001B}'
  const MIN_CHUNK_LEN := 4
  const MIN_CR_COUNT := 2
  const TRAILING_WINDOW_MS := 100

  function CountReturns(chunk: string): nat {
    if chunk == "" then 0
    else CountReturns(chunk[..|chunk| - 1]) + if chunk[|chunk| - 1] == '\r' then 1 else 0
  }

  lemma {:induction false} FewerReturns(chunk: string, i: nat)
    requires i <= |chunk|
    ensures CountReturns(chunk[..i]) <= CountReturns(chunk)
    decreases |chunk|
  {
    if i < |chunk| {
      FewerReturns(chunk[..|chunk| - 1], i);
      assert chunk[..|chunk| - 1][..i] == chunk[..i];
    } else {
      assert chunk[..i] == chunk;
    }
  }

  /** A multi-line burst: long enough, no escape byte, and at least two carriage returns. */
  predicate IsSeed(chunk: string) {
    |chunk| >= MIN_CHUNK_LEN && ESC !in chunk && CountReturns(chunk) >= MIN_CR_COUNT
  }

  predicate IsEligible(chunk: string) {
    ESC !in chunk && '\r' in chunk
  }

  lemma {:induction false} NoReturnsCounted(chunk: string)
    ensures CountReturns(chunk) == 0 <==> '\r' !in chunk
  {
    if chunk != "" {
      NoReturnsCounted(chunk[..|chunk| - 1]);
      assert chunk == chunk[..|chunk| - 1] + [chunk[|chunk| - 1]];
    }
  }

  method LooksLikeRawPaste(chunk: string) returns (seed: bool)
    ensures seed == IsBurst(chunk)
  {
    SeedsAreBursts(chunk);
    if |chunk| < MIN_CHUNK_LEN {
      return false;
    }
    if ESC in chunk {
      return false;
    }
    var crCount := 0;
    for i := 0 to |chunk|
      invariant crCount == CountReturns(chunk[..i]) && crCount < MIN_CR_COUNT
    {
      assert chunk[..i + 1][..i] == chunk[..i];
      if chunk[i] == '\r' {
        crCount := crCount + 1;
        if crCount >= MIN_CR_COUNT {
          FewerReturns(chunk, i + 1);
          return true;
        }
      }
    }
    assert chunk[..|chunk|] == chunk;
    return false;
  }

  predicate ReturnsAt(chunk: string, i: nat, j: nat) {
    i < j < |chunk| && chunk[i] == '\r' && chunk[j] == '\r'
  }

  /** A multi-line burst: four characters or more, two carriage returns among them, and no escape byte. */
  predicate IsBurst(chunk: string) {
    |chunk| >= 4 && '\U{001B}' !in chunk && exists i, j :: 0 <= i < j < |chunk| && ReturnsAt(chunk, i, j)
  }

  predicate HoldsReturn(chunk: string) {
    '\r' in chunk && '\U{001B}' !in chunk
  }

  lemma {:induction false} TwoReturnsCounted(chunk: string)
    ensures CountReturns(chunk) >= 2 <==> exists i, j :: 0 <= i < j < |chunk| && ReturnsAt(chunk, i, j)
  {
    if chunk != "" {
      var n := |chunk| - 1;
      TwoReturnsCounted(chunk[..n]);
      NoReturnsCounted(chunk[..n]);
      if exists i, j :: 0 <= i < j < n && ReturnsAt(chunk[..n], i, j) {
        var i, j :| 0 <= i < j < n && ReturnsAt(chunk[..n], i, j);
        assert ReturnsAt(chunk, i, j);
      }
      if chunk[n] == '\r' && '\r' in chunk[..n] {
        var i :| 0 <= i < n && chunk[i] == '\r';
        assert ReturnsAt(chunk, i, n);
      }
      if exists i, j :: 0 <= i < j < |chunk| && ReturnsAt(chunk, i, j) {
        var i, j :| 0 <= i < j < |chunk| && ReturnsAt(chunk, i, j);
        assert chunk[..n][i] == '\r';
        assert j < n ==> ReturnsAt(chunk[..n], i, j);
      }
    }
  }

  lemma SeedsAreBursts(chunk: string)
    ensures IsSeed(chunk) <==> IsBurst(chunk)
    ensures IsEligible(chunk) <==> HoldsReturn(chunk)
    ensures IsBurst(chunk) ==> HoldsReturn(chunk)
  {
    TwoReturnsCounted(chunk);
    NoReturnsCounted(chunk);
  }

  /** `chunk.replace(/\r\n?/g, "\n")` */
  function RewriteCrToLf(chunk: string): string
    decreases |chunk|
  {
    if chunk == "" then ""
    else if chunk[0] == '\r' then
      "\n" + RewriteCrToLf(if |chunk| > 1 && chunk[1] == '\n' then chunk[2..] else chunk[1..])
    else [chunk[0]] + RewriteCrToLf(chunk[1..])
  }

  /** The one-pass rewrite leaves no carriage return, and is the two-pass normalisation of line endings. */
  lemma {:induction false} RewriteNormalizes(chunk: string)
    ensures RewriteCrToLf(chunk) == NormalizeToLf(chunk)
    ensures '\r' !in RewriteCrToLf(chunk)
    decreases |chunk|
  {
    if chunk == "" {
    } else if chunk[0] == '\r' && |chunk| > 1 && chunk[1] == '\n' {
      RewriteNormalizes(chunk[2..]);
      assert ("\n" + CrLfToLf(chunk[2..]))[1..] == CrLfToLf(chunk[2..]);
    } else {
      RewriteNormalizes(chunk[1..]);
      assert ([chunk[0]] + CrLfToLf(chunk[1..]))[1..] == CrLfToLf(chunk[1..]);
    }
  }

  /** A chunk and the two readings of the clock its handling may take. */
  datatype Chunk = Chunk(text: string, first: int, second: int)

  /** The handling of one chunk: whether it is rewritten, and the time remembered after it. */
  function Handle(lastRewriteAt: int, c: Chunk): (bool, int) {
    if !IsEligible(c.text) then (false, lastRewriteAt)
    else if IsSeed(c.text) then (true, c.first)
    else if c.first - lastRewriteAt < TRAILING_WINDOW_MS then (true, c.second)
    else (false, lastRewriteAt)
  }

  class Interceptor {
    var lastRewriteAt: int

    constructor ()
      ensures lastRewriteAt == 0
    {
      lastRewriteAt := 0;
    }

    method Emit(c: Chunk) returns (emitted: string)
      modifies this
      ensures lastRewriteAt == Handle(old(lastRewriteAt), c).1
      ensures emitted == if Handle(old(lastRewriteAt), c).0 then RewriteCrToLf(c.text) else c.text
    {
      SeedsAreBursts(c.text);
      if ESC !in c.text && '\r' in c.text {
        var seed := LooksLikeRawPaste(c.text);
        if seed {
          lastRewriteAt := c.first;
          return RewriteCrToLf(c.text);
        }
        if c.first - lastRewriteAt < TRAILING_WINDOW_MS {
          lastRewriteAt := c.second;
          return RewriteCrToLf(c.text);
        }
      }
      return c.text;
    }
  }

  // ----- over whole runs

  function LastRewriteAt(cs: seq<Chunk>): int {
    if cs == [] then 0 else Handle(LastRewriteAt(cs[..|cs| - 1]), cs[|cs| - 1]).1
  }

  predicate Rewritten(cs: seq<Chunk>, i: nat)
    requires i < |cs|
  {
    Handle(LastRewriteAt(cs[..i]), cs[i]).0
  }

  /** When a rewritten chunk's rewrite is remembered to have happened. */
  function RewriteTime(c: Chunk): int {
    if IsBurst(c.text) then c.first else c.second
  }

  /** The latest rewritten chunk, or -1. */
  function LatestRewrite(cs: seq<Chunk>): (r: int)
    ensures -1 <= r < |cs|
  {
    if cs == [] then -1
    else if Rewritten(cs, |cs| - 1) then |cs| - 1
    else LatestRewrite(cs[..|cs| - 1])
  }

  lemma {:induction false} LatestIsLatest(cs: seq<Chunk>)
    ensures var r := LatestRewrite(cs);
            && (r >= 0 ==> Rewritten(cs, r) && LastRewriteAt(cs) == RewriteTime(cs[r]))
            && (r < 0 ==> LastRewriteAt(cs) == 0)
            && forall i :: r < i < |cs| ==> !Rewritten(cs, i)
  {
    if cs != [] {
      var n := |cs| - 1;
      LatestIsLatest(cs[..n]);
      SeedsAreBursts(cs[n].text);
      forall i | 0 <= i < n
        ensures Rewritten(cs[..n], i) == Rewritten(cs, i)
      {
        assert cs[..n][..i] == cs[..i];
      }
    }
  }

  /** The clock has been running for a while, and does not go back. */
  ghost predicate Clock(cs: seq<Chunk>) {
    && (forall i :: 0 <= i < |cs| ==> 100 <= cs[i].first <= cs[i].second)
    && forall i, j :: 0 <= i < j < |cs| ==> cs[i].second <= cs[j].first
  }

  /**
    A chunk is rewritten exactly when it holds a carriage return and no escape byte, and is a burst
    itself or arrives within the window after the latest rewritten chunk.
   */
  lemma RewrittenExactly(cs: seq<Chunk>, i: nat)
    requires Clock(cs) && i < |cs|
    ensures var p := LatestRewrite(cs[..i]);
            Rewritten(cs, i) <==>
              (&& HoldsReturn(cs[i].text)
               && (|| IsBurst(cs[i].text)
                   || (p >= 0 && cs[i].first - RewriteTime(cs[p]) < 100)))
  {
    SeedsAreBursts(cs[i].text);
    LatestIsLatest(cs[..i]);
    var p := LatestRewrite(cs[..i]);
    if p >= 0 {
      assert cs[..i][p] == cs[p];
    }
  }

  /** `i` follows a burst through rewritten chunks, each within the window of the one before. */
  predicate ChainsToSeed(cs: seq<Chunk>, i: nat)
    requires i < |cs|
  {
    || IsBurst(cs[i].text)
    || exists p :: 0 <= p < i && InWindow(cs, p, i) && ChainsToSeed(cs, p)
  }

  predicate InWindow(cs: seq<Chunk>, p: nat, i: nat)
    requires p < i < |cs|
  {
    Rewritten(cs, p) && cs[i].first - RewriteTime(cs[p]) < 100
  }

  /** Every rewrite goes back to a burst; so a typed Enter on its own is never rewritten. */
  lemma {:induction false} RewritesChainToSeed(cs: seq<Chunk>, i: nat)
    requires Clock(cs) && i < |cs| && Rewritten(cs, i)
    ensures ChainsToSeed(cs, i)
  {
    RewrittenExactly(cs, i);
    if !IsBurst(cs[i].text) {
      var p := LatestRewrite(cs[..i]);
      LatestIsLatest(cs[..i]);
      assert cs[..i][..p] == cs[..p] && cs[..i][p] == cs[p];
      RewritesChainToSeed(cs, p);
      assert InWindow(cs, p, i);
    }
  }
}
