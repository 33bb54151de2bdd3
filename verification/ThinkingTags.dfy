/** The transforms of reasoning text: hidden or dimmed, for the final text and for the streaming display. */
module ThinkingTags {
  import opened HideThinking

  /** `text.indexOf(part)` */
  function IndexOf(text: string, part: string): (r: int)
    ensures -1 <= r <= |text|
    ensures r >= 0 ==> OccursAt(text, part, r)
  {
    if |part| > |text| then -1
    else if text[..|part|] == part then 0
    else if text == "" then -1
    else
      var r := IndexOf(text[1..], part);
      if r < 0 then -1 else r + 1
  }

  lemma {:induction false} IndexOfFinds(text: string, part: string)
    ensures IndexOf(text, part) >= 0 <==> Includes(text, part)
  {
    if IndexOf(text, part) < 0 {
      forall i | 0 <= i <= |text|
        ensures !OccursAt(text, part, i)
      {
        if OccursAt(text, part, i) && i > 0 {
          IndexOfFinds(text[1..], part);
          assert text[1..][i - 1..i - 1 + |part|] == text[i..i + |part|];
          assert OccursAt(text[1..], part, i - 1);
        }
      }
    }
  }

  /** The length of a closed pair of tags that `text` starts with, or 0. */
  function PairLength(text: string, open: string, close: string): (n: nat)
    ensures n <= |text|
  {
    if !OccursAt(text, open, 0) then 0
    else
      var k := IndexOf(text[|open|..], close);
      if k < 0 then 0 else |open| + k + |close|
  }

  function MatchLength(text: string): (n: nat)
    ensures n <= |text|
  {
    var n := PairLength(text, THINK_OPEN, THINK_CLOSE);
    if n > 0 then n else PairLength(text, MM_THINK_OPEN, MM_THINK_CLOSE)
  }

  /** Every closed pair of tags is removed with what it holds. */
  function StripThinkingTags(text: string): (r: string)
    ensures |r| <= |text|
    decreases |text|
  {
    if text == "" then ""
    else
      var n := MatchLength(text);
      if n > 0 then StripThinkingTags(text[n..]) else [text[0]] + StripThinkingTags(text[1..])
  }

  /** What the hiding mode shows while a message streams: an unclosed tag hides all that follows. */
  function StreamingDisplay(text: string): string {
    var r := StripThinkingTags(text);
    var i, j := IndexOf(r, THINK_OPEN), IndexOf(r, MM_THINK_OPEN);
    if i >= 0 then r[..i] else if j >= 0 then r[..j] else r
  }

  // ----- when they change a text

  /** An opening tag and, behind it, its closing tag. */
  ghost predicate Closed(text: string, open: string, close: string) {
    exists i, j :: OccursAt(text, open, i) && OccursAt(text, close, j) && i + |open| <= j
  }

  ghost predicate HasClosedPair(text: string) {
    Closed(text, THINK_OPEN, THINK_CLOSE) || Closed(text, MM_THINK_OPEN, MM_THINK_CLOSE)
  }

  lemma OccursInRest(text: string, part: string, from: nat, i: int)
    requires from <= |text|
    ensures OccursAt(text[from..], part, i) <==> i >= 0 && OccursAt(text, part, from + i)
  {
    if 0 <= i <= |text| - from - |part| {
      assert text[from..][i..i + |part|] == text[from + i..from + i + |part|];
    }
  }

  lemma PairIsClosed(text: string, open: string, close: string)
    requires open != ""
    ensures PairLength(text, open, close) > 0 ==> Closed(text, open, close)
  {
    if PairLength(text, open, close) > 0 {
      var k := IndexOf(text[|open|..], close);
      OccursInRest(text, close, |open|, k);
      assert OccursAt(text, open, 0) && OccursAt(text, close, |open| + k);
    }
  }

  lemma FrontPairHasLength(text: string, open: string, close: string, j: int)
    requires open != "" && OccursAt(text, open, 0) && OccursAt(text, close, j) && |open| <= j
    ensures PairLength(text, open, close) > 0
  {
    var rest := text[|open|..];
    OccursInRest(text, close, |open|, j - |open|);
    IndexOfFinds(rest, close);
    assert OccursAt(rest, close, j - |open|);
  }

  /** A closed pair starts at the front or lies in the rest. */
  lemma ClosedFrontOrRest(text: string, open: string, close: string)
    requires open != "" && text != "" && PairLength(text, open, close) == 0
    ensures Closed(text, open, close) <==> Closed(text[1..], open, close)
  {
    if Closed(text, open, close) {
      var i, j :| OccursAt(text, open, i) && OccursAt(text, close, j) && i + |open| <= j;
      if i == 0 {
        FrontPairHasLength(text, open, close, j);
      } else {
        OccursInRest(text, open, 1, i - 1);
        OccursInRest(text, close, 1, j - 1);
      }
    }
    if Closed(text[1..], open, close) {
      var i, j :| OccursAt(text[1..], open, i) && OccursAt(text[1..], close, j) && i + |open| <= j;
      OccursInRest(text, open, 1, i);
      OccursInRest(text, close, 1, j);
    }
  }

  lemma ClosedInRest(text: string)
    requires text != "" && MatchLength(text) == 0
    ensures HasClosedPair(text) <==> HasClosedPair(text[1..])
  {
    hide Closed, PairLength;
    ClosedFrontOrRest(text, THINK_OPEN, THINK_CLOSE);
    ClosedFrontOrRest(text, MM_THINK_OPEN, MM_THINK_CLOSE);
  }

  lemma MatchIsClosed(text: string)
    requires MatchLength(text) > 0
    ensures HasClosedPair(text)
  {
    hide Closed, PairLength;
    PairIsClosed(text, THINK_OPEN, THINK_CLOSE);
    PairIsClosed(text, MM_THINK_OPEN, MM_THINK_CLOSE);
  }

  /** Stripping removes something exactly when a pair is closed. */
  lemma {:induction false} StripsExactly(text: string)
    ensures HasClosedPair(text) <==> |StripThinkingTags(text)| < |text|
    ensures HasClosedPair(text) <==> StripThinkingTags(text) != text
    decreases |text|
  {
    hide HasClosedPair, MatchLength;
    if text == "" {
      NothingClosed();
    } else if MatchLength(text) == 0 {
      ClosedInRest(text);
      StripsExactly(text[1..]);
    } else {
      MatchIsClosed(text);
    }
  }

  lemma NothingClosed()
    ensures !HasClosedPair("")
  {
  }

  lemma ClosedHasTags(text: string)
    requires HasClosedPair(text)
    ensures ContainsThinkTags(text)
  {
    if Closed(text, THINK_OPEN, THINK_CLOSE) {
      var i, j :| OccursAt(text, THINK_OPEN, i) && OccursAt(text, THINK_CLOSE, j) && i + |THINK_OPEN| <= j;
      assert Includes(text, THINK_OPEN) && Includes(text, THINK_CLOSE);
    } else {
      var i, j :| OccursAt(text, MM_THINK_OPEN, i) && OccursAt(text, MM_THINK_CLOSE, j) && i + |MM_THINK_OPEN| <= j;
      assert Includes(text, MM_THINK_OPEN) && Includes(text, MM_THINK_CLOSE);
    }
  }

  /** The streaming display of a text with an opening tag is shorter than the text. */
  lemma DisplayShortens(text: string)
    requires HasOpenTag(text)
    ensures |StreamingDisplay(text)| < |text|
  {
    StripsExactly(text);
    IndexOfFinds(text, THINK_OPEN);
    IndexOfFinds(text, MM_THINK_OPEN);
    hide HasClosedPair, StripThinkingTags, Includes;
  }

  // ----- the dimming mode

  const ESC := '\U{001B}'

  /** What stands in for a closed pair, given the pair and the text behind it. */
  type Render = (string, string) -> string

  /** Every closed pair of tags is replaced by its rendering. */
  function ReplaceThinkingTags(text: string, render: Render): string
    decreases |text|
  {
    if text == "" then ""
    else
      var n := MatchLength(text);
      if n > 0 then render(text[..n], text[n..]) + ReplaceThinkingTags(text[n..], render)
      else [text[0]] + ReplaceThinkingTags(text[1..], render)
  }

  /** The streaming display: pairs are rendered, and so is all that follows an unclosed tag. */
  function DimmedDisplay(text: string, render: Render, tail: Transform): string {
    var r := ReplaceThinkingTags(text, render);
    var i, j := IndexOf(r, THINK_OPEN), IndexOf(r, MM_THINK_OPEN);
    if i >= 0 then r[..i] + tail(r[i..]) else if j >= 0 then r[..j] + tail(r[j..]) else r
  }

  /** Dimming a pair emits an escape, or, when no line is left to dim, less than the pair. */
  ghost predicate Dims(render: Render) {
    forall pair, rest :: pair != "" ==> ESC in render(pair, rest) || |render(pair, rest)| < |pair|
  }

  /** Dimming what follows an unclosed tag emits an escape, or less than was there and nothing dimmed before. */
  ghost predicate DimsTail(tail: Transform) {
    forall t :: t != "" ==> ESC in tail(t) || (ESC !in t && |tail(t)| < |t|)
  }

  lemma InConcat(a: string, b: string)
    ensures ESC in a + b <==> ESC in a || ESC in b
  {
  }

  /** What rendering makes of a text: without closed pairs the text, else something with an escape or shorter. */
  ghost predicate Replaced(text: string, r: string) {
    if HasClosedPair(text) then ESC in r || |r| < |text| else r == text
  }

  lemma KeptInFront(text: string, r: string)
    requires text != "" && Replaced(text[1..], r) && (HasClosedPair(text) <==> HasClosedPair(text[1..]))
    ensures Replaced(text, [text[0]] + r)
  {
    hide HasClosedPair;
    InConcat([text[0]], r);
    assert text == [text[0]] + text[1..];
  }

  lemma ReplacedInFront(text: string, n: nat, shown: string, r: string)
    requires 0 < n <= |text| && HasClosedPair(text) && Replaced(text[n..], r)
    requires ESC in shown || |shown| < n
    ensures Replaced(text, shown + r)
  {
    hide HasClosedPair;
    InConcat(shown, r);
  }

  /** Rendering leaves a text without closed pairs alone; any other gains an escape or shrinks. */
  lemma {:induction false} ReplacesExactly(text: string, render: Render)
    requires Dims(render)
    ensures Replaced(text, ReplaceThinkingTags(text, render))
    decreases |text|
  {
    hide HasClosedPair, MatchLength, Replaced;
    if text == "" {
      NothingReplaced();
    } else if MatchLength(text) == 0 {
      ReplacesExactly(text[1..], render);
      ClosedInRest(text);
      KeptInFront(text, ReplaceThinkingTags(text[1..], render));
    } else {
      var n := MatchLength(text);
      ReplacesExactly(text[n..], render);
      MatchIsClosed(text);
      ReplacedInFront(text, n, render(text[..n], text[n..]), ReplaceThinkingTags(text[n..], render));
    }
  }

  lemma NothingReplaced()
    ensures Replaced("", "")
  {
    NothingClosed();
  }

  lemma CutDims(r: string, i: nat, tail: Transform)
    requires DimsTail(tail) && i < |r|
    ensures ESC in r[..i] + tail(r[i..]) || (ESC !in r && |r[..i] + tail(r[i..])| < |r|)
  {
    InConcat(r[..i], tail(r[i..]));
    assert r == r[..i] + r[i..];
    InConcat(r[..i], r[i..]);
  }

  /** The dimmed display of a text with an opening tag differs from it, escapes in the text apart. */
  lemma DimmedDisplayDiffers(text: string, render: Render, tail: Transform)
    requires Dims(render) && DimsTail(tail) && HasOpenTag(text) && ESC !in text
    ensures DimmedDisplay(text, render, tail) != text
  {
    ReplacesExactly(text, render);
    var r := ReplaceThinkingTags(text, render);
    IndexOfFinds(text, THINK_OPEN);
    IndexOfFinds(text, MM_THINK_OPEN);
    hide HasClosedPair, ReplaceThinkingTags, Includes, Dims, DimsTail;
    var i, j := IndexOf(r, THINK_OPEN), IndexOf(r, MM_THINK_OPEN);
    if i >= 0 {
      CutDims(r, i, tail);
    } else if j >= 0 {
      CutDims(r, j, tail);
    }
  }
}
