/** What the transforms of reasoning text keep, told by the text alone: its closed pairs of tags and the characters around them. */
module ThinkingTiles {
  import opened HideThinking
  import opened ThinkingTags

  /** A closed pair of tags with what it holds, or a character outside all pairs. */
  datatype Tile = Pair(open: string, content: string, close: string) | Outside(c: char)

  function TextOf(t: Tile): string {
    if t.Pair? then t.open + t.content + t.close else [t.c]
  }

  function Spelled(ts: seq<Tile>): string {
    if ts == [] then "" else TextOf(ts[0]) + Spelled(ts[1..])
  }

  /** Tags of one kind, and the closing one is the first behind the opening one. */
  predicate IsPair(t: Tile) {
    && t.Pair?
    && ((t.open == "<think>" && t.close == "</think>") || (t.open == "<mm:think>" && t.close == "</mm:think>"))
    && forall k :: 0 <= k < |t.content| ==> !OccursAt(t.content + t.close, t.close, k)
  }

  ghost predicate Opens(text: string, open: string, close: string) {
    OccursAt(text, open, 0) && exists j :: j >= |open| && OccursAt(text, close, j)
  }

  ghost predicate PairStarts(text: string) {
    Opens(text, "<think>", "</think>") || Opens(text, "<mm:think>", "</mm:think>")
  }

  /** The tiles spell the text, and a character stands outside only where no closed pair starts. */
  ghost predicate Tiles(ts: seq<Tile>, text: string) {
    if ts == [] then text == ""
    else
      && TextOf(ts[0]) <= text
      && (if ts[0].Pair? then IsPair(ts[0]) else !PairStarts(text))
      && Tiles(ts[1..], text[|TextOf(ts[0])|..])
  }

  function OutsideText(ts: seq<Tile>): string {
    if ts == [] then "" else (if ts[0].Pair? then "" else [ts[0].c]) + OutsideText(ts[1..])
  }

  /** The characters outside, and in place of each pair its rendering. */
  function Rendered(ts: seq<Tile>, render: Render): string {
    if ts == [] then ""
    else (if ts[0].Pair? then render(TextOf(ts[0]), Spelled(ts[1..])) else [ts[0].c]) + Rendered(ts[1..], render)
  }

  // ----- the first tile

  /** `IndexOf` finds the first occurrence. */
  lemma {:induction false} IndexIsFirst(text: string, part: string, i: int)
    requires 0 <= i && OccursAt(text, part, i)
    ensures 0 <= IndexOf(text, part) <= i
  {
    if i > 0 && !OccursAt(text, part, 0) {
      OccursInRest(text, part, 1, i - 1);
      IndexIsFirst(text[1..], part, i - 1);
    }
  }

  lemma IndexIs(text: string, part: string, i: nat)
    requires OccursAt(text, part, i) && forall k :: 0 <= k < i ==> !OccursAt(text, part, k)
    ensures IndexOf(text, part) == i
  {
    IndexIsFirst(text, part, i);
  }

  /** The length found for a kind of tags is that of the pair in front, and 0 when none of this kind starts there. */
  lemma PairLengthOfPair(open: string, content: string, close: string, rest: string)
    requires forall k :: 0 <= k < |content| ==> !OccursAt(content + close, close, k)
    ensures PairLength(open + content + close + rest, open, close) == |open + content + close|
  {
    var text, behind := open + content + close + rest, content + close + rest;
    assert text[|open|..] == behind && text[..|open|] == open;
    assert behind[|content|..|content| + |close|] == close;
    forall k | 0 <= k < |content|
      ensures !OccursAt(behind, close, k)
    {
      assert !OccursAt(content + close, close, k);
      assert behind[k..k + |close|] == (content + close)[k..k + |close|];
    }
    IndexIs(behind, close, |content|);
  }

  lemma PairLengthExactly(text: string, open: string, close: string)
    requires open != ""
    ensures PairLength(text, open, close) == 0 <==> !Opens(text, open, close)
  {
    if Opens(text, open, close) {
      var j :| j >= |open| && OccursAt(text, close, j);
      FrontPairHasLength(text, open, close, j);
    }
    if PairLength(text, open, close) > 0 {
      var k := IndexOf(text[|open|..], close);
      OccursInRest(text, close, |open|, k);
    }
  }

  /** No text starts with tags of both kinds. */
  lemma KindsDiffer(text: string)
    ensures OccursAt(text, "<think>", 0) ==> !OccursAt(text, "<mm:think>", 0)
  {
    assert OccursAt(text, "<think>", 0) ==> text[..7][1] == 't';
    assert OccursAt(text, "<mm:think>", 0) ==> text[..10][1] == 'm';
  }

  lemma MatchOfPair(text: string, t: Tile)
    requires IsPair(t) && TextOf(t) <= text
    ensures MatchLength(text) == |TextOf(t)| > 0
  {
    var rest := text[|TextOf(t)|..];
    assert text == t.open + t.content + t.close + rest;
    PairLengthOfPair(t.open, t.content, t.close, rest);
    assert text[..|t.open|] == t.open;
    KindsDiffer(text);
    hide IndexOf;
  }

  lemma MatchOfNone(text: string)
    ensures MatchLength(text) == 0 <==> !PairStarts(text)
  {
    hide PairLength, Opens;
    PairLengthExactly(text, THINK_OPEN, THINK_CLOSE);
    PairLengthExactly(text, MM_THINK_OPEN, MM_THINK_CLOSE);
  }

  // ----- what is kept

  /** Stripping leaves exactly the characters outside all closed pairs, in order. */
  lemma {:induction false} StripKeepsOutside(ts: seq<Tile>, text: string)
    requires Tiles(ts, text)
    ensures StripThinkingTags(text) == OutsideText(ts)
  {
    if ts != [] {
      hide MatchLength, PairStarts, IsPair;
      StripKeepsOutside(ts[1..], text[|TextOf(ts[0])|..]);
      if ts[0].Pair? {
        MatchOfPair(text, ts[0]);
      } else {
        MatchOfNone(text);
      }
    }
  }

  lemma {:induction false} TilesSpell(ts: seq<Tile>, text: string)
    requires Tiles(ts, text)
    ensures Spelled(ts) == text
  {
    hide TextOf, PairStarts, IsPair;
    if ts != [] {
      var front := TextOf(ts[0]);
      TilesSpell(ts[1..], text[|front|..]);
      assert text == text[..|front|] + text[|front|..];
    }
  }

  /** Dimming puts each closed pair's rendering, which may look at the text behind it, in its place. */
  lemma {:induction false} ReplaceRendersPairs(ts: seq<Tile>, text: string, render: Render)
    requires Tiles(ts, text)
    ensures ReplaceThinkingTags(text, render) == Rendered(ts, render)
  {
    if ts != [] {
      hide MatchLength, PairStarts, IsPair;
      ReplaceRendersPairs(ts[1..], text[|TextOf(ts[0])|..], render);
      TilesSpell(ts[1..], text[|TextOf(ts[0])|..]);
      if ts[0].Pair? {
        MatchOfPair(text, ts[0]);
        assert text[..|TextOf(ts[0])|] == TextOf(ts[0]);
      } else {
        MatchOfNone(text);
      }
    }
  }

  /** The pair in front of a text, when a closed one of this kind starts there. */
  lemma PairInFront(text: string, open: string, close: string) returns (t: Tile)
    requires Opens(text, open, close)
    requires (open == "<think>" && close == "</think>") || (open == "<mm:think>" && close == "</mm:think>")
    ensures IsPair(t) && TextOf(t) <= text
  {
    hide IndexOf;
    var j :| j >= |open| && OccursAt(text, close, j);
    var behind := text[|open|..];
    OccursInRest(text, close, |open|, j - |open|);
    var content := ContentInFront(behind, close, j - |open|);
    t := Pair(open, content, close);
    assert text == open + behind;
    assert open + (content + close) == open + content + close;
  }

  /** What stands in front of the first closing tag. */
  lemma ContentInFront(behind: string, close: string, j: int) returns (content: string)
    requires 0 <= j && OccursAt(behind, close, j)
    ensures content + close <= behind
    ensures forall i :: 0 <= i < |content| ==> !OccursAt(content + close, close, i)
  {
    IndexIsFirst(behind, close, j);
    var k := IndexOf(behind, close);
    content := behind[..k];
    assert content + close == behind[..k + |close|];
    forall i | 0 <= i < |content|
      ensures !OccursAt(content + close, close, i)
    {
      if OccursAt(content + close, close, i) {
        assert behind[i..i + |close|] == (content + close)[i..i + |close|];
        IndexIsFirst(behind, close, i);
      }
    }
  }

  /** Every text has a tiling, so the laws above speak of every text. */
  lemma {:induction false} TextIsTiled(text: string) returns (ts: seq<Tile>)
    ensures Tiles(ts, text)
    decreases |text|
  {
    hide IsPair, Opens;
    if text == "" {
      ts := [];
    } else {
      var t := Outside(text[0]);
      if Opens(text, "<think>", "</think>") {
        t := PairInFront(text, "<think>", "</think>");
        PairIsLong(t);
      } else if Opens(text, "<mm:think>", "</mm:think>") {
        t := PairInFront(text, "<mm:think>", "</mm:think>");
        PairIsLong(t);
      }
      var rest := TextIsTiled(text[|TextOf(t)|..]);
      ts := [t] + rest;
      assert ts[1..] == rest;
    }
  }

  lemma PairIsLong(t: Tile)
    requires IsPair(t)
    ensures t.Pair? && |TextOf(t)| > 0
  {
  }

  // ----- what streams

  /** `shown` is what stands in front of the first tag of this kind. */
  ghost predicate CutsAtFirst(text: string, tag: string, shown: string) {
    && shown <= text && OccursAt(text, tag, |shown|)
    && forall k :: 0 <= k < |shown| ==> !OccursAt(text, tag, k)
  }

  lemma CutAtIndex(text: string, tag: string)
    ensures var i := IndexOf(text, tag);
            if Includes(text, tag) then i >= 0 && CutsAtFirst(text, tag, text[..i]) else i == -1
  {
    IndexOfFinds(text, tag);
    var i := IndexOf(text, tag);
    if i >= 0 {
      forall k | 0 <= k < i
        ensures !OccursAt(text, tag, k)
      {
        if OccursAt(text, tag, k) {
          IndexIsFirst(text, tag, k);
        }
      }
    }
  }

  /**
    While a message streams, the characters outside closed pairs are shown, up to the first tag among them that opens
    without being closed.
   */
  lemma StreamShowsUpToOpenTag(ts: seq<Tile>, text: string)
    requires Tiles(ts, text)
    ensures var kept, shown := OutsideText(ts), StreamingDisplay(text);
            if Includes(kept, "<think>") then CutsAtFirst(kept, "<think>", shown)
            else if Includes(kept, "<mm:think>") then CutsAtFirst(kept, "<mm:think>", shown)
            else shown == kept
  {
    StripKeepsOutside(ts, text);
    hide StripThinkingTags, Tiles, CutsAtFirst, Includes;
    CutAtIndex(OutsideText(ts), THINK_OPEN);
    CutAtIndex(OutsideText(ts), MM_THINK_OPEN);
  }

  /** The dimming mode shows the rendered text up to the same place, and the rest dimmed. */
  lemma DimmedStreamGoesOn(ts: seq<Tile>, text: string, render: Render, tail: Transform)
    requires Tiles(ts, text)
    ensures var all, display := Rendered(ts, render), DimmedDisplay(text, render, tail);
            if Includes(all, "<think>") then exists shown :: GoesOn(all, "<think>", shown, tail, display)
            else if Includes(all, "<mm:think>") then exists shown :: GoesOn(all, "<mm:think>", shown, tail, display)
            else display == all
  {
    hide ReplaceThinkingTags, Tiles, Includes, CutsAtFirst, Rendered;
    ReplaceRendersPairs(ts, text, render);
    var all, display := Rendered(ts, render), DimmedDisplay(text, render, tail);
    var i, j := IndexOf(all, "<think>"), IndexOf(all, "<mm:think>");
    CutAtIndex(all, "<think>");
    CutAtIndex(all, "<mm:think>");
    if i >= 0 {
      assert GoesOn(all, "<think>", all[..i], tail, display);
    } else if j >= 0 {
      assert GoesOn(all, "<mm:think>", all[..j], tail, display);
    }
  }

  ghost predicate GoesOn(text: string, tag: string, shown: string, tail: Transform, display: string) {
    CutsAtFirst(text, tag, shown) && |shown| <= |text| && display == shown + tail(text[|shown|..])
  }
}
