/**
  Streaming display of reasoning text. A provider keeps appending to a block's text while the
  handlers overwrite that same text for display; the original must survive both.
 */
module HideThinking {
  import opened Prelude

  datatype Block = TextBlock(text: string) | OtherBlock

  /** What is remembered of one block: the text as the provider sent it, and how much of it is shown. */
  datatype StreamState = StreamState(original: string, lastDisplayLength: nat)

  type Transform = string -> string

  const THINK_OPEN := "<think>"
  const THINK_CLOSE := "</think>"
  const MM_THINK_OPEN := "<mm:think>"
  const MM_THINK_CLOSE := "</mm:think>"

  predicate OccursAt(text: string, part: string, i: int) {
    0 <= i <= |text| - |part| && text[i..i + |part|] == part
  }

  predicate Includes(text: string, part: string) {
    exists i :: 0 <= i <= |text| && OccursAt(text, part, i)
  }

  predicate HasOpenTag(text: string) {
    Includes(text, THINK_OPEN) || Includes(text, MM_THINK_OPEN)
  }

  predicate ContainsThinkTags(text: string) {
    || (Includes(text, THINK_OPEN) && Includes(text, THINK_CLOSE))
    || (Includes(text, MM_THINK_OPEN) && Includes(text, MM_THINK_CLOSE))
  }

  type States = map<nat, StreamState>

  /** `text.slice(from)`: empty when `from` is past the end. */
  function Slice(text: string, from: nat): string {
    if from >= |text| then "" else text[from..]
  }

  // ----- one update of one block

  function Updated(text: string, state: StreamState, display: Transform): (string, StreamState) {
    var newContent := Slice(text, state.lastDisplayLength);
    var original := state.original + newContent;
    if newContent == "" then (text, state)
    else if !HasOpenTag(original) then (text, StreamState(original, |text|))
    else (display(original), StreamState(original, |display(original)|))
  }

  function Lookup(states: Option<States>, i: nat): Option<StreamState> {
    if states.Some? && i in states.value then Some(states.value[i]) else None
  }

  function StateAt(states: States, i: nat): StreamState {
    if i in states then states[i] else StreamState("", 0)
  }

  /** `text` and the remembered state together hold everything sent; untagged text is not touched. */
  ghost predicate Tracks(text: string, state: Option<StreamState>, sent: string) {
    if state.None? then text == sent
    else
      && state.value.lastDisplayLength <= |text|
      && state.value.original + text[state.value.lastDisplayLength..] == sent
      && (!HasOpenTag(state.value.original) ==> text == sent)
  }

  lemma AppendTracks(text: string, state: Option<StreamState>, sent: string, chunk: string)
    requires Tracks(text, state, sent)
    ensures Tracks(text + chunk, state, sent + chunk)
  {
    if state.Some? {
      var n := state.value.lastDisplayLength;
      assert (text + chunk)[n..] == text[n..] + chunk;
      assert state.value.original + (text[n..] + chunk) == state.value.original + text[n..] + chunk;
    }
  }

  /** The test for tags: an opening and a closing tag of one kind occur, in whichever order. */
  lemma TagsAreOfOneKind(text: string)
    ensures ContainsThinkTags(text) <==>
              || (exists i, j :: OccursAt(text, "<think>", i) && OccursAt(text, "</think>", j))
              || (exists i, j :: OccursAt(text, "<mm:think>", i) && OccursAt(text, "</mm:think>", j))
  {
  }

  lemma EmptyHasNoTag()
    ensures !HasOpenTag("") && !ContainsThinkTags("")
  {
  }

  lemma IncludesGrows(text: string, more: string, part: string)
    requires Includes(text, part)
    ensures Includes(text + more, part)
  {
    var i :| 0 <= i <= |text| && OccursAt(text, part, i);
    assert (text + more)[i..i + |part|] == text[i..i + |part|];
    assert OccursAt(text + more, part, i);
  }

  lemma OpenTagStays(text: string, more: string)
    ensures HasOpenTag(text) ==> HasOpenTag(text + more)
  {
    if Includes(text, THINK_OPEN) {
      IncludesGrows(text, more, THINK_OPEN);
    } else if Includes(text, MM_THINK_OPEN) {
      IncludesGrows(text, more, MM_THINK_OPEN);
    }
  }

  /** Whatever the display transform is, an update loses nothing of what was sent. */
  lemma UpdateTracks(text: string, state: StreamState, sent: string, display: Transform)
    requires Tracks(text, Some(state), sent)
    ensures var (text', state') := Updated(text, state, display); Tracks(text', Some(state'), sent)
  {
    var newContent := Slice(text, state.lastDisplayLength);
    OpenTagStays(state.original, newContent);
    hide HasOpenTag;
    assert state.original + newContent == sent;
    assert text[|text|..] == "" && sent + "" == sent;
    assert display(sent)[|display(sent)|..] == "";
  }

  // ----- what the end of a message makes of a block

  /** The block as stored, and whether its original is recorded under the stored text. */
  predicate IsRecorded(original: string, final: Transform) {
    ContainsThinkTags(original) && final(original) != original
  }

  function EndBlock(block: Block, original: string, final: Transform): Block {
    if block.TextBlock? && IsRecorded(original, final) then TextBlock(final(original)) else block
  }

  type Log = seq<(string, string)>

  function RecordOf(block: Block, original: string, final: Transform): Log {
    if block.TextBlock? && IsRecorded(original, final) then [(final(original), original)] else []
  }

  /** The pairs of display text and original that the end of a message records, block by block. */
  function LogOf(blocks: seq<Block>, originals: seq<string>, final: Transform): Log
    requires |blocks| == |originals|
  {
    if blocks == [] then []
    else
      var n := |blocks| - 1;
      LogOf(blocks[..n], originals[..n], final) + RecordOf(blocks[n], originals[n], final)
  }

  function MapOf(log: Log): map<string, string> {
    if log == [] then map[] else MapOf(log[..|log| - 1])[log[|log| - 1].0 := log[|log| - 1].1]
  }

  /** What `context` puts in place of a block's text. */
  function Restored(m: map<string, string>, text: string): string {
    if text in m && m[text] != "" then m[text] else text
  }

  /** The latest pair recorded under `display`, or -1. */
  function LastWith(log: Log, display: string): (r: int)
    ensures -1 <= r < |log|
    ensures r >= 0 ==> log[r].0 == display
    ensures forall i :: r < i < |log| ==> log[i].0 != display
  {
    if log == [] then -1
    else if log[|log| - 1].0 == display then |log| - 1
    else LastWith(log[..|log| - 1], display)
  }

  lemma {:induction false} MapHoldsLatest(log: Log, display: string)
    ensures display in MapOf(log) <==> LastWith(log, display) >= 0
    ensures LastWith(log, display) >= 0 ==> MapOf(log)[display] == log[LastWith(log, display)].1
  {
    if log != [] {
      MapHoldsLatest(log[..|log| - 1], display);
    }
  }

  /** Recorded originals hold tags, and their display text differs from them. */
  ghost predicate GoodLog(log: Log) {
    forall i :: 0 <= i < |log| ==> log[i].1 != "" && log[i].0 != log[i].1
  }

  /**
    `context` gives a recorded block its original back exactly when the latest pair under the same
    display text has that original; so always, when no two originals share a display text.
   */
  lemma RestoresRecorded(log: Log, i: nat)
    requires GoodLog(log) && i < |log|
    ensures LastWith(log, log[i].0) >= i
    ensures Restored(MapOf(log), log[i].0) == log[i].1 <==> log[LastWith(log, log[i].0)].1 == log[i].1
    ensures (forall j :: 0 <= j < |log| && log[j].0 == log[i].0 ==> log[j].1 == log[i].1) ==>
              Restored(MapOf(log), log[i].0) == log[i].1
  {
    MapHoldsLatest(log, log[i].0);
  }

  /** An ordinary text is left alone exactly when no display text equals it. */
  lemma LeavesOrdinaryAlone(log: Log, text: string)
    requires GoodLog(log)
    ensures Restored(MapOf(log), text) == text <==> forall i :: 0 <= i < |log| ==> log[i].0 != text
  {
    MapHoldsLatest(log, text);
  }

  // ----- the handlers

  class ThinkingDisplay {
    var blocks: seq<Block>
    var streaming: Option<States>
    var displayToOriginal: map<string, string>
    /** What the provider has sent for each block, and everything recorded so far. */
    ghost var sent: seq<string>
    ghost var log: Log

    ghost predicate Valid()
      reads this
    {
      && LogIsKept()
      && |sent| == |blocks|
      && (streaming.Some? ==> forall i :: i in streaming.value ==> i < |blocks|)
      && (forall i :: 0 <= i < |blocks| && blocks[i].TextBlock? ==> Tracks(blocks[i].text, Lookup(streaming, i), sent[i]))
    }

    ghost predicate LogIsKept()
      reads this
    {
      displayToOriginal == MapOf(log) && GoodLog(log)
    }

    constructor ()
      ensures Valid() && blocks == [] && displayToOriginal == map[]
    {
      blocks, streaming, displayToOriginal, sent, log := [], None, map[], [], [];
    }

    /** A new message; the provider fills it from here. */
    method MessageStart(assistant: bool)
      requires LogIsKept()
      modifies this`blocks, this`sent, this`streaming
      ensures Valid() && blocks == [] && sent == []
      ensures streaming == if assistant then Some(map[]) else None
    {
      blocks, sent := [], [];
      streaming := if assistant then Some(map[]) else None;
    }

    /** The provider opens a block. */
    method OpenBlock(block: Block)
      requires Valid()
      modifies this`blocks, this`sent
      ensures Valid() && blocks == old(blocks) + [block]
      ensures sent == old(sent) + [if block.TextBlock? then block.text else ""]
    {
      blocks := blocks + [block];
      sent := sent + [if block.TextBlock? then block.text else ""];
    }

    /** The provider appends to a block: to whatever text the block has by now. */
    method Append(i: nat, chunk: string)
      requires Valid() && i < |blocks| && blocks[i].TextBlock?
      modifies this`blocks, this`sent
      ensures Valid() && blocks == old(blocks)[i := TextBlock(old(blocks)[i].text + chunk)]
      ensures sent == old(sent)[i := old(sent)[i] + chunk]
    {
      AppendTracks(blocks[i].text, Lookup(streaming, i), sent[i], chunk);
      blocks := blocks[i := TextBlock(blocks[i].text + chunk)];
      sent := sent[i := sent[i] + chunk];
    }

    /** The display handler: overwrites the text of every block that may hold a tag. */
    method MessageUpdate(assistant: bool, display: Transform)
      requires Valid()
      modifies this`blocks, this`streaming
      ensures Valid() && |blocks| == |old(blocks)|
      ensures old(streaming).None? || !assistant ==> blocks == old(blocks) && streaming == old(streaming)
      ensures old(streaming).Some? && assistant ==> streaming.Some? && forall i :: 0 <= i < |blocks| ==>
                if old(blocks)[i].TextBlock? then
                  && blocks[i].TextBlock? && i in streaming.value
                  && (blocks[i].text, streaming.value[i]) == Updated(old(blocks)[i].text, StateAt(old(streaming).value, i), display)
                else blocks[i] == old(blocks)[i]
    {
      if streaming.None? || !assistant {
        return;
      }
      hide Tracks, Updated, GoodLog, MapOf;
      for i := 0 to |blocks|
        invariant Valid() && |blocks| == |old(blocks)| && streaming.Some?
        invariant forall j :: i <= j < |blocks| ==> blocks[j] == old(blocks)[j] && Lookup(streaming, j) == old(Lookup(streaming, j))
        invariant forall j :: 0 <= j < i ==>
                    if old(blocks)[j].TextBlock? then
                      && blocks[j].TextBlock? && j in streaming.value
                      && (blocks[j].text, streaming.value[j]) == Updated(old(blocks)[j].text, StateAt(old(streaming).value, j), display)
                    else blocks[j] == old(blocks)[j]
      {
        if blocks[i].TextBlock? {
          var text, state := UpdateBlock(i, display);
          blocks := blocks[i := TextBlock(text)];
          streaming := Some(streaming.value[i := state]);
        }
      }
    }

    method UpdateBlock(i: nat, display: Transform) returns (text: string, state: StreamState)
      requires Valid() && streaming.Some? && i < |blocks| && blocks[i].TextBlock?
      ensures (text, state) == Updated(blocks[i].text, StateAt(streaming.value, i), display)
      ensures Tracks(text, Some(state), sent[i])
    {
      StartTracks(blocks[i].text, sent[i]);
      UpdateTracks(blocks[i].text, StateAt(streaming.value, i), sent[i], display);
      text := blocks[i].text;
      state := if i in streaming.value then streaming.value[i] else StreamState("", 0);
      var newContent := Slice(text, state.lastDisplayLength);
      if newContent == "" {
        return;
      }
      state := state.(original := state.original + newContent);
      if !HasOpenTag(state.original) {
        state := state.(lastDisplayLength := |text|);
        return;
      }
      text := display(state.original);
      state := state.(lastDisplayLength := |text|);
    }

    /** The final transform, from the reconstructed originals. */
    method MessageEnd(assistant: bool, final: Transform) returns (content: seq<Block>)
      requires Valid()
      modifies this`streaming, this`displayToOriginal, this`log
      ensures LogIsKept() && |content| == |blocks|
      ensures !assistant ==> content == blocks && streaming == old(streaming) && log == old(log)
      ensures assistant ==>
                && streaming.None?
                && (forall i :: 0 <= i < |blocks| ==> content[i] == EndBlock(blocks[i], sent[i], final))
                && log == old(log) + LogOf(blocks, sent, final)
    {
      if !assistant {
        return blocks;
      }
      var current := streaming;
      streaming := None;
      content := FinishBlocks(current, final);
    }

    method FinishBlocks(current: Option<States>, final: Transform) returns (content: seq<Block>)
      requires LogIsKept() && |sent| == |blocks|
      requires forall i :: 0 <= i < |blocks| && blocks[i].TextBlock? ==> Tracks(blocks[i].text, Lookup(current, i), sent[i])
      modifies this`displayToOriginal, this`log
      ensures LogIsKept() && |content| == |blocks|
      ensures forall i :: 0 <= i < |blocks| ==> content[i] == EndBlock(blocks[i], sent[i], final)
      ensures log == old(log) + LogOf(blocks, sent, final)
    {
      hide *;
      content := [];
      EmptyLog(final);
      assert blocks[..0] == [] && sent[..0] == [];
      for i := 0 to |blocks|
        invariant |content| == i && LogIsKept()
        invariant forall j :: 0 <= j < i ==> content[j] == EndBlock(blocks[j], sent[j], final)
        invariant log == old(log) + LogOf(blocks[..i], sent[..i], final)
      {
        LogOfNext(blocks, sent, final, i);
        var block := FinishBlock(i, Lookup(current, i), final);
        content := content + [block];
      }
      assert blocks[..|blocks|] == blocks && sent[..|sent|] == sent;
    }

    method FinishBlock(i: nat, state: Option<StreamState>, final: Transform) returns (block: Block)
      requires LogIsKept() && i < |blocks| && |sent| == |blocks|
      requires blocks[i].TextBlock? ==> Tracks(blocks[i].text, state, sent[i])
      modifies this`displayToOriginal, this`log
      ensures LogIsKept() && block == EndBlock(blocks[i], sent[i], final)
      ensures log == old(log) + RecordOf(blocks[i], sent[i], final)
    {
      block := blocks[i];
      if block.TextBlock? {
        var original :=
          if state.Some? then state.value.original + Slice(block.text, state.value.lastDisplayLength) else block.text;
        TracksReconstructs(block.text, state, sent[i]);
        if ContainsThinkTags(original) {
          TagsAreNotEmpty(original);
          hide Includes, ContainsThinkTags;
          var displayText := final(original);
          if displayText != original {
            MapOfNext(log, (displayText, original));
            displayToOriginal := displayToOriginal[displayText := original];
            log := log + [(displayText, original)];
            block := TextBlock(displayText);
          }
        }
      }
    }

    /** Before a model call every assistant text gets its original back, when one is recorded for it. */
    method Context(content: seq<Block>) returns (r: seq<Block>)
      ensures |r| == |content|
      ensures forall i :: 0 <= i < |r| ==>
                r[i] == if content[i].TextBlock? then TextBlock(Restored(displayToOriginal, content[i].text)) else content[i]
    {
      if displayToOriginal == map[] {
        return content;
      }
      r := [];
      for i := 0 to |content|
        invariant |r| == i
        invariant forall j :: 0 <= j < i ==>
                    r[j] == if content[j].TextBlock? then TextBlock(Restored(displayToOriginal, content[j].text)) else content[j]
      {
        var block := content[i];
        if block.TextBlock? && block.text in displayToOriginal && displayToOriginal[block.text] != "" {
          block := TextBlock(displayToOriginal[block.text]);
        }
        r := r + [block];
      }
    }
  }

  lemma StartTracks(text: string, sent: string)
    ensures text == sent ==> Tracks(text, Some(StreamState("", 0)), sent)
  {
    assert text[0..] == text && "" + text == text;
  }

  lemma TracksReconstructs(text: string, state: Option<StreamState>, sent: string)
    requires Tracks(text, state, sent)
    ensures (if state.Some? then state.value.original + Slice(text, state.value.lastDisplayLength) else text) == sent
  {
    if state.Some? && state.value.lastDisplayLength == |text| {
      assert text[|text|..] == "";
    }
  }

  lemma TagsAreNotEmpty(text: string)
    requires ContainsThinkTags(text)
    ensures text != ""
  {
    EmptyHasNoTag();
  }

  lemma EmptyLog(final: Transform)
    ensures LogOf([], [], final) == []
  {
  }

  lemma LogOfNext(blocks: seq<Block>, originals: seq<string>, final: Transform, i: nat)
    requires |blocks| == |originals| && i < |blocks|
    ensures LogOf(blocks[..i + 1], originals[..i + 1], final)
         == LogOf(blocks[..i], originals[..i], final) + RecordOf(blocks[i], originals[i], final)
  {
    assert blocks[..i + 1][..i] == blocks[..i] && originals[..i + 1][..i] == originals[..i];
  }

  lemma MapOfNext(log: Log, pair: (string, string))
    ensures MapOf(log + [pair]) == MapOf(log)[pair.0 := pair.1]
  {
    assert (log + [pair])[..|log|] == log;
  }
}
