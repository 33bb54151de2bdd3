/**
  What comes back: a block over every run of provider appends and display updates, and the originals
  recorded over a whole session of messages.
 */
module ThinkingRuns {
  import opened Prelude
  import opened HideThinking
  import opened ThinkingTags

  // ----- one block while its message streams

  datatype Event = Append(chunk: string) | Update(display: Transform)

  datatype Run = Run(text: string, state: Option<StreamState>, sent: string)

  ghost function Play(es: seq<Event>): Run {
    if |es| == 0 then Run("", None, "")
    else
      var r := Play(es[..|es| - 1]);
      match es[|es| - 1]
      case Append(chunk) => Run(r.text + chunk, r.state, r.sent + chunk)
      case Update(display) =>
        var (text, state) := Updated(r.text, StateOr(r.state), display);
        Run(text, Some(state), r.sent)
  }

  function StateOr(state: Option<StreamState>): StreamState {
    if state.Some? then state.value else StreamState("", 0)
  }

  /** The overwriting update that is still in force: what had been sent by then, and its display. */
  datatype Shown = Shown(prefix: string, display: Transform)

  ghost function LastShown(es: seq<Event>): Option<Shown> {
    if |es| == 0 then None
    else
      var before, e := es[..|es| - 1], es[|es| - 1];
      var r := Play(before);
      if e.Update? && Slice(r.text, StateOr(r.state).lastDisplayLength) != "" && HasOpenTag(r.sent) then
        Some(Shown(r.sent, e.display))
      else LastShown(before)
  }

  /** The text of a block and what is remembered of it, given the update in force. */
  ghost predicate Explained(r: Run, shown: Option<Shown>) {
    && Tracks(r.text, r.state, r.sent)
    && match shown
       case None => r.text == r.sent && !HasOpenTag(StateOr(r.state).original)
       case Some(Shown(p, display)) =>
         && HasOpenTag(p) && p <= r.sent
         && r.text == display(p) + r.sent[|p|..]
         && r.state == Some(StreamState(p, |display(p)|))
  }

  lemma AppendExplained(r: Run, shown: Option<Shown>, chunk: string)
    requires Explained(r, shown)
    ensures Explained(Run(r.text + chunk, r.state, r.sent + chunk), shown)
  {
    AppendTracks(r.text, r.state, r.sent, chunk);
    hide Tracks, HasOpenTag;
    if shown.Some? {
      var n := |shown.value.prefix|;
      assert (r.sent + chunk)[n..] == r.sent[n..] + chunk;
    }
  }

  lemma UpdateExplained(r: Run, shown: Option<Shown>, display: Transform)
    requires Explained(r, shown)
    ensures var state := StateOr(r.state);
            var (text, state') := Updated(r.text, state, display);
            Explained(Run(text, Some(state'), r.sent),
                      if Slice(r.text, state.lastDisplayLength) != "" && HasOpenTag(r.sent) then Some(Shown(r.sent, display)) else shown)
  {
    var state := StateOr(r.state);
    StartTracks(r.text, r.sent);
    UpdateTracks(r.text, state, r.sent, display);
    TracksReconstructs(r.text, Some(state), r.sent);
    EmptyHasNoTag();
    var newContent := Slice(r.text, state.lastDisplayLength);
    OpenTagStays(state.original, newContent);
    hide Tracks, HasOpenTag, ContainsThinkTags;
    assert state.original + newContent == r.sent;
    assert r.sent[|r.sent|..] == "";
  }

  /** Over every run: the text is what was sent, or a display of a prefix followed by the rest. */
  lemma {:induction false} RunExplained(es: seq<Event>)
    ensures Explained(Play(es), LastShown(es))
  {
    if |es| == 0 {
      EmptyHasNoTag();
    } else {
      var before, e := es[..|es| - 1], es[|es| - 1];
      RunExplained(before);
      hide Explained, HasOpenTag, Updated;
      match e {
        case Append(chunk) => AppendExplained(Play(before), LastShown(before), chunk);
        case Update(display) => UpdateExplained(Play(before), LastShown(before), display);
      }
    }
  }

  /** Some update found an opening tag in what had been sent. */
  ghost predicate TagSeen(es: seq<Event>) {
    exists k :: 0 <= k < |es| && TagSeenAt(es, k)
  }

  ghost predicate TagSeenAt(es: seq<Event>, k: nat)
    requires k < |es|
  {
    es[k].Update? && HasOpenTag(Play(es[..k]).sent)
  }

  lemma TagSeenNext(es: seq<Event>)
    requires |es| > 0
    ensures TagSeen(es) <==> TagSeen(es[..|es| - 1]) || TagSeenAt(es, |es| - 1)
  {
    var before := es[..|es| - 1];
    assert forall k :: 0 <= k < |before| ==> before[..k] == es[..k] && before[k] == es[k];
    hide HasOpenTag, Play;
    assert forall k: nat :: k < |before| ==> (TagSeenAt(before, k) <==> TagSeenAt(es, k));
  }

  /** A block is overwritten exactly when an update found an opening tag. */
  lemma {:induction false} OverwrittenExactly(es: seq<Event>)
    ensures LastShown(es).Some? <==> TagSeen(es)
  {
    if |es| > 0 {
      var before := es[..|es| - 1];
      OverwrittenExactly(before);
      TagSeenNext(es);
      var r := Play(before);
      RunExplained(before);
      if TagSeenAt(es, |es| - 1) && Slice(r.text, StateOr(r.state).lastDisplayLength) == "" {
        NothingNewShown(r, LastShown(before));
      }
    }
  }

  lemma NothingNewShown(r: Run, shown: Option<Shown>)
    requires Explained(r, shown) && HasOpenTag(r.sent) && Slice(r.text, StateOr(r.state).lastDisplayLength) == ""
    ensures shown.Some?
  {
    StartTracks(r.text, r.sent);
    TracksReconstructs(r.text, Some(StateOr(r.state)), r.sent);
    assert StateOr(r.state).original + "" == StateOr(r.state).original;
  }

  lemma CancelRest(a: string, b: string, rest: string)
    ensures a + rest == b + rest <==> a == b
  {
    if a + rest == b + rest {
      assert |a| == |b|;
      assert a == (a + rest)[..|a|] && b == (b + rest)[..|b|];
    }
  }

  /** At the end of a run the block reads as sent exactly when the update in force changed nothing. */
  lemma ReadsAsSentExactly(es: seq<Event>)
    ensures var shown := LastShown(es);
            Play(es).text == Play(es).sent <==> (shown.Some? ==> shown.value.display(shown.value.prefix) == shown.value.prefix)
  {
    RunExplained(es);
    var r, shown := Play(es), LastShown(es);
    if shown.Some? {
      var p := shown.value.prefix;
      assert r.sent == p + r.sent[|p|..];
      CancelRest(shown.value.display(p), p, r.sent[|p|..]);
    }
  }

  // ----- a session of messages

  /** A message that has ended: its blocks as they stood, what was sent for each, and the final transform. */
  datatype Message = Message(blocks: seq<Block>, sents: seq<string>, final: Transform)

  ghost predicate WellFormed(ms: seq<Message>) {
    forall j :: 0 <= j < |ms| ==> |ms[j].blocks| == |ms[j].sents|
  }

  /** Everything the messages have recorded, in order. */
  ghost function SessionLog(ms: seq<Message>): Log
    requires WellFormed(ms)
  {
    if |ms| == 0 then []
    else
      var m := ms[|ms| - 1];
      SessionLog(ms[..|ms| - 1]) + LogOf(m.blocks, m.sents, m.final)
  }

  /** The text of a block in the stored message, and what `context` makes of it. */
  ghost function Stored(m: Message, i: nat): string
    requires |m.blocks| == |m.sents| && i < |m.blocks| && m.blocks[i].TextBlock?
  {
    EndBlock(m.blocks[i], m.sents[i], m.final).text
  }

  ghost predicate ComesBack(log: Log, m: Message, i: nat)
    requires |m.blocks| == |m.sents| && i < |m.blocks| && m.blocks[i].TextBlock?
  {
    Restored(MapOf(log), Stored(m, i)) == m.sents[i]
  }

  lemma {:induction false} RecordedIsLogged(blocks: seq<Block>, originals: seq<string>, final: Transform, i: nat)
    requires |blocks| == |originals| && i < |blocks| && blocks[i].TextBlock? && IsRecorded(originals[i], final)
    ensures (final(originals[i]), originals[i]) in LogOf(blocks, originals, final)
    decreases |blocks|
  {
    var n := |blocks| - 1;
    hide IsRecorded;
    if i < n {
      RecordedIsLogged(blocks[..n], originals[..n], final, i);
    }
  }

  lemma {:induction false} LoggedIsRecorded(blocks: seq<Block>, originals: seq<string>, final: Transform)
    requires |blocks| == |originals|
    ensures RecordedWith(LogOf(blocks, originals, final), final)
  {
    if |blocks| > 0 {
      var n := |blocks| - 1;
      LoggedIsRecorded(blocks[..n], originals[..n], final);
      hide IsRecorded;
    }
  }

  /** Every pair was recorded with this transform. */
  ghost predicate RecordedWith(log: Log, final: Transform) {
    forall k :: 0 <= k < |log| ==> IsRecorded(log[k].1, final) && log[k].0 == final(log[k].1)
  }

  lemma RecordedIsGood(log: Log, final: Transform)
    requires RecordedWith(log, final)
    ensures GoodLog(log)
  {
    EmptyHasNoTag();
    hide ContainsThinkTags, HasOpenTag;
  }

  lemma {:induction false} SessionIsGood(ms: seq<Message>)
    requires WellFormed(ms)
    ensures GoodLog(SessionLog(ms))
  {
    if |ms| > 0 {
      var m := ms[|ms| - 1];
      SessionIsGood(ms[..|ms| - 1]);
      LoggedIsRecorded(m.blocks, m.sents, m.final);
      RecordedIsGood(LogOf(m.blocks, m.sents, m.final), m.final);
      hide RecordedWith, LogOf;
    }
  }

  /** The log only grows: what a message has recorded stays in it. */
  lemma {:induction false} SessionKeeps(ms: seq<Message>, j: nat, pair: (string, string))
    requires WellFormed(ms) && j < |ms| && pair in LogOf(ms[j].blocks, ms[j].sents, ms[j].final)
    ensures pair in SessionLog(ms)
    decreases |ms|
  {
    if j < |ms| - 1 {
      SessionKeeps(ms[..|ms| - 1], j, pair);
    }
  }

  lemma RestoredExactly(log: Log, stored: string, sent: string)
    requires GoodLog(log)
    ensures var k := LastWith(log, stored);
            Restored(MapOf(log), stored) == sent <==> if k >= 0 then log[k].1 == sent else stored == sent
  {
    MapHoldsLatest(log, stored);
  }

  /**
    When a block of a message comes back at any later point of the session. A recorded one: exactly when
    the latest pair under its display text has its original. One that is not recorded: exactly when it
    reads as sent and no pair has its text, or the latest pair that has it restores what was sent.
   */
  lemma ComesBackExactly(ms: seq<Message>, j: nat, i: nat)
    requires WellFormed(ms) && j < |ms| && i < |ms[j].blocks| && ms[j].blocks[i].TextBlock?
    ensures var m, log := ms[j], SessionLog(ms);
            var text, sent := m.blocks[i].text, m.sents[i];
            ComesBack(log, m, i) <==>
              if IsRecorded(sent, m.final) then
                var k := LastWith(log, m.final(sent)); k >= 0 && log[k].1 == sent
              else
                var k := LastWith(log, text); if k >= 0 then log[k].1 == sent else text == sent
  {
    var m, log := ms[j], SessionLog(ms);
    SessionIsGood(ms);
    RestoredExactly(log, Stored(m, i), m.sents[i]);
    if IsRecorded(m.sents[i], m.final) {
      var pair := (m.final(m.sents[i]), m.sents[i]);
      RecordedIsLogged(m.blocks, m.sents, m.final, i);
      SessionKeeps(ms, j, pair);
      hide LogOf, SessionLog, MapOf, IsRecorded;
      var k :| 0 <= k < |log| && log[k] == pair;
      assert LastWith(log, log[k].0) >= k;
    }
  }

  /** No two originals share a display text, and no text that was not recorded is a display text. */
  ghost predicate NoClash(ms: seq<Message>)
    requires WellFormed(ms)
  {
    var log := SessionLog(ms);
    && (forall k, l :: 0 <= k < |log| && 0 <= l < |log| && log[k].0 == log[l].0 ==> log[k].1 == log[l].1)
    && forall j, i, k :: 0 <= j < |ms| && 0 <= i < |ms[j].blocks| && Ordinary(ms[j], i) && 0 <= k < |log| ==>
         log[k].0 != ms[j].blocks[i].text
  }

  ghost predicate Ordinary(m: Message, i: nat) {
    i < |m.blocks| && i < |m.sents| && m.blocks[i].TextBlock? && !IsRecorded(m.sents[i], m.final)
  }

  /** Without clashes exactly the blocks come back that were recorded or read as sent. */
  lemma WithoutClashComesBack(ms: seq<Message>, j: nat, i: nat)
    requires WellFormed(ms) && NoClash(ms) && j < |ms| && i < |ms[j].blocks| && ms[j].blocks[i].TextBlock?
    ensures ComesBack(SessionLog(ms), ms[j], i) <==>
              IsRecorded(ms[j].sents[i], ms[j].final) || ms[j].blocks[i].text == ms[j].sents[i]
  {
    var m, log := ms[j], SessionLog(ms);
    ComesBackExactly(ms, j, i);
    if IsRecorded(m.sents[i], m.final) {
      RecordedIsLogged(m.blocks, m.sents, m.final, i);
      SessionKeeps(ms, j, (m.final(m.sents[i]), m.sents[i]));
      hide LogOf, SessionLog, ComesBack, IsRecorded;
      var k :| 0 <= k < |log| && log[k] == (m.final(m.sents[i]), m.sents[i]);
      assert LastWith(log, log[k].0) >= k;
    } else {
      assert Ordinary(m, i);
      hide LogOf, SessionLog, ComesBack, IsRecorded;
    }
  }

  // ----- the condition on what was sent

  /** No update shows a tagged prefix of what was sent as it is. */
  ghost predicate AltersTagged(es: seq<Event>, sent: string) {
    forall k, p :: 0 <= k < |es| && es[k].Update? && p <= sent && HasOpenTag(p) ==> es[k].display(p) != p
  }

  lemma {:induction false} ShownAlters(es: seq<Event>, sent: string)
    requires AltersTagged(es, sent) && LastShown(es).Some?
    ensures var p := LastShown(es).value.prefix; p <= sent && HasOpenTag(p) ==> LastShown(es).value.display(p) != p
  {
    var before, e := es[..|es| - 1], es[|es| - 1];
    hide HasOpenTag, Play;
    if LastShown(before).Some? {
      assert forall k :: 0 <= k < |before| ==> before[k] == es[k];
      ShownAlters(before, sent);
    }
  }

  /**
    Whatever the provider sends and whenever updates run, with displays that alter tagged text and a final
    transform that changes a text exactly when some pair is closed in it: without clashes a block comes back
    exactly when some pair was closed, or no update ever found an opening tag.
   */
  lemma TaggedComesBackExactly(ms: seq<Message>, j: nat, i: nat, es: seq<Event>)
    requires WellFormed(ms) && NoClash(ms) && j < |ms| && i < |ms[j].blocks|
    requires ms[j].blocks[i] == TextBlock(Play(es).text) && ms[j].sents[i] == Play(es).sent
    requires AltersTagged(es, Play(es).sent)
    requires IsRecorded(Play(es).sent, ms[j].final) <==> HasClosedPair(Play(es).sent)
    ensures ComesBack(SessionLog(ms), ms[j], i) <==> HasClosedPair(Play(es).sent) || !TagSeen(es)
  {
    WithoutClashComesBack(ms, j, i);
    ReadsAsSentExactly(es);
    OverwrittenExactly(es);
    if TagSeen(es) {
      RunExplained(es);
      ShownAlters(es, Play(es).sent);
    }
    hide ComesBack, IsRecorded, HasClosedPair, TagSeen, SessionLog, NoClash;
  }

  // ----- the hiding mode

  ghost predicate Hides(es: seq<Event>) {
    forall k :: 0 <= k < |es| && es[k].Update? ==> forall text :: es[k].display(text) == StreamingDisplay(text)
  }

  ghost predicate Strips(final: Transform) {
    forall text :: final(text) == StripThinkingTags(text)
  }

  lemma HidingAlters(es: seq<Event>, sent: string)
    requires Hides(es)
    ensures AltersTagged(es, sent)
  {
    hide StreamingDisplay, HasOpenTag;
    forall k, p | 0 <= k < |es| && es[k].Update? && p <= sent && HasOpenTag(p)
      ensures es[k].display(p) != p
    {
      DisplayShortens(p);
    }
  }

  /** Stripping records exactly the texts in which some pair of tags is closed. */
  lemma StrippedIsRecorded(sent: string, final: Transform)
    requires Strips(final)
    ensures IsRecorded(sent, final) <==> HasClosedPair(sent)
  {
    StripsExactly(sent);
    if HasClosedPair(sent) {
      ClosedHasTags(sent);
    }
    hide HasClosedPair, ContainsThinkTags;
  }

  /** The condition in the hiding mode, for all texts. */
  lemma HiddenComesBackExactly(ms: seq<Message>, j: nat, i: nat, es: seq<Event>)
    requires WellFormed(ms) && NoClash(ms) && j < |ms| && i < |ms[j].blocks|
    requires Hides(es) && Strips(ms[j].final)
    requires ms[j].blocks[i] == TextBlock(Play(es).text) && ms[j].sents[i] == Play(es).sent
    ensures ComesBack(SessionLog(ms), ms[j], i) <==> HasClosedPair(Play(es).sent) || !TagSeen(es)
  {
    HidingAlters(es, Play(es).sent);
    StrippedIsRecorded(Play(es).sent, ms[j].final);
    hide *;
    TaggedComesBackExactly(ms, j, i, es);
  }

  // ----- the dimming mode

  ghost predicate DimsUpdates(es: seq<Event>, render: Render, tail: Transform) {
    forall k :: 0 <= k < |es| && es[k].Update? ==> forall text :: es[k].display(text) == DimmedDisplay(text, render, tail)
  }

  ghost predicate DimsFinally(final: Transform, render: Render) {
    forall text :: final(text) == ReplaceThinkingTags(text, render)
  }

  lemma DimmingAlters(es: seq<Event>, sent: string, render: Render, tail: Transform)
    requires Dims(render) && DimsTail(tail) && DimsUpdates(es, render, tail) && ESC !in sent
    ensures AltersTagged(es, sent)
  {
    hide DimmedDisplay, HasOpenTag, Dims, DimsTail;
    forall k, p | 0 <= k < |es| && es[k].Update? && p <= sent && HasOpenTag(p)
      ensures es[k].display(p) != p
    {
      assert sent[..|p|] == p;
      DimmedDisplayDiffers(p, render, tail);
    }
  }

  lemma DimmedIsRecorded(sent: string, final: Transform, render: Render)
    requires Dims(render) && DimsFinally(final, render) && ESC !in sent
    ensures IsRecorded(sent, final) <==> HasClosedPair(sent)
  {
    ReplacesExactly(sent, render);
    if HasClosedPair(sent) {
      ClosedHasTags(sent);
    }
    hide HasClosedPair, ContainsThinkTags, Dims;
  }

  /** The same condition in the dimming mode, when what was sent holds no escape byte. */
  lemma DimmedComesBackExactly(ms: seq<Message>, j: nat, i: nat, es: seq<Event>, shown: Render, tail: Transform, kept: Render)
    requires WellFormed(ms) && NoClash(ms) && j < |ms| && i < |ms[j].blocks|
    requires Dims(shown) && DimsTail(tail) && DimsUpdates(es, shown, tail)
    requires Dims(kept) && DimsFinally(ms[j].final, kept) && ESC !in Play(es).sent
    requires ms[j].blocks[i] == TextBlock(Play(es).text) && ms[j].sents[i] == Play(es).sent
    ensures ComesBack(SessionLog(ms), ms[j], i) <==> HasClosedPair(Play(es).sent) || !TagSeen(es)
  {
    DimmingAlters(es, Play(es).sent, shown, tail);
    DimmedIsRecorded(Play(es).sent, ms[j].final, kept);
    hide *;
    TaggedComesBackExactly(ms, j, i, es);
  }

  // ----- what is lost

  ghost function OneUpdate(sent: string, display: Transform): seq<Event> {
    [Append(sent), Update(display)]
  }

  lemma OneUpdatePlays(sent: string, display: Transform)
    ensures var es := OneUpdate(sent, display);
            Play(es).sent == sent && (HasOpenTag(sent) ==> LastShown(es) == Some(Shown(sent, display)))
  {
    var es := OneUpdate(sent, display);
    assert es[..1] == [Append(sent)] && es[..1][..0] == [];
    assert es[..|es| - 1] == es[..1];
    assert "" + sent == sent;
    assert Play(es[..1]) == Run(sent, None, sent);
    EmptyHasNoTag();
    hide HasOpenTag, ContainsThinkTags, Updated;
  }

  /**
    A text with an opening tag, updated once with a display that alters it and ended with a transform that
    does not record it, is lost. In both modes that is every text without escapes and without a closed pair.
   */
  lemma UnclosedThinkIsLost(sent: string, display: Transform, final: Transform)
    requires HasOpenTag(sent) && display(sent) != sent && !IsRecorded(sent, final)
    ensures var r := Play(OneUpdate(sent, display));
            var m := Message([TextBlock(r.text)], [r.sent], final);
            m.sents == [sent] && !ComesBack(SessionLog([m]), m, 0)
  {
    var es := OneUpdate(sent, display);
    var r := Play(es);
    var m := Message([TextBlock(r.text)], [r.sent], final);
    OneUpdatePlays(sent, display);
    ReadsAsSentExactly(es);
    hide HasOpenTag, IsRecorded, Play, LastShown, OneUpdate;
    assert m.blocks[..0] == [] && [m][..0] == [] && m.sents[..0] == [];
    assert LogOf(m.blocks, m.sents, final) == [];
    assert SessionLog([m]) == [];
    ComesBackExactly([m], 0, 0);
  }

  /** Two such texts: a tag that never closes, and one that only a stray closing tag precedes. */
  lemma LostTexts()
    ensures HasOpenTag("<think>a") && !HasClosedPair("<think>a")
    ensures HasOpenTag("</think>a<think>b") && !HasClosedPair("</think>a<think>b") && ContainsThinkTags("</think>a<think>b")
  {
    assert OccursAt("<think>a", THINK_OPEN, 0);
    var stray := "</think>a<think>b";
    assert OccursAt(stray, THINK_OPEN, 9) && OccursAt(stray, THINK_CLOSE, 0);
    forall j | OccursAt(stray, THINK_CLOSE, j)
      ensures j < 7
    {
      assert stray[j..j + 8][1] == '/';
    }
    forall j
      ensures !OccursAt(stray, MM_THINK_OPEN, j)
    {
      if OccursAt(stray, MM_THINK_OPEN, j) {
        OccursLetter(stray, MM_THINK_OPEN, j, 1);
      }
    }
  }

  lemma OccursLetter(text: string, part: string, i: int, c: nat)
    requires OccursAt(text, part, i) && c < |part|
    ensures text[i + c] == part[c]
  {
    assert text[i..i + |part|][c] == part[c];
  }
}
