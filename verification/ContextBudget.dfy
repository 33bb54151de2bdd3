/** Truncating a conversation to a model's context window. */
module ContextBudget {
  import opened Prelude

  datatype Role = User | Assistant | ToolResult

  datatype Block = TextBlock(text: string) | ImageBlock | OtherBlock

  datatype Content = NoContent | PlainText(text: string) | Blocks(blocks: seq<Block>) | OtherContent

  /** `usage` is the total token count a provider reported, when it did. */
  datatype Message = Message(role: Role, usage: Option<nat>, content: Content)

  const TRUNCATE_NOTICE := "\U{26A0}\U{FE0F} Context truncated to fit model context window.\n\n"
  const NOTICE_MESSAGE := Message(User, None, PlainText(TRUNCATE_NOTICE))
  const IMAGE_TOKENS := 1000

  function CeilQuarter(n: nat): nat {
    (n + 3) / 4
  }

  /** 95 percent of the window, rounded down. */
  function SafeContextWindow(contextWindow: int): int {
    95 * contextWindow / 100
  }

  /** Usage counts only on assistant messages, and a reported zero counts as none. */
  predicate HasUsage(m: Message) {
    m.role.Assistant? && m.usage.Some? && m.usage.value > 0
  }

  function BlockTokens(b: Block): nat {
    match b
    case TextBlock(text) => CeilQuarter(|text|)
    case ImageBlock => IMAGE_TOKENS
    case OtherBlock => 0
  }

  function BlocksTokens(blocks: seq<Block>): nat {
    if blocks == [] then 0 else BlocksTokens(blocks[..|blocks| - 1]) + BlockTokens(blocks[|blocks| - 1])
  }

  function ContentTokens(m: Message): nat {
    match m.content
    case PlainText(text) => CeilQuarter(|text|)
    case Blocks(blocks) => BlocksTokens(blocks)
    case _ => 0
  }

  function MessageTokens(m: Message): nat {
    if HasUsage(m) then m.usage.value else ContentTokens(m)
  }

  /** The per-message estimates added up. */
  function Total(ms: seq<Message>): nat {
    if ms == [] then 0 else MessageTokens(ms[0]) + Total(ms[1..])
  }

  /** The conversation estimate: the last reported usage plus the content after it. */
  function Estimate(ms: seq<Message>): nat {
    if ms == [] then 0
    else
      var last := ms[|ms| - 1];
      if HasUsage(last) then last.usage.value else Estimate(ms[..|ms| - 1]) + ContentTokens(last)
  }

  method CountBlocks(blocks: seq<Block>, start: nat) returns (tokens: nat)
    ensures tokens == start + BlocksTokens(blocks)
  {
    tokens := start;
    for i := 0 to |blocks|
      invariant tokens == start + BlocksTokens(blocks[..i])
    {
      assert blocks[..i + 1][..i] == blocks[..i];
      if blocks[i].TextBlock? {
        tokens := tokens + CeilQuarter(|blocks[i].text|);
      } else if blocks[i].ImageBlock? {
        tokens := tokens + IMAGE_TOKENS;
      }
    }
    assert blocks[..|blocks|] == blocks;
  }

  method EstimateMessageTokens(m: Message) returns (tokens: nat)
    ensures tokens == MessageTokens(m)
  {
    if m.role.Assistant? && m.usage.Some? && m.usage.value > 0 {
      return m.usage.value;
    }
    if m.content.PlainText? {
      return CeilQuarter(|m.content.text|);
    }
    if !m.content.Blocks? {
      return 0;
    }
    tokens := CountBlocks(m.content.blocks, 0);
  }

  method EstimateTokens(ms: seq<Message>) returns (tokens: nat)
    ensures tokens == Estimate(ms)
  {
    var start := 0;
    tokens := 0;
    var i := |ms|;
    while i > 0
      invariant 0 <= i <= |ms| && start == 0 && tokens == 0
      invariant forall j :: i <= j < |ms| ==> !HasUsage(ms[j])
    {
      i := i - 1;
      if ms[i].role.Assistant? && ms[i].usage.Some? && ms[i].usage.value > 0 {
        tokens := ms[i].usage.value;
        start := i + 1;
        break;
      }
    }
    for k := start to |ms|
      invariant tokens == Estimate(ms[..k])
    {
      assert ms[..k + 1][..k] == ms[..k];
      if !HasUsage(ms[k]) {
        if ms[k].content.PlainText? {
          tokens := tokens + CeilQuarter(|ms[k].content.text|);
        } else if ms[k].content.Blocks? {
          tokens := CountBlocks(ms[k].content.blocks, tokens);
        }
      }
    }
    assert ms[..|ms|] == ms;
  }

  lemma {:induction false} TotalOfAppend(ms: seq<Message>, m: Message)
    ensures Total(ms + [m]) == Total(ms) + MessageTokens(m)
  {
    if ms != [] {
      TotalOfAppend(ms[1..], m);
      assert (ms + [m])[1..] == ms[1..] + [m];
    }
  }

  /** The conversation estimate never exceeds the sum of the per-message estimates. */
  lemma {:induction false} EstimateAtMostTotal(ms: seq<Message>)
    ensures Estimate(ms) <= Total(ms)
  {
    if ms != [] {
      var n := |ms| - 1;
      EstimateAtMostTotal(ms[..n]);
      TotalOfAppend(ms[..n], ms[n]);
      assert ms == ms[..n] + [ms[n]];
    }
  }

  predicate AnyUsage(ms: seq<Message>) {
    exists i :: 0 <= i < |ms| && HasUsage(ms[i])
  }

  /** What the notice adds to an estimate: nothing once a message behind it reports its usage. */
  function NoticeShare(ms: seq<Message>): nat {
    if AnyUsage(ms) then 0 else CeilQuarter(|TRUNCATE_NOTICE|)
  }

  lemma {:induction false} EstimateWithNotice(ms: seq<Message>)
    ensures Estimate([NOTICE_MESSAGE] + ms) == Estimate(ms) + NoticeShare(ms)
  {
    var all := [NOTICE_MESSAGE] + ms;
    if ms == [] {
      assert all == [NOTICE_MESSAGE];
    } else {
      var n := |ms| - 1;
      EstimateWithNotice(ms[..n]);
      assert all[..|all| - 1] == [NOTICE_MESSAGE] + ms[..n];
      assert HasUsage(ms[n]) ==> AnyUsage(ms);
      assert forall i :: 0 <= i < n ==> ms[..n][i] == ms[i];
    }
  }

  lemma {:induction false} LongerSuffixCostsMore(ms: seq<Message>, i: nat, j: nat)
    requires i <= j <= |ms|
    ensures Total(ms[i..]) >= Total(ms[j..])
    decreases j - i
  {
    if i < j {
      LongerSuffixCostsMore(ms, i + 1, j);
      assert ms[i..][1..] == ms[i + 1..];
    }
  }

  /** The window that truncation aims at is the greatest within 95 hundredths. */
  lemma SafeWindowIsGreatest(contextWindow: int, n: int)
    ensures n <= SafeContextWindow(contextWindow) <==> 100 * n <= 95 * contextWindow
  {
  }

  /** What a piece of content costs: a quarter token for each character, rounded up, and 1000 tokens for an image. */
  lemma BlocksCost(blocks: seq<Block>, b: Block)
    ensures BlocksTokens([]) == 0
    ensures BlocksTokens(blocks + [b])
         == BlocksTokens(blocks) + if b.ImageBlock? then 1000 else if b.TextBlock? then Quarters(|b.text|) else 0
  {
    assert (blocks + [b])[..|blocks|] == blocks;
    QuartersAre(if b.TextBlock? then |b.text| else 0);
  }

  /** How many groups of up to four cover `n`. */
  function Quarters(n: nat): nat {
    if n == 0 then 0 else if n <= 4 then 1 else 1 + Quarters(n - 4)
  }

  lemma {:induction false} QuartersAre(n: nat)
    ensures CeilQuarter(n) == Quarters(n)
  {
    if n > 4 {
      QuartersAre(n - 4);
    }
  }

  predicate Reports(m: Message) {
    m.role == Assistant && m.usage.Some? && m.usage.value != 0
  }

  function Cost(content: Content): nat {
    match content
    case PlainText(text) => Quarters(|text|)
    case Blocks(blocks) => BlocksTokens(blocks)
    case NoContent => 0
    case OtherContent => 0
  }

  /**
    What one more message does to both estimates: an assistant's reported usage stands for the whole conversation up to
    it, and for the message itself; any other message adds what its content costs.
   */
  lemma MessageCosts(ms: seq<Message>, m: Message)
    ensures Estimate([]) == 0 == Total([])
    ensures Estimate(ms + [m]) == if Reports(m) then m.usage.value else Estimate(ms) + Cost(m.content)
    ensures Total(ms + [m]) == Total(ms) + if Reports(m) then m.usage.value else Cost(m.content)
  {
    assert (ms + [m])[..|ms|] == ms;
    TotalOfAppend(ms, m);
    if m.content.PlainText? {
      QuartersAre(|m.content.text|);
    }
    hide BlocksTokens, Quarters, CeilQuarter;
  }

  /** The budget left for messages once the notice has its share. */
  function Budget(maxTokens: int): int {
    SafeContextWindow(maxTokens) - CeilQuarter(|TRUNCATE_NOTICE|)
  }

  /** `r` is `ms` cut to the longest suffix within `budget`, but to no fewer than two messages. */
  ghost predicate CutTo(ms: seq<Message>, r: seq<Message>, budget: int) {
    var cut := |ms| + 1 - |r|;
    && 1 <= cut <= |ms| - 2
    && r == [NOTICE_MESSAGE] + ms[cut..]
    && Total(ms[cut - 1..]) > budget
    && (cut < |ms| - 2 ==> Total(ms[cut..]) <= budget)
  }

  /** What truncation returns. */
  ghost predicate Truncated(ms: seq<Message>, r: seq<Message>, maxTokens: int) {
    if Estimate(ms) <= Budget(maxTokens) || |ms| <= 2 then r == ms else CutTo(ms, r, Budget(maxTokens))
  }

  method TruncateMessages(ms: seq<Message>, maxTokens: int) returns (r: seq<Message>)
    ensures Truncated(ms, r, maxTokens)
  {
    var noticeTokens := CeilQuarter(|TRUNCATE_NOTICE|);
    var effectiveMax := SafeContextWindow(maxTokens) - noticeTokens;
    var estimate := EstimateTokens(ms);
    if estimate <= effectiveMax {
      return ms;
    }
    if |ms| <= 2 {
      return ms;
    }
    EstimateAtMostTotal(ms);
    assert ms[0..] == ms;
    var runningTokens := 0;
    var cutoff := |ms| - 2;
    var i := |ms|;
    assert ms[i..] == [];
    while i > 0
      invariant 0 < i <= |ms| && runningTokens == Total(ms[i..])
      invariant i < |ms| ==> cutoff == i && runningTokens <= effectiveMax
      invariant i == |ms| ==> cutoff == |ms| - 2
      decreases i
    {
      i := i - 1;
      var tokens := EstimateMessageTokens(ms[i]);
      assert ms[i..][1..] == ms[i + 1..];
      runningTokens := runningTokens + tokens;
      if runningTokens > effectiveMax {
        LongerSuffixCostsMore(ms, Min(i, |ms| - 3), i);
        cutoff := Min(Max(i + 1, 0), |ms| - 2);
        break;
      }
      cutoff := i;
    }
    var pruned := ms[cutoff..];
    if |pruned| == |ms| {
      return ms;
    }
    r := [NOTICE_MESSAGE] + pruned;
  }

  /** A cut is strict, keeps at least two messages, and is the only one of its kind. */
  lemma CutIsStrictAndUnique(ms: seq<Message>, r: seq<Message>, r': seq<Message>, budget: int)
    requires CutTo(ms, r, budget) && CutTo(ms, r', budget)
    ensures 3 <= |r| <= |ms| && r == r'
  {
    var cut, cut' := |ms| + 1 - |r|, |ms| + 1 - |r'|;
    if cut < cut' {
      LongerSuffixCostsMore(ms, cut, cut' - 1);
    } else if cut' < cut {
      LongerSuffixCostsMore(ms, cut', cut - 1);
    }
  }

  /**
    When a cut list fits the safe window: exactly when the budget holds the last three messages, or the
    window holds the last two together with what the notice adds to them.
   */
  lemma CutFitsWindow(ms: seq<Message>, r: seq<Message>, maxTokens: int)
    requires CutTo(ms, r, Budget(maxTokens))
    ensures Estimate(r) <= SafeContextWindow(maxTokens) <==>
              || Total(ms[|ms| - 3..]) <= Budget(maxTokens)
              || Estimate(ms[|ms| - 2..]) + NoticeShare(ms[|ms| - 2..]) <= SafeContextWindow(maxTokens)
  {
    hide Total, Estimate, AnyUsage, SafeContextWindow;
    var cut := |ms| + 1 - |r|;
    EstimateWithNotice(ms[cut..]);
    if cut < |ms| - 2 {
      EstimateAtMostTotal(ms[cut..]);
      LongerSuffixCostsMore(ms, cut, |ms| - 3);
    }
  }

  /** What a caller can check beforehand to know that the result will fit. */
  predicate CanFit(ms: seq<Message>, maxTokens: int) {
    || Estimate(ms) <= Budget(maxTokens)
    || (if |ms| <= 2 then Estimate(ms) <= SafeContextWindow(maxTokens)
        else
          || Total(ms[|ms| - 3..]) <= Budget(maxTokens)
          || Estimate(ms[|ms| - 2..]) + NoticeShare(ms[|ms| - 2..]) <= SafeContextWindow(maxTokens))
  }

  /** The promise of truncation, decided for every list and window. */
  lemma TruncationFitsExactly(ms: seq<Message>, r: seq<Message>, maxTokens: int)
    requires Truncated(ms, r, maxTokens)
    ensures Estimate(r) <= SafeContextWindow(maxTokens) <==> CanFit(ms, maxTokens)
  {
    if Estimate(ms) > Budget(maxTokens) && |ms| > 2 {
      CutFitsWindow(ms, r, maxTokens);
    }
  }

  /** Three messages of twice the window each, and a single one: neither result fits. */
  lemma TwoLargeMessagesStayLarge(r: seq<Message>)
    ensures var large := Message(Assistant, Some(2000), NoContent);
            && (Truncated([large, large, large], r, 1000) <==> r == [NOTICE_MESSAGE, large, large])
            && (Truncated([large], r, 1000) <==> r == [large])
            && Estimate([NOTICE_MESSAGE, large, large]) == Estimate([large]) == 2000 > SafeContextWindow(1000)
  {
    var large := Message(Assistant, Some(2000), NoContent);
    var ms := [large, large, large];
    assert ms[1..] == [large, large];
    assert Total([large, large]) >= 2000;
  }
}
