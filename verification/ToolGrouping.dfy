/** Grouping neighbouring tool calls under one summary line. */
module ToolGrouping {
  import opened Prelude

  datatype Category = File | Pattern | Directory | Edit | Command | Operation

  /** A child of the transcript: a spacer, something that is no tool call, or a tool call. */
  datatype Component =
    | Spacer(id: nat)
    | Other(id: nat)
    | Tool(id: nat, category: Category, failed: bool, expanded: bool)

  predicate BreaksRun(c: Component) {
    !c.Tool? || c.failed || c.category.Operation?
  }

  function IndexOf(self: Component, children: seq<Component>): (r: int)
    ensures -1 <= r < |children|
    ensures r >= 0 ==> children[r] == self
    ensures r < 0 ==> self !in children
    ensures forall i :: 0 <= i < r ==> children[i] != self
  {
    if children == [] then -1
    else if children[0] == self then 0
    else
      var r := IndexOf(self, children[1..]);
      if r < 0 then -1 else r + 1
  }

  /** Walking backward from below `k`, `start` being the earliest tool of the run so far. */
  function WalkBack(children: seq<Component>, k: nat, start: nat): nat
    requires k <= |children|
  {
    if k == 0 then start
    else if children[k - 1].Spacer? then WalkBack(children, k - 1, start)
    else if BreaksRun(children[k - 1]) then start
    else WalkBack(children, k - 1, k - 1)
  }

  function WalkAhead(children: seq<Component>, k: nat, end: nat): nat
    requires k <= |children|
    decreases |children| - k
  {
    if k == |children| then end
    else if children[k].Spacer? then WalkAhead(children, k + 1, end)
    else if BreaksRun(children[k]) then end
    else WalkAhead(children, k + 1, k)
  }

  /** The groupable tools at positions `lo` to `hi - 1`. */
  function Tools(children: seq<Component>, lo: nat, hi: nat): seq<Component>
    requires lo <= hi <= |children|
  {
    if lo == hi then []
    else Tools(children, lo, hi - 1) + if BreaksRun(children[hi - 1]) then [] else [children[hi - 1]]
  }

  lemma {:induction false} WalkBackBounds(children: seq<Component>, k: nat, start: nat)
    requires k <= start < |children|
    ensures WalkBack(children, k, start) <= start
  {
    if k > 0 {
      if children[k - 1].Spacer? {
        WalkBackBounds(children, k - 1, start);
      } else if !BreaksRun(children[k - 1]) {
        WalkBackBounds(children, k - 1, k - 1);
      }
    }
  }

  lemma {:induction false} WalkAheadBounds(children: seq<Component>, k: nat, end: nat)
    requires end < k <= |children|
    ensures end <= WalkAhead(children, k, end) < |children|
    decreases |children| - k
  {
    if k < |children| {
      if children[k].Spacer? {
        WalkAheadBounds(children, k + 1, end);
      } else if !BreaksRun(children[k]) {
        WalkAheadBounds(children, k + 1, k);
      }
    }
  }

  function Start(children: seq<Component>, i: nat): (s: nat)
    requires i < |children|
    ensures s <= i
  {
    WalkBackBounds(children, i, i);
    WalkBack(children, i, i)
  }

  function End(children: seq<Component>, i: nat): (e: nat)
    requires i < |children|
    ensures i <= e < |children|
  {
    WalkAheadBounds(children, i + 1, i);
    WalkAhead(children, i + 1, i)
  }

  function GroupAt(children: seq<Component>, i: nat): seq<Component>
    requires i < |children|
  {
    Tools(children, Start(children, i), End(children, i) + 1)
  }

  function ToolGroup(self: Component, children: seq<Component>): seq<Component> {
    var i := IndexOf(self, children);
    if i == -1 then (if BreaksRun(self) then [] else [self]) else GroupAt(children, i)
  }

  method FindToolGroup(self: Component, children: seq<Component>) returns (group: seq<Component>)
    ensures group == ToolGroup(self, children)
  {
    var selfIdx := IndexOf(self, children);
    if selfIdx == -1 {
      return if BreaksRun(self) then [] else [self];
    }
    var start := selfIdx;
    var i := selfIdx;
    while i > 0
      invariant 0 <= i <= start <= selfIdx
      invariant WalkBack(children, i, start) == Start(children, selfIdx)
    {
      i := i - 1;
      var child := children[i];
      if child.Spacer? {
        continue;
      }
      if BreaksRun(child) {
        break;
      }
      start := i;
    }
    assert start == Start(children, selfIdx);
    var end := selfIdx;
    i := selfIdx + 1;
    while i < |children|
      invariant selfIdx <= end < i <= |children|
      invariant WalkAhead(children, i, end) == End(children, selfIdx)
    {
      var child := children[i];
      i := i + 1;
      if child.Spacer? {
        continue;
      }
      if BreaksRun(child) {
        break;
      }
      end := i - 1;
    }
    assert end == End(children, selfIdx);
    group := [];
    for k := start to end + 1
      invariant group == Tools(children, start, k)
    {
      var child := children[k];
      if child.Spacer? {
        continue;
      }
      if BreaksRun(child) {
        continue;
      }
      group := group + [child];
    }
  }

  // ----- runs, described without walking

  /** Nothing but spacers and groupable tools from position `i` to position `j`. */
  ghost predicate Connected(children: seq<Component>, i: nat, j: nat)
    requires i < |children| && j < |children|
  {
    forall k :: Min(i, j) <= k <= Max(i, j) ==> children[k].Spacer? || IsGroupable(children[k])
  }

  /** A tool call that has not failed and has a category of its own. */
  predicate IsGroupable(c: Component) {
    c.Tool? && !c.failed && (c.category.File? || c.category.Pattern? || c.category.Directory? || c.category.Edit? || c.category.Command?)
  }

  predicate Groupable(children: seq<Component>, i: nat) {
    i < |children| && IsGroupable(children[i])
  }

  /** Each component is its own object. */
  ghost predicate Distinct(children: seq<Component>) {
    forall i, j :: 0 <= i < j < |children| ==> children[i] != children[j]
  }

  lemma {:induction false} WalkBackReaches(children: seq<Component>, k: nat, start: nat)
    requires k <= start && Groupable(children, start) && forall j :: k <= j < start ==> children[j].Spacer?
    ensures var s := WalkBack(children, k, start);
            && s <= start && Groupable(children, s) && Connected(children, s, start)
            && forall j :: 0 <= j < s && Groupable(children, j) ==> !Connected(children, j, start)
  {
    if k > 0 {
      if children[k - 1].Spacer? {
        WalkBackReaches(children, k - 1, start);
      } else if !BreaksRun(children[k - 1]) {
        WalkBackReaches(children, k - 1, k - 1);
      } else {
        assert forall j :: 0 <= j < start && Groupable(children, j) && Connected(children, j, start) ==> j >= k;
      }
    }
  }

  lemma {:induction false} WalkAheadReaches(children: seq<Component>, k: nat, end: nat)
    requires end < k <= |children| && Groupable(children, end) && forall j :: end < j < k ==> children[j].Spacer?
    ensures var e := WalkAhead(children, k, end);
            && end <= e && Groupable(children, e) && Connected(children, end, e)
            && forall j :: e < j && Groupable(children, j) ==> !Connected(children, end, j)
    decreases |children| - k
  {
    if k < |children| {
      if children[k].Spacer? {
        WalkAheadReaches(children, k + 1, end);
      } else if !BreaksRun(children[k]) {
        WalkAheadReaches(children, k + 1, k);
      } else {
        assert forall j :: end < j && Groupable(children, j) && Connected(children, end, j) ==> j < k;
      }
    }
  }

  /** The walks find the first and the last tool connected to the one they start from. */
  lemma RunEnds(children: seq<Component>, i: nat)
    requires Groupable(children, i)
    ensures var s, e := Start(children, i), End(children, i);
            && Groupable(children, s) && Groupable(children, e) && Connected(children, s, i) && Connected(children, i, e)
            && (forall j :: 0 <= j < s && Groupable(children, j) ==> !Connected(children, j, i))
            && (forall j :: e < j && Groupable(children, j) ==> !Connected(children, i, j))
  {
    WalkBackReaches(children, i, i);
    WalkAheadReaches(children, i + 1, i);
  }

  lemma {:induction false} ToolsAre(children: seq<Component>, lo: nat, hi: nat)
    requires lo <= hi <= |children|
    ensures forall c :: c in Tools(children, lo, hi) <==> exists j :: lo <= j < hi && Groupable(children, j) && children[j] == c
  {
    if lo < hi {
      ToolsAre(children, lo, hi - 1);
      forall c
        ensures c in Tools(children, lo, hi) <==> exists j :: lo <= j < hi && Groupable(children, j) && children[j] == c
      {
        if c == children[hi - 1] && !BreaksRun(c) {
          assert Groupable(children, hi - 1);
        }
        if c in Tools(children, lo, hi - 1) {
          var j :| lo <= j < hi - 1 && Groupable(children, j) && children[j] == c;
          assert Groupable(children, j);
        }
      }
    }
  }

  lemma {:induction false} ToolsInOrder(children: seq<Component>, lo: nat, hi: nat)
    requires lo <= hi <= |children| && Distinct(children)
    ensures InOrder(Tools(children, lo, hi), children)
  {
    if lo < hi {
      ToolsInOrder(children, lo, hi - 1);
      var front := Tools(children, lo, hi - 1);
      ToolsAre(children, lo, hi - 1);
      forall a, i, j | 0 <= a < |front| && 0 <= i < |children| && 0 <= j < |children|
                       && children[i] == front[a] && children[j] == children[hi - 1]
        ensures i < j
      {
        assert front[a] in front;
      }
    }
  }

  /** The tools stand in the order of the transcript, each once. */
  ghost predicate InOrder(tools: seq<Component>, children: seq<Component>) {
    forall a, b, i, j :: 0 <= a < b < |tools| && 0 <= i < |children| && 0 <= j < |children| ==>
      children[i] == tools[a] && children[j] == tools[b] ==> i < j
  }

  /** Every group, also that of a component that breaks runs, is in the order of the transcript. */
  lemma GroupInOrder(children: seq<Component>, i: nat)
    requires Distinct(children) && i < |children|
    ensures InOrder(GroupAt(children, i), children)
  {
    hide Tools, Distinct, InOrder;
    ToolsInOrder(children, Start(children, i), End(children, i) + 1);
  }

  /** A component that is not among the children is a group of its own, or of nothing, and renders as it is. */
  lemma StrangerStandsAlone(self: Component, children: seq<Component>)
    requires self !in children
    ensures ToolGroup(self, children) == if IsGroupable(self) then [self] else []
    ensures Render(self, children) == Original
  {
  }

  /** A tool's group holds exactly the tools it is connected to. */
  lemma GroupIsRun(children: seq<Component>, i: nat, j: nat)
    requires Distinct(children) && Groupable(children, i) && Groupable(children, j)
    ensures children[j] in GroupAt(children, i) <==> Connected(children, i, j)
  {
    RunEnds(children, i);
    ToolsAre(children, Start(children, i), End(children, i) + 1);
    var s, e := Start(children, i), End(children, i);
    if children[j] in GroupAt(children, i) {
      var k :| s <= k < e + 1 && Groupable(children, k) && children[k] == children[j];
      assert k == j;
    }
    if Connected(children, i, j) {
      assert Connected(children, j, i);
      assert s <= j <= e;
    }
  }

  /** Whatever is in a tool's group stands at a groupable position. */
  lemma GroupMemberStands(children: seq<Component>, i: nat, c: Component) returns (k: nat)
    requires Groupable(children, i) && c in GroupAt(children, i)
    ensures Groupable(children, k) && children[k] == c
  {
    ToolsAre(children, Start(children, i), End(children, i) + 1);
    k :| k < |children| && Groupable(children, k) && children[k] == c;
  }

  lemma ConnectedThrough(children: seq<Component>, i: nat, k: nat, j: nat)
    requires i < |children| && k < |children| && j < |children|
    requires Connected(children, i, k) && Connected(children, j, k)
    ensures Connected(children, i, j)
  {
  }

  /** Connected tools compute the same group, so the groups partition the groupable tools. */
  lemma GroupsPartition(children: seq<Component>, i: nat, j: nat)
    requires Distinct(children) && Groupable(children, i) && Groupable(children, j)
    ensures Connected(children, i, j) ==> GroupAt(children, i) == GroupAt(children, j)
    ensures !Connected(children, i, j) ==> forall c :: !(c in GroupAt(children, i) && c in GroupAt(children, j))
  {
    hide Connected, Start, End, Distinct;
    if Connected(children, i, j) {
      SameEnds(children, i, j);
    } else {
      hide GroupAt;
      forall c
        ensures !(c in GroupAt(children, i) && c in GroupAt(children, j))
      {
        if c in GroupAt(children, i) && c in GroupAt(children, j) {
          var k := GroupMemberStands(children, i, c);
          GroupIsRun(children, i, k);
          GroupIsRun(children, j, k);
          ConnectedThrough(children, i, k, j);
        }
      }
    }
  }

  lemma SameEnds(children: seq<Component>, i: nat, j: nat)
    requires Groupable(children, i) && Groupable(children, j) && Connected(children, i, j)
    ensures Start(children, i) == Start(children, j) && End(children, i) == End(children, j)
  {
    RunEnds(children, i);
    RunEnds(children, j);
    var s, s', e, e' := Start(children, i), Start(children, j), End(children, i), End(children, j);
    assert Connected(children, s', i) && Connected(children, s, j);
    assert Connected(children, i, e') && Connected(children, j, e);
  }

  // ----- who renders what

  datatype Rendering = Original | Nothing | Summary

  /** `patchedGroupRender` for a component whose parent is known. */
  function Render(self: Component, children: seq<Component>): Rendering {
    var run := ToolGroup(self, children);
    if |run| < 2 then Original
    else
      var last := run[|run| - 1];
      if last.Tool? && last.expanded then Original
      else if last != self then Nothing
      else Summary
  }

  lemma IndexOfDistinct(children: seq<Component>, i: nat)
    requires Distinct(children) && i < |children|
    ensures IndexOf(children[i], children) == i
  {
  }

  /**
    Within the group of a tool, all members agree: a single or an expanded group renders as it is,
    otherwise exactly the last member renders the summary and every other member renders nothing.
   */
  lemma OneMemberRendersSummary(children: seq<Component>, i: nat, j: nat)
    requires Distinct(children) && Groupable(children, i) && Groupable(children, j) && Connected(children, i, j)
    ensures var group, r := GroupAt(children, i), Render(children[j], children);
            && group != [] && group[|group| - 1].Tool?
            && (|group| < 2 || group[|group| - 1].expanded ==> r == Original)
            && (|group| >= 2 && !group[|group| - 1].expanded ==>
                  r == if j == End(children, i) then Summary else Nothing)
  {
    IndexOfDistinct(children, j);
    SameEnds(children, i, j);
    RunEnds(children, i);
    var e := End(children, i);
    assert GroupAt(children, i)[|GroupAt(children, i)| - 1] == children[e];
  }

  // ----- a tool call that breaks a run

  /** The group whose last tool stands directly before position `k`, spacers ignored. */
  function RunBefore(children: seq<Component>, k: nat): seq<Component>
    requires k <= |children|
  {
    if k == 0 then []
    else if children[k - 1].Spacer? then RunBefore(children, k - 1)
    else if !IsGroupable(children[k - 1]) then []
    else GroupAt(children, k - 1)
  }

  /** The group whose first tool stands directly at or after position `k`, spacers ignored. */
  function RunAfter(children: seq<Component>, k: nat): seq<Component>
    requires k <= |children|
    decreases |children| - k
  {
    if k == |children| then []
    else if children[k].Spacer? then RunAfter(children, k + 1)
    else if !IsGroupable(children[k]) then []
    else GroupAt(children, k)
  }

  lemma {:induction false} ToolsSplit(children: seq<Component>, lo: nat, mid: nat, hi: nat)
    requires lo <= mid <= hi <= |children|
    ensures Tools(children, lo, hi) == Tools(children, lo, mid) + Tools(children, mid, hi)
  {
    if mid < hi {
      ToolsSplit(children, lo, mid, hi - 1);
    }
  }

  lemma {:induction false} NoTools(children: seq<Component>, lo: nat, hi: nat)
    requires lo <= hi <= |children| && forall j :: lo <= j < hi ==> !IsGroupable(children[j])
    ensures Tools(children, lo, hi) == []
  {
    if lo < hi {
      NoTools(children, lo, hi - 1);
    }
  }

  lemma {:induction false} AheadOfBreaker(children: seq<Component>, k: nat, i: nat, end: nat)
    requires k <= i < |children| && !IsGroupable(children[i]) && !children[i].Spacer?
    requires forall j :: k <= j < i ==> children[j].Spacer?
    ensures WalkAhead(children, k, end) == end
    decreases i - k
  {
    if k < i {
      AheadOfBreaker(children, k + 1, i, end);
    }
  }

  lemma {:induction false} BackFromBreaker(children: seq<Component>, k: nat, i: nat, start: nat)
    requires i < k <= |children| && !IsGroupable(children[i]) && !children[i].Spacer?
    requires forall j :: i < j < k ==> children[j].Spacer?
    ensures WalkBack(children, k, start) == start
  {
    if i + 1 < k {
      BackFromBreaker(children, k - 1, i, start);
    }
  }

  /** Backward from a breaker: the tools collected are those of the run before it. */
  lemma {:induction false} CollectedBefore(children: seq<Component>, k: nat, i: nat)
    requires k <= i < |children| && !IsGroupable(children[i]) && !children[i].Spacer?
    requires forall j :: k <= j < i ==> children[j].Spacer?
    ensures var s := WalkBack(children, k, i); s <= i && Tools(children, s, i) == RunBefore(children, k)
  {
    WalkBackBounds(children, k, i);
    if k > 0 && children[k - 1].Spacer? {
      CollectedBefore(children, k - 1, i);
    } else if k > 0 && IsGroupable(children[k - 1]) {
      AheadOfBreaker(children, k, i, k - 1);
      var s := Start(children, k - 1);
      ToolsSplit(children, s, k, i);
      NoTools(children, k, i);
      hide Tools;
    }
  }

  lemma NextRunJoins(children: seq<Component>, k: nat, i: nat)
    requires i < k < |children| && !IsGroupable(children[i]) && !children[i].Spacer?
    requires forall j :: i < j < k ==> children[j].Spacer?
    ensures Tools(children, i, End(children, k) + 1) == GroupAt(children, k)
  {
    BackFromBreaker(children, k, i, k);
    ToolsSplit(children, i, k, End(children, k) + 1);
    NoTools(children, i, k);
    hide Tools, WalkAhead, WalkBack;
  }

  lemma {:induction false} CollectedAfter(children: seq<Component>, k: nat, i: nat)
    requires i < k <= |children| && !IsGroupable(children[i]) && !children[i].Spacer?
    requires forall j :: i < j < k ==> children[j].Spacer?
    ensures var e := WalkAhead(children, k, i);
            i <= e < |children| && Tools(children, i, e + 1) == RunAfter(children, k)
    decreases |children| - k
  {
    WalkAheadBounds(children, k, i);
    if k < |children| && children[k].Spacer? {
      CollectedAfter(children, k + 1, i);
    } else if k < |children| && IsGroupable(children[k]) {
      NextRunJoins(children, k, i);
    } else {
      NoTools(children, i, i + 1);
    }
  }

  /** The group computed for a call that breaks a run is the runs on both sides of it, joined. */
  lemma BreakerJoinsNeighbours(children: seq<Component>, i: nat)
    requires i < |children| && !IsGroupable(children[i]) && !children[i].Spacer?
    ensures GroupAt(children, i) == RunBefore(children, i) + RunAfter(children, i + 1)
  {
    CollectedBefore(children, i, i);
    CollectedAfter(children, i + 1, i);
    hide WalkBack, WalkAhead, RunBefore, RunAfter;
    ToolsSplit(children, Start(children, i), i, End(children, i) + 1);
  }

  /**
    A failed or ungroupable call stays visible exactly when the runs around it hold fewer than two
    tools together, or the last of them is expanded; otherwise it renders nothing.
   */
  lemma BreakerStaysVisibleExactly(children: seq<Component>, i: nat)
    requires Distinct(children) && i < |children| && !IsGroupable(children[i]) && children[i].Tool?
    ensures var around := RunBefore(children, i) + RunAfter(children, i + 1);
            Render(children[i], children)
            == if |around| < 2 || (around[|around| - 1].Tool? && around[|around| - 1].expanded) then Original else Nothing
  {
    IndexOfDistinct(children, i);
    BreakerJoinsNeighbours(children, i);
    var around := RunBefore(children, i) + RunAfter(children, i + 1);
    if around != [] {
      ToolsAre(children, Start(children, i), End(children, i) + 1);
      assert around[|around| - 1] in GroupAt(children, i);
    }
  }

  /** A failed call between two groupable ones is hidden, although no group summary counts it. */
  lemma FailedToolBetweenToolsIsHidden(a: nat, b: nat, c: nat)
    requires a != b && b != c && a != c
    ensures var children := [Tool(a, File, false, false), Tool(b, File, true, false), Tool(c, File, false, false)];
            && Render(children[1], children) == Nothing
            && Render(children[0], children) == Original && Render(children[2], children) == Original
  {
    var children := [Tool(a, File, false, false), Tool(b, File, true, false), Tool(c, File, false, false)];
    IndexOfDistinct(children, 0);
    IndexOfDistinct(children, 1);
    IndexOfDistinct(children, 2);
    assert WalkBack(children, 0, 0) == 0 && WalkAhead(children, 3, 2) == 2;
    assert WalkBack(children, 1, 1) == 0 && WalkAhead(children, 2, 1) == 2;
    assert Tools(children, 0, 1) == [children[0]];
    assert Tools(children, 0, 2) == [children[0]];
    assert Tools(children, 0, 3) == [children[0], children[2]];
    assert Start(children, 0) == 0 && End(children, 0) == 0;
    assert Start(children, 2) == 2 && End(children, 2) == 2;
    assert Tools(children, 2, 3) == [children[2]];
  }
}
