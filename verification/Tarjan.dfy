/** Tarjan's strongly connected components, as run over the dependency edges of
    a fetch manifest. The recursion works on one mutable state object; its proof
    works on the values of that object's fields. */
module Tarjan {
  import opened Wrappers
  import opened Graphs

  /** The values of the mutable fields. `comps` is in order of emission. */
  datatype Snapshot = Snapshot(
    visit: seq<Option<nat>>, low: seq<nat>, onStack: seq<bool>,
    stack: seq<nat>, next: nat, comps: seq<seq<nat>>)

  ghost function Emitted(comps: seq<seq<nat>>): set<nat> {
    set c, i | 0 <= c < |comps| && 0 <= i < |comps[c]| :: comps[c][i]
  }

  ghost predicate Visited(s: Snapshot, x: nat) {
    x < |s.visit| && s.visit[x].Some?
  }

  ghost function Num(s: Snapshot, x: nat): nat {
    if Visited(s, x) then s.visit[x].value else 0
  }

  // --- The invariant of the search, clause by clause ---

  ghost predicate Shape(g: Graph, s: Snapshot) {
    && |s.visit| == |s.low| == |s.onStack| == |g|
    && (forall x: nat :: Visited(s, x) ==> Num(s, x) < s.next)
    && (forall i :: 0 <= i < |s.stack| ==> Visited(s, s.stack[i]))
    && (forall i, j :: 0 <= i < j < |s.stack| ==> Num(s, s.stack[i]) < Num(s, s.stack[j]))
    && (forall x: nat :: x < |g| ==> (s.onStack[x] <==> x in s.stack))
  }

  /** A visited module is on the stack or already in a component, never both. */
  ghost predicate Coverage(g: Graph, s: Snapshot) {
    && (forall x: nat :: Visited(s, x) <==> x in s.stack || x in Emitted(s.comps))
    && (forall x :: x in s.stack ==> x !in Emitted(s.comps))
  }

  /** Every edge of a finished module leads to a visited one. */
  ghost predicate Explored(g: Graph, s: Snapshot, gray: set<nat>) {
    forall x, y :: Visited(s, x) && x !in gray && Edge(g, x, y) ==> Visited(s, y)
  }

  ghost predicate Chain(g: Graph, stack: seq<nat>) {
    forall i, j :: 0 <= i <= j < |stack| ==> Reach(g, stack[i], stack[j])
  }

  /** From each stacked module the search can climb back to an open one below it. */
  ghost predicate Anchored(g: Graph, stack: seq<nat>, gray: set<nat>) {
    && (forall x :: x in gray ==> x in stack)
    && (forall j :: 0 <= j < |stack| ==> CanClimb(g, stack, gray, j))
  }

  ghost predicate CanClimb(g: Graph, stack: seq<nat>, gray: set<nat>, j: nat)
    requires j < |stack|
  {
    exists i :: 0 <= i <= j && stack[i] in gray && Reach(g, stack[j], stack[i])
  }

  /** The emitted lists are whole components, each closed under edges together
      with those emitted before it. */
  ghost predicate Components(g: Graph, comps: seq<seq<nat>>) {
    && (forall c :: 0 <= c < |comps| ==> IsComponent(g, comps[c]))
    && (forall c :: 0 <= c <= |comps| ==> Closed(g, Emitted(comps[..c])))
    && (forall c, x :: 0 <= c < |comps| && x in comps[c] ==> x !in Emitted(comps[..c]))
  }

  ghost predicate Inv(g: Graph, s: Snapshot, gray: set<nat>) {
    && Shape(g, s) && Coverage(g, s) && Explored(g, s, gray)
    && Chain(g, s.stack) && Anchored(g, s.stack, gray) && Components(g, s.comps)
  }

  /** `t` continues `s`: nothing visited, stacked or emitted is disturbed. */
  ghost predicate Extends(s: Snapshot, t: Snapshot) {
    && |t.visit| == |s.visit| && |t.low| == |s.low|
    && s.stack <= t.stack && s.comps <= t.comps
    && (forall x: nat :: Visited(s, x) && x < |s.low| ==>
          Visited(t, x) && Num(t, x) == Num(s, x) && t.low[x] == s.low[x])
  }

  /** Edges from the stack at or above `base` to the stack below `base` are bounded by `bound`. */
  ghost predicate CrossBound(g: Graph, s: Snapshot, base: nat, from: nat, bound: nat) {
    forall i, j :: from <= i < |s.stack| && 0 <= j < base && j < |s.stack| && Edge(g, s.stack[i], s.stack[j])
                   ==> bound <= Num(s, s.stack[j])
  }

  ghost predicate LowWitness(g: Graph, s: Snapshot, node: nat, low: nat) {
    exists i :: 0 <= i < |s.stack| && Num(s, s.stack[i]) == low && Reach(g, node, s.stack[i])
  }

  ghost function Unvisited(s: Snapshot): set<nat> {
    set x: nat | x < |s.visit| && s.visit[x].None? :: x
  }

  // --- Steps of the search ---

  ghost function Opened(s: Snapshot, node: nat): Snapshot
    requires node < |s.visit| == |s.low| == |s.onStack|
  {
    s.(visit := s.visit[node := Some(s.next)], low := s.low[node := s.next], next := s.next + 1,
       stack := s.stack + [node], onStack := s.onStack[node := true])
  }

  lemma OpenKeepsShape(g: Graph, s: Snapshot, node: nat)
    requires Shape(g, s) && Coverage(g, s) && node < |g| && !Visited(s, node)
    ensures Shape(g, Opened(s, node)) && Coverage(g, Opened(s, node))
    ensures Extends(s, Opened(s, node))
    ensures Unvisited(Opened(s, node)) < Unvisited(s)
  {
    var t := Opened(s, node);
    assert forall x: nat :: Visited(t, x) <==> Visited(s, x) || x == node;
    assert forall x: nat :: Visited(s, x) ==> Num(t, x) == Num(s, x);
    assert forall x :: x in t.stack <==> x in s.stack || x == node;
    assert node in Unvisited(s) && node !in Unvisited(t);
  }

  lemma OpenKeepsReach(g: Graph, stack: seq<nat>, gray: set<nat>, node: nat)
    requires Chain(g, stack) && Anchored(g, stack, gray)
    requires forall x :: x in gray ==> Reach(g, x, node)
    ensures Chain(g, stack + [node]) && Anchored(g, stack + [node], gray + {node})
  {
    hide Reach;
    var t := stack + [node];
    ReachSelf(g, node);
    forall i, j | 0 <= i <= j < |t|
      ensures Reach(g, t[i], t[j])
    {
      if j < |stack| {
        assert Reach(g, stack[i], stack[j]);
      } else if i < |stack| {
        assert CanClimb(g, stack, gray, i);
        var k :| 0 <= k <= i && stack[k] in gray && Reach(g, stack[i], stack[k]);
        ReachTrans(g, stack[i], stack[k], node);
      }
    }
    forall j | 0 <= j < |t|
      ensures CanClimb(g, t, gray + {node}, j)
    {
      if j < |stack| {
        assert CanClimb(g, stack, gray, j);
        var k :| 0 <= k <= j && stack[k] in gray && Reach(g, stack[j], stack[k]);
        assert t[k] in gray + {node} && Reach(g, t[j], t[k]);
      } else {
        assert t[j] in gray + {node} && Reach(g, t[j], t[j]);
      }
    }
  }

  lemma OpenKeepsInv(g: Graph, s: Snapshot, gray: set<nat>, node: nat)
    requires Inv(g, s, gray) && node < |g| && !Visited(s, node)
    requires forall x :: x in gray ==> Reach(g, x, node)
    ensures Inv(g, Opened(s, node), gray + {node})
    ensures Extends(s, Opened(s, node))
    ensures Unvisited(Opened(s, node)) < Unvisited(s)
  {
    hide Reach;
    OpenKeepsShape(g, s, node);
    OpenKeepsReach(g, s.stack, gray, node);
  }

  lemma StackDistinct(g: Graph, s: Snapshot)
    requires Shape(g, s)
    ensures forall i, j :: 0 <= i < j < |s.stack| ==> s.stack[i] != s.stack[j]
  {
  }

  /** Closing a module that stays on the stack: it reaches an older open one. */
  lemma CloseKeepsInv(g: Graph, s: Snapshot, gray: set<nat>, node: nat, base: nat)
    requires Inv(g, s, gray + {node}) && node !in gray
    requires base < |s.stack| && s.stack[base] == node
    requires forall y :: Edge(g, node, y) ==> Visited(s, y)
    requires exists i :: 0 <= i < base && Reach(g, node, s.stack[i])
    ensures Inv(g, s, gray)
  {
    hide Reach, Coverage, Chain, Components;
    StackDistinct(g, s);
    hide Shape;
    var stack := s.stack;
    var b :| 0 <= b < base && Reach(g, node, stack[b]);
    assert CanClimb(g, stack, gray + {node}, b);
    var a :| 0 <= a <= b && stack[a] in gray + {node} && Reach(g, stack[b], stack[a]);
    assert stack[a] != node;
    ReachTrans(g, node, stack[b], stack[a]);
    forall j | 0 <= j < |stack|
      ensures CanClimb(g, stack, gray, j)
    {
      assert CanClimb(g, stack, gray + {node}, j);
      var k :| 0 <= k <= j && stack[k] in gray + {node} && Reach(g, stack[j], stack[k]);
      if stack[k] == node {
        ReachTrans(g, stack[j], node, stack[a]);
        assert k == base;
        assert stack[a] in gray && Reach(g, stack[j], stack[a]);
      } else {
        assert stack[k] in gray;
      }
    }
  }

  ghost function Cleared(s: Snapshot, base: nat): (r: seq<bool>)
    requires base <= |s.stack|
    ensures |r| == |s.onStack|
    ensures forall x: nat :: x < |r| ==> (r[x] <==> s.onStack[x] && x !in s.stack[base..])
  {
    seq(|s.onStack|, x requires 0 <= x < |s.onStack| => s.onStack[x] && x !in s.stack[base..])
  }

  lemma ClearedStep(s: Snapshot, h: nat)
    requires 0 < h <= |s.stack| && s.stack[h - 1] < |s.onStack|
    ensures Cleared(s, h)[s.stack[h - 1] := false] == Cleared(s, h - 1)
  {
  }

  lemma ClearedNothing(s: Snapshot)
    ensures Cleared(s, |s.stack|) == s.onStack
  {
  }

  lemma StackBounds(g: Graph, s: Snapshot)
    requires Shape(g, s)
    ensures forall i :: 0 <= i < |s.stack| ==> s.stack[i] < |s.onStack|
  {
  }

  ghost function Popped(s: Snapshot, base: nat): Snapshot
    requires base <= |s.stack| && forall i :: 0 <= i < |s.stack| ==> s.stack[i] < |s.onStack|
  {
    s.(stack := s.stack[..base],
       onStack := Cleared(s, base),
       comps := s.comps + [SortAscending(s.stack[base..])])
  }

  lemma EmittedSnoc(comps: seq<seq<nat>>, c: seq<nat>)
    ensures forall x :: x in Emitted(comps + [c]) <==> x in Emitted(comps) || x in c
  {
    var t := comps + [c];
    forall x
      ensures x in Emitted(t) <==> x in Emitted(comps) || x in c
    {
      if x in Emitted(comps) {
        var k, i :| 0 <= k < |comps| && 0 <= i < |comps[k]| && comps[k][i] == x;
        assert t[k][i] == x;
      }
      if x in c {
        var i :| 0 <= i < |c| && c[i] == x;
        assert t[|comps|][i] == x;
      }
      if x in Emitted(t) {
        var k, i :| 0 <= k < |t| && 0 <= i < |t[k]| && t[k][i] == x;
        if k < |comps| { assert comps[k][i] == x; }
      }
    }
  }

  /** The popped segment is closed under edges once the emitted modules join it. */
  lemma SegmentClosed(g: Graph, s: Snapshot, gray: set<nat>, node: nat, base: nat)
    requires Inv(g, s, gray + {node}) && node !in gray
    requires base < |s.stack| && s.stack[base] == node
    requires forall x :: x in gray ==> x in s.stack[..base]
    requires forall y :: Edge(g, node, y) ==> Visited(s, y)
    requires forall i, j :: base <= i < |s.stack| && 0 <= j < base ==> !Edge(g, s.stack[i], s.stack[j])
    ensures Closed(g, Emitted(s.comps) + set x | x in s.stack[base..])
  {
    hide Reach;
    var segment := s.stack[base..];
    assert s.comps[..|s.comps|] == s.comps;
    StackDistinct(g, s);
    forall x: nat, y: nat | x in segment && Edge(g, x, y)
      ensures y in segment || y in Emitted(s.comps)
    {
      var i :| base <= i < |s.stack| && s.stack[i] == x;
      assert x !in s.stack[..base];
      assert Visited(s, y);
      if y in s.stack {
        var j :| 0 <= j < |s.stack| && s.stack[j] == y;
        if j >= base { assert segment[j - base] == y; }
      }
    }
  }

  lemma ClosedOver(g: Graph, emitted: set<nat>, segment: seq<nat>, x: nat, y: nat)
    requires Closed(g, emitted + set z | z in segment) && x in segment && Reach(g, x, y)
    ensures y in emitted || y in segment
  {
    hide Reach, Closed;
    ClosedReach(g, emitted + (set z | z in segment), x, y);
  }

  lemma ClimbsTo(g: Graph, stack: seq<nat>, gray: set<nat>, i: nat) returns (y: nat)
    requires Anchored(g, stack, gray) && i < |stack|
    ensures y in stack && y in gray && Reach(g, stack[i], y)
  {
    hide Reach;
    assert CanClimb(g, stack, gray, i);
    var k :| 0 <= k <= i && stack[k] in gray && Reach(g, stack[i], stack[k]);
    return stack[k];
  }

  /** Everything in the popped segment is mutually reachable with its root. */
  lemma SegmentConnected(g: Graph, s: Snapshot, gray: set<nat>, node: nat, base: nat, i: nat)
    requires Shape(g, s) && Coverage(g, s) && Chain(g, s.stack) && Anchored(g, s.stack, gray + {node})
    requires base <= i < |s.stack| && s.stack[base] == node
    requires forall x :: x in gray ==> x in s.stack[..base]
    requires Closed(g, Emitted(s.comps) + set x | x in s.stack[base..])
    ensures Same(g, s.stack[i], node)
  {
    hide Reach, Closed, Emitted, Shape, Anchored;
    assert Reach(g, s.stack[base], s.stack[i]);
    var y := ClimbsTo(g, s.stack, gray + {node}, i);
    hide Chain;
    assert s.stack[base..][i - base] == s.stack[i];
    ClosedOver(g, Emitted(s.comps), s.stack[base..], s.stack[i], y);
    hide Coverage;
    StackDistinct(g, s);
    SplitMembers(s.stack, base);
  }

  /** Whatever is mutually reachable with a member of the segment is in the segment. */
  lemma SegmentMaximal(g: Graph, s: Snapshot, base: nat, x: nat, y: nat)
    requires Coverage(g, s) && base < |s.stack| && x in s.stack[base..] && Same(g, x, y)
    requires Closed(g, Emitted(s.comps)) && Closed(g, Emitted(s.comps) + set x | x in s.stack[base..])
    ensures y in s.stack[base..]
  {
    hide Reach, Closed, Emitted;
    ClosedOver(g, Emitted(s.comps), s.stack[base..], x, y);
    assert x in s.stack;
    if y in Emitted(s.comps) {
      ClosedReach(g, Emitted(s.comps), y, x);
      assert false;
    }
  }

  lemma SegmentMember(g: Graph, s: Snapshot, gray: set<nat>, node: nat, base: nat, x: nat)
    requires Inv(g, s, gray + {node})
    requires base < |s.stack| && s.stack[base] == node && x in s.stack[base..]
    requires forall x :: x in gray ==> x in s.stack[..base]
    requires Closed(g, Emitted(s.comps) + set x | x in s.stack[base..])
    ensures Same(g, x, node) && x < |g|
  {
    hide Reach, Closed, Emitted, Coverage, Chain, Anchored, Explored, Components;
    var i :| base <= i < |s.stack| && s.stack[i] == x;
    SegmentConnected(g, s, gray, node, base, i);
    assert Visited(s, s.stack[i]);
  }

  /** The popped segment is exactly one strongly connected component. */
  lemma SegmentIsComponent(g: Graph, s: Snapshot, gray: set<nat>, node: nat, base: nat)
    requires Inv(g, s, gray + {node})
    requires base < |s.stack| && s.stack[base] == node
    requires forall x :: x in gray ==> x in s.stack[..base]
    requires Closed(g, Emitted(s.comps) + set x | x in s.stack[base..])
    ensures IsComponent(g, SortAscending(s.stack[base..]))
  {
    hide Reach, Closed, Emitted, Inv;
    var segment := s.stack[base..];
    InvParts(g, s, gray + {node});
    SortAscendingCorrect(segment);
    var c := SortAscending(segment);
    assert segment[0] == node;
    forall x | x in segment
      ensures Same(g, x, node) && x < |g|
    {
      SegmentMember(g, s, gray, node, base, x);
    }
    hide Coverage;
    forall x, y: nat | x in c && y < |g|
      ensures y in c <==> Same(g, x, y)
    {
      if y in c {
        SameTrans(g, x, node, y);
      } else if Same(g, x, y) {
        SegmentMaximal(g, s, base, x, y);
      }
    }
  }

  lemma InvParts(g: Graph, s: Snapshot, gray: set<nat>)
    requires Inv(g, s, gray)
    ensures Coverage(g, s) && Closed(g, Emitted(s.comps))
    ensures forall i, j :: 0 <= i < j < |s.stack| ==> s.stack[i] != s.stack[j]
  {
    hide Reach, Closed, Emitted;
    assert s.comps[..|s.comps|] == s.comps;
    StackDistinct(g, s);
  }

  lemma ComponentsSnoc(g: Graph, comps: seq<seq<nat>>, c: seq<nat>)
    requires Components(g, comps) && IsComponent(g, c)
    requires Closed(g, Emitted(comps) + set x | x in c)
    requires forall x :: x in c ==> x !in Emitted(comps)
    ensures Components(g, comps + [c])
  {
    var t := comps + [c];
    EmittedSnoc(comps, c);
    assert t[..|t|] == t && t[..|comps|] == comps && comps[..|comps|] == comps;
    assert Emitted(t) == Emitted(comps) + set x | x in c;
    forall k | 0 <= k <= |t|
      ensures Closed(g, Emitted(t[..k]))
    {
      if k <= |comps| { assert t[..k] == comps[..k]; }
    }
    forall k, x | 0 <= k < |t| && x in t[k]
      ensures x !in Emitted(t[..k])
    {
      assert k <= |comps| && t[..k] == comps[..k];
    }
  }

  lemma PopKeepsShape(g: Graph, s: Snapshot, base: nat)
    requires Shape(g, s) && base < |s.stack|
    ensures Shape(g, Popped(s, base))
  {
    var t := Popped(s, base);
    var segment := s.stack[base..];
    assert s.stack == t.stack + segment;
    forall x: nat | x < |g|
      ensures t.onStack[x] <==> x in t.stack
    {
      StackDistinct(g, s);
      assert !(x in segment && x in t.stack);
    }
    assert forall x: nat :: Visited(t, x) <==> Visited(s, x);
    forall i, j | 0 <= i < j < |t.stack|
      ensures Num(t, t.stack[i]) < Num(t, t.stack[j])
    {
      assert Num(s, s.stack[i]) < Num(s, s.stack[j]);
    }
  }

  lemma SplitMembers(s: seq<nat>, k: nat)
    requires k <= |s| && forall i, j :: 0 <= i < j < |s| ==> s[i] != s[j]
    ensures forall x :: x in s <==> x in s[..k] || x in s[k..]
    ensures forall x :: x in s[..k] ==> x !in s[k..]
    ensures forall i, j :: 0 <= i < j < |s[k..]| ==> s[k..][i] != s[k..][j]
  {
  }

  lemma PopKeepsCoverage(g: Graph, s: Snapshot, base: nat)
    requires Shape(g, s) && Coverage(g, s) && base < |s.stack|
    ensures Coverage(g, Popped(s, base))
  {
    hide Emitted, Cleared;
    StackDistinct(g, s);
    hide Shape;
    var t := Popped(s, base);
    SplitMembers(s.stack, base);
    SortAscendingCorrect(s.stack[base..]);
    EmittedSnoc(s.comps, SortAscending(s.stack[base..]));
    assert forall x: nat :: Visited(t, x) <==> Visited(s, x);
  }

  /** Popping the segment above a root keeps the invariant, now without the root. */
  lemma PopKeepsInv(g: Graph, s: Snapshot, gray: set<nat>, node: nat, base: nat)
    requires Inv(g, s, gray + {node}) && node !in gray
    requires base < |s.stack| && s.stack[base] == node
    requires forall x :: x in gray ==> x in s.stack[..base]
    requires forall y :: Edge(g, node, y) ==> Visited(s, y)
    requires forall i, j :: base <= i < |s.stack| && 0 <= j < base ==> !Edge(g, s.stack[i], s.stack[j])
    ensures Inv(g, Popped(s, base), gray)
  {
    hide Reach;
    var t := Popped(s, base);
    PopKeepsShape(g, s, base);
    PopKeepsCoverage(g, s, base);
    PopKeepsReach(g, s.stack, gray, node, base);
    PopKeepsComponents(g, s, gray, node, base);
    assert forall x: nat :: Visited(t, x) <==> Visited(s, x);
  }

  lemma PopKeepsComponents(g: Graph, s: Snapshot, gray: set<nat>, node: nat, base: nat)
    requires Inv(g, s, gray + {node}) && node !in gray
    requires base < |s.stack| && s.stack[base] == node
    requires forall x :: x in gray ==> x in s.stack[..base]
    requires forall y :: Edge(g, node, y) ==> Visited(s, y)
    requires forall i, j :: base <= i < |s.stack| && 0 <= j < base ==> !Edge(g, s.stack[i], s.stack[j])
    ensures Components(g, Popped(s, base).comps)
  {
    hide Reach, Emitted;
    SegmentClosed(g, s, gray, node, base);
    SegmentIsComponent(g, s, gray, node, base);
    StackDistinct(g, s);
    SortAscendingCorrect(s.stack[base..]);
    var c := SortAscending(s.stack[base..]);
    assert (set x | x in c) == set x | x in s.stack[base..];
    ComponentsSnoc(g, s.comps, c);
  }

  lemma PopKeepsReach(g: Graph, stack: seq<nat>, gray: set<nat>, node: nat, base: nat)
    requires Chain(g, stack) && Anchored(g, stack, gray + {node})
    requires forall i, j :: 0 <= i < j < |stack| ==> stack[i] != stack[j]
    requires base < |stack| && stack[base] == node
    requires forall x :: x in gray ==> x in stack[..base]
    ensures Chain(g, stack[..base]) && Anchored(g, stack[..base], gray)
  {
    hide Reach;
    var t := stack[..base];
    forall i, j | 0 <= i <= j < |t|
      ensures Reach(g, t[i], t[j])
    {
      assert Reach(g, stack[i], stack[j]);
    }
    forall j | 0 <= j < |t|
      ensures CanClimb(g, t, gray, j)
    {
      assert CanClimb(g, stack, gray + {node}, j);
      var k :| 0 <= k <= j && stack[k] in gray + {node} && Reach(g, stack[j], stack[k]);
      assert t[k] in gray && Reach(g, t[j], t[k]);
    }
  }

  // --- Bookkeeping of the recursion ---

  lemma ExtendsTrans(s: Snapshot, t: Snapshot, u: Snapshot)
    requires |s.visit| == |s.low|
    requires Extends(s, t) && Extends(t, u)
    ensures Extends(s, u)
  {
  }

  /** What one visit of `node`, started in `s` and ended in `t`, promises its caller. */
  ghost predicate Connected(g: Graph, s: Snapshot, t: Snapshot, node: nat) {
    && Extends(s, t) && node < |g| == |t.low|
    && t.next >= s.next
    && Visited(t, node) && Num(t, node) == s.next
    && t.low[node] <= Num(t, node)
    && CrossBound(g, t, |s.stack|, |s.stack|, t.low[node])
    && (if t.low[node] == Num(t, node) then t.stack == s.stack
        else |t.stack| > |s.stack| && t.stack[|s.stack|] == node && LowWitness(g, s, node, t.low[node]))
  }

  /** Invariant of the loop over the dependencies of `node`, after `k` of them. */
  ghost predicate Scanning(g: Graph, s: Snapshot, t: Snapshot, gray: set<nat>, node: nat, k: nat) {
    && Inv(g, t, gray + {node}) && Extends(s, t)
    && node < |g| && k <= |g[node]| && |t.visit| == |t.low| == |t.onStack| == |g|
    && t.next > s.next
    && Visited(t, node) && Num(t, node) == s.next
    && |t.stack| > |s.stack| && t.stack[|s.stack|] == node
    && t.low[node] <= Num(t, node)
    && LowWitness(g, t, node, t.low[node])
    && CrossBound(g, t, |s.stack|, |s.stack| + 1, t.low[node])
    && (forall j :: 0 <= j < k ==> Visited(t, g[node][j]))
    && (forall j :: 0 <= j < k && g[node][j] in t.stack ==> t.low[node] <= Num(t, g[node][j]))
  }

  lemma ScanStart(g: Graph, s: Snapshot, gray: set<nat>, node: nat)
    requires Inv(g, s, gray) && node < |g| && !Visited(s, node)
    requires forall x :: x in gray ==> Reach(g, x, node)
    ensures Scanning(g, s, Opened(s, node), gray, node, 0)
    ensures Unvisited(Opened(s, node)) < Unvisited(s)
  {
    hide Reach, Emitted;
    OpenKeepsInv(g, s, gray, node);
    ReachSelf(g, node);
    var t := Opened(s, node);
    assert Num(t, t.stack[|s.stack|]) == t.low[node] && Reach(g, node, t.stack[|s.stack|]);
  }

  ghost function WithLow(s: Snapshot, node: nat, low: nat): Snapshot
    requires node < |s.low|
  {
    s.(low := s.low[node := low])
  }

  lemma WithLowKeepsInv(g: Graph, t: Snapshot, gray: set<nat>, node: nat, low: nat)
    requires Inv(g, t, gray) && node < |t.low|
    ensures Inv(g, WithLow(t, node, low), gray)
  {
    hide Reach, Emitted;
    var u := WithLow(t, node, low);
    assert forall x: nat :: Visited(u, x) <==> Visited(t, x);
    assert forall x: nat :: Num(u, x) == Num(t, x);
  }

  /** A dependency on the stack may lower the bound of the module being scanned. */
  lemma ScanSeenWitness(g: Graph, t: Snapshot, node: nat, y: nat)
    requires node < |t.low| && LowWitness(g, t, node, t.low[node]) && Edge(g, node, y)
    ensures var low := if y in t.stack && Num(t, y) < t.low[node] then Num(t, y) else t.low[node];
            LowWitness(g, WithLow(t, node, low), node, low)
  {
    hide Reach;
    var low := if y in t.stack && Num(t, y) < t.low[node] then Num(t, y) else t.low[node];
    var u := WithLow(t, node, low);
    if low != t.low[node] {
      ReachEdge(g, node, y);
      var i :| 0 <= i < |t.stack| && t.stack[i] == y;
      assert Num(u, u.stack[i]) == low && Reach(g, node, u.stack[i]);
    } else {
      var i :| 0 <= i < |t.stack| && Num(t, t.stack[i]) == low && Reach(g, node, t.stack[i]);
      assert Num(u, u.stack[i]) == low && Reach(g, node, u.stack[i]);
    }
  }

  /** A dependency already visited: on the stack it may lower the bound, else it is settled. */
  lemma ScanSeen(g: Graph, s: Snapshot, t: Snapshot, gray: set<nat>, node: nat, k: nat)
    requires Inv(g, s, gray) && !Visited(s, node) && node !in gray
    requires Scanning(g, s, t, gray, node, k) && k < |g[node]| && Visited(t, g[node][k])
    ensures var y := g[node][k];
            var low := if y in t.stack && Num(t, y) < t.low[node] then Num(t, y) else t.low[node];
            Scanning(g, s, WithLow(t, node, low), gray, node, k + 1)
  {
    hide Reach, LowWitness, Inv;
    var y := g[node][k];
    var low := if y in t.stack && Num(t, y) < t.low[node] then Num(t, y) else t.low[node];
    var u := WithLow(t, node, low);
    WithLowKeepsInv(g, t, gray + {node}, node, low);
    assert forall x: nat :: Visited(u, x) <==> Visited(t, x);
    assert forall x: nat :: Num(u, x) == Num(t, x);
    assert Edge(g, node, y);
    ScanSeenWitness(g, t, node, y);
  }

  /** A dependency visited by recursion: its bound is folded into the caller's. */
  lemma ScanChild(g: Graph, s: Snapshot, t: Snapshot, u: Snapshot, gray: set<nat>, node: nat, k: nat)
    requires Inv(g, s, gray) && !Visited(s, node) && node !in gray
    requires Scanning(g, s, t, gray, node, k) && k < |g[node]| && !Visited(t, g[node][k])
    requires Inv(g, u, gray + {node}) && Connected(g, t, u, g[node][k])
    ensures var y := g[node][k];
            var low := if u.low[y] < u.low[node] then u.low[y] else u.low[node];
            Scanning(g, s, WithLow(u, node, low), gray, node, k + 1)
  {
    hide Reach, Coverage, Explored, Chain, Anchored, Components, CrossBound, LowWitness;
    var y := g[node][k];
    var low := if u.low[y] < u.low[node] then u.low[y] else u.low[node];
    var v := WithLow(u, node, low);
    WithLowKeepsInv(g, u, gray + {node}, node, low);
    assert forall x: nat :: Visited(v, x) <==> Visited(u, x);
    assert forall x: nat :: Num(v, x) == Num(u, x);
    ExtendsTrans(s, t, u);
    ScanChildWitness(g, s, t, u, gray, node, k);
    ScanChildCross(g, s, t, u, gray, node, k);
    assert t.low[node] == u.low[node] && Num(t, node) == Num(u, node);
    forall j | 0 <= j < k && g[node][j] in v.stack
      ensures low <= Num(v, g[node][j])
    {
      assert Visited(t, g[node][j]);
      StackOrEmitted(g, t, u, gray + {node}, g[node][j]);
    }
  }

  lemma StackOrEmitted(g: Graph, t: Snapshot, u: Snapshot, gray: set<nat>, x: nat)
    requires Inv(g, t, gray) && Inv(g, u, gray) && Extends(t, u)
    requires Visited(t, x) && x in u.stack
    ensures x in t.stack
  {
  }

  lemma ScanChildWitness(g: Graph, s: Snapshot, t: Snapshot, u: Snapshot, gray: set<nat>, node: nat, k: nat)
    requires Shape(g, t) && Shape(g, u)
    requires Scanning(g, s, t, gray, node, k) && k < |g[node]| && !Visited(t, g[node][k])
    requires Connected(g, t, u, g[node][k])
    ensures var low := if u.low[g[node][k]] < u.low[node] then u.low[g[node][k]] else u.low[node];
            LowWitness(g, WithLow(u, node, low), node, low)
  {
    hide Reach, Inv;
    var y := g[node][k];
    var low := if u.low[y] < u.low[node] then u.low[y] else u.low[node];
    var v := WithLow(u, node, low);
    assert u.low[node] == t.low[node];
    if u.low[y] < u.low[node] {
      assert u.low[y] != Num(u, y);
      var i :| 0 <= i < |t.stack| && Num(t, t.stack[i]) == low && Reach(g, y, t.stack[i]);
      assert Edge(g, node, y);
      ReachEdge(g, node, y);
      ReachTrans(g, node, y, t.stack[i]);
      assert v.stack[i] == t.stack[i];
      assert Num(v, v.stack[i]) == low && Reach(g, node, v.stack[i]);
    } else {
      var i :| 0 <= i < |t.stack| && Num(t, t.stack[i]) == low && Reach(g, node, t.stack[i]);
      assert v.stack[i] == t.stack[i];
      assert Num(v, v.stack[i]) == low && Reach(g, node, v.stack[i]);
    }
  }

  lemma ScanChildCross(g: Graph, s: Snapshot, t: Snapshot, u: Snapshot, gray: set<nat>, node: nat, k: nat)
    requires Shape(g, t) && Shape(g, u)
    requires Scanning(g, s, t, gray, node, k) && k < |g[node]| && !Visited(t, g[node][k])
    requires Connected(g, t, u, g[node][k])
    ensures var low := if u.low[g[node][k]] < u.low[node] then u.low[g[node][k]] else u.low[node];
            CrossBound(g, WithLow(u, node, low), |s.stack|, |s.stack| + 1, low)
  {
    hide Inv, LowWitness, Reach;
  }

  /** The scan is over and `node` kept a bound below its own number: it stays stacked. */
  lemma FinishKeep(g: Graph, s: Snapshot, t: Snapshot, gray: set<nat>, node: nat)
    requires Inv(g, s, gray) && !Visited(s, node) && node !in gray
    requires node < |g| && Scanning(g, s, t, gray, node, |g[node]|) && t.low[node] != Num(t, node)
    ensures Inv(g, t, gray) && Connected(g, s, t, node)
  {
    hide Reach, Emitted;
    var base := |s.stack|;
    var i :| 0 <= i < |t.stack| && Num(t, t.stack[i]) == t.low[node] && Reach(g, node, t.stack[i]);
    assert i < base;
    assert s.stack[i] == t.stack[i] && Num(s, s.stack[i]) == Num(t, t.stack[i]);
    FinishEdges(g, s, t, gray, node);
    CloseKeepsInv(g, t, gray, node, base);
  }

  lemma FinishEdges(g: Graph, s: Snapshot, t: Snapshot, gray: set<nat>, node: nat)
    requires node < |g| && Scanning(g, s, t, gray, node, |g[node]|)
    ensures forall y :: Edge(g, node, y) ==> Visited(t, y)
    ensures CrossBound(g, t, |s.stack|, |s.stack|, t.low[node])
  {
    hide Reach, Inv;
    forall y | Edge(g, node, y)
      ensures Visited(t, y) && (y in t.stack ==> node < |t.low| && t.low[node] <= Num(t, y))
    {
      var j :| 0 <= j < |g[node]| && g[node][j] == y;
    }
  }

  /** The scan is over and `node` is the root of a component: its segment is emitted. */
  lemma FinishPop(g: Graph, s: Snapshot, t: Snapshot, gray: set<nat>, node: nat)
    requires Inv(g, s, gray) && !Visited(s, node) && node !in gray
    requires node < |g| && Scanning(g, s, t, gray, node, |g[node]|) && t.low[node] == Num(t, node)
    ensures forall i :: 0 <= i < |t.stack| ==> t.stack[i] < |t.onStack|
    ensures Inv(g, Popped(t, |s.stack|), gray) && Connected(g, s, Popped(t, |s.stack|), node)
  {
    hide Reach, Emitted;
    var base := |s.stack|;
    FinishEdges(g, s, t, gray, node);
    assert t.stack[..base] == s.stack;
    forall i, j | base <= i < |t.stack| && 0 <= j < base
      ensures !Edge(g, t.stack[i], t.stack[j])
    {
      assert Num(t, t.stack[j]) < Num(t, t.stack[base]);
    }
    PopKeepsInv(g, t, gray, node, base);
    var u := Popped(t, base);
    assert forall x: nat :: Visited(u, x) <==> Visited(t, x);
    assert forall x: nat :: Num(u, x) == Num(t, x);
  }

  class SccState {
    const depEdges: Graph
    var visitOrder: seq<Option<nat>>
    var low: seq<nat>
    var onStack: seq<bool>
    var stack: seq<nat>
    var nextVisit: nat
    var components: seq<seq<nat>>

    ghost function View(): Snapshot
      reads this
    {
      Snapshot(visitOrder, low, onStack, stack, nextVisit, components)
    }

    constructor (edges: Graph)
      requires WellFormed(edges)
      ensures depEdges == edges && Inv(edges, View(), {})
      ensures stack == [] && nextVisit == 0 && components == []
    {
      depEdges := edges;
      visitOrder := seq(|edges|, _ => None);
      low := seq(|edges|, _ => 0);
      onStack := seq(|edges|, _ => false);
      stack := [];
      nextVisit := 0;
      components := [];
      new;
      assert Emitted(components) == {};
      assert forall x: nat :: !Visited(View(), x);
    }

    method Connect(node: nat, ghost gray: set<nat>)
      requires WellFormed(depEdges) && node < |depEdges|
      requires Inv(depEdges, View(), gray) && !Visited(View(), node)
      requires forall x :: x in gray ==> Reach(depEdges, x, node)
      modifies this
      ensures Inv(depEdges, View(), gray)
      ensures Connected(depEdges, old(View()), View(), node)
      decreases Unvisited(View()), 0
    {
      hide Reach, Inv, Connected, Scanning, Unvisited, Visited;
      ghost var start := View();
      GrayVisited(depEdges, start, gray);
      ScanStart(depEdges, start, gray, node);
      Open(node, gray);
      var edgeIndex := 0;
      while edgeIndex < |depEdges[node]|
        invariant edgeIndex <= |depEdges[node]|
        invariant Scanning(depEdges, start, View(), gray, node, edgeIndex)
        invariant Unvisited(View()) < Unvisited(start)
      {
        ScanEdge(node, edgeIndex, gray, start);
        edgeIndex := edgeIndex + 1;
      }
      Finish(node, gray, start);
    }

    /** The module gets the next visit number and joins the stack. */
    method Open(node: nat, ghost gray: set<nat>)
      requires node < |depEdges| && Inv(depEdges, View(), gray)
      modifies this
      ensures View() == Opened(old(View()), node)
    {
      hide Reach, Coverage, Explored, Chain, Anchored, Components;
      visitOrder := visitOrder[node := Some(nextVisit)];
      low := low[node := nextVisit];
      nextVisit := nextVisit + 1;
      stack := stack + [node];
      onStack := onStack[node := true];
    }

    /** One dependency: visited first if it is new, and then taken into the low link. */
    method ScanEdge(node: nat, edgeIndex: nat, ghost gray: set<nat>, ghost start: Snapshot)
      requires WellFormed(depEdges) && Inv(depEdges, start, gray) && !Visited(start, node) && node !in gray
      requires node < |depEdges| && edgeIndex < |depEdges[node]|
      requires Scanning(depEdges, start, View(), gray, node, edgeIndex)
      requires forall x :: x in gray ==> Reach(depEdges, x, node)
      modifies this
      ensures Scanning(depEdges, start, View(), gray, node, edgeIndex + 1)
      ensures Unvisited(View()) <= Unvisited(old(View()))
      decreases Unvisited(View()), 1
    {
      hide Reach, Inv, Connected, Scanning, Unvisited;
      ghost var here := View();
      var nextNode := depEdges[node][edgeIndex];
      ScanningBounds(depEdges, start, here, gray, node, edgeIndex);
      if visitOrder[nextNode] == None {
        GrayReachChild(depEdges, gray, node, nextNode);
        Connect(nextNode, gray + {node});
        ghost var back := View();
        ScanChild(depEdges, start, here, back, gray, node, edgeIndex);
        ConnectedExtends(depEdges, here, back, nextNode);
        UnvisitedShrinks(here, back);
        low := low[node := if low[nextNode] < low[node] then low[nextNode] else low[node]];
        SameUnvisited(back, View());
      } else {
        ScanSeen(depEdges, start, here, gray, node, edgeIndex);
        if onStack[nextNode] {
          low := low[node := if visitOrder[nextNode].value < low[node] then visitOrder[nextNode].value else low[node]];
        } else {
          assert low == low[node := low[node]];
        }
        SameUnvisited(here, View());
      }
    }

    /** With all dependencies scanned: the module closes its component or stays stacked. */
    method Finish(node: nat, ghost gray: set<nat>, ghost start: Snapshot)
      requires node < |depEdges| && Scanning(depEdges, start, View(), gray, node, |depEdges[node]|)
      requires Inv(depEdges, start, gray) && !Visited(start, node) && node !in gray
      modifies this
      ensures Inv(depEdges, View(), gray) && Connected(depEdges, start, View(), node)
    {
      hide Reach, Coverage, Explored, Chain, Anchored, Components, Connected, CrossBound, LowWitness, Cleared;
      if Some(low[node]) == visitOrder[node] {
        FinishPop(depEdges, start, View(), gray, node);
        PopComponent(node, |start.stack|);
      } else {
        FinishKeep(depEdges, start, View(), gray, node);
      }
    }

    method PopComponent(node: nat, ghost base: nat)
      requires Shape(depEdges, View()) && base < |stack| && stack[base] == node
      modifies this
      ensures View() == Popped(old(View()), base)
    {
      hide Cleared, Shape;
      ghost var start := View();
      assert forall i :: 0 <= i < |stack| ==> stack[i] < |onStack| by { StackBounds(depEdges, start); }
      StackDistinct(depEdges, start);
      var component := PopUntil(node, base);
      SameSorting(component, start.stack[base..]);
      components := components + [SortAscending(component)];
    }

    /** Pops down to and including `node`; the popped modules come out newest first. */
    method PopUntil(node: nat, ghost base: nat) returns (component: seq<nat>)
      requires base < |stack| && stack[base] == node
      requires forall i :: 0 <= i < |stack| ==> stack[i] < |onStack|
      requires forall i, j :: 0 <= i < j < |stack| ==> stack[i] != stack[j]
      modifies this
      ensures View() == old(View()).(stack := old(stack)[..base], onStack := Cleared(old(View()), base))
      ensures |component| == |old(stack)| - base
      ensures forall i :: 0 <= i < |component| ==> component[i] == old(stack)[|old(stack)| - 1 - i]
    {
      hide Cleared;
      ghost var start := View();
      component := [];
      ClearedNothing(start);
      while stack != []
        invariant base < |stack| <= |start.stack|
        invariant |component| == |start.stack| - |stack|
        invariant forall i :: 0 <= i < |component| ==> component[i] == start.stack[|start.stack| - 1 - i]
        invariant View() == start.(stack := start.stack[..|stack|], onStack := Cleared(start, |stack|))
        decreases |stack|
      {
        var member := stack[|stack| - 1];
        ClearedStep(start, |stack|);
        stack := stack[..|stack| - 1];
        onStack := onStack[member := false];
        component := component + [member];
        if member == node {
          break;
        }
      }
    }
  }

  /** Reversing a list of distinct modules does not change its sorted form. */
  lemma SameSorting(a: seq<nat>, b: seq<nat>)
    requires |a| == |b| && forall i :: 0 <= i < |a| ==> a[i] == b[|a| - 1 - i]
    requires forall i, j :: 0 <= i < j < |b| ==> b[i] != b[j]
    ensures SortAscending(a) == SortAscending(b)
  {
    forall x
      ensures x in a <==> x in b
    {
      if x in a {
        var i :| 0 <= i < |a| && a[i] == x;
        assert b[|a| - 1 - i] == x;
      }
      if x in b {
        var i :| 0 <= i < |b| && b[i] == x;
        assert a[|a| - 1 - i] == x;
      }
    }
    SortAscendingCorrect(a);
    SortAscendingCorrect(b);
    AscendingUnique(SortAscending(a), SortAscending(b));
  }

  lemma ScanningBounds(g: Graph, s: Snapshot, t: Snapshot, gray: set<nat>, node: nat, k: nat)
    requires WellFormed(g) && node < |g| && Scanning(g, s, t, gray, node, k) && k < |g[node]|
    ensures Inv(g, t, gray + {node}) && |t.visit| == |t.low| == |t.onStack| == |g|
    ensures g[node][k] < |g| && (t.onStack[g[node][k]] <==> g[node][k] in t.stack)
  {
  }

  lemma GrayVisited(g: Graph, s: Snapshot, gray: set<nat>)
    requires Inv(g, s, gray)
    ensures forall x :: x in gray ==> Visited(s, x)
  {
  }

  lemma GrayReachChild(g: Graph, gray: set<nat>, node: nat, child: nat)
    requires forall x :: x in gray ==> Reach(g, x, node)
    requires Edge(g, node, child)
    ensures forall x :: x in gray + {node} ==> Reach(g, x, child)
  {
    hide Reach;
    ReachEdge(g, node, child);
    forall x | x in gray
      ensures Reach(g, x, child)
    {
      ReachTrans(g, x, node, child);
    }
  }

  lemma UnvisitedShrinks(s: Snapshot, t: Snapshot)
    requires Extends(s, t) && |s.visit| == |s.low|
    ensures Unvisited(t) <= Unvisited(s)
  {
    forall x: nat | x in Unvisited(t)
      ensures x in Unvisited(s)
    {
      assert !Visited(t, x);
    }
  }

  lemma SameUnvisited(s: Snapshot, t: Snapshot)
    requires t.visit == s.visit
    ensures Unvisited(t) == Unvisited(s)
  {
  }

  /** Every module is visited in manifest order unless a recursion got there first. */
  method StronglyConnectedComponents(depEdges: Graph) returns (components: seq<seq<nat>>)
    requires WellFormed(depEdges)
    ensures Components(depEdges, components)
    ensures forall x: nat :: x < |depEdges| <==> x in Emitted(components)
  {
    hide Reach, Emitted, Connected;
    var state := new SccState(depEdges);
    for node := 0 to |depEdges|
      invariant fresh(state) && state.depEdges == depEdges
      invariant Inv(depEdges, state.View(), {})
      invariant forall x: nat :: x < node ==> Visited(state.View(), x)
    {
      ghost var before := state.View();
      if state.visitOrder[node] == None {
        state.Connect(node, {});
        ConnectedExtends(depEdges, before, state.View(), node);
      }
    }
    components := state.components;
    NothingStacked(depEdges, state.View());
  }

  /** The components partition the modules by mutual reachability. */
  lemma ComponentsPartition(g: Graph, comps: seq<seq<nat>>, x: nat, y: nat)
    requires Components(g, comps) && (forall z: nat :: z < |g| <==> z in Emitted(comps)) && x < |g| && y < |g|
    ensures exists c :: 0 <= c < |comps| && x in comps[c] && (y in comps[c] <==> Same(g, x, y))
    ensures forall c, d :: 0 <= c < d < |comps| && x in comps[c] ==> x !in comps[d]
  {
    hide Reach;
    assert x in Emitted(comps);
    var c, i :| 0 <= c < |comps| && 0 <= i < |comps[c]| && comps[c][i] == x;
    assert IsComponent(g, comps[c]);
    forall c, d | 0 <= c < d < |comps| && x in comps[c]
      ensures x !in comps[d]
    {
      assert comps[..d][c] == comps[c];
    }
  }

  lemma ConnectedExtends(g: Graph, s: Snapshot, t: Snapshot, node: nat)
    requires Connected(g, s, t, node)
    ensures Extends(s, t) && Visited(t, node) && node < |g| == |t.low|
  {
  }

  lemma NothingStacked(g: Graph, s: Snapshot)
    requires Inv(g, s, {})
    ensures s.stack == []
  {
    hide Reach, Emitted;
    assert !(0 < |s.stack| && CanClimb(g, s.stack, {}, 0));
  }
}
