/** What a load order of a dependency graph is, stated on the graph alone, and
    what follows: every module once, dependencies first, one order only. */
module LoadOrder {
  import opened Graphs

  function Concat(blocks: seq<seq<nat>>): seq<nat> {
    if blocks == [] then [] else Concat(blocks[..|blocks| - 1]) + blocks[|blocks| - 1]
  }

  /** The blocks stand in the list back to back, each from its own start. */
  ghost predicate Adjacent(order: seq<nat>, blocks: seq<seq<nat>>, starts: seq<nat>) {
    && |starts| == |blocks| + 1 && starts[0] == 0 && starts[|blocks|] == |order|
    && forall k :: 0 <= k < |blocks| ==> IsStretch(order, starts[k], starts[k + 1], blocks[k])
  }

  predicate IsStretch(order: seq<nat>, from: nat, to: nat, block: seq<nat>) {
    from <= to <= |order| && order[from..to] == block
  }

  lemma {:induction false} ConcatIsAdjacent(blocks: seq<seq<nat>>) returns (starts: seq<nat>)
    ensures Adjacent(Concat(blocks), blocks, starts)
  {
    var order := Concat(blocks);
    if blocks == [] {
      starts := [0];
    } else {
      var n := |blocks| - 1;
      var front := Concat(blocks[..n]);
      var before := ConcatIsAdjacent(blocks[..n]);
      starts := before + [|order|];
      forall k | 0 <= k < |blocks|
        ensures IsStretch(order, starts[k], starts[k + 1], blocks[k])
      {
        if k < n {
          assert IsStretch(front, before[k], before[k + 1], blocks[..n][k]);
          assert order[before[k]..before[k + 1]] == front[before[k]..before[k + 1]];
        }
      }
    }
  }

  ghost predicate InBlocks(blocks: seq<seq<nat>>, x: nat) {
    exists k :: 0 <= k < |blocks| && x in blocks[k]
  }

  /** Each dependency of `c` lies in `c` itself or in one of `done`. */
  ghost predicate DepsMet(g: Graph, done: seq<seq<nat>>, c: seq<nat>) {
    forall x, y :: x in c && Edge(g, x, y) ==> y in c || InBlocks(done, y)
  }

  /** Among the blocks from `k` on that could come next, the first is the one
      whose earliest member stands first in the manifest. */
  ghost predicate Greedy(g: Graph, blocks: seq<seq<nat>>, k: nat)
    requires k < |blocks| && forall j :: 0 <= j < |blocks| ==> |blocks[j]| > 0
  {
    forall j :: k <= j < |blocks| && DepsMet(g, blocks[..k], blocks[j]) ==> blocks[k][0] <= blocks[j][0]
  }

  ghost predicate IsLoadOrder(g: Graph, blocks: seq<seq<nat>>) {
    && (forall k :: 0 <= k < |blocks| ==> IsComponent(g, blocks[k]))
    && (forall x: nat :: x < |g| ==> InBlocks(blocks, x))
    && (forall k, x :: 0 <= k < |blocks| && x in blocks[k] ==> !InBlocks(blocks[..k], x))
    && (forall k :: 0 <= k < |blocks| ==> DepsMet(g, blocks[..k], blocks[k]))
    && (forall k :: 0 <= k < |blocks| ==> Greedy(g, blocks, k))
  }

  ghost predicate SameEdges(g: Graph, h: Graph) {
    |g| == |h| && forall x, y :: Edge(g, x, y) <==> Edge(h, x, y)
  }

  lemma SameEdgesReach(g: Graph, h: Graph, x: nat, y: nat)
    requires SameEdges(g, h)
    ensures Reach(g, x, y) <==> Reach(h, x, y)
  {
    if Reach(g, x, y) {
      var p :| Path(g, p, x, y);
      assert Path(h, p, x, y);
    }
    if Reach(h, x, y) {
      var p :| Path(h, p, x, y);
      assert Path(g, p, x, y);
    }
  }

  lemma SameEdgesComponent(g: Graph, h: Graph, c: seq<nat>)
    requires SameEdges(g, h) && IsComponent(g, c)
    ensures IsComponent(h, c)
  {
    hide Reach;
    forall x, y: nat | x in c && y < |h|
      ensures y in c <==> Same(h, x, y)
    {
      SameEdgesReach(g, h, x, y);
      SameEdgesReach(g, h, y, x);
    }
  }

  /** Two components with a common module are the same list. */
  lemma ComponentUnique(g: Graph, a: seq<nat>, b: seq<nat>, x: nat)
    requires IsComponent(g, a) && IsComponent(g, b) && x in a && x in b
    ensures a == b
  {
    hide Reach;
    forall y
      ensures y in a <==> y in b
    {
      if y in a { assert Same(g, x, y); }
      if y in b { assert Same(g, x, y); }
    }
    AscendingUnique(a, b);
  }

  /** One step of uniqueness: with equal prefixes, b's choice is not later than a's. */
  lemma NextNotLater(g: Graph, a: seq<seq<nat>>, h: Graph, b: seq<seq<nat>>, k: nat)
    requires SameEdges(g, h) && IsLoadOrder(g, a) && IsLoadOrder(h, b)
    requires k < |a| && k <= |b| && a[..k] == b[..k]
    ensures k < |b| && b[k][0] <= a[k][0]
  {
    hide Reach, IsComponent;
    assert IsComponent(g, a[k]);
    assert |a[k]| > 0 && a[k][0] < |g| by {
      ComponentShape(g, a[k]);
      assert a[k][0] in a[k];
    }
    var x := a[k][0];
    assert InBlocks(b, x);
    var j :| 0 <= j < |b| && x in b[j];
    assert !InBlocks(b[..k], x);
    assert forall i: nat :: i < k ==> b[..k][i] == b[i];
    SameEdgesComponent(g, h, a[k]);
    ComponentUnique(h, a[k], b[j], x);
    assert DepsMet(h, b[..k], b[j]) by { assert DepsMet(g, a[..k], a[k]); }
    forall i | 0 <= i < |b|
      ensures |b[i]| > 0
    {
      ComponentShape(h, b[i]);
    }
    assert Greedy(h, b, k);
  }

  lemma ComponentShape(g: Graph, c: seq<nat>)
    requires IsComponent(g, c)
    ensures |c| > 0 && Ascending(c) && forall x :: x in c ==> x < |g|
  {
  }

  /** The order depends only on the set of edges and the manifest positions: not on
      how often or in which order dependencies are listed, nor on how components
      were found. */
  lemma {:induction false} LoadOrderCanonical(g: Graph, a: seq<seq<nat>>, h: Graph, b: seq<seq<nat>>)
    requires SameEdges(g, h) && IsLoadOrder(g, a) && IsLoadOrder(h, b)
    ensures a == b
  {
    hide Reach, IsComponent;
    var k := 0;
    while k < |a|
      invariant 0 <= k <= |a| && k <= |b| && a[..k] == b[..k]
    {
      NextNotLater(g, a, h, b, k);
      NextNotLater(h, b, g, a, k);
      SameEdgesComponent(g, h, a[k]);
      ComponentShape(h, a[k]);
      ComponentShape(h, b[k]);
      assert a[k][0] == b[k][0];
      ComponentUnique(h, a[k], b[k], a[k][0]);
      assert a[..k + 1] == a[..k] + [a[k]] && b[..k + 1] == b[..k] + [b[k]];
      k := k + 1;
    }
    if |b| > |a| {
      assert b[..|a|] == a;
      NextNotLater(h, b, g, a, |a|);
    }
  }

  // --- Positions in the flattened order ---

  lemma {:induction false} ConcatMembers(blocks: seq<seq<nat>>, x: nat)
    ensures x in Concat(blocks) <==> InBlocks(blocks, x)
  {
    if blocks != [] {
      var n := |blocks| - 1;
      ConcatMembers(blocks[..n], x);
      if InBlocks(blocks[..n], x) {
        var k :| 0 <= k < n && x in blocks[..n][k];
        assert x in blocks[k];
      }
      if InBlocks(blocks, x) && x !in blocks[n] {
        var k :| 0 <= k < |blocks| && x in blocks[k];
        assert x in blocks[..n][k];
      }
    }
  }

  /** Every module stands in the order exactly once. */
  lemma {:induction false} ConcatDistinct(g: Graph, blocks: seq<seq<nat>>)
    requires forall k :: 0 <= k < |blocks| ==> Ascending(blocks[k])
    requires forall k, x :: 0 <= k < |blocks| && x in blocks[k] ==> !InBlocks(blocks[..k], x)
    ensures forall i, j :: 0 <= i < j < |Concat(blocks)| ==> Concat(blocks)[i] != Concat(blocks)[j]
  {
    if blocks != [] {
      var n := |blocks| - 1;
      var front := blocks[..n];
      assert forall k :: 0 <= k <= n ==> front[..k] == blocks[..k];
      ConcatDistinct(g, front);
      var c := Concat(blocks);
      var m := |Concat(front)|;
      forall i, j | 0 <= i < j < |c|
        ensures c[i] != c[j]
      {
        if i < m && j >= m {
          ConcatMembers(front, c[i]);
          assert c[i] in Concat(front);
          assert c[j] == blocks[n][j - m];
        }
      }
    }
  }

  /** A permutation of the manifest, each dependency outside a module's own
      component before the module. */
  lemma {:induction false} DependenciesFirst(g: Graph, blocks: seq<seq<nat>>, p: nat, q: nat)
    requires IsLoadOrder(g, blocks) && p < |Concat(blocks)| && q < |Concat(blocks)|
    requires Edge(g, Concat(blocks)[q], Concat(blocks)[p])
    requires !Same(g, Concat(blocks)[q], Concat(blocks)[p])
    ensures p < q
  {
    hide Reach, IsComponent, Greedy;
    var order := Concat(blocks);
    var x, y := order[q], order[p];
    ConcatMembers(blocks, x);
    var k :| 0 <= k < |blocks| && x in blocks[k];
    assert DepsMet(g, blocks[..k], blocks[k]);
    assert y !in blocks[k] by { ComponentSame(g, blocks[k], x); }
    assert InBlocks(blocks[..k], y);
    ConcatSplit(blocks, k);
    ConcatMembers(blocks[..k], y);
    ConcatMembers(blocks[..k], x);
    LoadOrderDistinct(g, blocks);
    var m := |Concat(blocks[..k])|;
    var i :| 0 <= i < m && Concat(blocks[..k])[i] == y;
    assert order[i] == y && i == p;
    assert forall r: nat :: r < m ==> order[r] == Concat(blocks[..k])[r];
  }

  lemma ComponentSame(g: Graph, c: seq<nat>, x: nat)
    requires IsComponent(g, c) && x in c
    ensures forall y :: y in c ==> Same(g, x, y)
  {
  }

  lemma {:induction false} ConcatSplit(blocks: seq<seq<nat>>, k: nat)
    requires k <= |blocks|
    ensures Concat(blocks[..k]) <= Concat(blocks)
  {
    if k == |blocks| {
      assert blocks[..k] == blocks;
    } else {
      var n := |blocks| - 1;
      assert blocks[..n][..k] == blocks[..k];
      ConcatSplit(blocks[..n], k);
    }
  }

  lemma LoadOrderDistinct(g: Graph, blocks: seq<seq<nat>>)
    requires IsLoadOrder(g, blocks)
    ensures forall i, j :: 0 <= i < j < |Concat(blocks)| ==> Concat(blocks)[i] != Concat(blocks)[j]
    ensures forall x: nat :: x in Concat(blocks) <==> x < |g|
  {
    hide Reach, IsComponent, Greedy, DepsMet;
    forall k | 0 <= k < |blocks|
      ensures Ascending(blocks[k]) && forall x :: x in blocks[k] ==> x < |g|
    {
      ComponentShape(g, blocks[k]);
    }
    ConcatDistinct(g, blocks);
    forall x: nat
      ensures x in Concat(blocks) <==> x < |g|
    {
      ConcatMembers(blocks, x);
    }
  }

  // --- Manifests already in dependency order ---

  ghost predicate PointsBack(g: Graph) {
    forall x, y :: Edge(g, x, y) ==> y <= x
  }

  lemma {:induction false} ReachPointsBack(g: Graph, x: nat, y: nat)
    requires PointsBack(g) && Reach(g, x, y)
    ensures y <= x
  {
    var p :| Path(g, p, x, y);
    var i := 0;
    while i < |p| - 1
      invariant 0 <= i < |p| && p[i] <= x
    {
      assert Edge(g, p[i], p[i + 1]);
      i := i + 1;
    }
  }

  function Identity(n: nat): seq<seq<nat>> {
    seq(n, i => [i])
  }

  lemma IdentityIsLoadOrder(g: Graph)
    requires PointsBack(g)
    ensures IsLoadOrder(g, Identity(|g|))
  {
    hide Reach;
    var b := Identity(|g|);
    forall k: nat | k < |g|
      ensures IsComponent(g, b[k])
    {
      ReachSelf(g, k);
      forall y: nat | y < |g| && Same(g, k, y)
        ensures y == k
      {
        ReachPointsBack(g, k, y);
        ReachPointsBack(g, y, k);
      }
    }
    forall x: nat | x < |g|
      ensures InBlocks(b, x)
    {
      assert x in b[x];
    }
    forall k: nat, x: nat, y: nat | k < |g| && x in b[k] && Edge(g, x, y)
      ensures y in b[k] || InBlocks(b[..k], y)
    {
      if y < k { assert b[..k][y] == [y]; }
    }
  }

  lemma {:induction false} ConcatIdentity(n: nat)
    ensures Concat(Identity(n)) == seq(n, i => i)
  {
    if n > 0 {
      assert Identity(n)[..n - 1] == Identity(n - 1);
      ConcatIdentity(n - 1);
    }
  }

  /** A manifest whose dependencies all point to earlier entries (or to the entry
      itself) is loaded exactly as written. */
  lemma SortedManifestUnchanged(g: Graph, blocks: seq<seq<nat>>)
    requires PointsBack(g) && IsLoadOrder(g, blocks)
    ensures Concat(blocks) == seq(|g|, i => i)
  {
    hide IsLoadOrder;
    IdentityIsLoadOrder(g);
    LoadOrderCanonical(g, blocks, g, Identity(|g|));
    ConcatIdentity(|g|);
  }

  // --- Reported cycles ---

  /** The loader's test for reporting a component. */
  ghost predicate Reported(g: Graph, c: seq<nat>) {
    |c| > 1 || exists x :: x in c && Edge(g, x, x)
  }

  /** Some module of the component depends, through one or more edges, on itself. */
  ghost predicate Cyclic(g: Graph, c: seq<nat>) {
    exists x, z :: x in c && Edge(g, x, z) && Reach(g, z, x)
  }

  lemma ReportedIffCyclic(g: Graph, c: seq<nat>)
    requires WellFormed(g) && IsComponent(g, c)
    ensures Reported(g, c) <==> Cyclic(g, c)
  {
    hide Reach;
    if |c| > 1 {
      assert c[0] in c && c[1] in c;
      assert Same(g, c[0], c[1]);
      assert c[0] != c[1];
      var z := FirstStep(g, c[0], c[1]);
      ReachTrans(g, z, c[1], c[0]);
    } else if exists x :: x in c && Edge(g, x, x) {
      var x :| x in c && Edge(g, x, x);
      ReachSelf(g, x);
    }
    if x, z :| x in c && Edge(g, x, z) && Reach(g, z, x) {
      ReachEdge(g, x, z);
      assert Same(g, x, z);
      assert z in c;
      assert (x == c[0] && z == c[0]) || |c| > 1;
    }
  }

  lemma FirstStep(g: Graph, x: nat, y: nat) returns (z: nat)
    requires Reach(g, x, y) && x != y
    ensures Edge(g, x, z) && Reach(g, z, y)
  {
    var p :| Path(g, p, x, y);
    z := p[1];
    assert Edge(g, p[0], p[1]);
    assert Path(g, p[1..], z, y) by {
      var q := p[1..];
      forall i | 0 <= i < |q| - 1
        ensures Edge(g, q[i], q[i + 1])
      {
        assert Edge(g, p[i + 1], p[i + 2]);
      }
    }
  }
}
