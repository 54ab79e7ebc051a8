/** Directed graphs over the indices of a manifest: edges, reachability and
    strongly connected components. `g[x]` lists the dependencies of module `x`. */
module Graphs {

  type Graph = seq<seq<nat>>

  ghost predicate WellFormed(g: Graph) {
    forall x, k :: 0 <= x < |g| && 0 <= k < |g[x]| ==> g[x][k] < |g|
  }

  ghost predicate Edge(g: Graph, x: nat, y: nat) {
    x < |g| && y in g[x]
  }

  /** `p` walks along edges from `x` to `y`; a single node is a walk to itself. */
  ghost predicate Path(g: Graph, p: seq<nat>, x: nat, y: nat) {
    && |p| > 0 && p[0] == x && p[|p| - 1] == y
    && forall i :: 0 <= i < |p| - 1 ==> Edge(g, p[i], p[i + 1])
  }

  ghost predicate Reach(g: Graph, x: nat, y: nat) {
    exists p :: Path(g, p, x, y)
  }

  /** Mutual reachability: membership of the same strongly connected component. */
  ghost predicate Same(g: Graph, x: nat, y: nat) {
    Reach(g, x, y) && Reach(g, y, x)
  }

  /** No edge leaves `s`. */
  ghost predicate Closed(g: Graph, s: set<nat>) {
    forall x, y :: x in s && Edge(g, x, y) ==> y in s
  }

  lemma ReachSelf(g: Graph, x: nat)
    ensures Reach(g, x, x)
  {
    assert Path(g, [x], x, x);
  }

  lemma ReachEdge(g: Graph, x: nat, y: nat)
    requires Edge(g, x, y)
    ensures Reach(g, x, y)
  {
    assert Path(g, [x, y], x, y);
  }

  lemma ReachTrans(g: Graph, x: nat, y: nat, z: nat)
    requires Reach(g, x, y) && Reach(g, y, z)
    ensures Reach(g, x, z)
  {
    var p :| Path(g, p, x, y);
    var q :| Path(g, q, y, z);
    var r := p + q[1..];
    forall i | 0 <= i < |r| - 1
      ensures Edge(g, r[i], r[i + 1])
    {
      if i < |p| - 1 {
        assert r[i] == p[i] && r[i + 1] == p[i + 1];
      } else {
        assert r[i] == q[i - |p| + 1] && r[i + 1] == q[i - |p| + 2];
      }
    }
    assert Path(g, r, x, z);
  }

  /** A walk never leaves a closed set. */
  lemma {:induction false} ClosedReach(g: Graph, s: set<nat>, x: nat, y: nat)
    requires Closed(g, s) && x in s && Reach(g, x, y)
    ensures y in s
  {
    var p :| Path(g, p, x, y);
    var i := 0;
    while i < |p| - 1
      invariant 0 <= i < |p| && p[i] in s
    {
      assert Edge(g, p[i], p[i + 1]);
      i := i + 1;
    }
  }

  lemma SameTrans(g: Graph, x: nat, y: nat, z: nat)
    requires Same(g, x, y) && Same(g, y, z)
    ensures Same(g, x, z)
  {
    ReachTrans(g, x, y, z);
    ReachTrans(g, z, y, x);
  }

  ghost predicate Ascending(s: seq<nat>) {
    forall i, j :: 0 <= i < j < |s| ==> s[i] < s[j]
  }

  /** `c` lists one whole strongly connected component in ascending order. */
  ghost predicate IsComponent(g: Graph, c: seq<nat>) {
    && |c| > 0 && Ascending(c)
    && (forall x :: x in c ==> x < |g|)
    && (forall x, y: nat :: x in c && y < |g| ==> (y in c <==> Same(g, x, y)))
  }

  /** An ascending list is determined by its members. */
  lemma {:induction false} AscendingUnique(a: seq<nat>, b: seq<nat>)
    requires Ascending(a) && Ascending(b)
    requires forall x :: x in a <==> x in b
    ensures a == b
  {
    if a == [] {
      assert forall i :: 0 <= i < |b| ==> b[i] in b;
    } else {
      assert b != [] by { assert a[0] in b; }
      var m, n := |a| - 1, |b| - 1;
      assert a[m] in b && b[n] in a;
      assert a[m] == b[n];
      forall x
        ensures x in a[..m] <==> x in b[..n]
      {
        assert x in a[..m] <==> x in a && x != a[m];
        assert x in b[..n] <==> x in b && x != b[n];
      }
      AscendingUnique(a[..m], b[..n]);
      assert a == a[..m] + [a[m]] && b == b[..n] + [b[n]];
    }
  }

  function InsertSorted(x: nat, s: seq<nat>): seq<nat> {
    if s == [] then [x]
    else if x <= s[0] then [x] + s
    else [s[0]] + InsertSorted(x, s[1..])
  }

  /** The in-place ascending sort of a list of indices. */
  function SortAscending(s: seq<nat>): seq<nat> {
    if s == [] then [] else InsertSorted(s[0], SortAscending(s[1..]))
  }

  lemma {:induction false} InsertSortedCorrect(x: nat, s: seq<nat>)
    requires Ascending(s) && x !in s
    ensures Ascending(InsertSorted(x, s))
    ensures forall y :: y in InsertSorted(x, s) <==> y == x || y in s
  {
    hide Ascending;
    if s == [] {
      AscendingCons(x, s);
      assert [x] + s == [x];
    } else {
      AscendingTail(s);
      assert s == [s[0]] + s[1..];
      if x <= s[0] {
        AscendingCons(x, s);
      } else {
        InsertSortedCorrect(x, s[1..]);
        AscendingCons(s[0], InsertSorted(x, s[1..]));
      }
    }
  }

  lemma AscendingCons(x: nat, s: seq<nat>)
    requires (s == [] || Ascending(s)) && forall y :: y in s ==> x < y
    ensures Ascending([x] + s)
  {
    assert forall i :: 0 <= i < |s| ==> s[i] in s;
  }

  lemma AscendingTail(s: seq<nat>)
    requires Ascending(s) && s != []
    ensures Ascending(s[1..]) && forall y :: y in s[1..] ==> s[0] < y
  {
  }

  lemma {:induction false} SortAscendingCorrect(s: seq<nat>)
    requires forall i, j :: 0 <= i < j < |s| ==> s[i] != s[j]
    ensures Ascending(SortAscending(s))
    ensures forall y :: y in SortAscending(s) <==> y in s
  {
    if s != [] {
      SortAscendingCorrect(s[1..]);
      InsertSortedCorrect(s[0], SortAscending(s[1..]));
    }
  }
}
