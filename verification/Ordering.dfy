/** Module ordering of the artifact loader: manifest names to indices, the
    condensation of the dependency graph, and Kahn's loop over it. */
module Ordering {
  import opened Wrappers
  import opened Graphs
  import opened LoadOrder
  import opened Tarjan

  datatype ManifestEntry = ManifestEntry(name: string, deps: seq<string>)

  // --- Names to indices ---

  /** `name` belongs to entry `i` and to no later one: the entry a name map keeps. */
  ghost predicate Names(entries: seq<ManifestEntry>, name: string, i: nat) {
    && i < |entries| && entries[i].name == name
    && forall j :: i < j < |entries| ==> entries[j].name != name
  }

  /** The dependency indices of one entry: those of the names that resolve, in order. */
  function Resolve(indexOf: map<string, nat>, deps: seq<string>): seq<nat> {
    if deps == [] then []
    else
      var front := Resolve(indexOf, deps[..|deps| - 1]);
      var dep := deps[|deps| - 1];
      if dep in indexOf then front + [indexOf[dep]] else front
  }

  ghost predicate Named(entries: seq<ManifestEntry>, name: string) {
    exists i :: Names(entries, name, i)
  }

  ghost predicate IsIndex(entries: seq<ManifestEntry>, indexOf: map<string, nat>) {
    && (forall name :: name in indexOf ==> Names(entries, name, indexOf[name]))
    && (forall i :: 0 <= i < |entries| ==> entries[i].name in indexOf)
  }

  ghost predicate IsDepEdges(entries: seq<ManifestEntry>, g: Graph) {
    && |g| == |entries|
    && exists indexOf :: IsIndex(entries, indexOf)
                         && forall i :: 0 <= i < |g| ==> g[i] == Resolve(indexOf, entries[i].deps)
  }

  method IndexByName(entries: seq<ManifestEntry>) returns (indexOf: map<string, nat>)
    ensures IsIndex(entries, indexOf)
  {
    indexOf := map[];
    for i := 0 to |entries|
      invariant IsIndex(entries[..i], indexOf)
    {
      indexOf := indexOf[entries[i].name := i];
    }
    assert entries[..|entries|] == entries;
  }

  method DepEdges(entries: seq<ManifestEntry>) returns (depEdges: Graph)
    ensures IsDepEdges(entries, depEdges) && WellFormed(depEdges) && |depEdges| == |entries|
  {
    var indexOf := IndexByName(entries);
    depEdges := [];
    for i := 0 to |entries|
      invariant |depEdges| == i
      invariant forall j :: 0 <= j < i ==> depEdges[j] == Resolve(indexOf, entries[j].deps)
    {
      depEdges := depEdges + [Resolve(indexOf, entries[i].deps)];
    }
    forall x, k | 0 <= x < |depEdges| && 0 <= k < |depEdges[x]|
      ensures depEdges[x][k] < |depEdges|
    {
      ResolveMembers(indexOf, entries[x].deps, depEdges[x][k]);
    }
  }

  lemma {:induction false} ResolveMembers(indexOf: map<string, nat>, deps: seq<string>, i: nat)
    ensures i in Resolve(indexOf, deps) <==> exists dep :: dep in deps && dep in indexOf && indexOf[dep] == i
  {
    if deps != [] {
      var last := deps[|deps| - 1];
      ResolveMembers(indexOf, deps[..|deps| - 1], i);
      assert deps == deps[..|deps| - 1] + [last];
    }
  }

  /** Module `x` declares module `y`, by name, as a dependency. */
  ghost predicate Declares(entries: seq<ManifestEntry>, x: nat, y: nat) {
    x < |entries| && exists dep :: dep in entries[x].deps && Names(entries, dep, y)
  }

  /** The edges are exactly the declared dependencies. */
  lemma EdgesAreDeclared(entries: seq<ManifestEntry>, g: Graph, x: nat, y: nat)
    requires IsDepEdges(entries, g)
    ensures Edge(g, x, y) <==> Declares(entries, x, y)
  {
    if x < |g| {
      var indexOf :| IsIndex(entries, indexOf)
                     && forall i :: 0 <= i < |g| ==> g[i] == Resolve(indexOf, entries[i].deps);
      ResolveMembers(indexOf, entries[x].deps, y);
      forall dep | dep in entries[x].deps
        ensures Names(entries, dep, y) <==> dep in indexOf && indexOf[dep] == y
      {
        if Names(entries, dep, y) {
          assert entries[y].name in indexOf;
          assert Names(entries, dep, indexOf[dep]);
        }
      }
    }
  }

  /** The k-th dependency of entry `i` is `dep`, and those before it are all named. */
  ghost predicate FirstMissing(entries: seq<ManifestEntry>, i: nat, k: nat, dep: string) {
    && i < |entries| && k < |entries[i].deps| && entries[i].deps[k] == dep && !Named(entries, dep)
    && forall m :: 0 <= m < k ==> Named(entries, entries[i].deps[m])
  }

  /** The pre-fetch check of a batch: the first dependency, in manifest order, that
      no entry of the manifest is named by. */
  method MissingDependency(entries: seq<ManifestEntry>) returns (missing: Option<(nat, string)>)
    ensures missing.None? ==> forall i, dep :: 0 <= i < |entries| && dep in entries[i].deps
                                               ==> Named(entries, dep)
    ensures missing.Some? ==> missing.value.0 < |entries| && missing.value.1 in entries[missing.value.0].deps
                              && !Named(entries, missing.value.1)
    ensures missing.Some? ==>
              forall i, dep :: 0 <= i < missing.value.0 && dep in entries[i].deps ==> Named(entries, dep)
    ensures missing.Some? ==> exists k :: FirstMissing(entries, missing.value.0, k, missing.value.1)
  {
    var indexOf := IndexByName(entries);
    for i := 0 to |entries|
      invariant forall j, dep :: 0 <= j < i && dep in entries[j].deps ==> Named(entries, dep)
    {
      for k := 0 to |entries[i].deps|
        invariant forall m :: 0 <= m < k ==> Named(entries, entries[i].deps[m])
      {
        var dep := entries[i].deps[k];
        if dep !in indexOf {
          assert forall y: nat :: y < |entries| ==> entries[y].name in indexOf;
          assert FirstMissing(entries, i, k, dep);
          return Some((i, dep));
        }
        assert Names(entries, dep, indexOf[dep]);
      }
    }
    return None;
  }

  // --- The condensation ---

  ghost predicate IsCompOf(comps: seq<seq<nat>>, compOf: seq<nat>) {
    && (forall x :: 0 <= x < |compOf| ==> compOf[x] < |comps| && x in comps[compOf[x]])
    && (forall c, x: nat :: 0 <= c < |comps| && x in comps[c] ==> x < |compOf| && compOf[x] == c)
  }

  /** Some module of component `to` depends on one of another component `from`. */
  ghost predicate CrossEdge(g: Graph, compOf: seq<nat>, from: nat, to: nat) {
    && from != to
    && exists x: nat, y: nat :: Edge(g, x, y) && x < |compOf| && y < |compOf| && compOf[x] == to && compOf[y] == from
  }

  ghost function Preds(g: Graph, compOf: seq<nat>, n: nat, c: nat): set<nat> {
    set d: nat | d < n && CrossEdge(g, compOf, d, c)
  }

  /** Tarjan numbers a component only after all it depends on. */
  lemma CrossEdgesPointDown(g: Graph, comps: seq<seq<nat>>, compOf: seq<nat>, from: nat, to: nat)
    requires Components(g, comps) && IsCompOf(comps, compOf) && CrossEdge(g, compOf, from, to)
    ensures from < to < |comps|
  {
  }

  ghost predicate MarkedBelow(compOf: seq<nat>, comps: seq<seq<nat>>, c: nat)
    requires c <= |comps|
  {
    forall d, i :: 0 <= d < c && 0 <= i < |comps[d]| ==> comps[d][i] < |compOf| && compOf[comps[d][i]] == d
  }

  method ComponentOf(g: Graph, comps: seq<seq<nat>>) returns (compOf: seq<nat>)
    requires Components(g, comps) && forall x: nat :: x < |g| <==> x in Emitted(comps)
    ensures |compOf| == |g| && IsCompOf(comps, compOf)
  {
    hide Reach, IsComponent;
    compOf := seq(|g|, _ => 0);
    for c := 0 to |comps|
      invariant |compOf| == |g|
      invariant MarkedBelow(compOf, comps, c)
    {
      for i := 0 to |comps[c]|
        invariant |compOf| == |g|
        invariant MarkedBelow(compOf, comps, c)
        invariant forall j :: 0 <= j < i ==> comps[c][j] < |g| && compOf[comps[c][j]] == c
      {
        assert comps[c][i] in Emitted(comps);
        assert comps[c][i] in comps[c];
        MarkKeepsBelow(compOf, comps, c, comps[c][i]);
        compOf := compOf[comps[c][i] := c];
      }
      MarkNext(compOf, comps, c);
    }
    MarkedIsCompOf(compOf, comps);
  }

  lemma MarkNext(compOf: seq<nat>, comps: seq<seq<nat>>, c: nat)
    requires c < |comps| && MarkedBelow(compOf, comps, c)
    requires forall j :: 0 <= j < |comps[c]| ==> comps[c][j] < |compOf| && compOf[comps[c][j]] == c
    ensures MarkedBelow(compOf, comps, c + 1)
  {
  }

  lemma MarkedIsCompOf(compOf: seq<nat>, comps: seq<seq<nat>>)
    requires MarkedBelow(compOf, comps, |comps|) && forall x: nat :: x < |compOf| ==> x in Emitted(comps)
    ensures IsCompOf(comps, compOf)
  {
    forall x: nat | x < |compOf|
      ensures compOf[x] < |comps| && x in comps[compOf[x]]
    {
      assert x in Emitted(comps);
      var c, i :| 0 <= c < |comps| && 0 <= i < |comps[c]| && comps[c][i] == x;
      assert x in comps[c];
    }
    forall c, x: nat | 0 <= c < |comps| && x in comps[c]
      ensures x < |compOf| && compOf[x] == c
    {
      var i :| 0 <= i < |comps[c]| && comps[c][i] == x;
    }
  }

  lemma MarkKeepsBelow(compOf: seq<nat>, comps: seq<seq<nat>>, c: nat, x: nat)
    requires c < |comps| && MarkedBelow(compOf, comps, c) && x < |compOf|
    requires x !in Emitted(comps[..c])
    ensures MarkedBelow(compOf[x := c], comps, c)
  {
  }

  /** The first `i` modules, and `k` dependencies of the next, contain such an edge. */
  ghost predicate SeenEdge(g: Graph, compOf: seq<nat>, i: nat, k: nat, from: nat, to: nat)
    requires |compOf| == |g| && WellFormed(g)
  {
    from != to && exists x, j :: 0 <= x < |g| && 0 <= j < |g[x]| && (x < i || (x == i && j < k))
                                 && compOf[x] == to && compOf[g[x][j]] == from
  }

  ghost function Into(seen: set<(nat, nat)>, to: nat): set<nat> {
    set p | p in seen && p.1 == to :: p.0
  }

  datatype Condensation = Condensation(indegree: seq<nat>, dependantsOf: seq<seq<nat>>, selfLooped: seq<bool>)

  /** The tables agree with the set of component edges recorded so far. */
  ghost predicate Tables(indegree: seq<nat>, dependantsOf: seq<seq<nat>>, n: nat, seen: set<(nat, nat)>) {
    && |indegree| == |dependantsOf| == n
    && (forall p :: p in seen ==> p.0 < n && p.1 < n)
    && (forall c :: 0 <= c < n ==> indegree[c] == |Into(seen, c)|)
    && (forall from, to: nat :: 0 <= from < n ==> (to in dependantsOf[from] <==> (from, to) in seen))
    && (forall from, i, j :: 0 <= from < n && 0 <= i < j < |dependantsOf[from]|
                             ==> dependantsOf[from][i] != dependantsOf[from][j])
  }

  lemma IntoStep(seen: set<(nat, nat)>, from: nat, to: nat, c: nat)
    requires (from, to) !in seen
    ensures |Into(seen + {(from, to)}, c)| == |Into(seen, c)| + if c == to then 1 else 0
  {
    var more := seen + {(from, to)};
    if c == to {
      assert Into(more, to) == Into(seen, to) + {from};
      assert from !in Into(seen, to);
    } else {
      assert Into(more, c) == Into(seen, c);
    }
  }

  lemma TablesStep(indegree: seq<nat>, dependantsOf: seq<seq<nat>>, n: nat, seen: set<(nat, nat)>, from: nat, to: nat)
    requires Tables(indegree, dependantsOf, n, seen) && from < n && to < n && (from, to) !in seen
    ensures Tables(indegree[to := indegree[to] + 1], dependantsOf[from := dependantsOf[from] + [to]],
                   n, seen + {(from, to)})
  {
    hide Into;
    var more := seen + {(from, to)};
    forall c | 0 <= c < n
      ensures indegree[to := indegree[to] + 1][c] == |Into(more, c)|
    {
      IntoStep(seen, from, to, c);
    }
    assert to !in dependantsOf[from];
  }

  method Condense(g: Graph, n: nat, compOf: seq<nat>) returns (d: Condensation)
    requires WellFormed(g) && |compOf| == |g| && forall x :: 0 <= x < |compOf| ==> compOf[x] < n
    ensures |d.indegree| == |d.dependantsOf| == |d.selfLooped| == n
    ensures forall c :: 0 <= c < n ==> d.indegree[c] == |Preds(g, compOf, n, c)|
    ensures forall from, to: nat :: 0 <= from < n ==>
              (to in d.dependantsOf[from] <==> to < n && CrossEdge(g, compOf, from, to))
    ensures forall from, i, j :: 0 <= from < n && 0 <= i < j < |d.dependantsOf[from]|
                                 ==> d.dependantsOf[from][i] != d.dependantsOf[from][j]
    ensures forall c :: 0 <= c < n ==>
              (d.selfLooped[c] <==> exists x :: 0 <= x < |g| && compOf[x] == c && Edge(g, x, x))
  {
    hide Tables;
    var indegree: seq<nat>, dependantsOf: seq<seq<nat>> := seq(n, _ => 0), seq(n, _ => []);
    var selfLooped := seq(n, _ => false);
    var seen: set<(nat, nat)> := {};
    TablesEmpty(n);
    for i := 0 to |g|
      invariant |indegree| == |dependantsOf| == |selfLooped| == n
      invariant Tables(indegree, dependantsOf, n, seen)
      invariant forall from: nat, to: nat :: (from, to) in seen <==> SeenEdge(g, compOf, i, 0, from, to)
      invariant forall c :: 0 <= c < n ==>
                  (selfLooped[c] <==> exists x :: 0 <= x < i && compOf[x] == c && Edge(g, x, x))
    {
      ghost var self := selfLooped;
      for k := 0 to |g[i]|
        invariant |indegree| == |dependantsOf| == |selfLooped| == n
        invariant Tables(indegree, dependantsOf, n, seen)
        invariant forall from: nat, to: nat :: (from, to) in seen <==> SeenEdge(g, compOf, i, k, from, to)
        invariant forall c :: 0 <= c < n ==> (selfLooped[c] <==> self[c] || (compOf[i] == c && i in g[i][..k]))
      {
        var dependency := g[i][k];
        var from, to := compOf[dependency], compOf[i];
        SeenStep(g, compOf, i, k);
        assert g[i][..k + 1] == g[i][..k] + [dependency];
        if from == to {
          if i == dependency {
            selfLooped := selfLooped[to := true];
          }
        } else if (from, to) !in seen {
          TablesStep(indegree, dependantsOf, n, seen, from, to);
          seen := seen + {(from, to)};
          indegree := indegree[to := indegree[to] + 1];
          dependantsOf := dependantsOf[from := dependantsOf[from] + [to]];
        }
      }
      SeenRow(g, compOf, i);
      assert g[i][..|g[i]|] == g[i];
    }
    d := Condensation(indegree, dependantsOf, selfLooped);
    SeenAll(g, n, compOf, d, seen);
  }

  lemma TablesEmpty(n: nat)
    ensures Tables(seq(n, _ => 0), seq(n, _ => []), n, {})
  {
    assert forall c :: Into({}, c) == {};
  }

  /** One more dependency adds at most one component edge. */
  lemma SeenStep(g: Graph, compOf: seq<nat>, i: nat, k: nat)
    requires WellFormed(g) && |compOf| == |g| && i < |g| && k < |g[i]|
    ensures forall from: nat, to: nat ::
              SeenEdge(g, compOf, i, k + 1, from, to)
              <==> SeenEdge(g, compOf, i, k, from, to) || (from == compOf[g[i][k]] && to == compOf[i] && from != to)
  {
    forall from: nat, to: nat
      ensures SeenEdge(g, compOf, i, k + 1, from, to)
              <==> SeenEdge(g, compOf, i, k, from, to) || (from == compOf[g[i][k]] && to == compOf[i] && from != to)
    {
      if SeenEdge(g, compOf, i, k + 1, from, to) {
        var x, j :| 0 <= x < |g| && 0 <= j < |g[x]| && (x < i || (x == i && j < k + 1)) && compOf[x] == to
                      && compOf[g[x][j]] == from && from != to;
        assert (x == i && j == k) || x < i || (x == i && j < k);
      }
      if from == compOf[g[i][k]] && to == compOf[i] && from != to {
        assert compOf[g[i][k]] == from;
      }
    }
  }

  lemma SeenRow(g: Graph, compOf: seq<nat>, i: nat)
    requires WellFormed(g) && |compOf| == |g| && i < |g|
    ensures forall from: nat, to: nat ::
              SeenEdge(g, compOf, i, |g[i]|, from, to) <==> SeenEdge(g, compOf, i + 1, 0, from, to)
  {
  }

  lemma SeenAll(g: Graph, n: nat, compOf: seq<nat>, d: Condensation, seen: set<(nat, nat)>)
    requires WellFormed(g) && |compOf| == |g| && Tables(d.indegree, d.dependantsOf, n, seen)
    requires forall from: nat, to: nat :: (from, to) in seen <==> SeenEdge(g, compOf, |g|, 0, from, to)
    ensures forall c :: 0 <= c < n ==> d.indegree[c] == |Preds(g, compOf, n, c)|
    ensures forall from, to: nat :: 0 <= from < n ==>
              (to in d.dependantsOf[from] <==> to < n && CrossEdge(g, compOf, from, to))
    ensures forall from, i, j :: 0 <= from < n && 0 <= i < j < |d.dependantsOf[from]|
                                 ==> d.dependantsOf[from][i] != d.dependantsOf[from][j]
  {
    forall from: nat, to: nat
      ensures (from, to) in seen <==> CrossEdge(g, compOf, from, to)
    {
      if CrossEdge(g, compOf, from, to) {
        var x: nat, y: nat :| Edge(g, x, y) && x < |compOf| && y < |compOf| && compOf[x] == to && compOf[y] == from;
        var j :| 0 <= j < |g[x]| && g[x][j] == y;
        assert SeenEdge(g, compOf, |g|, 0, from, to);
      }
      if SeenEdge(g, compOf, |g|, 0, from, to) {
        var x, j :| 0 <= x < |g| && 0 <= j < |g[x]| && x < |g| && compOf[x] == to && compOf[g[x][j]] == from;
        assert Edge(g, x, g[x][j]);
      }
    }
    forall c | 0 <= c < n
      ensures Into(seen, c) == Preds(g, compOf, n, c)
    {
      forall from: nat
        ensures from in Into(seen, c) <==> from in Preds(g, compOf, n, c)
      {
        assert from in Into(seen, c) <==> (from, c) in seen;
      }
    }
  }

  // --- Kahn's loop ---

  ghost function Range(s: seq<nat>): set<nat> {
    set x | x in s
  }

  ghost function Left(g: Graph, compOf: seq<nat>, n: nat, done: seq<nat>, c: nat): set<nat> {
    Preds(g, compOf, n, c) - Range(done)
  }

  predicate Below(s: seq<nat>, n: nat) {
    forall i :: 0 <= i < |s| ==> s[i] < n
  }

  /** Each emitted component had all it depends on before it, and of those that had
      the least rank was taken. */
  ghost predicate GoodPrefix(g: Graph, compOf: seq<nat>, rank: seq<nat>, done: seq<nat>) {
    && Distinct(done) && Below(done, |rank|)
    && (forall k :: 0 <= k < |done| ==> Left(g, compOf, |rank|, done[..k], done[k]) == {})
    && (forall k, c: nat ::
          0 <= k < |done| && c < |rank| && c !in done[..k] && Left(g, compOf, |rank|, done[..k], c) == {}
          ==> rank[done[k]] <= rank[c])
  }

  ghost predicate KahnInv(g: Graph, compOf: seq<nat>, rank: seq<nat>, indegree: seq<nat>, ready: seq<nat>,
                          done: seq<nat>)
  {
    && |indegree| == |rank| && Below(ready, |rank|) && Below(done, |rank|) && Distinct(done)
    && (forall c: nat :: c < |rank| ==> indegree[c] == |Left(g, compOf, |rank|, done, c)|)
    && Distinct(ready)
    && (forall c: nat :: c in ready <==> c < |rank| && c !in done && indegree[c] == 0)
    && GoodPrefix(g, compOf, rank, done)
  }

  /** The loop over the ready list that finds the least rank. */
  method PickReady(rank: seq<nat>, ready: seq<nat>) returns (pick: nat)
    requires ready != [] && Below(ready, |rank|)
    ensures pick < |ready|
    ensures forall j :: 0 <= j < |ready| ==> rank[ready[pick]] <= rank[ready[j]]
  {
    pick := 0;
    for candidate := 1 to |ready|
      invariant pick < |ready|
      invariant forall j :: 0 <= j < candidate ==> rank[ready[pick]] <= rank[ready[j]]
    {
      if rank[ready[candidate]] < rank[ready[pick]] {
        pick := candidate;
      }
    }
  }

  /** Remove one element by moving the last into its place. */
  function SwapRemove(s: seq<nat>, i: nat): seq<nat>
    requires i < |s|
  {
    s[i := s[|s| - 1]][..|s| - 1]
  }

  lemma SwapRemoveMembers(s: seq<nat>, i: nat)
    requires i < |s| && Distinct(s)
    ensures Distinct(SwapRemove(s, i))
    ensures forall x: nat :: x in SwapRemove(s, i) <==> x in s && x != s[i]
  {
    var t := SwapRemove(s, i);
    forall x | x in s && x != s[i]
      ensures x in t
    {
      var j :| 0 <= j < |s| && s[j] == x;
      if j == |s| - 1 { assert t[i] == x; } else { assert t[j] == x; }
    }
  }

  /** One component was emitted: each dependant loses one unmet dependency, and
      those left with none become ready. No count drops below zero. */
  method Release(dependants: seq<nat>, indegree: seq<nat>, ready: seq<nat>) returns (counts: seq<nat>, more: seq<nat>)
    requires Distinct(dependants) && Below(dependants, |indegree|)
    requires forall i :: 0 <= i < |dependants| ==> indegree[dependants[i]] > 0
    requires Distinct(ready) && forall c: nat :: c in ready ==> c !in dependants
    ensures |counts| == |indegree|
    ensures forall c: nat :: c < |indegree| ==> counts[c] == if c in dependants then indegree[c] - 1 else indegree[c]
    ensures Distinct(more)
    ensures forall c: nat :: c in more <==> c in ready || (c in dependants && counts[c] == 0)
  {
    counts, more := indegree, ready;
    for i := 0 to |dependants|
      invariant |counts| == |indegree|
      invariant forall c: nat :: c < |indegree| ==>
                  counts[c] == if c in dependants[..i] then indegree[c] - 1 else indegree[c]
      invariant Distinct(more)
      invariant forall c: nat :: c in more <==> c in ready || (c in dependants[..i] && counts[c] == 0)
    {
      var dependant := dependants[i];
      assert dependant !in dependants[..i];
      assert dependants[..i + 1] == dependants[..i] + [dependant];
      counts := counts[dependant := counts[dependant] - 1];
      if counts[dependant] == 0 {
        more := more + [dependant];
      }
    }
    assert dependants[..|dependants|] == dependants;
  }

  /** The ready list and the counts of one component, before and after a step. */
  lemma CountStep(g: Graph, compOf: seq<nat>, rank: seq<nat>, indegree: seq<nat>, ready: seq<nat>, done: seq<nat>,
                  component: nat, dependants: seq<nat>, c: nat)
    requires KahnInv(g, compOf, rank, indegree, ready, done) && component in ready && c < |rank|
    requires c in dependants <==> CrossEdge(g, compOf, component, c)
    ensures c in dependants ==> indegree[c] > 0 && c !in ready && c !in done && c != component
    ensures |Left(g, compOf, |rank|, done + [component], c)| == if c in dependants then indegree[c] - 1 else indegree[c]
    ensures c in ready <==> c !in done && indegree[c] == 0
  {
    hide CrossEdge, GoodPrefix;
    NoSelfCross(g, compOf, component);
    LeftStep(g, compOf, |rank|, done, component, c);
    if c in done { DoneHasNoneLeft(g, compOf, rank, done, c); }
  }

  /** Emitting a ready component of least rank, then releasing its dependants. */
  lemma KahnStep(g: Graph, compOf: seq<nat>, rank: seq<nat>, indegree: seq<nat>, ready: seq<nat>,
                 done: seq<nat>, component: nat, dependants: seq<nat>, counts: seq<nat>, more: seq<nat>)
    requires component in ready && component < |rank| == |indegree| == |counts|
    requires forall c: nat :: c in ready ==> c < |rank| && rank[component] <= rank[c]
    requires forall c: nat :: c in dependants <==> c < |rank| && CrossEdge(g, compOf, component, c)
    requires forall c: nat :: c < |indegree| ==> counts[c] + (if c in dependants then 1 else 0) == indegree[c]
    requires Distinct(more)
    requires forall c: nat :: c in more <==> (c in ready && c != component) || (c in dependants && counts[c] == 0)
    requires KahnInv(g, compOf, rank, indegree, ready, done)
    ensures KahnInv(g, compOf, rank, counts, more, done + [component])
  {
    hide CrossEdge, Left, GoodPrefix, KahnInv, Below, Distinct;
    var next := done + [component];
    assert Below(next, |rank|) && Distinct(next) && GoodPrefix(g, compOf, rank, next) && |indegree| == |rank| by {
      StepBounds(g, compOf, rank, indegree, ready, done, component);
    }
    assert Below(more, |rank|) by {
      StepBounds(g, compOf, rank, indegree, ready, done, component);
      BelowMembers(more, |rank|);
    }
    forall c: nat | c < |rank|
      ensures counts[c] == |Left(g, compOf, |rank|, next, c)|
      ensures c in more <==> c !in next && counts[c] == 0
    {
      StepBounds(g, compOf, rank, indegree, ready, done, component);
      CountStep(g, compOf, rank, indegree, ready, done, component, dependants, c);
      assert c in next <==> c in done || c == component;
    }
    KahnInvIntro(g, compOf, rank, counts, more, next);
  }

  lemma KahnInvIntro(g: Graph, compOf: seq<nat>, rank: seq<nat>, indegree: seq<nat>, ready: seq<nat>, done: seq<nat>)
    requires |indegree| == |rank| && Below(ready, |rank|) && Below(done, |rank|) && Distinct(done) && Distinct(ready)
    requires forall c: nat :: c < |rank| ==> indegree[c] == |Left(g, compOf, |rank|, done, c)|
    requires forall c: nat :: c < |rank| ==> (c in ready <==> c !in done && indegree[c] == 0)
    requires GoodPrefix(g, compOf, rank, done)
    ensures KahnInv(g, compOf, rank, indegree, ready, done)
  {
  }

  lemma StepBounds(g: Graph, compOf: seq<nat>, rank: seq<nat>, indegree: seq<nat>, ready: seq<nat>, done: seq<nat>,
                   component: nat)
    requires KahnInv(g, compOf, rank, indegree, ready, done) && component in ready
    requires forall c: nat :: c in ready && c < |rank| ==> rank[component] <= rank[c]
    ensures component < |rank| && component !in done && indegree[component] == 0
    ensures Below(done + [component], |rank|) && Distinct(done + [component])
    ensures |indegree| == |rank| && forall c: nat :: c in ready ==> c < |rank|
    ensures GoodPrefix(g, compOf, rank, done + [component])
  {
    hide Left, GoodPrefix;
    PrefixStep(g, compOf, rank, done, component, ready, indegree);
  }

  lemma NoSelfCross(g: Graph, compOf: seq<nat>, c: nat)
    ensures !CrossEdge(g, compOf, c, c)
  {
  }

  lemma BelowMembers(s: seq<nat>, n: nat)
    requires forall x :: x in s ==> x < n
    ensures Below(s, n)
  {
    forall i | 0 <= i < |s|
      ensures s[i] < n
    {
      assert s[i] in s;
    }
  }

  /** What an emitted component depends on has been emitted before it. */
  lemma DoneHasNoneLeft(g: Graph, compOf: seq<nat>, rank: seq<nat>, done: seq<nat>, c: nat)
    requires GoodPrefix(g, compOf, rank, done) && c in done
    ensures Left(g, compOf, |rank|, done, c) == {}
  {
  }

  lemma ComponentBelow(g: Graph, c: seq<nat>)
    requires IsComponent(g, c)
    ensures Below(c, |g|)
  {
    ComponentShape(g, c);
    BelowMembers(c, |g|);
  }

  lemma LeftStep(g: Graph, compOf: seq<nat>, n: nat, done: seq<nat>, component: nat, c: nat)
    requires component < n && component !in done
    ensures if CrossEdge(g, compOf, component, c)
            then |Left(g, compOf, n, done, c)| == |Left(g, compOf, n, done + [component], c)| + 1
            else Left(g, compOf, n, done + [component], c) == Left(g, compOf, n, done, c)
  {
    hide CrossEdge;
    var before, after := Left(g, compOf, n, done, c), Left(g, compOf, n, done + [component], c);
    assert after == before - {component};
  }

  lemma PrefixStep(g: Graph, compOf: seq<nat>, rank: seq<nat>, done: seq<nat>, component: nat, ready: seq<nat>,
                   indegree: seq<nat>)
    requires KahnInv(g, compOf, rank, indegree, ready, done) && component in ready
    requires forall c: nat :: c in ready ==> c < |rank| && rank[component] <= rank[c]
    ensures GoodPrefix(g, compOf, rank, done + [component])
  {
    hide CrossEdge, Left;
    var next := done + [component];
    assert next[..|done|] == done;
    forall k | 0 <= k < |next|
      ensures Left(g, compOf, |rank|, next[..k], next[k]) == {}
    {
      if k < |done| { assert next[..k] == done[..k]; }
    }
    forall k, c: nat | 0 <= k < |next| && c < |rank| && c !in next[..k] && Left(g, compOf, |rank|, next[..k], c) == {}
      ensures rank[next[k]] <= rank[c]
    {
      if k < |done| { assert next[..k] == done[..k]; } else { assert c in ready; }
    }
  }

  /** Kahn's loop strands no component: the least one left would be ready. */
  lemma {:induction false} NothingStranded(g: Graph, comps: seq<seq<nat>>, compOf: seq<nat>, rank: seq<nat>,
                                           indegree: seq<nat>, done: seq<nat>, c: nat)
    requires Components(g, comps) && IsCompOf(comps, compOf) && |rank| == |comps|
    requires KahnInv(g, compOf, rank, indegree, [], done) && c < |comps|
    ensures c in done
  {
    hide Reach, Emitted;
    forall d | d in Left(g, compOf, |rank|, done, c)
      ensures false
    {
      CrossEdgesPointDown(g, comps, compOf, d, c);
      NothingStranded(g, comps, compOf, rank, indegree, done, d);
    }
    assert Left(g, compOf, |rank|, done, c) == {};
  }

  // --- From component numbers to blocks of modules ---

  ghost function Blocks(comps: seq<seq<nat>>, done: seq<nat>): (blocks: seq<seq<nat>>)
    requires Below(done, |comps|)
    ensures |blocks| == |done| && forall k :: 0 <= k < |done| ==> blocks[k] == comps[done[k]]
  {
    seq(|done|, k requires 0 <= k < |done| => comps[done[k]])
  }

  lemma BlocksPrefix(comps: seq<seq<nat>>, done: seq<nat>, k: nat)
    requires k <= |done| && Below(done, |comps|)
    ensures Below(done[..k], |comps|)
    ensures Blocks(comps, done)[..k] == Blocks(comps, done[..k])
  {
  }

  lemma InBlocksIff(comps: seq<seq<nat>>, compOf: seq<nat>, done: seq<nat>, x: nat)
    requires IsCompOf(comps, compOf) && x < |compOf| && Below(done, |comps|)
    ensures InBlocks(Blocks(comps, done), x) <==> compOf[x] in done
  {
  }

  lemma DepsMetIff(g: Graph, comps: seq<seq<nat>>, compOf: seq<nat>, done: seq<nat>, c: nat)
    requires WellFormed(g) && |compOf| == |g| && IsCompOf(comps, compOf)
    requires c < |comps| && Below(done, |comps|)
    ensures DepsMet(g, Blocks(comps, done), comps[c]) <==> Left(g, compOf, |comps|, done, c) == {}
  {
    hide Blocks, InBlocks;
    var blocks := Blocks(comps, done);
    if DepsMet(g, blocks, comps[c]) {
      forall d | d in Left(g, compOf, |comps|, done, c)
        ensures false
      {
        var x: nat, y: nat :| Edge(g, x, y) && x < |compOf| && y < |compOf| && compOf[x] == c && compOf[y] == d;
        assert x in comps[c] && y in comps[d];
        InBlocksIff(comps, compOf, done, y);
      }
    }
    if Left(g, compOf, |comps|, done, c) == {} {
      forall x: nat, y: nat | x in comps[c] && Edge(g, x, y)
        ensures y in comps[c] || InBlocks(blocks, y)
      {
        assert x < |compOf| && compOf[x] == c && y < |compOf|;
        InBlocksIff(comps, compOf, done, y);
        if compOf[y] != c {
          assert CrossEdge(g, compOf, compOf[y], c);
          assert compOf[y] !in Left(g, compOf, |comps|, done, c);
        }
      }
    }
  }

  ghost predicate IsRank(comps: seq<seq<nat>>, rank: seq<nat>) {
    && |rank| == |comps| && forall c :: 0 <= c < |comps| ==> |comps[c]| > 0 && rank[c] == comps[c][0]
  }

  lemma MemberOf(comps: seq<seq<nat>>, compOf: seq<nat>, c: nat, x: nat)
    requires IsCompOf(comps, compOf) && c < |comps| && x in comps[c]
    ensures x < |compOf| && compOf[x] == c
  {
  }

  /** A complete good prefix, read as blocks, is a load order of the graph. */
  lemma DrainedIsLoadOrder(g: Graph, comps: seq<seq<nat>>, compOf: seq<nat>, rank: seq<nat>, done: seq<nat>)
    requires WellFormed(g) && |compOf| == |g| && IsCompOf(comps, compOf) && IsRank(comps, rank)
    requires forall c :: 0 <= c < |comps| ==> IsComponent(g, comps[c])
    requires GoodPrefix(g, compOf, rank, done) && forall c: nat :: c < |comps| ==> c in done
    ensures Below(done, |comps|)
    ensures IsLoadOrder(g, Blocks(comps, done))
  {
    hide Left, Blocks, InBlocks, DepsMet, CrossEdge, IsComponent;
    var blocks := Blocks(comps, done);
    forall x: nat | x < |g|
      ensures InBlocks(blocks, x)
    {
      InBlocksIff(comps, compOf, done, x);
    }
    forall k: nat | k < |blocks|
      ensures DepsMet(g, blocks[..k], blocks[k]) && Greedy(g, blocks, k)
      ensures forall x :: x in blocks[k] ==> !InBlocks(blocks[..k], x)
    {
      assert forall i :: 0 <= i < |done| ==> IsComponent(g, comps[done[i]]);
      BlocksPrefix(comps, done, k);
      DepsMetIff(g, comps, compOf, done[..k], done[k]);
      forall x | x in blocks[k]
        ensures !InBlocks(blocks[..k], x)
      {
        assert blocks[k] == comps[done[k]];
        MemberOf(comps, compOf, done[k], x);
        InBlocksIff(comps, compOf, done[..k], x);
      }
      forall j | k <= j < |blocks| && DepsMet(g, blocks[..k], blocks[j])
        ensures blocks[k][0] <= blocks[j][0]
      {
        DepsMetIff(g, comps, compOf, done[..k], done[j]);
        assert done[j] !in done[..k];
      }
    }
  }

  // --- Reported cycles ---

  function NamesOf(entries: seq<ManifestEntry>, c: seq<nat>): (names: seq<string>)
    requires Below(c, |entries|)
    ensures |names| == |c|
  {
    seq(|c|, i requires 0 <= i < |c| => entries[c[i]].name)
  }

  /** The member names of the reported blocks, in load order. */
  ghost function CyclesOf(entries: seq<ManifestEntry>, g: Graph, blocks: seq<seq<nat>>): seq<seq<string>>
    requires forall k :: 0 <= k < |blocks| ==> Below(blocks[k], |entries|)
  {
    if blocks == [] then []
    else
      var n := |blocks| - 1;
      CyclesOf(entries, g, blocks[..n]) + if Reported(g, blocks[n]) then [NamesOf(entries, blocks[n])] else []
  }

  /** `cycles` lists a component exactly when one of its modules depends on itself
      through one or more edges. */
  lemma {:induction false} CyclesAreCyclicComponents(entries: seq<ManifestEntry>, g: Graph, blocks: seq<seq<nat>>,
                                                     names: seq<string>)
    requires WellFormed(g) && |g| == |entries|
    requires forall k :: 0 <= k < |blocks| ==> IsComponent(g, blocks[k])
    ensures forall k :: 0 <= k < |blocks| ==> Below(blocks[k], |entries|)
    ensures names in CyclesOf(entries, g, blocks)
            <==> exists k :: 0 <= k < |blocks| && names == NamesOf(entries, blocks[k]) && Cyclic(g, blocks[k])
  {
    hide IsComponent, Cyclic, Reported, Below;
    forall k | 0 <= k < |blocks|
      ensures Below(blocks[k], |g|)
    {
      ComponentBelow(g, blocks[k]);
    }
    if blocks != [] {
      var n := |blocks| - 1;
      CyclesAreCyclicComponents(entries, g, blocks[..n], names);
      ReportedIffCyclic(g, blocks[n]);
      assert forall k :: 0 <= k < n ==> blocks[..n][k] == blocks[k];
    }
  }

  /** The names of the modules of a block, in the order of the block. */
  ghost predicate NamesAre(entries: seq<ManifestEntry>, block: seq<nat>, names: seq<string>) {
    && |names| == |block|
    && forall i :: 0 <= i < |block| ==> block[i] < |entries| && names[i] == entries[block[i]].name
  }

  /** The cyclic blocks are those at the positions `at`, in this order, and each is
      reported by the names of its modules. */
  ghost predicate Reports(entries: seq<ManifestEntry>, g: Graph, blocks: seq<seq<nat>>, cycles: seq<seq<string>>,
                          at: seq<nat>)
  {
    && |at| == |cycles| && Ascending(at)
    && (forall k: nat :: k in at <==> k < |blocks| && Cyclic(g, blocks[k]))
    && (forall j :: 0 <= j < |at| ==> at[j] < |blocks| && NamesAre(entries, blocks[at[j]], cycles[j]))
  }

  lemma ReportsNext(entries: seq<ManifestEntry>, g: Graph, blocks: seq<seq<nat>>, cycles: seq<seq<string>>,
                    at: seq<nat>, names: seq<string>, reported: bool)
    requires blocks != [] && Reports(entries, g, blocks[..|blocks| - 1], cycles, at)
    requires NamesAre(entries, blocks[|blocks| - 1], names) && (reported <==> Cyclic(g, blocks[|blocks| - 1]))
    ensures Reports(entries, g, blocks, cycles + if reported then [names] else [],
                    at + if reported then [|blocks| - 1] else [])
  {
    hide Cyclic, NamesAre;
    var n := |blocks| - 1;
    var more := at + if reported then [n] else [];
    forall i | 0 <= i < |at|
      ensures at[i] < n && NamesAre(entries, blocks[at[i]], cycles[i])
    {
      assert blocks[..n][at[i]] == blocks[at[i]];
    }
    assert Ascending(more);
    forall k: nat
      ensures k in more <==> k < |blocks| && Cyclic(g, blocks[k])
    {
      assert k in more <==> k in at || (reported && k == n);
      if k < n { assert blocks[..n][k] == blocks[k]; }
    }
  }

  /** Every cyclic component is reported, once, in load order, and nothing else is. */
  lemma {:induction false} CyclesReport(entries: seq<ManifestEntry>, g: Graph, blocks: seq<seq<nat>>)
    returns (at: seq<nat>)
    requires WellFormed(g) && |g| == |entries| && forall k :: 0 <= k < |blocks| ==> IsComponent(g, blocks[k])
    requires forall k :: 0 <= k < |blocks| ==> Below(blocks[k], |entries|)
    ensures Reports(entries, g, blocks, CyclesOf(entries, g, blocks), at)
  {
    hide IsComponent, Cyclic, Reported, WellFormed, NamesAre;
    at := [];
    if blocks == [] {
      assert Reports(entries, g, blocks, [], []);
    } else {
      hide Reports;
      var n := |blocks| - 1;
      var before := CyclesReport(entries, g, blocks[..n]);
      ReportedIffCyclic(g, blocks[n]);
      NamesOfBlock(entries, blocks[n]);
      ReportsNext(entries, g, blocks, CyclesOf(entries, g, blocks[..n]), before, NamesOf(entries, blocks[n]),
                  Reported(g, blocks[n]));
      at := before + if Reported(g, blocks[n]) then [n] else [];
    }
  }

  lemma NamesOfBlock(entries: seq<ManifestEntry>, block: seq<nat>)
    requires Below(block, |entries|)
    ensures NamesAre(entries, block, NamesOf(entries, block))
  {
  }

  // --- The ordering of a manifest ---

  ghost predicate OrderedBy(entries: seq<ManifestEntry>, g: Graph, blocks: seq<seq<nat>>, order: seq<nat>,
                            cycles: seq<seq<string>>)
  {
    && IsLoadOrder(g, blocks) && (forall k :: 0 <= k < |blocks| ==> Below(blocks[k], |entries|))
    && order == Concat(blocks) && cycles == CyclesOf(entries, g, blocks)
  }

  ghost predicate Orders(entries: seq<ManifestEntry>, g: Graph, order: seq<nat>, cycles: seq<seq<string>>) {
    WellFormed(g) && exists blocks :: OrderedBy(entries, g, blocks, order, cycles)
  }

  /** `order` is the load order of the declared dependencies, `cycles` what it reports. */
  ghost predicate IsOrdering(entries: seq<ManifestEntry>, order: seq<nat>, cycles: seq<seq<string>>) {
    exists g :: IsDepEdges(entries, g) && Orders(entries, g, order, cycles)
  }

  /** There is an edge where an entry lists the name of another as a dependency; of
      several entries with that name the last is meant. */
  ghost predicate Depicts(entries: seq<ManifestEntry>, g: Graph) {
    && |g| == |entries| && WellFormed(g)
    && forall x: nat, y: nat :: Edge(g, x, y) <==>
         && x < |entries| && y < |entries| && entries[y].name in entries[x].deps
         && forall z :: y < z < |entries| ==> entries[z].name != entries[y].name
  }

  /** `order` is the blocks of the load order back to back, and `cycles` names the members
      of its cyclic blocks. */
  ghost predicate LoadsAs(entries: seq<ManifestEntry>, order: seq<nat>, cycles: seq<seq<string>>,
                          g: Graph, blocks: seq<seq<nat>>, starts: seq<nat>, at: seq<nat>)
  {
    && Depicts(entries, g) && IsLoadOrder(g, blocks)
    && Adjacent(order, blocks, starts) && Reports(entries, g, blocks, cycles, at)
  }

  lemma OrderingLoads(entries: seq<ManifestEntry>, order: seq<nat>, cycles: seq<seq<string>>)
    requires IsOrdering(entries, order, cycles)
    ensures exists g, blocks, starts, at :: LoadsAs(entries, order, cycles, g, blocks, starts, at)
  {
    hide IsDepEdges, Declares, Edge, Adjacent, Reports, Below, WellFormed, IsComponent;
    var g :| IsDepEdges(entries, g) && Orders(entries, g, order, cycles);
    var blocks :| OrderedBy(entries, g, blocks, order, cycles);
    assert |g| == |entries| by { DepEdgesSize(entries, g); }
    forall x: nat, y: nat
      ensures Edge(g, x, y) <==>
                && x < |entries| && y < |entries| && entries[y].name in entries[x].deps
                && forall z :: y < z < |entries| ==> entries[z].name != entries[y].name
    {
      EdgesAreDeclared(entries, g, x, y);
      DeclaresIff(entries, x, y);
    }
    var starts := ConcatIsAdjacent(blocks);
    var at := CyclesReport(entries, g, blocks);
    assert LoadsAs(entries, order, cycles, g, blocks, starts, at);
  }

  lemma DeclaresIff(entries: seq<ManifestEntry>, x: nat, y: nat)
    ensures Declares(entries, x, y) <==>
              && x < |entries| && y < |entries| && entries[y].name in entries[x].deps
              && forall z :: y < z < |entries| ==> entries[z].name != entries[y].name
  {
    if y < |entries| {
      assert (forall z :: y < z < |entries| ==> entries[z].name != entries[y].name)
             <==> Names(entries, entries[y].name, y);
    }
  }

  lemma DepEdgesSize(entries: seq<ManifestEntry>, g: Graph)
    requires IsDepEdges(entries, g)
    ensures |g| == |entries|
  {
  }

  method OrderModules(entries: seq<ManifestEntry>) returns (order: seq<nat>, cycles: seq<seq<string>>)
    ensures IsOrdering(entries, order, cycles)
    ensures Distinct(order) && forall x: nat :: x in order <==> x < |entries|
    ensures exists g, blocks, starts, at :: LoadsAs(entries, order, cycles, g, blocks, starts, at)
  {
    hide Reach, IsDepEdges, Components, IsLoadOrder, Emitted, WellFormed, Orders, LoadsAs;
    var depEdges := DepEdges(entries);
    var components := StronglyConnectedComponents(depEdges);
    order, cycles := OrderComponents(entries, depEdges, components);
    assert IsDepEdges(entries, depEdges) && Orders(entries, depEdges, order, cycles);
    EachOnce(entries, order, cycles);
    OrderingLoads(entries, order, cycles);
  }

  /** Every module of the manifest stands in the order exactly once. */
  lemma EachOnce(entries: seq<ManifestEntry>, order: seq<nat>, cycles: seq<seq<string>>)
    requires IsOrdering(entries, order, cycles)
    ensures Distinct(order) && forall x: nat :: x in order <==> x < |entries|
  {
    hide IsLoadOrder;
    var g :| IsDepEdges(entries, g) && Orders(entries, g, order, cycles);
    var blocks :| OrderedBy(entries, g, blocks, order, cycles);
    LoadOrderDistinct(g, blocks);
  }

  /** Module `x` depends on `y` through declared dependencies. */
  ghost predicate LeadsTo(entries: seq<ManifestEntry>, x: nat, y: nat) {
    exists p :: DeclaredPath(entries, p, x, y)
  }

  ghost predicate DeclaredPath(entries: seq<ManifestEntry>, p: seq<nat>, x: nat, y: nat) {
    && |p| > 0 && p[0] == x && p[|p| - 1] == y
    && forall i :: 0 <= i < |p| - 1 ==> Declares(entries, p[i], p[i + 1])
  }

  lemma ReachLeadsTo(entries: seq<ManifestEntry>, g: Graph, x: nat, y: nat)
    requires IsDepEdges(entries, g) && Reach(g, x, y)
    ensures LeadsTo(entries, x, y)
  {
    hide IsDepEdges, Declares;
    var p :| Path(g, p, x, y);
    forall i | 0 <= i < |p| - 1
      ensures Declares(entries, p[i], p[i + 1])
    {
      EdgesAreDeclared(entries, g, p[i], p[i + 1]);
    }
    assert DeclaredPath(entries, p, x, y);
  }

  /** A declared dependency that does not depend back is loaded before its dependant. */
  lemma DependencyBeforeDependant(entries: seq<ManifestEntry>, order: seq<nat>, cycles: seq<seq<string>>, p: nat,
                                  q: nat)
    requires IsOrdering(entries, order, cycles) && p < |order| && q < |order|
    requires Declares(entries, order[q], order[p]) && !LeadsTo(entries, order[p], order[q])
    ensures p < q
  {
    hide IsLoadOrder, Reach, IsDepEdges, Declares, LeadsTo;
    var g :| IsDepEdges(entries, g) && Orders(entries, g, order, cycles);
    var blocks :| OrderedBy(entries, g, blocks, order, cycles);
    EdgesAreDeclared(entries, g, order[q], order[p]);
    if Reach(g, order[p], order[q]) {
      ReachLeadsTo(entries, g, order[p], order[q]);
    }
    DependenciesFirst(g, blocks, p, q);
  }

  /** A manifest that declares only earlier entries (or itself) is loaded as written. */
  lemma SortedStaysSorted(entries: seq<ManifestEntry>, order: seq<nat>, cycles: seq<seq<string>>)
    requires IsOrdering(entries, order, cycles)
    requires forall x, y :: Declares(entries, x, y) ==> y <= x
    ensures order == seq(|entries|, i => i)
  {
    hide IsLoadOrder, Declares;
    var g :| IsDepEdges(entries, g) && Orders(entries, g, order, cycles);
    var blocks :| OrderedBy(entries, g, blocks, order, cycles);
    forall x, y | Edge(g, x, y)
      ensures y <= x
    {
      EdgesAreDeclared(entries, g, x, y);
    }
    SortedManifestUnchanged(g, blocks);
  }

  /** The order and the reported cycles depend only on the names, their positions and
      which module declares which: not on the order of a dependency list, on repeats,
      or on how the components were numbered. */
  lemma OrderIsCanonical(entries: seq<ManifestEntry>, order: seq<nat>, cycles: seq<seq<string>>,
                         others: seq<ManifestEntry>, otherOrder: seq<nat>, otherCycles: seq<seq<string>>)
    requires IsOrdering(entries, order, cycles) && IsOrdering(others, otherOrder, otherCycles)
    requires |entries| == |others| && forall i :: 0 <= i < |entries| ==> entries[i].name == others[i].name
    requires forall x, y :: Declares(entries, x, y) <==> Declares(others, x, y)
    ensures order == otherOrder && cycles == otherCycles
  {
    hide IsDepEdges, Declares, IsLoadOrder, Reach, CyclesOf;
    var g :| IsDepEdges(entries, g) && Orders(entries, g, order, cycles);
    var a :| OrderedBy(entries, g, a, order, cycles);
    var h :| IsDepEdges(others, h) && Orders(others, h, otherOrder, otherCycles);
    var b :| OrderedBy(others, h, b, otherOrder, otherCycles);
    forall x, y
      ensures Edge(g, x, y) <==> Edge(h, x, y)
    {
      EdgesAreDeclared(entries, g, x, y);
      EdgesAreDeclared(others, h, x, y);
    }
    assert |g| == |h| by { SameSize(entries, g); SameSize(others, h); }
    LoadOrderCanonical(g, a, h, b);
    SameCycles(entries, g, others, h, a);
  }

  lemma SameSize(entries: seq<ManifestEntry>, g: Graph)
    requires IsDepEdges(entries, g)
    ensures |g| == |entries|
  {
  }

  lemma {:induction false} SameCycles(entries: seq<ManifestEntry>, g: Graph, others: seq<ManifestEntry>, h: Graph,
                                      blocks: seq<seq<nat>>)
    requires SameEdges(g, h) && |entries| == |others|
    requires forall i :: 0 <= i < |entries| ==> entries[i].name == others[i].name
    requires forall k :: 0 <= k < |blocks| ==> Below(blocks[k], |entries|)
    ensures CyclesOf(entries, g, blocks) == CyclesOf(others, h, blocks)
  {
    if blocks != [] {
      var n := |blocks| - 1;
      SameCycles(entries, g, others, h, blocks[..n]);
      assert NamesOf(entries, blocks[n]) == NamesOf(others, blocks[n]);
      assert Reported(g, blocks[n]) <==> Reported(h, blocks[n]) by {
        assert forall x :: Edge(g, x, x) <==> Edge(h, x, x);
      }
    }
  }

  method OrderComponents(entries: seq<ManifestEntry>, depEdges: Graph, components: seq<seq<nat>>)
    returns (order: seq<nat>, cycles: seq<seq<string>>)
    requires WellFormed(depEdges) && |depEdges| == |entries|
    requires Components(depEdges, components) && forall x: nat :: x < |depEdges| <==> x in Emitted(components)
    ensures Orders(entries, depEdges, order, cycles)
  {
    hide Reach, Emitted, CrossEdge, KahnInv, Preds, GoodPrefix, IsLoadOrder, IsComponent, IsCompOf;
    forall c | 0 <= c < |components|
      ensures Below(components[c], |entries|) && |components[c]| > 0
    {
      ComponentBelow(depEdges, components[c]);
      ComponentShape(depEdges, components[c]);
    }
    var componentOf := ComponentOf(depEdges, components);
    assert forall x :: 0 <= x < |componentOf| ==> componentOf[x] < |components| by {
      CompOfBounds(components, componentOf);
    }
    var d := Condense(depEdges, |components|, componentOf);
    var rank, ready := InitialReady(components, d.indegree);
    KahnStart(depEdges, componentOf, rank, d.indegree, ready);
    order, cycles := DrainReady(entries, depEdges, components, componentOf, rank, d, ready);
    ghost var done :| Drained(entries, depEdges, components, componentOf, rank, done, order, cycles);
    DrainedIsLoadOrder(depEdges, components, componentOf, rank, done);
    assert OrderedBy(entries, depEdges, Blocks(components, done), order, cycles);
  }

  lemma CompOfBounds(comps: seq<seq<nat>>, compOf: seq<nat>)
    requires IsCompOf(comps, compOf)
    ensures forall x :: 0 <= x < |compOf| ==> compOf[x] < |comps|
  {
  }

  method InitialReady(components: seq<seq<nat>>, indegree: seq<nat>) returns (rank: seq<nat>, ready: seq<nat>)
    requires |indegree| == |components| && forall c :: 0 <= c < |components| ==> |components[c]| > 0
    ensures IsRank(components, rank)
    ensures Distinct(ready) && forall c: nat :: c in ready <==> c < |rank| && indegree[c] == 0
  {
    rank, ready := [], [];
    for c := 0 to |components|
      invariant |rank| == c && forall e :: 0 <= e < c ==> rank[e] == components[e][0]
    {
      rank := rank + [components[c][0]];
    }
    for c := 0 to |components|
      invariant Distinct(ready) && forall e: nat :: e in ready <==> e < c && indegree[e] == 0
    {
      if indegree[c] == 0 {
        ready := ready + [c];
      }
    }
  }

  /** `done` lists every component once, dependencies first with the tie-break, and the
      outputs are its members and its reported cycles. */
  ghost predicate Drained(entries: seq<ManifestEntry>, g: Graph, comps: seq<seq<nat>>, compOf: seq<nat>, rank: seq<nat>,
                          done: seq<nat>, order: seq<nat>, cycles: seq<seq<string>>) {
    && GoodPrefix(g, compOf, rank, done) && Below(done, |comps|)
    && (forall c: nat :: c < |comps| ==> c in done)
    && order == Concat(Blocks(comps, done))
    && (forall k :: 0 <= k < |done| ==> Below(comps[done[k]], |entries|))
    && cycles == CyclesOf(entries, g, Blocks(comps, done))
  }

  method DrainReady(entries: seq<ManifestEntry>, depEdges: Graph, components: seq<seq<nat>>, componentOf: seq<nat>,
                    rank: seq<nat>, d: Condensation, initial: seq<nat>)
    returns (order: seq<nat>, cycles: seq<seq<string>>)
    requires Components(depEdges, components) && IsCompOf(components, componentOf) && IsRank(components, rank)
    requires |componentOf| == |depEdges| == |entries|
    requires forall c :: 0 <= c < |components| ==> Below(components[c], |entries|)
    requires |d.dependantsOf| == |d.selfLooped| == |rank|
    requires forall c :: 0 <= c < |rank| ==> Distinct(d.dependantsOf[c])
    requires forall from, to: nat :: 0 <= from < |rank| ==>
               (to in d.dependantsOf[from] <==> to < |rank| && CrossEdge(depEdges, componentOf, from, to))
    requires forall c :: 0 <= c < |rank| ==>
               (d.selfLooped[c] <==> exists x :: 0 <= x < |depEdges| && componentOf[x] == c && Edge(depEdges, x, x))
    requires KahnInv(depEdges, componentOf, rank, d.indegree, initial, [])
    ensures exists done :: Drained(entries, depEdges, components, componentOf, rank, done, order, cycles)
  {
    hide Reach, Emitted, CrossEdge, KahnInv, GoodPrefix, Components, IsCompOf;
    var indegree, ready := d.indegree, initial;
    order, cycles := [], [];
    ghost var done: seq<nat> := [];
    KahnBounds(depEdges, componentOf, rank, indegree, ready, done);
    while ready != []
      invariant KahnInv(depEdges, componentOf, rank, indegree, ready, done)
      invariant GoodPrefix(depEdges, componentOf, rank, done)
      invariant Below(done, |rank|) && Below(ready, |rank|) && Distinct(ready) && |done| <= |rank| == |indegree|
      invariant order == Concat(Blocks(components, done))
      invariant cycles == CyclesOf(entries, depEdges, Blocks(components, done))
      decreases |rank| - |done|
    {
      ghost var readyBefore, indegreeBefore := ready, indegree;
      var pick := PickReady(rank, ready);
      var component := ready[pick];
      SwapRemoveMembers(ready, pick);
      ready := SwapRemove(ready, pick);
      BlocksSnoc(components, done, component);
      SelfLoopReported(depEdges, components, componentOf, component);
      if |components[component]| > 1 || d.selfLooped[component] {
        cycles := cycles + [NamesOf(entries, components[component])];
      }
      order := order + components[component];
      DependantsWaiting(depEdges, componentOf, rank, indegree, readyBefore, done, component, d.dependantsOf[component]);
      indegree, ready := Release(d.dependantsOf[component], indegree, ready);
      KahnStep(depEdges, componentOf, rank, indegreeBefore, readyBefore, done, component, d.dependantsOf[component],
               indegree, ready);
      done := done + [component];
      KahnBounds(depEdges, componentOf, rank, indegree, ready, done);
    }
    forall c: nat | c < |components|
      ensures c in done
    {
      NothingStranded(depEdges, components, componentOf, rank, indegree, done, c);
    }
    assert Drained(entries, depEdges, components, componentOf, rank, done, order, cycles);
  }

  lemma KahnBounds(g: Graph, compOf: seq<nat>, rank: seq<nat>, indegree: seq<nat>, ready: seq<nat>, done: seq<nat>)
    requires KahnInv(g, compOf, rank, indegree, ready, done)
    ensures Below(done, |rank|) && Below(ready, |rank|) && Distinct(ready) && |done| <= |rank| == |indegree|
    ensures GoodPrefix(g, compOf, rank, done)
  {
    DoneBounded(|rank|, done);
  }

  lemma KahnStart(g: Graph, compOf: seq<nat>, rank: seq<nat>, indegree: seq<nat>, ready: seq<nat>)
    requires |indegree| == |rank| && forall c :: 0 <= c < |rank| ==> indegree[c] == |Preds(g, compOf, |rank|, c)|
    requires Distinct(ready) && forall c: nat :: c in ready <==> c < |rank| && indegree[c] == 0
    ensures KahnInv(g, compOf, rank, indegree, ready, [])
  {
    BelowMembers(ready, |rank|);
    forall c: nat
      ensures Left(g, compOf, |rank|, [], c) == Preds(g, compOf, |rank|, c)
    {
    }
  }

  lemma BlocksSnoc(comps: seq<seq<nat>>, done: seq<nat>, c: nat)
    requires c < |comps| && Below(done, |comps|)
    ensures Blocks(comps, done + [c]) == Blocks(comps, done) + [comps[c]]
    ensures (Blocks(comps, done) + [comps[c]])[..|done|] == Blocks(comps, done)
  {
  }

  lemma SelfLoopReported(g: Graph, comps: seq<seq<nat>>, compOf: seq<nat>, c: nat)
    requires IsCompOf(comps, compOf) && |compOf| == |g| && c < |comps|
    ensures (exists x :: x in comps[c] && Edge(g, x, x))
            <==> exists x :: 0 <= x < |g| && compOf[x] == c && Edge(g, x, x)
  {
  }

  lemma DependantsWaiting(g: Graph, compOf: seq<nat>, rank: seq<nat>, indegree: seq<nat>, ready: seq<nat>,
                          done: seq<nat>, component: nat, dependants: seq<nat>)
    requires KahnInv(g, compOf, rank, indegree, ready, done) && component in ready
    requires forall c: nat :: c in dependants <==> c < |rank| && CrossEdge(g, compOf, component, c)
    ensures Below(dependants, |indegree|)
    ensures forall i :: 0 <= i < |dependants| ==> indegree[dependants[i]] > 0 && dependants[i] !in ready
  {
    hide CrossEdge, GoodPrefix;
    forall i | 0 <= i < |dependants|
      ensures dependants[i] < |indegree| && indegree[dependants[i]] > 0
    {
      assert dependants[i] in dependants;
      CountStep(g, compOf, rank, indegree, ready, done, component, dependants, dependants[i]);
    }
  }

  lemma DoneBounded(n: nat, done: seq<nat>)
    requires Distinct(done) && Below(done, n)
    ensures |done| <= n
  {
    DistinctCard(done);
    assert Range(done) <= Upto(n);
    SubsetCard(Range(done), Upto(n));
  }

  lemma {:induction false} DistinctCard(s: seq<nat>)
    requires Distinct(s)
    ensures |Range(s)| == |s|
  {
    if s != [] {
      var n := |s| - 1;
      DistinctCard(s[..n]);
      assert s == s[..n] + [s[n]];
      assert Range(s) == Range(s[..n]) + {s[n]};
      assert s[n] !in Range(s[..n]);
    }
  }

  ghost function Upto(n: nat): (s: set<nat>)
    ensures |s| == n && forall i: nat :: i in s <==> i < n
  {
    if n == 0 then {} else Upto(n - 1) + {n - 1}
  }

  lemma {:induction false} SubsetCard(a: set<nat>, b: set<nat>)
    requires a <= b
    ensures |a| <= |b|
  {
    if a != {} {
      var x :| x in a;
      SubsetCard(a - {x}, b - {x});
    }
  }
}
