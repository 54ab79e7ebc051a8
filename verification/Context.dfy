/** The allocation context of a native call: a heap that any reservation may
    collect, the native root stack, and the rooted accumulator built on it. */
module Context {
  import opened Wrappers
  import opened Terms

  /** Whatever a term denoted in the first heap, the other term denotes in the second. */
  ghost predicate SameMeaning(h: Heap, t: Term, k: Heap, u: Term) {
    forall v :: Denotes(h, t, v) ==> Denotes(k, u, v)
  }

  /** Every root keeps its meaning; without a process nothing moves at all. */
  ghost predicate Keeps(attached: bool, h: Heap, roots: seq<Term>, k: Heap, later: seq<Term>) {
    && |roots| == |later|
    && (forall i :: 0 <= i < |roots| ==> SameMeaning(h, roots[i], k, later[i]))
    && (!attached ==> later == roots && Extends(h, k))
  }

  lemma KeepsTrans(attached: bool, h: Heap, r: seq<Term>, k: Heap, s: seq<Term>, l: Heap, t: seq<Term>)
    requires Keeps(attached, h, r, k, s) && Keeps(attached, k, s, l, t)
    ensures Keeps(attached, h, r, l, t)
  {
  }

  lemma KeepsGrow(attached: bool, h: Heap, k: Heap, roots: seq<Term>)
    requires Extends(h, k)
    ensures Keeps(attached, h, roots, k, roots)
  {
    hide Denotes;
    forall i, v | 0 <= i < |roots| && Denotes(h, roots[i], v)
      ensures Denotes(k, roots[i], v)
    {
      ExtendsDenotes(h, k, roots[i], v);
    }
  }

  lemma KeepsPrefix(attached: bool, h: Heap, r: seq<Term>, k: Heap, s: seq<Term>, n: nat)
    requires Keeps(attached, h, r, k, s) && n <= |r|
    ensures Keeps(attached, h, r[..n], k, s[..n])
  {
  }

  lemma MoveKeeps(h: Heap, roots: seq<Term>, forward: map<nat, nat>)
    requires IsForwarding(h, roots, forward)
    ensures Keeps(true, h, roots, Moved(h, roots, forward), ForwardAll(forward, roots))
  {
    hide Denotes, Moved;
    forall i, v | 0 <= i < |roots| && Denotes(h, roots[i], v)
      ensures Denotes(Moved(h, roots, forward), ForwardAll(forward, roots)[i], v)
    {
      MovedDenotes(h, roots, forward, roots[i], v);
    }
  }

  ghost predicate AllDenote(h: Heap, ts: seq<Term>, vs: seq<Value>) {
    |ts| == |vs| && forall i :: 0 <= i < |ts| ==> Denotes(h, ts[i], vs[i])
  }

  lemma DenotesInHeap(h: Heap, t: Term, v: Value)
    requires Denotes(h, t, v)
    ensures InHeap(h, t)
  {
  }

  lemma ConsPointers(h: Heap, head: Term, tail: Term)
    requires InHeap(h, head) && InHeap(h, tail)
    ensures AllInHeap(h, Pointers(Cons(head, tail)))
  {
  }

  lemma ListOfCons(v: Value, rest: seq<Value>)
    ensures ListOf([v] + rest) == VCons(v, ListOf(rest))
  {
    assert ([v] + rest)[1..] == rest;
  }

  lemma KeepsRefl(attached: bool, h: Heap, roots: seq<Term>)
    ensures Extends(h, h) && Keeps(attached, h, roots, h, roots) && Denotes(h, EmptyList, ListOf([]))
  {
    KeepsGrow(attached, h, h, roots);
  }

  lemma ExtendsTrans(h: Heap, k: Heap, l: Heap)
    requires Extends(h, k) && Extends(k, l)
    ensures Extends(h, l)
  {
  }

  lemma AllDenoteInHeap(h: Heap, ts: seq<Term>, vs: seq<Value>)
    requires AllDenote(h, ts, vs)
    ensures AllInHeap(h, ts)
  {
  }

  lemma FreshAddress(h: Heap)
    ensures exists a: nat :: a !in h
  {
    var a := Above(h.Keys);
    assert a !in h;
  }

  lemma {:induction false} Above(s: set<nat>) returns (a: nat)
    ensures forall x :: x in s ==> x < a
    decreases s
  {
    if s == {} {
      a := 0;
    } else {
      var x :| x in s;
      var b := Above(s - {x});
      a := if b <= x then x + 1 else b;
      assert forall y :: y in s ==> y == x || y in s - {x};
    }
  }

  /** A run of terms kept reachable: a window of the root stack, or, without a
      process, an ordinary list whose terms never move. */
  datatype Accumulator = Rooted(base: nat, len: nat) | Owned(terms: seq<Term>)

  ghost predicate Fits(attached: bool, roots: seq<Term>, acc: Accumulator) {
    match acc
    case Rooted(base, len) => attached && base + len <= |roots|
    case Owned(_) => !attached
  }

  ghost function Held(roots: seq<Term>, acc: Accumulator): seq<Term>
    requires acc.Rooted? ==> acc.base + acc.len <= |roots|
  {
    match acc
    case Rooted(base, len) => roots[base..base + len]
    case Owned(terms) => terms
  }

  lemma HeldKept(attached: bool, h: Heap, r: seq<Term>, k: Heap, s: seq<Term>, acc: Accumulator, vs: seq<Value>)
    requires Keeps(attached, h, r, k, s) && Fits(attached, r, acc) && AllDenote(h, Held(r, acc), vs)
    ensures Fits(attached, s, acc) && AllDenote(k, Held(s, acc), vs)
  {
    hide Denotes;
    match acc
    case Rooted(base, len) =>
      forall i | 0 <= i < len
        ensures Denotes(k, Held(s, acc)[i], vs[i])
      {
        assert SameMeaning(h, r[base + i], k, s[base + i]);
        assert Held(r, acc)[i] == r[base + i];
      }
    case Owned(terms) =>
      forall i | 0 <= i < |terms|
        ensures Denotes(k, terms[i], vs[i])
      {
        ExtendsDenotes(h, k, terms[i], vs[i]);
      }
  }

  /** Raw order of term words: by tag, then payload. */
  function Raw(t: Term): (int, int) {
    match t
    case Int(i) => (0, i)
    case AtomTerm(_) => (1, 0)
    case Pid(p) => (2, p)
    case EmptyList => (3, 0)
    case Ptr(a) => (4, a)
  }

  predicate RawBelow(a: Term, b: Term) {
    var (x, y) := (Raw(a), Raw(b));
    x.0 < y.0 || (x.0 == y.0 && x.1 < y.1)
  }

  /** Stable insertion of a keyed item into a run sorted by key. */
  function InsertKeyed<T>(p: (Term, T), s: seq<(Term, T)>): seq<(Term, T)> {
    if s == [] then [p]
    else if RawBelow(s[0].0, p.0) then [s[0]] + InsertKeyed(p, s[1..])
    else [p] + s
  }

  function SortKeyed<T>(s: seq<(Term, T)>): seq<(Term, T)> {
    if s == [] then [] else InsertKeyed(s[0], SortKeyed(s[1..]))
  }

  lemma {:induction false} InsertKeyedSame<T>(p: (Term, T), s: seq<(Term, T)>)
    ensures multiset(InsertKeyed(p, s)) == multiset([p] + s)
  {
    if s != [] {
      assert s == [s[0]] + s[1..];
      InsertKeyedSame(p, s[1..]);
    }
  }

  /** The items whose key has this raw value, in order. */
  function OfRaw<T>(s: seq<(Term, T)>, raw: (int, int)): seq<(Term, T)> {
    if s == [] then []
    else (if Raw(s[0].0) == raw then [s[0]] else []) + OfRaw(s[1..], raw)
  }

  lemma {:induction false} InsertKeyedStable<T>(p: (Term, T), s: seq<(Term, T)>, raw: (int, int))
    ensures OfRaw(InsertKeyed(p, s), raw) == OfRaw([p] + s, raw)
  {
    hide Raw;
    if s != [] && RawBelow(s[0].0, p.0) {
      InsertKeyedStable(p, s[1..], raw);
      assert ([s[0]] + InsertKeyed(p, s[1..]))[1..] == InsertKeyed(p, s[1..]);
      assert ([p] + s[1..])[1..] == s[1..];
    }
    assert ([p] + s)[1..] == s;
  }

  /** Items with equal keys keep their order. */
  lemma {:induction false} SortKeyedStable<T>(s: seq<(Term, T)>, raw: (int, int))
    ensures OfRaw(SortKeyed(s), raw) == OfRaw(s, raw)
  {
    if s != [] {
      SortKeyedStable(s[1..], raw);
      InsertKeyedStable(s[0], SortKeyed(s[1..]), raw);
      assert ([s[0]] + SortKeyed(s[1..]))[1..] == SortKeyed(s[1..]);
    }
  }

  /** Sorting neither loses, adds nor re-pairs anything. */
  lemma {:induction false} SortKeyedSame<T>(s: seq<(Term, T)>)
    ensures multiset(SortKeyed(s)) == multiset(s) && |SortKeyed(s)| == |s|
  {
    if s != [] {
      assert s == [s[0]] + s[1..];
      SortKeyedSame(s[1..]);
      InsertKeyedSame(s[0], SortKeyed(s[1..]));
    }
    assert |multiset(SortKeyed(s))| == |multiset(s)|;
  }

  lemma SortKeyedAt<T>(s: seq<(Term, T)>, i: nat)
    requires i < |s|
    ensures |SortKeyed(s)| == |s| && SortKeyed(s)[i] in s && s[i] in SortKeyed(s)
  {
    SortKeyedSame(s);
    assert SortKeyed(s)[i] in multiset(SortKeyed(s));
    assert s[i] in multiset(s);
  }

  ghost function Bare<T, U>(s: seq<(Term, (T, U))>): (r: seq<(Term, T)>)
    ensures |r| == |s| && forall i :: 0 <= i < |s| ==> r[i] == (s[i].0, s[i].1.0)
  {
    seq(|s|, i requires 0 <= i < |s| => (s[i].0, s[i].1.0))
  }

  lemma {:induction false} InsertKeyedBare<T, U>(p: (Term, (T, U)), s: seq<(Term, (T, U))>)
    ensures Bare(InsertKeyed(p, s)) == InsertKeyed((p.0, p.1.0), Bare(s))
  {
    if s != [] && RawBelow(s[0].0, p.0) {
      InsertKeyedBare(p, s[1..]);
      assert Bare(s)[1..] == Bare(s[1..]);
    } else if s != [] {
      assert Bare([p] + s) == [(p.0, p.1.0)] + Bare(s);
    }
  }

  /** What rides along with the values does not influence the sort. */
  lemma {:induction false} SortKeyedBare<T, U>(s: seq<(Term, (T, U))>)
    ensures Bare(SortKeyed(s)) == SortKeyed(Bare(s))
  {
    if s != [] {
      SortKeyedBare(s[1..]);
      assert Bare(s)[1..] == Bare(s[1..]);
      InsertKeyedBare(s[0], SortKeyed(s[1..]));
    }
  }

  /** Entries as one alternating run: key, value, key, value. */
  function Alternate<T>(es: seq<(T, T)>): (r: seq<T>)
    ensures |r| == 2 * |es|
    ensures forall i :: 0 <= i < |es| ==> r[2 * i] == es[i].0 && r[2 * i + 1] == es[i].1
  {
    if es == [] then [] else Alternate(es[..|es| - 1]) + [es[|es| - 1].0, es[|es| - 1].1]
  }

  lemma AlternateNext<T>(es: seq<(T, T)>, e: (T, T))
    ensures Alternate(es) + [e.0] + [e.1] == Alternate(es + [e])
  {
  }

  /** The same entries in another order. */
  ghost predicate Reordered(es: seq<(Value, Value)>, fs: seq<(Value, Value)>) {
    |es| == |fs| && forall e :: e in es <==> e in fs
  }

  /** A map object whose key and value terms denote the entries, in some order. */
  lemma MapDenotes(h: Heap, t: Term, keys: seq<Term>, values: seq<Term>, es: seq<(Value, Value)>,
                   fs: seq<(Value, Value)>)
    requires At(h, t, MapObject(keys, values)) && |keys| == |values| == |fs| && Reordered(es, fs)
    requires forall i :: 0 <= i < |fs| ==> DenotesEntry(h, keys[i], values[i], fs[i])
    ensures Denotes(h, t, VMap(es))
  {
    hide DenotesEntry;
    forall i | 0 <= i < |es|
      ensures IsStored(h, keys, values, es[i])
    {
      assert es[i] in fs;
      var j :| 0 <= j < |fs| && fs[j] == es[i];
      assert DenotesEntry(h, keys[j], values[j], es[i]);
    }
    forall j | 0 <= j < |es|
      ensures IsListed(h, keys[j], values[j], es)
    {
      assert fs[j] in es;
      var i :| 0 <= i < |es| && es[i] == fs[j];
      assert DenotesEntry(h, keys[j], values[j], es[i]);
    }
  }

  class ProcessContext {
    const attached: bool
    var heap: Heap
    var roots: seq<Term>
    /** Reservations the heap has refused so far. */
    var refusals: nat

    constructor (process: bool, initial: Heap, native: seq<Term>)
      requires HeapClosed(initial) && AllInHeap(initial, native)
      ensures attached == process && heap == initial && roots == native && refusals == 0 && Valid()
    {
      attached, heap, roots, refusals := process, initial, native, 0;
    }

    ghost predicate Valid()
      reads this
    {
      HeapClosed(heap) && AllInHeap(heap, roots)
    }

    /** With a process, any reservation may collect, and so move or drop whatever the
        roots do not reach, and may still be refused. Without one it does nothing. */
    method EnsureHeapSpace() returns (ok: bool)
      requires Valid()
      modifies this
      ensures Valid() && Keeps(attached, old(heap), old(roots), heap, roots)
      ensures !attached ==> ok && heap == old(heap)
      ensures refusals == old(refusals) + if ok then 0 else 1
    {
      hide Denotes, Moved, HeapClosed, AllInHeap, IsForwarding, ForwardAll, SameMeaning;
      KeepsGrow(attached, heap, heap, roots);
      ok := true;
      if attached {
        var forward: map<nat, nat> := *;
        if IsForwarding(heap, roots, forward) {
          MoveKeeps(heap, roots, forward);
          MovedClosed(heap, roots, forward);
          heap, roots := Moved(heap, roots, forward), ForwardAll(forward, roots);
        }
        ok := *;
        if !ok {
          refusals := refusals + 1;
        }
      }
    }

    /** Writes an object into reserved space, at any unused address. Cannot collect. */
    method Write(o: Object) returns (t: Term)
      requires Valid() && AllInHeap(heap, Pointers(o))
      modifies this`heap
      ensures Valid() && Extends(old(heap), heap) && At(heap, t, o)
      ensures Keeps(attached, old(heap), roots, heap, roots)
    {
      FreshAddress(heap);
      var a: nat :| a !in heap;
      ghost var before := heap;
      heap := heap[a := o];
      t := Ptr(a);
      KeepsGrow(attached, before, heap, roots);
    }

    method AllocBinary(data: Bytes) returns (r: Result<Term, ()>)
      requires Valid()
      modifies this
      ensures Valid() && Keeps(attached, old(heap), old(roots), heap, roots)
      ensures r.Ok? ==> Denotes(heap, r.value, VBinary(data))
      ensures refusals == old(refusals) + if r.Ok? then 0 else 1
    {
      var ok := EnsureHeapSpace();
      if !ok { return Err(()); }
      ghost var h, s := heap, roots;
      var t := Write(Binary(data));
      KeepsTrans(attached, old(heap), old(roots), h, s, heap, roots);
      r := Ok(t);
    }

    method AllocFloat(number: real) returns (r: Result<Term, ()>)
      requires Valid()
      modifies this
      ensures Valid() && Keeps(attached, old(heap), old(roots), heap, roots)
      ensures r.Ok? ==> Denotes(heap, r.value, VFloat(number))
      ensures refusals == old(refusals) + if r.Ok? then 0 else 1
    {
      var ok := EnsureHeapSpace();
      if !ok { return Err(()); }
      ghost var h, s := heap, roots;
      var t := Write(Float(number));
      KeepsTrans(attached, old(heap), old(roots), h, s, heap, roots);
      r := Ok(t);
    }

    /** Roots `terms` across one reservation and reads them back where they are now. */
    method ReserveRooting(terms: seq<Term>, ghost vs: seq<Value>) returns (current: seq<Term>, ok: bool)
      requires Valid() && AllDenote(heap, terms, vs)
      modifies this
      ensures Valid() && Keeps(attached, old(heap), old(roots), heap, roots)
      ensures ok ==> AllDenote(heap, current, vs)
      ensures refusals == old(refusals) + if ok then 0 else 1
    {
      hide Denotes;
      current := terms;
      if !attached {
        ok := EnsureHeapSpace();
        return;
      }
      var depth := |roots|;
      AllDenoteInHeap(heap, terms, vs);
      roots := roots + terms;
      ghost var h, s := heap, roots;
      assert s[depth..] == terms && s[..depth] == old(roots);
      ok := EnsureHeapSpace();
      current := roots[depth..];
      KeepsPrefix(attached, h, s, heap, roots, depth);
      roots := roots[..depth];
      if ok {
        KeptWindow(attached, h, s, heap, s[..depth], roots + current, roots, terms, vs);
      }
    }

    /** Builds a proper list of the terms, from the back, in reserved space. */
    method AllocList(elements: seq<Term>, ghost vs: seq<Value>) returns (r: Result<Term, ()>)
      requires Valid() && AllDenote(heap, elements, vs)
      modifies this
      ensures Valid() && Keeps(attached, old(heap), old(roots), heap, roots)
      ensures r.Ok? ==> Denotes(heap, r.value, ListOf(vs))
      ensures refusals == old(refusals) + if r.Ok? then 0 else 1
    {
      hide Denotes, Keeps, ListOf, Extends, HeapClosed, AllInHeap;
      var current, ok := ReserveRooting(elements, vs);
      if !ok { return Err(()); }
      ghost var h, s := heap, roots;
      var tail := EmptyList;
      var index := |current|;
      assert vs[index..] == [];
      KeepsRefl(attached, h, s);
      while index > 0
        invariant 0 <= index <= |current| == |vs|
        invariant Valid() && refusals == old(refusals) && Extends(h, heap) && roots == s
        invariant Keeps(attached, h, s, heap, roots)
        invariant Denotes(heap, tail, ListOf(vs[index..]))
      {
        index := index - 1;
        ghost var g := heap;
        ExtendsDenotes(h, heap, current[index], vs[index]);
        assert vs[index..] == [vs[index]] + vs[index + 1..];
        tail := PutCons(current[index], tail, vs[index], vs[index + 1..]);
        ExtendsTrans(h, g, heap);
        KeepsTrans(attached, h, s, g, s, heap, roots);
      }
      assert vs[0..] == vs;
      KeepsTrans(attached, old(heap), old(roots), h, s, heap, roots);
      r := Ok(tail);
    }

    /** One cell in reserved space. */
    method PutCons(head: Term, tail: Term, ghost v: Value, ghost rest: seq<Value>) returns (t: Term)
      requires Valid() && Denotes(heap, head, v) && Denotes(heap, tail, ListOf(rest))
      modifies this`heap
      ensures Valid() && Extends(old(heap), heap) && Keeps(attached, old(heap), roots, heap, roots)
      ensures Denotes(heap, t, ListOf([v] + rest))
    {
      hide Keeps, HeapClosed, AllInHeap, ListOf;
      ghost var g := heap;
      DenotesInHeap(heap, head, v);
      DenotesInHeap(heap, tail, ListOf(rest));
      ConsPointers(heap, head, tail);
      t := Write(Cons(head, tail));
      ExtendsDenotes(g, heap, head, v);
      ExtendsDenotes(g, heap, tail, ListOf(rest));
      ListOfCons(v, rest);
    }

    /** A map of the given keys and values, rooted across the reservation. */
    method AllocMap(keys: seq<Term>, values: seq<Term>, ghost es: seq<(Value, Value)>, ghost fs: seq<(Value, Value)>)
      returns (r: Result<Term, ()>)
      requires Valid() && |keys| == |values| == |fs| && Reordered(es, fs)
      requires forall i :: 0 <= i < |fs| ==> Denotes(heap, keys[i], fs[i].0) && Denotes(heap, values[i], fs[i].1)
      modifies this
      ensures Valid() && Keeps(attached, old(heap), old(roots), heap, roots)
      ensures r.Ok? ==> Denotes(heap, r.value, VMap(es))
      ensures refusals == old(refusals) + if r.Ok? then 0 else 1
    {
      hide Denotes;
      var n := |keys|;
      ghost var vs := seq(2 * n, i requires 0 <= i < 2 * n => if i < n then fs[i].0 else fs[i - n].1);
      var current, ok := ReserveRooting(keys + values, vs);
      if !ok { return Err(()); }
      ghost var h, s := heap, roots;
      AllDenoteInHeap(h, current, vs);
      var newKeys, newValues := current[..n], current[n..];
      assert Pointers(MapObject(newKeys, newValues)) == current;
      var t := Write(MapObject(newKeys, newValues));
      forall i | 0 <= i < n
        ensures DenotesEntry(heap, newKeys[i], newValues[i], fs[i])
      {
        ExtendsDenotes(h, heap, current[i], vs[i]);
        ExtendsDenotes(h, heap, current[n + i], vs[n + i]);
      }
      MapDenotes(heap, t, newKeys, newValues, es, fs);
      KeepsTrans(attached, old(heap), old(roots), h, s, heap, roots);
      r := Ok(t);
    }

    // --- The accumulator ---

    method Open() returns (acc: Accumulator)
      ensures acc == if attached then Rooted(|roots|, 0) else Owned([])
      ensures Fits(attached, roots, acc) && Held(roots, acc) == []
    {
      acc := if attached then Rooted(|roots|, 0) else Owned([]);
    }

    /** Releases the scope, on success and on failure alike. */
    method Close(depth: nat)
      requires Valid() && depth <= |roots| && (!attached ==> depth == |roots|)
      modifies this`roots
      ensures Valid() && roots == old(roots)[..depth]
    {
      if attached {
        roots := roots[..depth];
      }
    }

    /** Registers one more root. A scope that is not the innermost is refused. */
    method Push(acc: Accumulator, term: Term) returns (next: Accumulator, ok: bool)
      requires Valid() && Fits(attached, roots, acc) && InHeap(heap, term)
      modifies this`roots
      ensures Valid()
      ensures ok <==> (acc.Rooted? ==> acc.base + acc.len == |old(roots)|)
      ensures !ok ==> next == acc && roots == old(roots)
      ensures ok && acc.Rooted? ==> next == Rooted(acc.base, acc.len + 1) && roots == old(roots) + [term]
      ensures ok && acc.Owned? ==> roots == old(roots)
      ensures ok ==> Fits(attached, roots, next) && Held(roots, next) == Held(old(roots), acc) + [term]
    {
      match acc
      case Rooted(base, len) =>
        if base + len != |roots| {
          return acc, false;
        }
        roots := roots + [term];
        return Rooted(base, len + 1), true;
      case Owned(terms) =>
        return Owned(terms + [term]), true;
    }

    /** Overwrites one slot of the run. */
    method Set(acc: Accumulator, index: nat, term: Term) returns (next: Accumulator)
      requires Valid() && Fits(attached, roots, acc) && index < |Held(roots, acc)| && InHeap(heap, term)
      modifies this`roots
      ensures Valid() && Fits(attached, roots, next) && Held(roots, next) == Held(old(roots), acc)[index := term]
      ensures |roots| == |old(roots)| && (acc.Owned? ==> roots == old(roots) && next.Owned?)
      ensures acc.Rooted? ==> next == acc && roots == old(roots)[acc.base + index := term]
    {
      match acc
      case Rooted(base, len) =>
        roots := roots[base + index := term];
        return acc;
      case Owned(terms) =>
        return Owned(terms[index := term]);
    }

    method ToList(acc: Accumulator, ghost vs: seq<Value>) returns (r: Result<Term, ()>)
      requires Valid() && Fits(attached, roots, acc) && AllDenote(heap, Held(roots, acc), vs)
      modifies this
      ensures Valid() && Keeps(attached, old(heap), old(roots), heap, roots)
      ensures r.Ok? ==> Denotes(heap, r.value, ListOf(vs))
      ensures refusals == old(refusals) + if r.Ok? then 0 else 1
    {
      var elements := Snapshot(acc);
      r := AllocList(elements, vs);
    }

    method Snapshot(acc: Accumulator) returns (terms: seq<Term>)
      requires Fits(attached, roots, acc)
      ensures terms == Held(roots, acc)
    {
      match acc
      case Rooted(base, len) => terms := roots[base..base + len];
      case Owned(owned) => terms := owned;
    }

    /** Sorts an alternating run by key, in place. A run of odd length is refused. */
    method SortPairsByKey(acc: Accumulator) returns (next: Accumulator, ok: bool)
      requires Valid() && Fits(attached, roots, acc) && AllInHeap(heap, Held(roots, acc))
      modifies this`roots
      ensures ok <==> |Held(old(roots), acc)| % 2 == 0
      ensures Valid() && Fits(attached, roots, next) && |roots| == |old(roots)|
      ensures acc.Rooted? ==> next == acc && roots[..acc.base] == old(roots)[..acc.base]
      ensures acc.Owned? ==> next.Owned? && roots == old(roots)
      ensures !ok ==> next == acc && roots == old(roots)
      ensures ok ==> IsSortedRun(Held(old(roots), acc), Held(roots, next)) && KeysAscend(Held(roots, next))
      ensures ok ==> PointersAscend(Held(roots, next))
    {
      hide Denotes, SortKeyed;
      var flat := Snapshot(acc);
      next, ok := acc, |flat| % 2 == 0;
      if !ok {
        return;
      }
      var sorted := SortKeyed(PairsOf(flat));
      SortedInHeap(heap, flat);
      next := WriteBack(acc, sorted);
      assert PairsOf(Held(roots, next)) == sorted;
      SortedKeysAscend(flat, Held(roots, next));
    }

    /** Overwrites an alternating run with the given pairs. Nothing is allocated. */
    method WriteBack(acc: Accumulator, pairs: seq<(Term, Term)>) returns (next: Accumulator)
      requires Valid() && Fits(attached, roots, acc) && |Held(roots, acc)| == 2 * |pairs|
      requires forall i :: 0 <= i < |pairs| ==> InHeap(heap, pairs[i].0) && InHeap(heap, pairs[i].1)
      modifies this`roots
      ensures Valid() && Fits(attached, roots, next) && |roots| == |old(roots)| && |Held(roots, next)| == 2 * |pairs|
      ensures acc.Rooted? ==> next == acc && roots[..acc.base] == old(roots)[..acc.base]
      ensures acc.Owned? ==> next.Owned? && roots == old(roots)
      ensures forall i :: 0 <= i < |pairs| ==>
                Held(roots, next)[2 * i] == pairs[i].0 && Held(roots, next)[2 * i + 1] == pairs[i].1
    {
      hide Held;
      next := acc;
      for index := 0 to |pairs|
        invariant Valid() && Fits(attached, roots, next) && |roots| == |old(roots)|
                  && |Held(roots, next)| == 2 * |pairs|
        invariant acc.Rooted? ==> next == acc && roots[..acc.base] == old(roots)[..acc.base]
        invariant acc.Owned? ==> next.Owned? && roots == old(roots)
        invariant forall i :: 0 <= i < index ==>
                    Held(roots, next)[2 * i] == pairs[i].0 && Held(roots, next)[2 * i + 1] == pairs[i].1
      {
        next := SetPair(next, index, pairs[index]);
      }
    }

    method SetPair(acc: Accumulator, index: nat, pair: (Term, Term)) returns (next: Accumulator)
      requires Valid() && Fits(attached, roots, acc) && 2 * index + 1 < |Held(roots, acc)|
      requires InHeap(heap, pair.0) && InHeap(heap, pair.1)
      modifies this`roots
      ensures Valid() && Fits(attached, roots, next) && |roots| == |old(roots)|
      ensures acc.Rooted? ==> next == acc && roots[..acc.base] == old(roots)[..acc.base]
      ensures acc.Owned? ==> next.Owned? && roots == old(roots)
      ensures Held(roots, next) == Held(old(roots), acc)[2 * index := pair.0][2 * index + 1 := pair.1]
    {
      next := Set(acc, 2 * index, pair.0);
      next := Set(next, 2 * index + 1, pair.1);
    }

    /** A map of an alternating run. A run of odd length is refused. */
    method ToMapPairs(acc: Accumulator, ghost es: seq<(Value, Value)>, ghost fs: seq<(Value, Value)>)
      returns (r: Result<Term, ()>)
      requires Valid() && Fits(attached, roots, acc)
      requires |Held(roots, acc)| % 2 == 0 ==> Reordered(es, fs) && AllDenote(heap, Held(roots, acc), Alternate(fs))
      modifies this
      ensures Valid() && Keeps(attached, old(heap), old(roots), heap, roots)
      ensures r.Ok? ==> |Held(old(roots), acc)| % 2 == 0 && Denotes(heap, r.value, VMap(es))
      ensures refusals == old(refusals) + if r.Ok? || |Held(old(roots), acc)| % 2 != 0 then 0 else 1
    {
      hide Denotes;
      var flat := Snapshot(acc);
      if |flat| % 2 != 0 {
        KeepsGrow(attached, heap, heap, roots);
        return Err(());
      }
      var n := |flat| / 2;
      var keys := seq(n, i requires 0 <= i < n => flat[2 * i]);
      var values := seq(n, i requires 0 <= i < n => flat[2 * i + 1]);
      forall i | 0 <= i < |fs|
        ensures Denotes(heap, keys[i], fs[i].0) && Denotes(heap, values[i], fs[i].1)
      {
        EntryFromRun(heap, flat, fs, i);
      }
      r := AllocMap(keys, values, es, fs);
    }
  }

  function PairsOf(flat: seq<Term>): (pairs: seq<(Term, Term)>)
    requires |flat| % 2 == 0
    ensures 2 * |pairs| == |flat| && forall i :: 0 <= i < |pairs| ==> pairs[i] == (flat[2 * i], flat[2 * i + 1])
  {
    seq(|flat| / 2, i requires 0 <= i < |flat| / 2 => (flat[2 * i], flat[2 * i + 1]))
  }

  /** `after` holds the pairs of `before`, sorted by key; equal keys keep their order. */
  ghost predicate IsSortedRun(before: seq<Term>, after: seq<Term>) {
    |before| % 2 == 0 && |after| == |before| && PairsOf(after) == SortKeyed(PairsOf(before))
  }

  ghost predicate KeysAscend(run: seq<Term>) {
    forall i, j :: 0 <= i < j && 2 * j + 1 < |run| ==> !RawBelow(run[2 * j], run[2 * i])
  }

  /** Of keys that are pointers, the lower address comes first. */
  ghost predicate PointersAscend(run: seq<Term>) {
    forall i, j :: 0 <= i < j && 2 * j + 1 < |run| && run[2 * i].Ptr? && run[2 * j].Ptr? ==>
      run[2 * i].addr <= run[2 * j].addr
  }

  lemma SortedInHeap(h: Heap, flat: seq<Term>)
    requires |flat| % 2 == 0 && AllInHeap(h, flat)
    ensures var sorted := SortKeyed(PairsOf(flat));
            2 * |sorted| == |flat| && forall i :: 0 <= i < |sorted| ==> InHeap(h, sorted[i].0) && InHeap(h, sorted[i].1)
  {
    hide SortKeyed;
    var pairs := PairsOf(flat);
    SortKeyedSame(pairs);
    forall i | 0 <= i < |pairs|
      ensures InHeap(h, SortKeyed(pairs)[i].0) && InHeap(h, SortKeyed(pairs)[i].1)
    {
      SortKeyedAt(pairs, i);
      var j :| 0 <= j < |pairs| && pairs[j] == SortKeyed(pairs)[i];
    }
  }

  ghost predicate Sorted<T>(s: seq<(Term, T)>) {
    forall i, j :: 0 <= i < j < |s| ==> !RawBelow(s[j].0, s[i].0)
  }

  lemma {:induction false} InsertKeyedSorted<T>(p: (Term, T), s: seq<(Term, T)>)
    requires Sorted(s)
    ensures Sorted(InsertKeyed(p, s))
  {
    if s != [] && RawBelow(s[0].0, p.0) {
      InsertKeyedSorted(p, s[1..]);
      var t := InsertKeyed(p, s[1..]);
      InsertKeyedSame(p, s[1..]);
      forall j | 0 <= j < |t|
        ensures !RawBelow(t[j].0, s[0].0)
      {
        assert t[j] in multiset(t);
        if t[j] != p {
          assert t[j] in [p] + s[1..];
          var k :| 0 <= k < |s[1..]| && s[1..][k] == t[j];
          assert s[k + 1] == t[j];
        }
      }
    }
  }

  lemma {:induction false} SortKeyedSorted<T>(s: seq<(Term, T)>)
    ensures Sorted(SortKeyed(s))
  {
    if s != [] {
      SortKeyedSorted(s[1..]);
      InsertKeyedSorted(s[0], SortKeyed(s[1..]));
    }
  }

  lemma SortedKeysAscend(before: seq<Term>, after: seq<Term>)
    requires IsSortedRun(before, after)
    ensures KeysAscend(after)
  {
    hide SortKeyed;
    SortKeyedSorted(PairsOf(before));
    var pairs := PairsOf(after);
    forall i, j | 0 <= i < j && 2 * j + 1 < |after|
      ensures !RawBelow(after[2 * j], after[2 * i])
    {
      assert pairs[i].0 == after[2 * i] && pairs[j].0 == after[2 * j];
    }
  }

  /** Sorting a run that denotes entries leaves a run that denotes the same entries in
      another order: no key loses its value. */
  lemma SortedRunEntries(h: Heap, before: seq<Term>, after: seq<Term>, es: seq<(Value, Value)>)
    returns (fs: seq<(Value, Value)>)
    requires IsSortedRun(before, after) && AllDenote(h, before, Alternate(es))
    ensures Reordered(es, fs) && AllDenote(h, after, Alternate(fs))
  {
    hide Denotes, DenotesEntry, SortKeyed, Reordered;
    fs := SortedEntries(h, before, PairsOf(before), es);
    AlternateDenotes(h, after, PairsOf(after), fs);
  }

  /** The entries in the order in which sorting leaves their pairs of terms. */
  lemma SortedEntries(h: Heap, flat: seq<Term>, pairs: seq<(Term, Term)>, es: seq<(Value, Value)>)
    returns (fs: seq<(Value, Value)>)
    requires AllDenote(h, flat, Alternate(es)) && |pairs| == |es|
    requires forall i :: 0 <= i < |es| ==> pairs[i] == (flat[2 * i], flat[2 * i + 1])
    ensures Reordered(es, fs) && |SortKeyed(pairs)| == |fs|
    ensures forall i :: 0 <= i < |fs| ==> DenotesEntry(h, SortKeyed(pairs)[i].0, SortKeyed(pairs)[i].1, fs[i])
  {
    hide Denotes, DenotesEntry, SortKeyed;
    var z := seq(|es|, i requires 0 <= i < |es| => (pairs[i].0, (pairs[i].1, es[i])));
    var y := SortKeyed(z);
    SortKeyedBare(z);
    assert Bare(z) == pairs;
    SortKeyedSame(z);
    fs := seq(|y|, i requires 0 <= i < |y| => y[i].1.1);
    forall i | 0 <= i < |fs|
      ensures fs[i] in es && DenotesEntry(h, SortKeyed(pairs)[i].0, SortKeyed(pairs)[i].1, fs[i])
    {
      SortKeyedAt(z, i);
      var j :| 0 <= j < |z| && z[j] == y[i];
      EntryFromRun(h, flat, es, j);
    }
    forall i | 0 <= i < |es|
      ensures es[i] in fs
    {
      SortKeyedAt(z, i);
      var j :| 0 <= j < |y| && y[j] == z[i];
      assert fs[j] == es[i];
    }
  }

  lemma EntryFromRun(h: Heap, flat: seq<Term>, es: seq<(Value, Value)>, j: nat)
    requires AllDenote(h, flat, Alternate(es)) && j < |es|
    ensures DenotesEntry(h, flat[2 * j], flat[2 * j + 1], es[j])
  {
  }

  lemma AlternateDenotes(h: Heap, flat: seq<Term>, pairs: seq<(Term, Term)>, fs: seq<(Value, Value)>)
    requires |flat| == 2 * |fs| && |pairs| == |fs|
    requires forall i :: 0 <= i < |fs| ==> flat[2 * i] == pairs[i].0 && flat[2 * i + 1] == pairs[i].1
    requires forall i :: 0 <= i < |fs| ==> DenotesEntry(h, pairs[i].0, pairs[i].1, fs[i])
    ensures AllDenote(h, flat, Alternate(fs))
  {
    hide Denotes;
    forall m | 0 <= m < |flat|
      ensures Denotes(h, flat[m], Alternate(fs)[m])
    {
      var i := m / 2;
      assert m == 2 * i || m == 2 * i + 1;
      assert DenotesEntry(h, pairs[i].0, pairs[i].1, fs[i]);
    }
  }

  lemma KeptWindow(attached: bool, h: Heap, s: seq<Term>, k: Heap, front: seq<Term>, all: seq<Term>,
                   newFront: seq<Term>, terms: seq<Term>, vs: seq<Value>)
    requires Keeps(attached, h, s, k, all) && s == front + terms && |newFront| == |front|
    requires newFront <= all && AllDenote(h, terms, vs)
    ensures AllDenote(k, all[|newFront|..], vs)
  {
  }
}
