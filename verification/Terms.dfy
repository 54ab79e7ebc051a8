/** Terms, the heap they point into, what they denote, and what a moving
    collection may do to them. */
module Terms {

  datatype Atom = Nil | True | False | Named(name: string) | Unresolved

  /** A term word: an immediate, or a pointer into the heap. */
  datatype Term = Int(value: int) | AtomTerm(atom: Atom) | EmptyList | Pid(pid: nat) | Ptr(addr: nat)

  /** Contents of a binary: text when its bytes are valid UTF-8, raw bytes otherwise. */
  datatype Bytes = Text(text: string) | NotText(bytes: seq<bv8>)

  datatype Object =
    | Binary(data: Bytes)
    | Float(number: real)
    | Cons(head: Term, tail: Term)
    | Tuple(elements: seq<Term>)
    | MapObject(keys: seq<Term>, values: seq<Term>)
    | OtherBoxed(tag: nat)

  type Heap = map<nat, Object>

  /** The finite tree a term stands for. Entries of a map are unordered. */
  datatype Value =
    | VInt(integer: int)
    | VAtom(atom: Atom)
    | VPid(pid: nat)
    | VBinary(data: Bytes)
    | VFloat(number: real)
    | VNil
    | VCons(head: Value, tail: Value)
    | VTuple(elements: seq<Value>)
    | VMap(entries: seq<(Value, Value)>)
    | VOther(tag: nat)

  ghost predicate At(h: Heap, t: Term, o: Object) {
    t.Ptr? && t.addr in h && h[t.addr] == o
  }

  ghost predicate Denotes(h: Heap, t: Term, v: Value)
    decreases v
  {
    match v
    case VInt(i) => t == Int(i)
    case VAtom(a) => t == AtomTerm(a)
    case VPid(p) => t == Pid(p)
    case VNil => t == EmptyList
    case VBinary(d) => At(h, t, Binary(d))
    case VFloat(r) => At(h, t, Float(r))
    case VOther(k) => At(h, t, OtherBoxed(k))
    case VCons(x, y) =>
      && t.Ptr? && t.addr in h && h[t.addr].Cons?
      && Denotes(h, h[t.addr].head, x) && Denotes(h, h[t.addr].tail, y)
    case VTuple(es) =>
      && t.Ptr? && t.addr in h && h[t.addr].Tuple? && |h[t.addr].elements| == |es|
      && forall i :: 0 <= i < |es| ==> Denotes(h, h[t.addr].elements[i], es[i])
    case VMap(es) =>
      && t.Ptr? && t.addr in h && h[t.addr].MapObject?
      && |h[t.addr].keys| == |h[t.addr].values| == |es|
      && (forall i :: 0 <= i < |es| ==> IsStored(h, h[t.addr].keys, h[t.addr].values, es[i]))
      && (forall j :: 0 <= j < |es| ==> IsListed(h, h[t.addr].keys[j], h[t.addr].values[j], es))
  }

  /** A key term and its value term denote one entry. */
  ghost predicate DenotesEntry(h: Heap, key: Term, value: Term, entry: (Value, Value))
    decreases entry, 0
  {
    Denotes(h, key, entry.0) && Denotes(h, value, entry.1)
  }

  ghost predicate IsStored(h: Heap, keys: seq<Term>, values: seq<Term>, entry: (Value, Value))
    requires |keys| == |values|
    decreases entry, 1
  {
    exists j :: 0 <= j < |keys| && DenotesEntry(h, keys[j], values[j], entry)
  }

  ghost predicate IsListed(h: Heap, key: Term, value: Term, entries: seq<(Value, Value)>)
    decreases entries
  {
    exists i :: 0 <= i < |entries| && DenotesEntry(h, key, value, entries[i])
  }

  function ListOf(vs: seq<Value>): Value {
    if vs == [] then VNil else VCons(vs[0], ListOf(vs[1..]))
  }

  /** Following `heads` cells from `t` ends at `tail`. */
  ghost predicate Walk(h: Heap, t: Term, heads: seq<Term>, tail: Term)
    decreases |heads|
  {
    if heads == [] then t == tail
    else t.Ptr? && t.addr in h && h[t.addr].Cons? && h[t.addr].head == heads[0]
         && Walk(h, h[t.addr].tail, heads[1..], tail)
  }

  /** A term that denotes a list is a chain of as many cells, ending in the empty list. */
  lemma {:induction false} ListCells(h: Heap, t: Term, vs: seq<Value>) returns (heads: seq<Term>)
    requires Denotes(h, t, ListOf(vs))
    ensures Walk(h, t, heads, EmptyList) && |heads| == |vs|
    ensures forall i :: 0 <= i < |vs| ==> Denotes(h, heads[i], vs[i])
    decreases vs
  {
    if vs == [] {
      heads := [];
    } else {
      var rest := ListCells(h, h[t.addr].tail, vs[1..]);
      heads := [h[t.addr].head] + rest;
      assert heads[1..] == rest;
    }
  }

  // --- Well-formed heaps ---

  predicate InHeap(h: Heap, t: Term) {
    t.Ptr? ==> t.addr in h
  }

  function Pointers(o: Object): seq<Term> {
    match o
    case Cons(x, y) => [x, y]
    case Tuple(es) => es
    case MapObject(ks, vs) => ks + vs
    case _ => []
  }

  predicate AllInHeap(h: Heap, ts: seq<Term>) {
    forall i :: 0 <= i < |ts| ==> InHeap(h, ts[i])
  }

  predicate HeapClosed(h: Heap) {
    forall a :: a in h ==> AllInHeap(h, Pointers(h[a]))
  }

  // --- Growing the heap ---

  predicate Extends(h: Heap, k: Heap) {
    forall a :: a in h ==> a in k && k[a] == h[a]
  }

  lemma {:induction false} ExtendsDenotes(h: Heap, k: Heap, t: Term, v: Value)
    requires Extends(h, k) && Denotes(h, t, v)
    ensures Denotes(k, t, v)
    decreases v
  {
    match v
    case VCons(x, y) =>
      ExtendsDenotes(h, k, h[t.addr].head, x);
      ExtendsDenotes(h, k, h[t.addr].tail, y);
    case VTuple(es) =>
      forall i | 0 <= i < |es|
        ensures Denotes(k, k[t.addr].elements[i], es[i])
      {
        ExtendsDenotes(h, k, h[t.addr].elements[i], es[i]);
      }
    case VMap(es) =>
      ExtendsMap(h, k, h[t.addr].keys, h[t.addr].values, es);
    case _ =>
  }

  lemma {:induction false} ExtendsEntry(h: Heap, k: Heap, key: Term, value: Term, entry: (Value, Value))
    requires Extends(h, k) && DenotesEntry(h, key, value, entry)
    ensures DenotesEntry(k, key, value, entry)
    decreases entry
  {
    ExtendsDenotes(h, k, key, entry.0);
    ExtendsDenotes(h, k, value, entry.1);
  }

  lemma {:induction false} ExtendsMap(h: Heap, k: Heap, keys: seq<Term>, values: seq<Term>, es: seq<(Value, Value)>)
    requires Extends(h, k) && |keys| == |values| == |es|
    requires forall i :: 0 <= i < |es| ==> IsStored(h, keys, values, es[i])
    requires forall j :: 0 <= j < |es| ==> IsListed(h, keys[j], values[j], es)
    ensures forall i :: 0 <= i < |es| ==> IsStored(k, keys, values, es[i])
    ensures forall j :: 0 <= j < |es| ==> IsListed(k, keys[j], values[j], es)
    decreases es
  {
    forall i, j | 0 <= i < |es| && 0 <= j < |es| && DenotesEntry(h, keys[j], values[j], es[i])
      ensures DenotesEntry(k, keys[j], values[j], es[i])
    {
      ExtendsEntry(h, k, keys[j], values[j], es[i]);
    }
    hide DenotesEntry;
    forall i | 0 <= i < |es|
      ensures IsStored(k, keys, values, es[i])
    {
      assert IsStored(h, keys, values, es[i]);
    }
    forall j | 0 <= j < |es|
      ensures IsListed(k, keys[j], values[j], es)
    {
      assert IsListed(h, keys[j], values[j], es);
    }
  }

  // --- Moving collections ---

  /** `forward` says where each survivor goes: injective, defined on every root and
      on whatever a survivor points at. Everything else is dropped. */
  predicate IsForwarding(h: Heap, roots: seq<Term>, forward: map<nat, nat>) {
    && (forall a :: a in forward ==> a in h)
    && (forall a, b :: a in forward && b in forward && forward[a] == forward[b] ==> a == b)
    && (forall i :: 0 <= i < |roots| ==> Survives(forward, roots[i]))
    && (forall a :: a in forward ==> forall i :: 0 <= i < |Pointers(h[a])| ==> Survives(forward, Pointers(h[a])[i]))
  }

  predicate Survives(forward: map<nat, nat>, t: Term) {
    t.Ptr? ==> t.addr in forward
  }

  function Forward(forward: map<nat, nat>, t: Term): Term {
    if t.Ptr? && t.addr in forward then Ptr(forward[t.addr]) else t
  }

  function ForwardAll(forward: map<nat, nat>, ts: seq<Term>): (fs: seq<Term>)
    ensures |fs| == |ts| && forall i :: 0 <= i < |ts| ==> fs[i] == Forward(forward, ts[i])
  {
    seq(|ts|, i requires 0 <= i < |ts| => Forward(forward, ts[i]))
  }

  function ForwardObject(forward: map<nat, nat>, o: Object): Object {
    match o
    case Cons(x, y) => Cons(Forward(forward, x), Forward(forward, y))
    case Tuple(es) => Tuple(ForwardAll(forward, es))
    case MapObject(ks, vs) => MapObject(ForwardAll(forward, ks), ForwardAll(forward, vs))
    case _ => o
  }

  function Moved(h: Heap, roots: seq<Term>, forward: map<nat, nat>): Heap
    requires IsForwarding(h, roots, forward)
  {
    map a | a in forward :: forward[a] := ForwardObject(forward, h[a])
  }

  lemma MovedAt(h: Heap, roots: seq<Term>, forward: map<nat, nat>, a: nat)
    requires IsForwarding(h, roots, forward) && a in forward
    ensures forward[a] in Moved(h, roots, forward)
    ensures Moved(h, roots, forward)[forward[a]] == ForwardObject(forward, h[a])
  {
  }

  /** A survivor denotes, at its new address, what it denoted before. */
  lemma {:induction false} MovedDenotes(h: Heap, roots: seq<Term>, forward: map<nat, nat>, t: Term, v: Value)
    requires IsForwarding(h, roots, forward) && Survives(forward, t) && Denotes(h, t, v)
    ensures Denotes(Moved(h, roots, forward), Forward(forward, t), v)
    decreases v
  {
    hide Moved;
    var k := Moved(h, roots, forward);
    if t.Ptr? {
      MovedAt(h, roots, forward, t.addr);
      PointersSurvive(h, roots, forward, t.addr);
    }
    match v
    case VCons(x, y) =>
      MovedDenotes(h, roots, forward, h[t.addr].head, x);
      MovedDenotes(h, roots, forward, h[t.addr].tail, y);
    case VTuple(es) =>
      forall i | 0 <= i < |es|
        ensures Denotes(k, Forward(forward, h[t.addr].elements[i]), es[i])
      {
        MovedDenotes(h, roots, forward, h[t.addr].elements[i], es[i]);
      }
    case VMap(es) =>
      MovedMap(h, roots, forward, h[t.addr].keys, h[t.addr].values, es);
    case _ =>
  }

  lemma {:induction false} MovedEntry(h: Heap, roots: seq<Term>, forward: map<nat, nat>,
                                      key: Term, value: Term, entry: (Value, Value))
    requires IsForwarding(h, roots, forward) && Survives(forward, key) && Survives(forward, value)
    requires DenotesEntry(h, key, value, entry)
    ensures DenotesEntry(Moved(h, roots, forward), Forward(forward, key), Forward(forward, value), entry)
    decreases entry
  {
    MovedDenotes(h, roots, forward, key, entry.0);
    MovedDenotes(h, roots, forward, value, entry.1);
  }

  lemma {:induction false} MovedMap(h: Heap, roots: seq<Term>, forward: map<nat, nat>,
                                    keys: seq<Term>, values: seq<Term>, es: seq<(Value, Value)>)
    requires IsForwarding(h, roots, forward) && |keys| == |values| == |es|
    requires forall i :: 0 <= i < |es| ==> Survives(forward, keys[i]) && Survives(forward, values[i])
    requires forall i :: 0 <= i < |es| ==> IsStored(h, keys, values, es[i])
    requires forall j :: 0 <= j < |es| ==> IsListed(h, keys[j], values[j], es)
    ensures forall i :: 0 <= i < |es| ==>
              IsStored(Moved(h, roots, forward), ForwardAll(forward, keys), ForwardAll(forward, values), es[i])
    ensures forall j :: 0 <= j < |es| ==>
              IsListed(Moved(h, roots, forward), ForwardAll(forward, keys)[j], ForwardAll(forward, values)[j], es)
    decreases es
  {
    hide Moved, IsForwarding;
    var k := Moved(h, roots, forward);
    var newKeys, newValues := ForwardAll(forward, keys), ForwardAll(forward, values);
    forall i, j | 0 <= i < |es| && 0 <= j < |es| && DenotesEntry(h, keys[j], values[j], es[i])
      ensures DenotesEntry(k, newKeys[j], newValues[j], es[i])
    {
      MovedEntry(h, roots, forward, keys[j], values[j], es[i]);
    }
    hide DenotesEntry;
    forall i | 0 <= i < |es|
      ensures IsStored(k, newKeys, newValues, es[i])
    {
      assert IsStored(h, keys, values, es[i]);
    }
    forall j | 0 <= j < |es|
      ensures IsListed(k, newKeys[j], newValues[j], es)
    {
      assert IsListed(h, keys[j], values[j], es);
    }
  }

  lemma PointersSurvive(h: Heap, roots: seq<Term>, forward: map<nat, nat>, a: nat)
    requires IsForwarding(h, roots, forward) && a in forward
    ensures h[a].Cons? ==> Survives(forward, h[a].head) && Survives(forward, h[a].tail)
    ensures h[a].Tuple? ==> forall i :: 0 <= i < |h[a].elements| ==> Survives(forward, h[a].elements[i])
    ensures h[a].MapObject? ==> forall i :: 0 <= i < |h[a].keys| ==> Survives(forward, h[a].keys[i])
    ensures h[a].MapObject? ==> forall i :: 0 <= i < |h[a].values| ==> Survives(forward, h[a].values[i])
  {
    var ps := Pointers(h[a]);
    match h[a]
    case Cons(x, y) => assert ps[0] == x && ps[1] == y;
    case MapObject(ks, vs) =>
      assert forall i :: 0 <= i < |ks| ==> ps[i] == ks[i];
      assert forall i :: 0 <= i < |vs| ==> ps[|ks| + i] == vs[i];
    case _ =>
  }

  lemma ForwardedInHeap(h: Heap, roots: seq<Term>, forward: map<nat, nat>, ts: seq<Term>)
    requires IsForwarding(h, roots, forward) && forall i :: 0 <= i < |ts| ==> Survives(forward, ts[i])
    ensures AllInHeap(Moved(h, roots, forward), ForwardAll(forward, ts))
  {
  }

  lemma MovedKey(h: Heap, roots: seq<Term>, forward: map<nat, nat>, a: nat) returns (b: nat)
    requires IsForwarding(h, roots, forward) && a in Moved(h, roots, forward)
    ensures b in forward && forward[b] == a
  {
    b :| b in forward && forward[b] == a;
  }

  lemma PointersForwarded(forward: map<nat, nat>, o: Object)
    ensures Pointers(ForwardObject(forward, o)) == ForwardAll(forward, Pointers(o))
  {
  }

  lemma MovedClosed(h: Heap, roots: seq<Term>, forward: map<nat, nat>)
    requires IsForwarding(h, roots, forward)
    ensures HeapClosed(Moved(h, roots, forward)) && AllInHeap(Moved(h, roots, forward), ForwardAll(forward, roots))
  {
    hide Moved, AllInHeap, ForwardAll, Pointers, ForwardObject;
    var k := Moved(h, roots, forward);
    ForwardedInHeap(h, roots, forward, roots);
    forall a | a in k
      ensures AllInHeap(k, Pointers(k[a]))
    {
      var b := MovedKey(h, roots, forward, a);
      MovedAt(h, roots, forward, b);
      PointersForwarded(forward, h[b]);
      ForwardedInHeap(h, roots, forward, Pointers(h[b]));
    }
  }

  /** A term held outside the roots is not protected: with another term as the only
      root, this collection leaves it pointing at that other binary. */
  lemma UnrootedTermGoesStale()
    ensures exists h: Heap, forward: map<nat, nat> ::
              IsForwarding(h, [Ptr(1)], forward)
              && Denotes(h, Ptr(0), VBinary(Text("a")))
              && Denotes(Moved(h, [Ptr(1)], forward), Ptr(0), VBinary(Text("b")))
  {
    var h: Heap := map[0 := Binary(Text("a")), 1 := Binary(Text("b"))];
    var forward: map<nat, nat> := map[1 := 0];
    assert IsForwarding(h, [Ptr(1)], forward);
    MovedAt(h, [Ptr(1)], forward, 1);
    assert Denotes(h, Ptr(0), VBinary(Text("a")));
    assert Denotes(Moved(h, [Ptr(1)], forward), Ptr(0), VBinary(Text("b")));
  }
}
