/** Terms back to host values, when a conversion succeeds, and the round trip. */
module Render {
  import opened Wrappers
  import opened Terms
  import opened Context
  import opened Convert

  /** A value handed to JavaScript. */
  datatype JsOut =
    | ONumber(number: Double)
    | OString(text: string)
    | OBytes(bytes: seq<bv8>)
    | OArray(items: seq<JsOut>)
    | OObject(properties: map<string, JsOut>)

  function AtomName(a: Atom): Option<string> {
    match a
    case Nil => Some("nil")
    case True => Some("true")
    case False => Some("false")
    case Named(name) => Some(name)
    case Unresolved => None
  }

  /** The property name of a map key. */
  function NameOf(key: Value): Option<string> {
    match key
    case VAtom(a) => AtomName(a)
    case VBinary(Text(s)) => Some(s)
    case _ => None
  }

  /** Setting this property of a plain object runs the accessor that the object inherits:
      it succeeds and leaves no property of the object's own. */
  const PROTO := "__proto__"

  /** What setting a property does to an object's own properties. */
  function SetProperty(properties: map<string, JsOut>, name: string, value: JsOut): map<string, JsOut> {
    if name == PROTO then properties else properties[name := value]
  }

  predicate CanRender(v: Value, depth: nat)
    decreases v, 1
  {
    depth <= MAX_CONVERSION_DEPTH &&
    match v
    case VAtom(a) => AtomName(a).Some?
    case VPid(_) => false
    case VOther(_) => false
    case VBinary(NotText(bytes)) => |bytes| <= 0xffff_ffff
    case VCons(_, _) => CanRenderList(v, depth + 1)
    case VTuple(es) => forall i :: 0 <= i < |es| ==> CanRender(es[i], depth + 1)
    case VMap(es) => forall i :: 0 <= i < |es| ==> CanRenderEntry(es[i], depth + 1)
    case _ => true
  }

  /** Only proper lists can become arrays. */
  predicate CanRenderList(v: Value, depth: nat)
    decreases v, 0
  {
    match v
    case VNil => true
    case VCons(x, y) => CanRender(x, depth) && CanRenderList(y, depth)
    case _ => false
  }

  predicate CanRenderEntry(e: (Value, Value), depth: nat)
    decreases e
  {
    NameOf(e.0).Some? && CanRender(e.1, depth)
  }

  /** No map has two keys with one property name. */
  ghost predicate NoClash(v: Value)
    decreases v
  {
    match v
    case VCons(x, y) => NoClash(x) && NoClash(y)
    case VTuple(es) => forall i :: 0 <= i < |es| ==> NoClash(es[i])
    case VMap(es) =>
      && (forall i, j :: 0 <= i < j < |es| ==> NameOf(es[i].0) != NameOf(es[j].0))
      && (forall i :: 0 <= i < |es| ==> NoClashEntry(es[i]))
    case _ => true
  }

  ghost predicate NoClashEntry(e: (Value, Value))
    decreases e
  {
    NoClash(e.1)
  }

  ghost predicate Renders(v: Value, out: JsOut)
    decreases v, 1
  {
    match v
    case VInt(i) => out == ONumber(Finite(i as real))
    case VFloat(r) => out == ONumber(Finite(r))
    case VAtom(a) => AtomName(a).Some? && out == OString(AtomName(a).value)
    case VBinary(Text(s)) => out == OString(s)
    case VBinary(NotText(bytes)) => out == OBytes(bytes)
    case VNil => out == OArray([])
    case VCons(_, _) => out.OArray? && RendersList(v, out.items)
    case VTuple(es) => out.OArray? && |out.items| == |es| && forall i :: 0 <= i < |es| ==> Renders(es[i], out.items[i])
    case VMap(es) =>
      && out.OObject?
      && (forall i :: 0 <= i < |es| ==> RendersEntry(es[i], out.properties))
      && (forall name :: name in out.properties ==>
            name != PROTO && exists i :: 0 <= i < |es| && NameOf(es[i].0) == Some(name))
    case _ => false
  }

  ghost predicate RendersList(v: Value, items: seq<JsOut>)
    decreases v, 0
  {
    match v
    case VNil => items == []
    case VCons(x, y) => items != [] && Renders(x, items[0]) && RendersList(y, items[1..])
    case _ => false
  }

  ghost predicate RendersEntry(e: (Value, Value), properties: map<string, JsOut>)
    decreases e
  {
    && NameOf(e.0).Some?
    && (NameOf(e.0).value != PROTO ==>
          NameOf(e.0).value in properties && Renders(e.1, properties[NameOf(e.0).value]))
  }

  // --- When a value can be handed back ---

  /** How many lists, tuples and maps enclose the deepest value inside. */
  function ValueHeight(v: Value): nat
    decreases v, 1
  {
    match v
    case VCons(_, _) => 1 + ListHeight(v)
    case VTuple(es) => if es == [] then 0 else 1 + TallestValue(es)
    case VMap(es) => if es == [] then 0 else 1 + TallestEntry(es)
    case _ => 0
  }

  function ListHeight(v: Value): nat
    decreases v, 0
  {
    match v
    case VCons(x, y) => Max(ValueHeight(x), ListHeight(y))
    case _ => 0
  }

  function TallestValue(es: seq<Value>): nat
    decreases es
  {
    if es == [] then 0 else Max(TallestValue(es[..|es| - 1]), ValueHeight(es[|es| - 1]))
  }

  function TallestEntry(es: seq<(Value, Value)>): nat
    decreases es
  {
    if es == [] then 0 else Max(TallestEntry(es[..|es| - 1]), EntryHeight(es[|es| - 1]))
  }

  function EntryHeight(e: (Value, Value)): nat
    decreases e
  {
    ValueHeight(e.1)
  }

  /** At every level: no pid and no boxed term of another kind, every atom in the atom
      table, binaries that fit an array, proper lists, and keys that are such atoms or
      text. */
  predicate Renderable(v: Value)
    decreases v, 1
  {
    match v
    case VAtom(a) => a != Unresolved
    case VPid(_) => false
    case VOther(_) => false
    case VBinary(NotText(bytes)) => |bytes| < 4294967296
    case VCons(_, _) => RenderableList(v)
    case VTuple(es) => forall i :: 0 <= i < |es| ==> Renderable(es[i])
    case VMap(es) => forall i :: 0 <= i < |es| ==> RenderableEntry(es[i])
    case _ => true
  }

  predicate RenderableList(v: Value)
    decreases v, 0
  {
    match v
    case VNil => true
    case VCons(x, y) => Renderable(x) && RenderableList(y)
    case _ => false
  }

  predicate RenderableEntry(e: (Value, Value))
    decreases e
  {
    && (e.0.VAtom? || (e.0.VBinary? && e.0.data.Text?)) && e.0 != VAtom(Unresolved)
    && Renderable(e.1)
  }

  lemma {:induction false} CanRenderIff(v: Value, depth: nat)
    ensures CanRender(v, depth) <==> depth + ValueHeight(v) <= 256 && Renderable(v)
    decreases v, 1
  {
    match v
    case VCons(x, y) =>
      CanRenderListIff(v, depth + 1);
    case VTuple(es) => CanRenderAllIff(es, depth + 1);
    case VMap(es) => CanRenderEntriesIff(es, depth + 1);
    case _ =>
  }

  lemma {:induction false} CanRenderListIff(v: Value, depth: nat)
    ensures CanRenderList(v, depth) <==> (v.VCons? ==> depth + ListHeight(v) <= 256) && RenderableList(v)
    decreases v, 0
  {
    if v.VCons? {
      CanRenderIff(v.head, depth);
      CanRenderListIff(v.tail, depth);
    }
  }

  lemma {:induction false} CanRenderAllIff(es: seq<Value>, depth: nat)
    ensures (forall i :: 0 <= i < |es| ==> CanRender(es[i], depth))
            <==> es == [] || (depth + TallestValue(es) <= 256 && forall i :: 0 <= i < |es| ==> Renderable(es[i]))
    decreases es
  {
    if es != [] {
      var n := |es| - 1;
      CanRenderAllIff(es[..n], depth);
      CanRenderIff(es[n], depth);
      assert forall i :: 0 <= i < n ==> es[..n][i] == es[i];
    }
  }

  lemma {:induction false} CanRenderEntriesIff(es: seq<(Value, Value)>, depth: nat)
    ensures (forall i :: 0 <= i < |es| ==> CanRenderEntry(es[i], depth))
            <==> es == [] || (depth + TallestEntry(es) <= 256 && forall i :: 0 <= i < |es| ==> RenderableEntry(es[i]))
    decreases es
  {
    if es != [] {
      var n := |es| - 1;
      CanRenderEntriesIff(es[..n], depth);
      CanRenderEntryIff(es[n], depth);
      assert forall i :: 0 <= i < n ==> es[..n][i] == es[i];
    }
  }

  lemma {:induction false} CanRenderEntryIff(e: (Value, Value), depth: nat)
    ensures CanRenderEntry(e, depth) <==> depth + EntryHeight(e) <= 256 && RenderableEntry(e)
    decreases e
  {
    CanRenderIff(e.1, depth);
  }

  // --- Terms to host values ---

  ghost predicate Denotable(h: Heap, t: Term) {
    exists v :: Denotes(h, t, v)
  }

  /** The answer for a term is right about each value the term denotes. */
  ghost predicate Answers(r: Option<JsOut>, v: Value, depth: nat) {
    && (r.Some? <==> CanRender(v, depth))
    && (r.Some? && NoClash(v) ==> Renders(v, r.value))
  }

  ghost predicate Right(h: Heap, t: Term, r: Option<JsOut>, depth: nat) {
    forall v :: Denotes(h, t, v) ==> Answers(r, v, depth)
  }

  /** The answer for a term without terms inside, spelled out. */
  ghost predicate LeafAnswer(h: Heap, t: Term, r: Option<JsOut>) {
    match t
    case Int(i) => r == Some(ONumber(Finite(i as real)))
    case AtomTerm(Named(name)) => r == Some(OString(name))
    case AtomTerm(Nil) => r == Some(OString("nil"))
    case AtomTerm(True) => r == Some(OString("true"))
    case AtomTerm(False) => r == Some(OString("false"))
    case AtomTerm(Unresolved) => r == None
    case EmptyList => r == Some(OArray([]))
    case Pid(_) => r == None
    case Ptr(addr) =>
      addr in h ==>
        match h[addr]
        case Float(n) => r == Some(ONumber(Finite(n)))
        case Binary(Text(s)) => r == Some(OString(s))
        case Binary(NotText(bytes)) => r == if |bytes| < 4294967296 then Some(OBytes(bytes)) else None
        case OtherBoxed(_) => r == None
        case _ => true
  }

  method TermToJs(h: Heap, t: Term, depth: nat) returns (r: Option<JsOut>)
    requires Denotable(h, t)
    ensures Right(h, t, r, depth)
    // when there is an answer, and what it is for a leaf, without reference to the rendering
    ensures forall v :: Denotes(h, t, v) ==> (r.Some? <==> depth + ValueHeight(v) <= 256 && Renderable(v))
    ensures depth <= 256 ==> LeafAnswer(h, t, r)
    decreases MAX_CONVERSION_DEPTH + 1 - depth, 3
  {
    r := ValueToJs(h, t, depth);
    AnswersIff(h, t, r, depth);
  }

  lemma AnswersIff(h: Heap, t: Term, r: Option<JsOut>, depth: nat)
    requires Right(h, t, r, depth)
    ensures forall v :: Denotes(h, t, v) ==> (r.Some? <==> depth + ValueHeight(v) <= 256 && Renderable(v))
  {
    hide Denotes, CanRender, ValueHeight, Renderable, Renders, NoClash;
    forall v | Denotes(h, t, v)
      ensures r.Some? <==> depth + ValueHeight(v) <= 256 && Renderable(v)
    {
      CanRenderIff(v, depth);
    }
  }

  /** The dispatch on the kind of the term. */
  method ValueToJs(h: Heap, t: Term, depth: nat) returns (r: Option<JsOut>)
    requires Denotable(h, t)
    ensures Right(h, t, r, depth)
    ensures depth <= 256 ==> LeafAnswer(h, t, r)
    decreases MAX_CONVERSION_DEPTH + 1 - depth, 2
  {
    ghost var v :| Denotes(h, t, v);
    if depth > MAX_CONVERSION_DEPTH {
      return None;
    }
    match t {
      case Int(i) => return Some(ONumber(Finite(i as real)));
      case AtomTerm(a) => return if AtomName(a).Some? then Some(OString(AtomName(a).value)) else None;
      case EmptyList => return Some(OArray([]));
      case Pid(_) => return None;
      case Ptr(addr) =>
        if h[addr].Cons? {
          r := ListToJs(h, t, depth);
        } else {
          r := BoxedToJs(h, t, addr, depth);
        }
    }
  }

  method BoxedToJs(h: Heap, t: Term, addr: nat, depth: nat) returns (r: Option<JsOut>)
    requires Denotable(h, t) && t == Ptr(addr) && addr in h && !h[addr].Cons? && depth <= MAX_CONVERSION_DEPTH
    ensures Right(h, t, r, depth)
    ensures LeafAnswer(h, t, r)
    decreases MAX_CONVERSION_DEPTH + 1 - depth, 1
  {
    match h[addr] {
      case Binary(Text(s)) => return Some(OString(s));
      case Binary(NotText(bytes)) => return if |bytes| <= 0xffff_ffff then Some(OBytes(bytes)) else None;
      case Tuple(elements) => r := TupleToJs(h, t, elements, depth);
      case MapObject(keys, values) => r := MapToJs(h, t, keys, values, depth);
      case Float(n) => return Some(ONumber(Finite(n)));
      case OtherBoxed(_) => return None;
    }
  }

  /** One answer for each term, in order. */
  ghost predicate AllRight(h: Heap, ts: seq<Term>, items: seq<JsOut>, depth: nat) {
    |items| == |ts| && forall i :: 0 <= i < |ts| ==> Right(h, ts[i], Some(items[i]), depth)
  }

  /** Different names are handed back as different strings. */
  lemma NamedAtomsApart(h: Heap, a: string, b: string, r: Option<JsOut>, depth: nat)
    requires Right(h, AtomTerm(Named(a)), r, depth) && Right(h, AtomTerm(Named(b)), r, depth) && depth <= 256
    ensures a == b && r == Some(OString(a))
  {
    assert Denotes(h, AtomTerm(Named(a)), VAtom(Named(a))) && Denotes(h, AtomTerm(Named(b)), VAtom(Named(b)));
    assert NoClash(VAtom(Named(a))) && NoClash(VAtom(Named(b)));
  }

  // --- Lists ---

  lemma {:induction false} WalkSnoc(h: Heap, t: Term, heads: seq<Term>, tail: Term)
    requires Walk(h, t, heads, tail) && tail.Ptr? && tail.addr in h && h[tail.addr].Cons?
    ensures Walk(h, t, heads + [h[tail.addr].head], h[tail.addr].tail)
    decreases |heads|
  {
    if heads != [] {
      WalkSnoc(h, h[t.addr].tail, heads[1..], tail);
      assert (heads + [h[tail.addr].head])[1..] == heads[1..] + [h[tail.addr].head];
    }
  }

  ghost function Chain(xs: seq<Value>, rest: Value): Value {
    if xs == [] then rest else VCons(xs[0], Chain(xs[1..], rest))
  }

  lemma {:induction false} WalkValues(h: Heap, t: Term, heads: seq<Term>, tail: Term, v: Value)
    returns (xs: seq<Value>, rest: Value)
    requires Walk(h, t, heads, tail) && Denotes(h, t, v)
    ensures AllDenote(h, heads, xs) && Denotes(h, tail, rest) && v == Chain(xs, rest)
    decreases |heads|
  {
    if heads == [] {
      xs, rest := [], v;
    } else {
      xs, rest := WalkValues(h, h[t.addr].tail, heads[1..], tail, v.tail);
      xs := [v.head] + xs;
    }
  }

  lemma {:induction false} ChainCanRender(xs: seq<Value>, rest: Value, depth: nat)
    ensures CanRenderList(Chain(xs, rest), depth)
            <==> CanRenderList(rest, depth) && forall i :: 0 <= i < |xs| ==> CanRender(xs[i], depth)
  {
    if xs != [] {
      ChainCanRender(xs[1..], rest, depth);
      assert forall i :: 0 <= i < |xs| - 1 ==> xs[1..][i] == xs[i + 1];
      assert forall i :: 0 < i < |xs| ==> xs[i] == xs[1..][i - 1];
    }
  }

  lemma {:induction false} ChainRenders(xs: seq<Value>, items: seq<JsOut>)
    requires |xs| == |items|
    requires NoClash(Chain(xs, VNil)) && forall i :: 0 <= i < |xs| && NoClash(xs[i]) ==> Renders(xs[i], items[i])
    ensures RendersList(Chain(xs, VNil), items)
  {
    if xs != [] {
      ChainRenders(xs[1..], items[1..]);
    }
  }

  method ListToJs(h: Heap, t: Term, depth: nat) returns (r: Option<JsOut>)
    requires Denotable(h, t) && t.Ptr? && t.addr in h && h[t.addr].Cons? && depth <= MAX_CONVERSION_DEPTH
    ensures Right(h, t, r, depth)
    // the cells are followed to the empty list, and their heads answered in order
    ensures r.Some? ==>
              && r.value.OArray?
              && exists heads :: Walk(h, t, heads, EmptyList) && AllRight(h, heads, r.value.items, depth + 1)
    decreases MAX_CONVERSION_DEPTH + 1 - depth, 0
  {
    hide Denotes;
    ghost var rest: Value :| Denotes(h, t, rest);
    ghost var heads: seq<Term> := [];
    var items: seq<JsOut> := [];
    var tail := t;
    while tail != EmptyList
      invariant Walk(h, t, heads, tail) && Denotes(h, tail, rest) && |items| == |heads|
      invariant forall i :: 0 <= i < |heads| ==> Right(h, heads[i], Some(items[i]), depth + 1)
      decreases rest
    {
      if !(tail.Ptr? && tail.addr in h && h[tail.addr].Cons?) {
        ImproperFails(h, t, heads, tail, depth);
        return None;
      }
      rest := ConsParts(h, tail, rest);
      WalkSnoc(h, t, heads, tail);
      var item := TermToJs(h, h[tail.addr].head, depth + 1);
      heads := heads + [h[tail.addr].head];
      tail := h[tail.addr].tail;
      if item.None? {
        HeadFails(h, t, heads, tail, depth);
        return None;
      }
      items := items + [item.value];
    }
    r := Some(OArray(items));
    ListSucceeds(h, t, heads, items, depth);
  }

  lemma ConsParts(h: Heap, t: Term, v: Value) returns (rest: Value)
    requires Denotes(h, t, v) && t.Ptr? && t.addr in h && h[t.addr].Cons?
    ensures v.VCons? && rest == v.tail && Denotes(h, h[t.addr].tail, rest)
    ensures Denotable(h, h[t.addr].head)
  {
    rest := v.tail;
    assert Denotes(h, h[t.addr].head, v.head);
  }

  lemma ImproperFails(h: Heap, t: Term, heads: seq<Term>, tail: Term, depth: nat)
    requires Walk(h, t, heads, tail) && t.Ptr? && t.addr in h && h[t.addr].Cons?
    requires tail != EmptyList && !(tail.Ptr? && tail.addr in h && h[tail.addr].Cons?)
    ensures Right(h, t, None, depth)
  {
    forall v | Denotes(h, t, v)
      ensures !CanRender(v, depth)
    {
      var xs, rest := WalkValues(h, t, heads, tail, v);
      assert !CanRenderList(rest, depth + 1);
      ChainCanRender(xs, rest, depth + 1);
    }
  }

  lemma HeadFails(h: Heap, t: Term, heads: seq<Term>, tail: Term, depth: nat)
    requires Walk(h, t, heads, tail) && t.Ptr? && t.addr in h && h[t.addr].Cons?
    requires |heads| > 0 && Right(h, heads[|heads| - 1], None, depth + 1)
    ensures Right(h, t, None, depth)
  {
    forall v | Denotes(h, t, v)
      ensures !CanRender(v, depth)
    {
      var xs, rest := WalkValues(h, t, heads, tail, v);
      assert Denotes(h, heads[|heads| - 1], xs[|heads| - 1]);
      assert !CanRender(xs[|heads| - 1], depth + 1);
      ChainCanRender(xs, rest, depth + 1);
    }
  }

  lemma ListSucceeds(h: Heap, t: Term, heads: seq<Term>, items: seq<JsOut>, depth: nat)
    requires Walk(h, t, heads, EmptyList) && t.Ptr? && t.addr in h && h[t.addr].Cons? && depth <= MAX_CONVERSION_DEPTH
    requires |items| == |heads| && forall i :: 0 <= i < |heads| ==> Right(h, heads[i], Some(items[i]), depth + 1)
    ensures Right(h, t, Some(OArray(items)), depth)
  {
    forall v | Denotes(h, t, v)
      ensures Answers(Some(OArray(items)), v, depth)
    {
      var xs, rest := WalkValues(h, t, heads, EmptyList, v);
      assert rest == VNil;
      forall i | 0 <= i < |xs|
        ensures Answers(Some(items[i]), xs[i], depth + 1)
      {
        assert Right(h, heads[i], Some(items[i]), depth + 1);
        assert Denotes(h, heads[i], xs[i]);
      }
      ChainCanRender(xs, VNil, depth + 1);
      if NoClash(v) { ChainRenders(xs, items); }
    }
  }

  // --- Tuples ---

  method TupleToJs(h: Heap, t: Term, elements: seq<Term>, depth: nat) returns (r: Option<JsOut>)
    requires Denotable(h, t) && At(h, t, Tuple(elements)) && depth <= MAX_CONVERSION_DEPTH
    ensures Right(h, t, r, depth)
    ensures r.Some? ==> r.value.OArray? && AllRight(h, elements, r.value.items, depth + 1)
    decreases MAX_CONVERSION_DEPTH + 1 - depth, 0
  {
    hide Denotes, CanRender, Renders, NoClash, Right;
    var items: seq<JsOut> := [];
    for index := 0 to |elements|
      invariant |items| == index
      invariant forall i :: 0 <= i < index ==> Right(h, elements[i], Some(items[i]), depth + 1)
    {
      ElementDenotes(h, t, elements, index);
      var item := TermToJs(h, elements[index], depth + 1);
      if item.None? {
        TupleFails(h, t, elements, index, depth);
        return None;
      }
      items := items + [item.value];
    }
    r := Some(OArray(items));
    TupleSucceeds(h, t, elements, items, depth);
  }

  lemma ElementDenotes(h: Heap, t: Term, elements: seq<Term>, index: nat)
    requires Denotable(h, t) && At(h, t, Tuple(elements)) && index < |elements|
    ensures Denotable(h, elements[index])
  {
    var whole :| Denotes(h, t, whole);
    assert Denotes(h, elements[index], whole.elements[index]);
  }

  lemma TupleFails(h: Heap, t: Term, elements: seq<Term>, index: nat, depth: nat)
    requires At(h, t, Tuple(elements)) && index < |elements| && Right(h, elements[index], None, depth + 1)
    ensures Right(h, t, None, depth)
  {
    hide Renders, NoClash;
    forall v | Denotes(h, t, v)
      ensures !CanRender(v, depth)
    {
      assert Denotes(h, elements[index], v.elements[index]);
    }
  }

  lemma TupleSucceeds(h: Heap, t: Term, elements: seq<Term>, items: seq<JsOut>, depth: nat)
    requires At(h, t, Tuple(elements)) && depth <= MAX_CONVERSION_DEPTH
    requires |items| == |elements|
    requires forall i :: 0 <= i < |elements| ==> Right(h, elements[i], Some(items[i]), depth + 1)
    ensures Right(h, t, Some(OArray(items)), depth)
  {
  }

  // --- Maps ---

  /** The key names this property: the name of an atom, or the text of a binary. */
  ghost predicate KeyNames(h: Heap, key: Term, name: string) {
    match key
    case AtomTerm(Named(n)) => name == n
    case AtomTerm(Nil) => name == "nil"
    case AtomTerm(True) => name == "true"
    case AtomTerm(False) => name == "false"
    case AtomTerm(Unresolved) => false
    case _ => At(h, key, Binary(Text(name)))
  }

  method MapKeyToString(h: Heap, key: Term) returns (name: Option<string>)
    requires Denotable(h, key)
    ensures forall k :: Denotes(h, key, k) ==> name == NameOf(k)
    // a name exactly for what names a property, and then that name
    ensures forall n :: name == Some(n) <==> KeyNames(h, key, n)
    ensures key.AtomTerm? && key.atom.Named? ==> name == Some(key.atom.name)
  {
    ghost var v :| Denotes(h, key, v);
    match key {
      case AtomTerm(a) => return AtomName(a);
      case Ptr(addr) =>
        match h[addr] {
          case Binary(Text(s)) => return Some(s);
          case _ => return None;
        }
      case _ => return None;
    }
  }

  /** The entry of each property is the last one of its name, in storage order, and
      `__proto__` is nobody's. */
  ghost predicate LastWins(h: Heap, values: seq<Term>, names: seq<string>, properties: map<string, JsOut>, depth: nat) {
    && |names| == |values|
    && (forall name :: name in properties <==> name in names && name != PROTO)
    && (forall name :: name in properties ==>
          exists j: nat :: IsLast(names, name, j) && Right(h, values[j], Some(properties[name]), depth))
  }

  ghost predicate IsLast(names: seq<string>, name: string, j: nat) {
    j < |names| && names[j] == name && forall m :: j < m < |names| ==> names[m] != name
  }

  ghost predicate NameAll(h: Heap, keys: seq<Term>, names: seq<string>) {
    |names| == |keys| && forall j :: 0 <= j < |keys| ==> KeyNames(h, keys[j], names[j])
  }

  lemma LastWinsNext(h: Heap, values: seq<Term>, names: seq<string>, properties: map<string, JsOut>, depth: nat,
                     value: Term, name: string, out: JsOut)
    requires LastWins(h, values, names, properties, depth) && Right(h, value, Some(out), depth)
    ensures LastWins(h, values + [value], names + [name], SetProperty(properties, name, out), depth)
  {
    hide Right;
    var n := |names|;
    var more := SetProperty(properties, name, out);
    forall other | other in more
      ensures exists j: nat ::
                IsLast(names + [name], other, j) && Right(h, (values + [value])[j], Some(more[other]), depth)
    {
      if other == name {
        assert IsLast(names + [name], name, n);
      } else {
        var j: nat :| IsLast(names, other, j) && Right(h, values[j], Some(properties[other]), depth);
        assert IsLast(names + [name], other, j);
      }
    }
  }

  method MapToJs(h: Heap, t: Term, keys: seq<Term>, values: seq<Term>, depth: nat) returns (r: Option<JsOut>)
    requires Denotable(h, t) && At(h, t, MapObject(keys, values)) && depth <= MAX_CONVERSION_DEPTH
    ensures Right(h, t, r, depth)
    // of several keys with one property name, the last in storage order is kept, and a key
    // named `__proto__` is lost
    ensures r.Some? ==>
              && r.value.OObject?
              && exists names :: NameAll(h, keys, names) && LastWins(h, values, names, r.value.properties, depth + 1)
    decreases MAX_CONVERSION_DEPTH + 1 - depth, 0
  {
    hide Denotes, LastWins, KeyNames;
    EntriesDenotable(h, t, keys, values);
    var built: map<string, JsOut> := map[];
    ghost var names: seq<string> := [];
    ghost var outs: seq<JsOut> := [];
    NothingWins(h, depth + 1);
    assert values[..0] == [];
    for index := 0 to |keys|
      invariant |names| == |outs| == index
      invariant forall j :: 0 <= j < index ==> EntryDone(h, keys[j], values[j], names[j], outs[j], depth + 1)
      invariant forall j :: 0 <= j < index ==> KeyNames(h, keys[j], names[j])
      invariant forall j :: 0 <= j < index ==> names[j] == PROTO || names[j] in built
      invariant forall name :: name in built ==>
                  name != PROTO && exists j :: 0 <= j < index && names[j] == name && built[name] == outs[j]
      invariant LastWins(h, values[..index], names, built, depth + 1)
    {
      var name := MapKeyToString(h, keys[index]);
      if name.None? {
        EntryFails(h, t, keys, values, index, depth);
        return None;
      }
      var value := TermToJs(h, values[index], depth + 1);
      if value.None? {
        EntryFails(h, t, keys, values, index, depth);
        return None;
      }
      LastWinsNext(h, values[..index], names, built, depth + 1, values[index], name.value, value.value);
      assert values[..index + 1] == values[..index] + [values[index]];
      built := SetProperty(built, name.value, value.value);
      names, outs := names + [name.value], outs + [value.value];
    }
    r := Some(OObject(built));
    assert values[..|keys|] == values;
    assert NameAll(h, keys, names);
    MapSucceeds(h, t, keys, values, names, outs, built, depth);
  }

  lemma NothingWins(h: Heap, depth: nat)
    ensures LastWins(h, [], [], map[], depth)
  {
  }

  ghost predicate EntryDone(h: Heap, key: Term, value: Term, name: string, out: JsOut, depth: nat) {
    && (forall k :: Denotes(h, key, k) ==> NameOf(k) == Some(name))
    && Right(h, value, Some(out), depth)
  }

  lemma EntriesDenotable(h: Heap, t: Term, keys: seq<Term>, values: seq<Term>)
    requires Denotable(h, t) && At(h, t, MapObject(keys, values))
    ensures |keys| == |values|
    ensures forall j :: 0 <= j < |keys| ==> Denotable(h, keys[j]) && Denotable(h, values[j])
  {
    var v :| Denotes(h, t, v);
    assert v.VMap?;
    forall j | 0 <= j < |keys|
      ensures Denotable(h, keys[j]) && Denotable(h, values[j])
    {
      assert IsListed(h, keys[j], values[j], v.entries);
      var i :| 0 <= i < |v.entries| && DenotesEntry(h, keys[j], values[j], v.entries[i]);
      assert Denotes(h, keys[j], v.entries[i].0) && Denotes(h, values[j], v.entries[i].1);
    }
  }

  lemma EntryFails(h: Heap, t: Term, keys: seq<Term>, values: seq<Term>, j: nat, depth: nat)
    requires At(h, t, MapObject(keys, values)) && |keys| == |values| && j < |keys|
    requires (forall k :: Denotes(h, keys[j], k) ==> NameOf(k) == None) || Right(h, values[j], None, depth + 1)
    ensures Right(h, t, None, depth)
  {
    forall v | Denotes(h, t, v)
      ensures !CanRender(v, depth)
    {
      assert IsListed(h, keys[j], values[j], v.entries);
      var i :| 0 <= i < |v.entries| && DenotesEntry(h, keys[j], values[j], v.entries[i]);
      assert Denotes(h, keys[j], v.entries[i].0) && Denotes(h, values[j], v.entries[i].1);
      assert !CanRenderEntry(v.entries[i], depth + 1);
    }
  }

  lemma MapSucceeds(h: Heap, t: Term, keys: seq<Term>, values: seq<Term>, names: seq<string>, outs: seq<JsOut>,
                    built: map<string, JsOut>, depth: nat)
    requires At(h, t, MapObject(keys, values)) && |keys| == |values| == |names| == |outs|
             && depth <= MAX_CONVERSION_DEPTH
    requires forall j :: 0 <= j < |keys| ==> EntryDone(h, keys[j], values[j], names[j], outs[j], depth + 1)
    requires forall j :: 0 <= j < |keys| ==> names[j] == PROTO || names[j] in built
    requires forall name :: name in built ==>
               name != PROTO && exists j :: 0 <= j < |keys| && names[j] == name && built[name] == outs[j]
    ensures Right(h, t, Some(OObject(built)), depth)
  {
    hide EntryDone;
    forall v | Denotes(h, t, v)
      ensures Answers(Some(OObject(built)), v, depth)
    {
      var es := v.entries;
      forall i | 0 <= i < |es|
        ensures CanRenderEntry(es[i], depth + 1)
        ensures NameOf(es[i].0).value == PROTO || NameOf(es[i].0).value in built
      {
        assert IsStored(h, keys, values, es[i]);
        var j :| 0 <= j < |keys| && DenotesEntry(h, keys[j], values[j], es[i]);
        EntryAnswers(h, keys[j], values[j], names[j], outs[j], es[i], depth + 1);
      }
      if NoClash(v) {
        forall i | 0 <= i < |es|
          ensures RendersEntry(es[i], built)
        {
          var name := NameOf(es[i].0).value;
          if name != PROTO {
            var j :| 0 <= j < |keys| && names[j] == name && built[name] == outs[j];
            assert IsListed(h, keys[j], values[j], es);
            var m :| 0 <= m < |es| && DenotesEntry(h, keys[j], values[j], es[m]);
            EntryAnswers(h, keys[j], values[j], names[j], outs[j], es[m], depth + 1);
            assert m == i;
            assert NoClashEntry(es[i]);
          }
        }
        forall name | name in built
          ensures name != PROTO && exists i :: 0 <= i < |es| && NameOf(es[i].0) == Some(name)
        {
          var j :| 0 <= j < |keys| && names[j] == name && built[name] == outs[j];
          assert IsListed(h, keys[j], values[j], es);
          var m :| 0 <= m < |es| && DenotesEntry(h, keys[j], values[j], es[m]);
          EntryAnswers(h, keys[j], values[j], names[j], outs[j], es[m], depth + 1);
        }
      }
    }
  }

  lemma EntryAnswers(h: Heap, key: Term, value: Term, name: string, out: JsOut, e: (Value, Value), depth: nat)
    requires EntryDone(h, key, value, name, out, depth) && DenotesEntry(h, key, value, e)
    ensures NameOf(e.0) == Some(name) && Answers(Some(out), e.1, depth) && CanRenderEntry(e, depth)
  {
  }

  // --- The round trip ---

  /** Object keys are unique, as parsing guarantees. */
  ghost predicate UniqueKeys(j: Json)
    decreases j
  {
    match j
    case JArray(es) => forall i :: 0 <= i < |es| ==> UniqueKeys(es[i])
    case JObject(ms) =>
      && (forall i, k :: 0 <= i < k < |ms| ==> ms[i].key != ms[k].key)
      && (forall i :: 0 <= i < |ms| ==> UniqueKeys(ms[i].value))
    case _ => true
  }

  /** What a faithful round trip gives back: null and booleans as the names of their
      atoms, -0 as 0, everything else as it went in. */
  ghost predicate ComesBackAs(j: Json, out: JsOut)
    decreases j
  {
    match j
    case JNull => out == OString("nil")
    case JBool(b) => out == OString(if b then "true" else "false")
    case JNumber(n) => out == ONumber(if n == NegativeZero then Finite(0.0) else n)
    case JString(s) => out == OString(s)
    case JArray(es) =>
      out.OArray? && |out.items| == |es| && forall i :: 0 <= i < |es| ==> ComesBackAs(es[i], out.items[i])
    case JObject(ms) =>
      && out.OObject?
      && (forall name :: name in out.properties <==> exists i :: 0 <= i < |ms| && ms[i].key == name)
      && (forall i :: 0 <= i < |ms| && ms[i].key in out.properties ==>
            ComesBackAs(ms[i].value, out.properties[ms[i].key]))
  }

  /** What does come back: the same, without the members named `__proto__`. */
  ghost predicate ComesBackWithoutProto(j: Json, out: JsOut)
    decreases j
  {
    match j
    case JArray(es) =>
      out.OArray? && |out.items| == |es| && forall i :: 0 <= i < |es| ==> ComesBackWithoutProto(es[i], out.items[i])
    case JObject(ms) =>
      && out.OObject?
      && (forall name :: name in out.properties <==> name != PROTO && exists i :: 0 <= i < |ms| && ms[i].key == name)
      && (forall i :: 0 <= i < |ms| && ms[i].key in out.properties ==>
            ComesBackWithoutProto(ms[i].value, out.properties[ms[i].key]))
    case _ => ComesBackAs(j, out)
  }

  /** No member, at any level, is named `__proto__`. */
  predicate NoProto(j: Json)
    decreases j
  {
    match j
    case JArray(es) => forall i :: 0 <= i < |es| ==> NoProto(es[i])
    case JObject(ms) => forall i :: 0 <= i < |ms| ==> ms[i].key != PROTO && NoProto(ms[i].value)
    case _ => true
  }

  /** A value comes back whole exactly if no member is named `__proto__`. */
  lemma {:induction false} WholeIffNoProto(j: Json, out: JsOut)
    requires ComesBackWithoutProto(j, out)
    ensures ComesBackAs(j, out) <==> NoProto(j)
    decreases j
  {
    match j
    case JArray(es) =>
      forall i | 0 <= i < |es|
        ensures ComesBackAs(es[i], out.items[i]) <==> NoProto(es[i])
      {
        WholeIffNoProto(es[i], out.items[i]);
      }
    case JObject(ms) =>
      forall i | 0 <= i < |ms| && ms[i].key in out.properties
        ensures ComesBackAs(ms[i].value, out.properties[ms[i].key]) <==> NoProto(ms[i].value)
      {
        WholeIffNoProto(ms[i].value, out.properties[ms[i].key]);
      }
      forall i | 0 <= i < |ms|
        ensures ms[i].key == PROTO || ms[i].key in out.properties
        ensures ComesBackAs(j, out) ==> ms[i].key in out.properties && ms[i].key != PROTO
      {
      }
    case _ =>
  }

  /** An object whose one member is named `__proto__` comes back empty. */
  lemma ProtoMemberIsLost(value: Json, h: Heap, t: Term, r: Option<JsOut>)
    requires var j := JObject([Member("__proto__", value)]);
             UniqueKeys(j) && JsonOutcome(j, 0).Ok? && Denotes(h, t, JsonOutcome(j, 0).value) && Right(h, t, r, 0)
    ensures r == Some(OObject(map[]))
  {
    var j := JObject([Member(PROTO, value)]);
    ConversionRoundTrips(j, h, t, r);
    assert r.value.properties.Keys == {};
  }

  lemma {:induction false} RoundTrip(j: Json, depth: nat, v: Value, out: JsOut)
    requires JsonOutcome(j, depth) == Ok(v) && Renders(v, out)
    ensures ComesBackWithoutProto(j, out)
    decreases j
  {
    match j
    case JArray(es) =>
      ListRendersItems(ElementOutcomes(es, depth + 1).value, out);
      ItemsRoundTrip(es, depth + 1, out.items);
    case JObject(ms) =>
      MembersRoundTrip(ms, depth + 1, out.properties);
    case _ =>
  }

  lemma {:induction false} ItemsRoundTrip(es: seq<Json>, depth: nat, items: seq<JsOut>)
    requires ElementOutcomes(es, depth).Ok? && |items| == |es|
    requires forall i :: 0 <= i < |es| ==> Renders(ElementOutcomes(es, depth).value[i], items[i])
    ensures forall i :: 0 <= i < |es| ==> ComesBackWithoutProto(es[i], items[i])
    decreases es
  {
    forall i | 0 <= i < |es|
      ensures ComesBackWithoutProto(es[i], items[i])
    {
      ElementAt(es, depth, i);
      RoundTrip(es[i], depth, ElementOutcomes(es, depth).value[i], items[i]);
    }
  }

  lemma {:induction false} MembersRoundTrip(ms: seq<Member>, depth: nat, properties: map<string, JsOut>)
    requires MemberOutcomes(ms, depth).Ok?
    requires forall i :: 0 <= i < |ms| ==> RendersEntry(MemberOutcomes(ms, depth).value[i], properties)
    ensures forall i :: 0 <= i < |ms| && ms[i].key != PROTO ==>
              ms[i].key in properties && ComesBackWithoutProto(ms[i].value, properties[ms[i].key])
    ensures forall i :: 0 <= i < |ms| ==> NameOf(MemberOutcomes(ms, depth).value[i].0) == Some(ms[i].key)
    decreases ms
  {
    forall i | 0 <= i < |ms|
      ensures NameOf(MemberOutcomes(ms, depth).value[i].0) == Some(ms[i].key)
      ensures ms[i].key != PROTO ==>
                ms[i].key in properties && ComesBackWithoutProto(ms[i].value, properties[ms[i].key])
    {
      MemberAt(ms, depth, i);
      assert RendersEntry(MemberOutcomes(ms, depth).value[i], properties);
      if ms[i].key != PROTO {
        RoundTrip(ms[i].value, depth, MemberOutcomes(ms, depth).value[i].1, properties[ms[i].key]);
      }
    }
  }

  lemma {:induction false} ListRendersItems(vs: seq<Value>, out: JsOut)
    requires Renders(ListOf(vs), out)
    ensures out.OArray? && |out.items| == |vs| && forall i :: 0 <= i < |vs| ==> Renders(vs[i], out.items[i])
  {
    if vs != [] { ItemsRender(vs, out.items); }
  }

  lemma {:induction false} ItemsRender(vs: seq<Value>, items: seq<JsOut>)
    requires RendersList(ListOf(vs), items)
    ensures |items| == |vs| && forall i :: 0 <= i < |vs| ==> Renders(vs[i], items[i])
  {
    if vs != [] {
      ItemsRender(vs[1..], items[1..]);
      assert forall i :: 0 < i < |vs| ==> vs[i] == vs[1..][i - 1];
    }
  }

  /** What conversion built can be handed back at the same depth. */
  lemma {:induction false} ConvertedRenders(j: Json, depth: nat, v: Value)
    requires JsonOutcome(j, depth) == Ok(v)
    ensures CanRender(v, depth) && (UniqueKeys(j) ==> NoClash(v))
    decreases j
  {
    match j
    case JArray(es) =>
      var vs := ElementOutcomes(es, depth + 1).value;
      forall i | 0 <= i < |es|
        ensures CanRender(vs[i], depth + 1) && (UniqueKeys(j) ==> NoClash(vs[i]))
      {
        ElementAt(es, depth + 1, i);
        ConvertedRenders(es[i], depth + 1, vs[i]);
      }
      ListCanRender(vs, depth + 1);
      if UniqueKeys(j) { ListNoClash(vs); }
    case JObject(ms) =>
      var entries := MemberOutcomes(ms, depth + 1).value;
      forall i | 0 <= i < |ms|
        ensures CanRenderEntry(entries[i], depth + 1) && NameOf(entries[i].0) == Some(ms[i].key)
        ensures UniqueKeys(j) ==> NoClashEntry(entries[i])
      {
        MemberAt(ms, depth + 1, i);
        ConvertedRenders(ms[i].value, depth + 1, entries[i].1);
      }
    case _ =>
  }

  lemma {:induction false} ListCanRender(vs: seq<Value>, depth: nat)
    requires forall i :: 0 <= i < |vs| ==> CanRender(vs[i], depth)
    ensures CanRenderList(ListOf(vs), depth)
  {
    if vs != [] { ListCanRender(vs[1..], depth); }
  }

  lemma {:induction false} ListNoClash(vs: seq<Value>)
    requires forall i :: 0 <= i < |vs| ==> NoClash(vs[i])
    ensures NoClash(ListOf(vs))
  {
    if vs != [] { ListNoClash(vs[1..]); }
  }

  /** Handing back whatever a conversion left in the heap always succeeds, and gives the
      JSON value without its members named `__proto__`: the whole value exactly if there
      are none. */
  lemma ConversionRoundTrips(j: Json, h: Heap, t: Term, r: Option<JsOut>)
    requires UniqueKeys(j) && JsonOutcome(j, 0).Ok? && Denotes(h, t, JsonOutcome(j, 0).value)
    requires Right(h, t, r, 0)
    ensures r.Some? && ComesBackWithoutProto(j, r.value)
    ensures ComesBackAs(j, r.value) <==> NoProto(j)
  {
    var v := JsonOutcome(j, 0).value;
    ConvertedRenders(j, 0, v);
    assert Answers(r, v, 0);
    RoundTrip(j, 0, v, r.value);
    WholeIffNoProto(j, r.value);
  }
}
