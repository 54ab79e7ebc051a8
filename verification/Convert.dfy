/** JSON and JavaScript values to terms, on a heap that any allocation may move. */
module Convert {
  import opened Wrappers
  import opened Terms
  import opened Context

  const MAX_CONVERSION_DEPTH: nat := 256
  const SMALL_INT_MIN := -0x1000_0000_0000_0000
  const SMALL_INT_MAX := 0xfff_ffff_ffff_ffff
  const I64_MAX := 0x7fff_ffff_ffff_ffff

  /** A double: its real value, with negative zero and the non-finite ones apart. */
  datatype Double = NonFinite | NegativeZero | Finite(value: real)

  datatype Json =
    | JNull
    | JBool(flag: bool)
    | JNumber(number: Double)
    | JString(text: string)
    | JArray(elements: seq<Json>)
    | JObject(members: seq<Member>)
  datatype Member = Member(key: string, value: Json)

  datatype ConvertError =
    | TooDeep | NotFinite | UndefinedValue | Unsupported | KeyNotString | ReadThrew
    | Refused

  type Outcome = Result<Value, ConvertError>

  // --- What a value converts to when every allocation succeeds ---

  function NumberOutcome(number: Double): Outcome {
    match number
    case NonFinite => Err(NotFinite)
    case NegativeZero => Ok(VInt(0))
    case Finite(r) => if IsSmallInteger(r) then Ok(VInt(r.Floor)) else Ok(VFloat(r))
  }

  predicate IsSmallInteger(r: real) {
    r == r.Floor as real && SMALL_INT_MIN <= r.Floor <= SMALL_INT_MAX
  }

  function AtomOf(flag: bool): Value {
    VAtom(if flag then Atom.True else Atom.False)
  }

  function JsonOutcome(j: Json, depth: nat): Outcome
    decreases j
  {
    if depth > MAX_CONVERSION_DEPTH then Err(TooDeep)
    else
      match j
      case JNull => Ok(VAtom(Atom.Nil))
      case JBool(b) => Ok(AtomOf(b))
      case JNumber(n) => NumberOutcome(n)
      case JString(s) => Ok(VBinary(Text(s)))
      case JArray(es) =>
        (match ElementOutcomes(es, depth + 1)
         case Ok(vs) => Ok(ListOf(vs))
         case Err(e) => Err(e))
      case JObject(ms) =>
        (match MemberOutcomes(ms, depth + 1)
         case Ok(entries) => Ok(VMap(entries))
         case Err(e) => Err(e))
  }

  function ElementOutcomes(es: seq<Json>, depth: nat): (r: Result<seq<Value>, ConvertError>)
    ensures r.Ok? ==> |r.value| == |es|
    decreases es
  {
    if es == [] then Ok([])
    else
      match ElementOutcomes(es[..|es| - 1], depth)
      case Err(e) => Err(e)
      case Ok(vs) =>
        match JsonOutcome(es[|es| - 1], depth)
        case Err(e) => Err(e)
        case Ok(v) => Ok(vs + [v])
  }

  function MemberOutcomes(ms: seq<Member>, depth: nat): (r: Result<seq<(Value, Value)>, ConvertError>)
    ensures r.Ok? ==> |r.value| == |ms|
    decreases ms
  {
    if ms == [] then Ok([])
    else
      match MemberOutcomes(ms[..|ms| - 1], depth)
      case Err(e) => Err(e)
      case Ok(entries) =>
        var m := ms[|ms| - 1];
        match JsonOutcome(m.value, depth)
        case Err(e) => Err(e)
        case Ok(v) => Ok(entries + [(VBinary(Text(m.key)), v)])
  }

  lemma {:induction false} ElementErrorStays(es: seq<Json>, depth: nat, k: nat)
    requires k <= |es| && ElementOutcomes(es[..k], depth).Err?
    ensures ElementOutcomes(es, depth) == ElementOutcomes(es[..k], depth)
  {
    if k == |es| {
      assert es[..k] == es;
    } else {
      assert es[..|es| - 1][..k] == es[..k];
      ElementErrorStays(es[..|es| - 1], depth, k);
    }
  }

  lemma {:induction false} MemberErrorStays(ms: seq<Member>, depth: nat, k: nat)
    requires k <= |ms| && MemberOutcomes(ms[..k], depth).Err?
    ensures MemberOutcomes(ms, depth) == MemberOutcomes(ms[..k], depth)
  {
    if k == |ms| {
      assert ms[..k] == ms;
    } else {
      assert ms[..|ms| - 1][..k] == ms[..k];
      MemberErrorStays(ms[..|ms| - 1], depth, k);
    }
  }

  // --- When a JSON value converts ---

  function Max(a: nat, b: nat): nat {
    if a > b then a else b
  }

  /** Nesting height: how many arrays and objects enclose the deepest value inside. */
  function Height(j: Json): nat
    decreases j
  {
    match j
    case JArray(es) => if es == [] then 0 else 1 + TallestElement(es)
    case JObject(ms) => if ms == [] then 0 else 1 + TallestMember(ms)
    case _ => 0
  }

  function TallestElement(es: seq<Json>): nat
    decreases es
  {
    if es == [] then 0 else Max(TallestElement(es[..|es| - 1]), Height(es[|es| - 1]))
  }

  function TallestMember(ms: seq<Member>): nat
    decreases ms
  {
    if ms == [] then 0 else Max(TallestMember(ms[..|ms| - 1]), Height(ms[|ms| - 1].value))
  }

  /** Every number inside is finite, as every number of a JSON text is. */
  predicate AllFinite(j: Json)
    decreases j
  {
    match j
    case JNumber(n) => n != NonFinite
    case JArray(es) => forall i :: 0 <= i < |es| ==> AllFinite(es[i])
    case JObject(ms) => forall i :: 0 <= i < |ms| ==> AllFinite(ms[i].value)
    case _ => true
  }

  /** Conversion succeeds exactly when the value is nested no deeper than the limit
      and its numbers are finite. */
  lemma {:induction false} ConvertsIff(j: Json, depth: nat)
    ensures JsonOutcome(j, depth).Ok? <==> depth + Height(j) <= 256 && AllFinite(j)
    decreases j
  {
    match j
    case JArray(es) => ElementsConvertIff(es, depth + 1);
    case JObject(ms) => MembersConvertIff(ms, depth + 1);
    case _ =>
  }

  lemma {:induction false} ElementsConvertIff(es: seq<Json>, depth: nat)
    ensures ElementOutcomes(es, depth).Ok?
            <==> es == [] || (depth + TallestElement(es) <= 256
                              && forall i :: 0 <= i < |es| ==> AllFinite(es[i]))
    decreases es
  {
    if es != [] {
      var n := |es| - 1;
      ElementsConvertIff(es[..n], depth);
      ConvertsIff(es[n], depth);
      assert forall i :: 0 <= i < n ==> es[..n][i] == es[i];
    }
  }

  lemma {:induction false} MembersConvertIff(ms: seq<Member>, depth: nat)
    ensures MemberOutcomes(ms, depth).Ok?
            <==> ms == [] || (depth + TallestMember(ms) <= 256
                              && forall i :: 0 <= i < |ms| ==> AllFinite(ms[i].value))
    decreases ms
  {
    if ms != [] {
      var n := |ms| - 1;
      MembersConvertIff(ms[..n], depth);
      ConvertsIff(ms[n].value, depth);
      assert forall i :: 0 <= i < n ==> ms[..n][i] == ms[i];
    }
  }

  lemma {:induction false} ElementAt(es: seq<Json>, depth: nat, i: nat)
    requires ElementOutcomes(es, depth).Ok? && i < |es|
    ensures JsonOutcome(es[i], depth) == Ok(ElementOutcomes(es, depth).value[i])
  {
    if i < |es| - 1 { ElementAt(es[..|es| - 1], depth, i); }
  }

  lemma {:induction false} MemberAt(ms: seq<Member>, depth: nat, i: nat)
    requires MemberOutcomes(ms, depth).Ok? && i < |ms|
    ensures MemberOutcomes(ms, depth).value[i].0 == VBinary(Text(ms[i].key))
    ensures JsonOutcome(ms[i].value, depth) == Ok(MemberOutcomes(ms, depth).value[i].1)
  {
    if i < |ms| - 1 { MemberAt(ms[..|ms| - 1], depth, i); }
  }

  // --- What a term stands for ---

  /** The term of a JSON value, spelled out: null and booleans are atoms, a number is a
      small integer if it is one and a float otherwise, a string is a binary, an array a
      proper list and an object a map with one binary key for each member. */
  ghost predicate Stands(h: Heap, t: Term, j: Json)
    decreases j, 1
  {
    match j
    case JNull => t == AtomTerm(Atom.Nil)
    case JBool(b) => t == AtomTerm(if b then Atom.True else Atom.False)
    case JNumber(n) => NumberStands(h, t, n)
    case JString(s) => At(h, t, Binary(Text(s)))
    case JArray(es) =>
      exists heads :: Walk(h, t, heads, EmptyList) && ElementsStand(h, heads, es)
    case JObject(ms) =>
      && t.Ptr? && t.addr in h && h[t.addr].MapObject? && |h[t.addr].keys| == |h[t.addr].values| == |ms|
      && (forall i :: 0 <= i < |ms| ==> MemberIsStored(h, h[t.addr].keys, h[t.addr].values, ms[i]))
      && (forall k :: 0 <= k < |ms| ==> IsMember(h, h[t.addr].keys[k], h[t.addr].values[k], ms))
  }

  ghost predicate ElementsStand(h: Heap, heads: seq<Term>, es: seq<Json>)
    decreases es, 0
  {
    |heads| == |es| && forall i :: 0 <= i < |es| ==> Stands(h, heads[i], es[i])
  }

  ghost predicate MemberStands(h: Heap, key: Term, value: Term, m: Member)
    decreases m, 0
  {
    At(h, key, Binary(Text(m.key))) && Stands(h, value, m.value)
  }

  ghost predicate MemberIsStored(h: Heap, keys: seq<Term>, values: seq<Term>, m: Member)
    requires |keys| == |values|
    decreases m, 1
  {
    exists k :: 0 <= k < |keys| && MemberStands(h, keys[k], values[k], m)
  }

  ghost predicate IsMember(h: Heap, key: Term, value: Term, ms: seq<Member>)
    decreases ms, 0
  {
    exists i :: 0 <= i < |ms| && MemberStands(h, key, value, ms[i])
  }

  /** Small integers are those of 61 bits, and -0 is 0. */
  ghost predicate NumberStands(h: Heap, t: Term, n: Double) {
    match n
    case NonFinite => false
    case NegativeZero => t == Int(0)
    case Finite(r) =>
      if r == r.Floor as real && -1152921504606846976 <= r.Floor < 1152921504606846976 then t == Int(r.Floor)
      else At(h, t, Float(r))
  }

  /** The term that a value converts to stands for it. */
  lemma {:induction false} OutcomeStands(h: Heap, t: Term, j: Json, depth: nat)
    requires JsonOutcome(j, depth).Ok? && Denotes(h, t, JsonOutcome(j, depth).value)
    ensures Stands(h, t, j)
    decreases j, 2
  {
    match j
    case JArray(es) =>
      var vs := ElementOutcomes(es, depth + 1).value;
      var heads := ListCells(h, t, vs);
      forall i | 0 <= i < |es|
        ensures Stands(h, heads[i], es[i])
      {
        ElementAt(es, depth + 1, i);
        OutcomeStands(h, heads[i], es[i], depth + 1);
      }
      assert ElementsStand(h, heads, es);
    case JObject(ms) =>
      MembersStand(h, h[t.addr].keys, h[t.addr].values, ms, depth + 1);
    case _ =>
  }

  lemma {:induction false} EntryStands(h: Heap, key: Term, value: Term, m: Member, v: Value, depth: nat)
    requires JsonOutcome(m.value, depth) == Ok(v) && DenotesEntry(h, key, value, (VBinary(Text(m.key)), v))
    ensures MemberStands(h, key, value, m)
    decreases m, 0
  {
    hide Stands;
    OutcomeStands(h, value, m.value, depth);
  }

  lemma {:induction false} MembersStand(h: Heap, keys: seq<Term>, values: seq<Term>, ms: seq<Member>, depth: nat)
    requires MemberOutcomes(ms, depth).Ok? && |keys| == |values| == |ms|
    requires forall i :: 0 <= i < |ms| ==> IsStored(h, keys, values, MemberOutcomes(ms, depth).value[i])
    requires forall k :: 0 <= k < |ms| ==> IsListed(h, keys[k], values[k], MemberOutcomes(ms, depth).value)
    ensures forall i :: 0 <= i < |ms| ==> MemberIsStored(h, keys, values, ms[i])
    ensures forall k :: 0 <= k < |ms| ==> IsMember(h, keys[k], values[k], ms)
    decreases ms, 1
  {
    hide Stands, MemberStands, DenotesEntry, MemberOutcomes;
    var entries := MemberOutcomes(ms, depth).value;
    forall i, k | 0 <= i < |ms| && 0 <= k < |keys| && DenotesEntry(h, keys[k], values[k], entries[i])
      ensures MemberStands(h, keys[k], values[k], ms[i])
    {
      MemberAt(ms, depth, i);
      EntryStands(h, keys[k], values[k], ms[i], entries[i].1, depth);
    }
    forall i | 0 <= i < |ms|
      ensures MemberIsStored(h, keys, values, ms[i])
    {
      assert IsStored(h, keys, values, entries[i]);
    }
    forall k | 0 <= k < |ms|
      ensures IsMember(h, keys[k], values[k], ms)
    {
      assert IsListed(h, keys[k], values[k], entries);
    }
  }

  /** A finished conversion agrees with the outcome it should have, except that a
      refused reservation may cut it short. */
  ghost predicate Delivers(h: Heap, r: Result<Term, ConvertError>, spec: Outcome, before: nat, after: nat) {
    match r
    case Ok(t) => spec.Ok? && Denotes(h, t, spec.value) && after == before
    case Err(Refused) => after > before
    case Err(e) => spec == Err(e) && after == before
  }

  // --- serde JSON values ---

  method NumberToTerm(number: Double, context: ProcessContext) returns (r: Result<Term, ConvertError>)
    requires context.Valid()
    modifies context
    ensures context.Valid()
            && Keeps(context.attached, old(context.heap), old(context.roots), context.heap, context.roots)
    ensures Delivers(context.heap, r, NumberOutcome(number), old(context.refusals), context.refusals)
    // a small integer is immediate and needs no reservation, any other number is a float
    ensures number == NegativeZero ==> r == Ok(Int(0)) && context.refusals == old(context.refusals)
    ensures (number.Finite? && number.value == number.value.Floor as real
             && -1152921504606846976 <= number.value.Floor < 1152921504606846976) ==>
              r == Ok(Int(number.value.Floor)) && context.refusals == old(context.refusals)
    ensures r.Ok? ==> NumberStands(context.heap, r.value, number)
    ensures r.Err? ==> r.error == if number == NonFinite then NotFinite else Refused
  {
    hide SameMeaning;
    KeepsGrow(context.attached, context.heap, context.heap, context.roots);
    var value: real;
    match number {
      case NonFinite => return Err(NotFinite);
      case NegativeZero => value := 0.0;
      case Finite(v) => value := v;
    }
    if value == value.Floor as real && -9223372036854775808.0 <= value <= 9223372036854775808.0 {
      var integer := if value.Floor > I64_MAX then I64_MAX else value.Floor;
      if SMALL_INT_MIN <= integer <= SMALL_INT_MAX {
        return Ok(Int(integer));
      }
    }
    var boxed := context.AllocFloat(value);
    r := if boxed.Ok? then Ok(boxed.value) else Err(Refused);
  }

  method BinaryToTerm(text: string, context: ProcessContext) returns (r: Result<Term, ConvertError>)
    requires context.Valid()
    modifies context
    ensures context.Valid()
            && Keeps(context.attached, old(context.heap), old(context.roots), context.heap, context.roots)
    ensures Delivers(context.heap, r, Ok(VBinary(Text(text))), old(context.refusals), context.refusals)
  {
    var boxed := context.AllocBinary(Text(text));
    r := if boxed.Ok? then Ok(boxed.value) else Err(Refused);
  }

  method JsonValueToTerm(value: Json, context: ProcessContext, depth: nat) returns (r: Result<Term, ConvertError>)
    requires context.Valid()
    modifies context
    ensures context.Valid()
            && Keeps(context.attached, old(context.heap), old(context.roots), context.heap, context.roots)
    ensures Delivers(context.heap, r, JsonOutcome(value, depth), old(context.refusals), context.refusals)
    // what the term is, and when there is one, without reference to the conversion
    ensures r.Ok? ==> Stands(context.heap, r.value, value) && depth + Height(value) <= 256 && AllFinite(value)
    ensures r.Err? && r.error != Refused ==> !(depth + Height(value) <= 256 && AllFinite(value))
    decreases value, 1
  {
    hide SameMeaning, Stands, Height, AllFinite;
    ConvertsIff(value, depth);
    KeepsGrow(context.attached, context.heap, context.heap, context.roots);
    if depth > MAX_CONVERSION_DEPTH {
      return Err(TooDeep);
    }
    match value {
      case JNull => r := Ok(AtomTerm(Atom.Nil));
      case JBool(flag) => r := Ok(AtomTerm(if flag then Atom.True else Atom.False));
      case JNumber(number) => r := NumberToTerm(number, context);
      case JString(text) => r := BinaryToTerm(text, context);
      case JArray(elements) => r := JsonArrayToTerm(value, elements, context, depth);
      case JObject(members) => r := JsonObjectToTerm(value, members, context, depth);
    }
    if r.Ok? {
      OutcomeStands(context.heap, r.value, value, depth);
    }
  }

  /** The state of an open accumulator scope: the entry roots keep their meaning
      below it, and what it holds denotes `vs`. */
  ghost predicate InScope(attached: bool, heap: Heap, roots: seq<Term>, acc: Accumulator, h: Heap, entry: seq<Term>,
                          vs: seq<Value>)
  {
    && Fits(attached, roots, acc)
    && |entry| <= |roots|
    && Keeps(attached, h, entry, heap, roots[..|entry|])
    && (if attached then acc.Rooted? && acc.base == |entry| && acc.base + acc.len == |roots|
        else |entry| == |roots|)
    && AllDenote(heap, Held(roots, acc), vs)
  }

  /** Allocation inside an open scope keeps it, wherever the terms have moved. */
  lemma ScopeKept(attached: bool, heap: Heap, roots: seq<Term>, newHeap: Heap, newRoots: seq<Term>,
                  acc: Accumulator, h: Heap, entry: seq<Term>, vs: seq<Value>)
    requires InScope(attached, heap, roots, acc, h, entry, vs)
    requires Keeps(attached, heap, roots, newHeap, newRoots)
    ensures InScope(attached, newHeap, newRoots, acc, h, entry, vs)
  {
    hide Denotes, SameMeaning;
    var n := |entry|;
    HeldKept(attached, heap, roots, newHeap, newRoots, acc, vs);
    KeepsPrefix(attached, heap, roots, newHeap, newRoots, n);
    KeepsTrans(attached, h, entry, heap, roots[..n], newHeap, newRoots[..n]);
  }

  method OpenScope(context: ProcessContext) returns (acc: Accumulator)
    requires context.Valid()
    ensures InScope(context.attached, context.heap, context.roots, acc, context.heap, context.roots, [])
  {
    hide Denotes, SameMeaning;
    acc := context.Open();
    KeepsGrow(context.attached, context.heap, context.heap, context.roots);
    assert context.roots[..|context.roots|] == context.roots;
  }

  /** The push that ends an allocation step. It is always admitted. */
  method PushInScope(context: ProcessContext, acc: Accumulator, term: Term, ghost h: Heap, ghost entry: seq<Term>,
                     ghost vs: seq<Value>, ghost v: Value)
    returns (next: Accumulator, ok: bool)
    requires context.Valid() && InScope(context.attached, context.heap, context.roots, acc, h, entry, vs)
             && Denotes(context.heap, term, v)
    modifies context`roots
    ensures ok && context.Valid() && InScope(context.attached, context.heap, context.roots, next, h, entry, vs + [v])
  {
    hide Denotes, SameMeaning;
    DenotesInHeap(context.heap, term, v);
    next, ok := context.Push(acc, term);
    assert context.roots[..|entry|] == old(context.roots)[..|entry|];
  }

  /** A scope that can be released: below it the entry roots keep their meaning. */
  ghost predicate Closable(attached: bool, heap: Heap, roots: seq<Term>, h: Heap, entry: seq<Term>) {
    && |entry| <= |roots| && (!attached ==> |entry| == |roots|)
    && Keeps(attached, h, entry, heap, roots[..|entry|])
  }

  method CloseScope(context: ProcessContext, acc: Accumulator, ghost h: Heap, ghost entry: seq<Term>, depth: nat)
    requires context.Valid() && depth == |entry| && Closable(context.attached, context.heap, context.roots, h, entry)
    modifies context`roots
    ensures context.Valid() && Keeps(context.attached, h, entry, context.heap, context.roots)
  {
    hide Denotes, SameMeaning;
    context.Close(depth);
    assert context.roots[..|entry|] == context.roots;
  }

  lemma ScopeClosable(attached: bool, heap: Heap, roots: seq<Term>, acc: Accumulator, h: Heap, entry: seq<Term>,
                      vs: seq<Value>)
    requires InScope(attached, heap, roots, acc, h, entry, vs)
    ensures Closable(attached, heap, roots, h, entry)
  {
  }

  lemma ScopeRun(attached: bool, heap: Heap, roots: seq<Term>, acc: Accumulator, h: Heap, entry: seq<Term>,
                 vs: seq<Value>)
    requires InScope(attached, heap, roots, acc, h, entry, vs)
    ensures Fits(attached, roots, acc) && AllDenote(heap, Held(roots, acc), vs)
  {
  }

  method JsonArrayToTerm(ghost whole: Json, elements: seq<Json>, context: ProcessContext, depth: nat)
    returns (r: Result<Term, ConvertError>)
    requires context.Valid() && whole == JArray(elements) && depth <= MAX_CONVERSION_DEPTH
    modifies context
    ensures context.Valid()
            && Keeps(context.attached, old(context.heap), old(context.roots), context.heap, context.roots)
    ensures Delivers(context.heap, r, JsonOutcome(whole, depth), old(context.refusals), context.refusals)
    decreases whole, 0
  {
    hide Stands, Height, AllFinite;
    hide Denotes, SameMeaning, Keeps, InScope, Closable;
    ghost var h, entry := context.heap, context.roots;
    ghost var h1, r1 := h, entry;
    var rootDepth := |context.roots|;
    var acc := OpenScope(context);
    ghost var vs: seq<Value> := [];
    var failed := false;
    r := Err(Refused);
    var i := 0;
    while i < |elements| && !failed
      invariant i <= |elements|
      invariant context.Valid() && InScope(context.attached, context.heap, context.roots, acc, h, entry, vs)
      invariant !failed ==>
                  context.refusals == old(context.refusals) && ElementOutcomes(elements[..i], depth + 1) == Ok(vs)
      invariant failed ==>
                  && r.Err?
                  && Delivers(context.heap, r, JsonOutcome(whole, depth), old(context.refusals), context.refusals)
      decreases |elements| - i, !failed
    {
      assert elements[..i + 1][..i] == elements[..i];
      h1, r1 := context.heap, context.roots;
      var head := JsonValueToTerm(elements[i], context, depth + 1);
      ScopeKept(context.attached, h1, r1, context.heap, context.roots, acc, h, entry, vs);
      if head.Ok? {
        ghost var v := JsonOutcome(elements[i], depth + 1).value;
        var ok;
        acc, ok := PushInScope(context, acc, head.value, h, entry, vs, v);
        vs := vs + [v];
        i := i + 1;
      } else {
        if head.error != Refused { ElementErrorStays(elements, depth + 1, i + 1); }
        r, failed := Err(head.error), true;
      }
    }
    if !failed {
      assert elements[..i] == elements;
      h1, r1 := context.heap, context.roots;
      ScopeRun(context.attached, context.heap, context.roots, acc, h, entry, vs);
      var list := context.ToList(acc, vs);
      ScopeKept(context.attached, h1, r1, context.heap, context.roots, acc, h, entry, vs);
      r := if list.Ok? then Ok(list.value) else Err(Refused);
    }
    ScopeClosable(context.attached, context.heap, context.roots, acc, h, entry, vs);
    CloseScope(context, acc, h, entry, rootDepth);
  }

  method JsonObjectToTerm(ghost whole: Json, members: seq<Member>, context: ProcessContext, depth: nat)
    returns (r: Result<Term, ConvertError>)
    requires context.Valid() && whole == JObject(members) && depth <= MAX_CONVERSION_DEPTH
    modifies context
    ensures context.Valid()
            && Keeps(context.attached, old(context.heap), old(context.roots), context.heap, context.roots)
    ensures Delivers(context.heap, r, JsonOutcome(whole, depth), old(context.refusals), context.refusals)
    decreases whole, 0
  {
    hide Stands, Height, AllFinite;
    hide Denotes, SameMeaning, Keeps, InScope, Closable, Alternate, Held, Fits;
    ghost var h, start := context.heap, context.roots;
    var rootDepth := |context.roots|;
    var acc := OpenScope(context);
    ghost var entries: seq<(Value, Value)> := [];
    var failed := false;
    r := Err(Refused);
    var i := 0;
    while i < |members| && !failed
      invariant i <= |members|
      invariant context.Valid()
      invariant !failed ==> InScope(context.attached, context.heap, context.roots, acc, h, start, Alternate(entries))
                            && context.refusals == old(context.refusals)
                            && MemberOutcomes(members[..i], depth + 1) == Ok(entries)
      invariant failed ==> Closable(context.attached, context.heap, context.roots, h, start)
                           && r.Err?
                           && Delivers(context.heap, r, JsonOutcome(whole, depth), old(context.refusals),
                                       context.refusals)
      decreases |members| - i, !failed
    {
      assert members[..i + 1][..i] == members[..i];
      var stored;
      acc, stored := MemberToTerm(members[i], context, acc, depth + 1, h, start, entries);
      if stored.Ok? {
        entries := entries + [(VBinary(Text(members[i].key)), JsonOutcome(members[i].value, depth + 1).value)];
        i := i + 1;
      } else {
        if stored.error != Refused { MemberErrorStays(members, depth + 1, i + 1); }
        r, failed := Err(stored.error), true;
      }
    }
    if !failed {
      assert members[..i] == members;
      r := FinishMap(context, acc, h, start, entries);
    }
    CloseScope(context, acc, h, start, rootDepth);
  }

  /** One member: its key is pushed before its value is built, its value right after. */
  method MemberToTerm(member: Member, context: ProcessContext, acc: Accumulator, depth: nat,
                      ghost h: Heap, ghost start: seq<Term>, ghost entries: seq<(Value, Value)>)
    returns (next: Accumulator, r: Result<(), ConvertError>)
    requires context.Valid()
    requires InScope(context.attached, context.heap, context.roots, acc, h, start, Alternate(entries))
    modifies context
    ensures context.Valid()
    ensures r.Ok? ==> JsonOutcome(member.value, depth).Ok? && context.refusals == old(context.refusals)
                      && InScope(context.attached, context.heap, context.roots, next, h, start,
                                 Alternate(entries + [(VBinary(Text(member.key)),
                                                       JsonOutcome(member.value, depth).value)]))
    ensures r.Err? ==> Closable(context.attached, context.heap, context.roots, h, start)
                       && (if r.error == Refused then context.refusals > old(context.refusals)
                           else JsonOutcome(member.value, depth) == Err(r.error)
                                && context.refusals == old(context.refusals))
    decreases member, 2
  {
    hide Stands, Height, AllFinite, JsonOutcome;
    hide Denotes, SameMeaning, Keeps, InScope, Closable;
    ghost var vs := Alternate(entries);
    ghost var h1, r1 := context.heap, context.roots;
    var key := BinaryToTerm(member.key, context);
    ScopeKept(context.attached, h1, r1, context.heap, context.roots, acc, h, start, vs);
    if key.Err? {
      ScopeClosable(context.attached, context.heap, context.roots, acc, h, start, vs);
      return acc, Err(Refused);
    }
    ghost var k := VBinary(Text(member.key));
    var ok;
    next, ok := PushInScope(context, acc, key.value, h, start, vs, k);
    h1, r1 := context.heap, context.roots;
    var value := JsonValueToTerm(member.value, context, depth);
    ScopeKept(context.attached, h1, r1, context.heap, context.roots, next, h, start, vs + [k]);
    if value.Err? {
      ScopeClosable(context.attached, context.heap, context.roots, next, h, start, vs + [k]);
      return next, Err(value.error);
    }
    ghost var v := JsonOutcome(member.value, depth).value;
    next, ok := PushInScope(context, next, value.value, h, start, vs + [k], v);
    AlternateNext(entries, (k, v));
    r := Ok(());
  }

  /** Sort the alternating run by key, then build the map from it. */
  method FinishMap(context: ProcessContext, acc: Accumulator, ghost h: Heap, ghost start: seq<Term>,
                   ghost entries: seq<(Value, Value)>)
    returns (r: Result<Term, ConvertError>)
    requires context.Valid()
             && InScope(context.attached, context.heap, context.roots, acc, h, start, Alternate(entries))
    modifies context
    ensures context.Valid() && Closable(context.attached, context.heap, context.roots, h, start)
    ensures Delivers(context.heap, r, Ok(VMap(entries)), old(context.refusals), context.refusals)
  {
    hide Denotes, SameMeaning, Keeps, InScope, Closable;
    var next;
    ghost var fs;
    next, fs := SortInScope(context, acc, h, start, entries);
    ghost var h1, r1 := context.heap, context.roots;
    ScopeHeld(context.attached, h1, r1, next, h, start, Alternate(fs));
    var built := context.ToMapPairs(next, entries, fs);
    ScopeKept(context.attached, h1, r1, context.heap, context.roots, next, h, start, Alternate(fs));
    ScopeClosable(context.attached, context.heap, context.roots, next, h, start, Alternate(fs));
    r := if built.Ok? then Ok(built.value) else Err(Refused);
  }

  /** The run of an open scope ends sorted, and holds the same entries. A run of whole
      members is even, so sorting it is never refused. */
  method SortInScope(context: ProcessContext, acc: Accumulator,
                     ghost h: Heap, ghost start: seq<Term>, ghost entries: seq<(Value, Value)>)
    returns (next: Accumulator, ghost fs: seq<(Value, Value)>)
    requires context.Valid()
             && InScope(context.attached, context.heap, context.roots, acc, h, start, Alternate(entries))
    modifies context`roots
    ensures context.Valid() && Reordered(entries, fs)
    ensures InScope(context.attached, context.heap, context.roots, next, h, start, Alternate(fs))
  {
    hide Denotes, SameMeaning, Keeps, Reordered;
    ghost var before := Held(context.roots, acc);
    AllDenoteInHeap(context.heap, before, Alternate(entries));
    var ok;
    next, ok := context.SortPairsByKey(acc);
    assert ok;
    fs := SortedRunEntries(context.heap, before, Held(context.roots, next), entries);
    assert context.roots[..|start|] == old(context.roots)[..|start|];
  }

  lemma ScopeHeld(attached: bool, heap: Heap, roots: seq<Term>, acc: Accumulator, h: Heap, entry: seq<Term>,
                  vs: seq<Value>)
    requires InScope(attached, heap, roots, acc, h, entry, vs)
    ensures Fits(attached, roots, acc) && AllDenote(heap, Held(roots, acc), vs)
  {
    hide Denotes, SameMeaning, Keeps;
  }
}
