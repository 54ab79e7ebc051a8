/** The direct JavaScript path of the conversion, and its agreement with the JSON path. */
module ConvertJs {
  import opened Wrappers
  import opened Terms
  import opened Context
  import opened Convert

  /** A direct JavaScript value. Reading a property may throw instead of answering. */
  datatype Js =
    | JsNull
    | JsUndefined
    | JsBool(flag: bool)
    | JsNumber(number: Double)
    | JsString(text: string)
    | JsArray(elements: seq<Js>)
    | JsObject(properties: seq<Property>)
    | JsOther
  datatype Property = Property(key: PropertyKey, answer: Answer)
  datatype PropertyKey = StringKey(name: string) | OtherKey
  datatype Answer = Answered(value: Js) | Threw

  function JsOutcome(v: Js, depth: nat): Outcome
    decreases v
  {
    if depth > MAX_CONVERSION_DEPTH then Err(TooDeep)
    else
      match v
      case JsNull => Ok(VAtom(Atom.Nil))
      case JsUndefined => Err(UndefinedValue)
      case JsBool(b) => Ok(AtomOf(b))
      case JsNumber(n) => NumberOutcome(n)
      case JsString(s) => Ok(VBinary(Text(s)))
      case JsOther => Err(Unsupported)
      case JsArray(es) =>
        (match ItemOutcomes(es, depth + 1)
         case Ok(vs) => Ok(ListOf(vs))
         case Err(e) => Err(e))
      case JsObject(ps) =>
        (match PropertyOutcomes(ps, depth + 1)
         case Ok(entries) => Ok(VMap(entries))
         case Err(e) => Err(e))
  }

  function ItemOutcomes(es: seq<Js>, depth: nat): (r: Result<seq<Value>, ConvertError>)
    ensures r.Ok? ==> |r.value| == |es|
    decreases es
  {
    if es == [] then Ok([])
    else
      match ItemOutcomes(es[..|es| - 1], depth)
      case Err(e) => Err(e)
      case Ok(vs) =>
        match JsOutcome(es[|es| - 1], depth)
        case Err(e) => Err(e)
        case Ok(v) => Ok(vs + [v])
  }

  /** A property: its key must be a string, and reading it may throw. */
  function PropertyOutcome(p: Property, depth: nat): Result<(Value, Value), ConvertError>
    decreases p
  {
    match p.key
    case OtherKey => Err(KeyNotString)
    case StringKey(name) =>
      match p.answer
      case Threw => Err(ReadThrew)
      case Answered(value) =>
        match JsOutcome(value, depth)
        case Err(e) => Err(e)
        case Ok(v) => Ok((VBinary(Text(name)), v))
  }

  function PropertyOutcomes(ps: seq<Property>, depth: nat): (r: Result<seq<(Value, Value)>, ConvertError>)
    ensures r.Ok? ==> |r.value| == |ps|
    decreases ps
  {
    if ps == [] then Ok([])
    else
      match PropertyOutcomes(ps[..|ps| - 1], depth)
      case Err(e) => Err(e)
      case Ok(entries) =>
        match PropertyOutcome(ps[|ps| - 1], depth)
        case Err(e) => Err(e)
        case Ok(entry) => Ok(entries + [entry])
  }

  lemma {:induction false} ItemErrorStays(es: seq<Js>, depth: nat, k: nat)
    requires k <= |es| && ItemOutcomes(es[..k], depth).Err?
    ensures ItemOutcomes(es, depth) == ItemOutcomes(es[..k], depth)
  {
    if k == |es| {
      assert es[..k] == es;
    } else {
      assert es[..|es| - 1][..k] == es[..k];
      ItemErrorStays(es[..|es| - 1], depth, k);
    }
  }

  lemma {:induction false} PropertyErrorStays(ps: seq<Property>, depth: nat, k: nat)
    requires k <= |ps| && PropertyOutcomes(ps[..k], depth).Err?
    ensures PropertyOutcomes(ps, depth) == PropertyOutcomes(ps[..k], depth)
  {
    if k == |ps| {
      assert ps[..k] == ps;
    } else {
      assert ps[..|ps| - 1][..k] == ps[..k];
      PropertyErrorStays(ps[..|ps| - 1], depth, k);
    }
  }

  // --- The two paths agree ---

  /** The JavaScript value a JSON value is parsed to. */
  function FromJson(j: Json): Js
    decreases j
  {
    match j
    case JNull => JsNull
    case JBool(b) => JsBool(b)
    case JNumber(n) => JsNumber(n)
    case JString(s) => JsString(s)
    case JArray(es) => JsArray(seq(|es|, i requires 0 <= i < |es| => FromJson(es[i])))
    case JObject(ms) => JsObject(seq(|ms|, i requires 0 <= i < |ms| => FromMember(ms[i])))
  }

  function FromMember(m: Member): Property
    decreases m
  {
    Property(StringKey(m.key), Answered(FromJson(m.value)))
  }

  /** Whichever way a JSON-shaped value enters, it converts to the same value, or
      fails with the same error. */
  lemma {:induction false} PathsAgree(j: Json, depth: nat)
    ensures JsOutcome(FromJson(j), depth) == JsonOutcome(j, depth)
    decreases j
  {
    match j
    case JArray(es) => ItemsAgree(es, FromJson(j).elements, depth + 1);
    case JObject(ms) => PropertiesAgree(ms, FromJson(j).properties, depth + 1);
    case _ =>
  }

  lemma {:induction false} ItemsAgree(es: seq<Json>, js: seq<Js>, depth: nat)
    requires |js| == |es| && forall i :: 0 <= i < |es| ==> js[i] == FromJson(es[i])
    ensures ItemOutcomes(js, depth) == ElementOutcomes(es, depth)
    decreases es
  {
    if es != [] {
      var n := |es| - 1;
      ItemsAgree(es[..n], js[..n], depth);
      PathsAgree(es[n], depth);
    }
  }

  lemma {:induction false} PropertiesAgree(ms: seq<Member>, ps: seq<Property>, depth: nat)
    requires |ps| == |ms| && forall i :: 0 <= i < |ms| ==> ps[i] == FromMember(ms[i])
    ensures PropertyOutcomes(ps, depth) == MemberOutcomes(ms, depth)
    decreases ms
  {
    if ms != [] {
      var n := |ms| - 1;
      PropertiesAgree(ms[..n], ps[..n], depth);
      PathsAgree(ms[n].value, depth);
      assert ps[n] == FromMember(ms[n]);
    }
  }

  // --- When a JavaScript value converts, and to what ---

  /** Nesting height, as for JSON. A read that throws yields nothing to nest. */
  function JsHeight(v: Js): nat
    decreases v
  {
    match v
    case JsArray(es) => if es == [] then 0 else 1 + TallestItem(es)
    case JsObject(ps) => if ps == [] then 0 else 1 + TallestProperty(ps)
    case _ => 0
  }

  function TallestItem(es: seq<Js>): nat
    decreases es
  {
    if es == [] then 0 else Max(TallestItem(es[..|es| - 1]), JsHeight(es[|es| - 1]))
  }

  function TallestProperty(ps: seq<Property>): nat
    decreases ps
  {
    if ps == [] then 0 else Max(TallestProperty(ps[..|ps| - 1]), PropertyHeight(ps[|ps| - 1]))
  }

  function PropertyHeight(p: Property): nat
    decreases p
  {
    match p.answer
    case Threw => 0
    case Answered(value) => JsHeight(value)
  }

  /** At every level: numbers are finite, no value is undefined or of another kind,
      every key is a string and every read answers. */
  predicate Convertible(v: Js)
    decreases v
  {
    match v
    case JsUndefined => false
    case JsOther => false
    case JsNumber(n) => n != NonFinite
    case JsArray(es) => forall i :: 0 <= i < |es| ==> Convertible(es[i])
    case JsObject(ps) => forall i :: 0 <= i < |ps| ==> ConvertibleProperty(ps[i])
    case _ => true
  }

  predicate ConvertibleProperty(p: Property)
    decreases p
  {
    p.key.StringKey? && p.answer.Answered? && Convertible(p.answer.value)
  }

  /** Conversion succeeds exactly for a convertible value nested no deeper than the limit. */
  lemma {:induction false} JsConvertsIff(v: Js, depth: nat)
    ensures JsOutcome(v, depth).Ok? <==> depth + JsHeight(v) <= 256 && Convertible(v)
    decreases v
  {
    match v
    case JsArray(es) => ItemsConvertIff(es, depth + 1);
    case JsObject(ps) => PropertiesConvertIff(ps, depth + 1);
    case _ =>
  }

  lemma {:induction false} ItemsConvertIff(es: seq<Js>, depth: nat)
    ensures ItemOutcomes(es, depth).Ok?
            <==> es == [] || (depth + TallestItem(es) <= 256 && forall i :: 0 <= i < |es| ==> Convertible(es[i]))
    decreases es
  {
    if es != [] {
      var n := |es| - 1;
      ItemsConvertIff(es[..n], depth);
      JsConvertsIff(es[n], depth);
      assert forall i :: 0 <= i < n ==> es[..n][i] == es[i];
    }
  }

  lemma {:induction false} PropertiesConvertIff(ps: seq<Property>, depth: nat)
    ensures PropertyOutcomes(ps, depth).Ok?
            <==> ps == [] || (depth + TallestProperty(ps) <= 256
                              && forall i :: 0 <= i < |ps| ==> ConvertibleProperty(ps[i]))
    decreases ps
  {
    if ps != [] {
      var n := |ps| - 1;
      PropertiesConvertIff(ps[..n], depth);
      PropertyConvertsIff(ps[n], depth);
      assert forall i :: 0 <= i < n ==> ps[..n][i] == ps[i];
    }
  }

  lemma {:induction false} PropertyConvertsIff(p: Property, depth: nat)
    ensures PropertyOutcome(p, depth).Ok?
            <==> p.key.StringKey? && p.answer.Answered? && depth + PropertyHeight(p) <= 256 && ConvertibleProperty(p)
    decreases p
  {
    match p
    case Property(_, Answered(value)) => JsConvertsIff(value, depth);
    case _ =>
  }

  /** What converts has the shape of a JSON value, and converts as that value does. */
  lemma {:induction false} JsonShaped(v: Js, depth: nat) returns (j: Json)
    requires JsOutcome(v, depth).Ok?
    ensures v == FromJson(j) && JsonOutcome(j, depth) == JsOutcome(v, depth)
    decreases v, 1
  {
    match v {
      case JsNull => j := JNull;
      case JsBool(b) => j := JBool(b);
      case JsNumber(n) => j := JNumber(n);
      case JsString(text) => j := JString(text);
      case JsArray(es) =>
        var js := ItemsShaped(es, depth + 1);
        j := JArray(js);
        assert FromJson(j).elements == es;
      case JsObject(ps) =>
        var ms := PropertiesShaped(ps, depth + 1);
        j := JObject(ms);
        assert FromJson(j).properties == ps;
    }
    PathsAgree(j, depth);
  }

  lemma {:induction false} ItemsShaped(es: seq<Js>, depth: nat) returns (js: seq<Json>)
    requires ItemOutcomes(es, depth).Ok?
    ensures |js| == |es| && forall i :: 0 <= i < |es| ==> es[i] == FromJson(js[i])
    decreases es, 0
  {
    js := [];
    if es != [] {
      var n := |es| - 1;
      var front := ItemsShaped(es[..n], depth);
      var last := JsonShaped(es[n], depth);
      js := front + [last];
    }
  }

  lemma {:induction false} PropertiesShaped(ps: seq<Property>, depth: nat) returns (ms: seq<Member>)
    requires PropertyOutcomes(ps, depth).Ok?
    ensures |ms| == |ps| && forall i :: 0 <= i < |ps| ==> ps[i] == FromMember(ms[i])
    decreases ps, 0
  {
    ms := [];
    if ps != [] {
      var n := |ps| - 1;
      var front := PropertiesShaped(ps[..n], depth);
      var last := PropertyShaped(ps[n], depth);
      ms := front + [last];
    }
  }

  lemma {:induction false} PropertyShaped(p: Property, depth: nat) returns (m: Member)
    requires PropertyOutcome(p, depth).Ok?
    ensures p == FromMember(m)
    decreases p, 0
  {
    match p
    case Property(StringKey(name), Answered(value)) =>
      var j := JsonShaped(value, depth);
      m := Member(name, j);
  }

  // --- Which error a value gives ---

  /** The element at the end of `path`, a list of positions from the outside in, cannot
      be converted, for this reason. */
  ghost predicate Offends(v: Js, depth: nat, path: seq<nat>, e: ConvertError)
    decreases |path|, 0
  {
    if depth > 256 then path == [] && e == TooDeep
    else
      match v
      case JsUndefined => path == [] && e == UndefinedValue
      case JsOther => path == [] && e == Unsupported
      case JsNumber(n) => path == [] && e == NotFinite && n == NonFinite
      case JsArray(es) => path != [] && path[0] < |es| && Offends(es[path[0]], depth + 1, path[1..], e)
      case JsObject(ps) => path != [] && path[0] < |ps| && PropertyOffends(ps[path[0]], depth + 1, path[1..], e)
      case _ => false
  }

  ghost predicate PropertyOffends(p: Property, depth: nat, path: seq<nat>, e: ConvertError)
    decreases |path|, 1
  {
    match p
    case Property(OtherKey, _) => path == [] && e == KeyNotString
    case Property(_, Threw) => path == [] && e == ReadThrew
    case Property(_, Answered(value)) => Offends(value, depth, path, e)
  }

  /** `p` comes before `q` from left to right. */
  ghost predicate LeftOf(p: seq<nat>, q: seq<nat>) {
    p != [] && q != [] && (p[0] < q[0] || (p[0] == q[0] && LeftOf(p[1..], q[1..])))
  }

  ghost predicate FirstOffence(v: Js, depth: nat, path: seq<nat>, e: ConvertError) {
    Offends(v, depth, path, e) && forall q, f :: Offends(v, depth, q, f) ==> q == path || LeftOf(path, q)
  }

  ghost predicate NoOffence(v: Js, depth: nat) {
    forall q, f :: !Offends(v, depth, q, f)
  }

  /** The error of a value is that of its first offending element, left to right; a value
      without one converts. */
  lemma {:induction false} FirstOffenceDecides(v: Js, depth: nat) returns (path: seq<nat>)
    ensures JsOutcome(v, depth).Ok? ==> NoOffence(v, depth)
    ensures JsOutcome(v, depth).Err? ==> FirstOffence(v, depth, path, JsOutcome(v, depth).error)
    decreases v, 1
  {
    path := [];
    if depth <= 256 {
      match v {
        case JsArray(es) =>
          var i, rest := ItemsOffence(es, depth + 1);
          path := [i] + rest;
        case JsObject(ps) =>
          var i, rest := PropertiesOffence(ps, depth + 1);
          path := [i] + rest;
        case _ =>
      }
    }
  }

  lemma {:induction false} ItemsOffence(es: seq<Js>, depth: nat) returns (i: nat, path: seq<nat>)
    ensures ItemOutcomes(es, depth).Ok? ==> forall k :: 0 <= k < |es| ==> NoOffence(es[k], depth)
    ensures ItemOutcomes(es, depth).Err? ==>
              && i < |es| && FirstOffence(es[i], depth, path, ItemOutcomes(es, depth).error)
              && forall k :: 0 <= k < i ==> NoOffence(es[k], depth)
    decreases es, 0
  {
    i, path := 0, [];
    if es != [] {
      var n := |es| - 1;
      i, path := ItemsOffence(es[..n], depth);
      if ItemOutcomes(es[..n], depth).Ok? {
        assert forall k :: 0 <= k < n ==> es[..n][k] == es[k];
        path := FirstOffenceDecides(es[n], depth);
        i := n;
      }
    }
  }

  ghost predicate NoPropertyOffence(p: Property, depth: nat) {
    forall q, f :: !PropertyOffends(p, depth, q, f)
  }

  ghost predicate FirstPropertyOffence(p: Property, depth: nat, path: seq<nat>, e: ConvertError) {
    && PropertyOffends(p, depth, path, e)
    && forall q, f :: PropertyOffends(p, depth, q, f) ==> q == path || LeftOf(path, q)
  }

  lemma {:induction false} PropertiesOffence(ps: seq<Property>, depth: nat) returns (i: nat, path: seq<nat>)
    ensures PropertyOutcomes(ps, depth).Ok? ==> forall k :: 0 <= k < |ps| ==> NoPropertyOffence(ps[k], depth)
    ensures PropertyOutcomes(ps, depth).Err? ==>
              && i < |ps| && FirstPropertyOffence(ps[i], depth, path, PropertyOutcomes(ps, depth).error)
              && forall k :: 0 <= k < i ==> NoPropertyOffence(ps[k], depth)
    decreases ps, 0
  {
    i, path := 0, [];
    if ps != [] {
      var n := |ps| - 1;
      i, path := PropertiesOffence(ps[..n], depth);
      if PropertyOutcomes(ps[..n], depth).Ok? {
        assert forall k :: 0 <= k < n ==> ps[..n][k] == ps[k];
        path := FirstPropertyDecides(ps[n], depth);
        i := n;
      }
    }
  }

  lemma {:induction false} FirstPropertyDecides(p: Property, depth: nat) returns (path: seq<nat>)
    ensures PropertyOutcome(p, depth).Ok? ==> NoPropertyOffence(p, depth)
    ensures PropertyOutcome(p, depth).Err? ==>
              FirstPropertyOffence(p, depth, path, PropertyOutcome(p, depth).error)
    decreases p, 0
  {
    path := [];
    match p
    case Property(StringKey(_), Answered(value)) =>
      path := FirstOffenceDecides(value, depth);
      assert forall q, f :: PropertyOffends(p, depth, q, f) <==> Offends(value, depth, q, f);
    case _ =>
  }

  /** The same for JSON values. */
  lemma JsonFirstOffence(j: Json, depth: nat) returns (path: seq<nat>)
    ensures JsonOutcome(j, depth).Ok? ==> NoOffence(FromJson(j), depth)
    ensures JsonOutcome(j, depth).Err? ==> FirstOffence(FromJson(j), depth, path, JsonOutcome(j, depth).error)
  {
    PathsAgree(j, depth);
    path := FirstOffenceDecides(FromJson(j), depth);
  }

  // --- The conversion ---

  /** The term of a value without values inside, spelled out. */
  ghost predicate LeafStands(h: Heap, t: Term, v: Js) {
    match v
    case JsNull => t == AtomTerm(Atom.Nil)
    case JsBool(b) => t == AtomTerm(if b then Atom.True else Atom.False)
    case JsNumber(n) => NumberStands(h, t, n)
    case JsString(s) => At(h, t, Binary(Text(s)))
    case JsArray(es) => t == EmptyList <==> es == []
    case JsObject(_) => t.Ptr? && t.addr in h && h[t.addr].MapObject?
    case _ => false
  }

  lemma OutcomeIsLeaf(h: Heap, t: Term, v: Js, depth: nat)
    requires JsOutcome(v, depth).Ok? && Denotes(h, t, JsOutcome(v, depth).value)
    ensures LeafStands(h, t, v)
  {
  }

  method ValueToTerm(value: Js, context: ProcessContext, depth: nat) returns (r: Result<Term, ConvertError>)
    requires context.Valid()
    modifies context
    ensures context.Valid()
            && Keeps(context.attached, old(context.heap), old(context.roots), context.heap, context.roots)
    ensures Delivers(context.heap, r, JsOutcome(value, depth), old(context.refusals), context.refusals)
    // what the term is, and when there is one, without reference to the conversion
    ensures r.Ok? ==> exists j :: value == FromJson(j) && Stands(context.heap, r.value, j)
    ensures r.Ok? ==> LeafStands(context.heap, r.value, value)
    ensures r.Ok? ==> depth + JsHeight(value) <= 256 && Convertible(value)
    ensures r.Err? && r.error != Refused ==> exists path :: FirstOffence(value, depth, path, r.error)
    ensures r.Err? && r.error != Refused ==> !(depth + JsHeight(value) <= 256 && Convertible(value))
    decreases value, 1
  {
    hide SameMeaning, Stands, JsHeight, Convertible, FirstOffence, FromJson;
    JsConvertsIff(value, depth);
    ghost var path := FirstOffenceDecides(value, depth);
    KeepsGrow(context.attached, context.heap, context.heap, context.roots);
    if depth > MAX_CONVERSION_DEPTH {
      return Err(TooDeep);
    }
    match value {
      case JsNull => r := Ok(AtomTerm(Atom.Nil));
      case JsUndefined => r := Err(UndefinedValue);
      case JsBool(flag) => r := Ok(AtomTerm(if flag then Atom.True else Atom.False));
      case JsNumber(number) => r := NumberToTerm(number, context);
      case JsString(text) => r := BinaryToTerm(text, context);
      case JsArray(elements) => r := ArrayToTerm(value, elements, context, depth + 1);
      case JsObject(properties) => r := ObjectToTerm(value, properties, context, depth + 1);
      case JsOther => r := Err(Unsupported);
    }
    if r.Ok? {
      ghost var j := JsonShaped(value, depth);
      OutcomeStands(context.heap, r.value, j, depth);
      OutcomeIsLeaf(context.heap, r.value, value, depth);
    }
  }

  method ArrayToTerm(ghost whole: Js, elements: seq<Js>, context: ProcessContext, depth: nat)
    returns (r: Result<Term, ConvertError>)
    requires context.Valid() && whole == JsArray(elements) && 0 < depth <= MAX_CONVERSION_DEPTH + 1
    modifies context
    ensures context.Valid()
            && Keeps(context.attached, old(context.heap), old(context.roots), context.heap, context.roots)
    ensures Delivers(context.heap, r, JsOutcome(whole, depth - 1), old(context.refusals), context.refusals)
    decreases whole, 0
  {
    hide Stands, JsHeight, Convertible, FirstOffence, FromJson, LeafStands;
    hide Denotes, SameMeaning, Keeps, InScope, Closable;
    ghost var h, entry := context.heap, context.roots;
    ghost var h1, r1 := h, entry;
    var rootDepth := |context.roots|;
    var acc := OpenScope(context);
    ghost var vs: seq<Value> := [];
    var failed := false;
    r := Err(Refused);
    var i := 0;
    while i < |elements| && !failed
      invariant i <= |elements|
      invariant context.Valid() && InScope(context.attached, context.heap, context.roots, acc, h, entry, vs)
      invariant !failed ==> context.refusals == old(context.refusals) && ItemOutcomes(elements[..i], depth) == Ok(vs)
      invariant failed ==>
                  && r.Err?
                  && Delivers(context.heap, r, JsOutcome(whole, depth - 1), old(context.refusals), context.refusals)
      decreases |elements| - i, !failed
    {
      assert elements[..i + 1][..i] == elements[..i];
      h1, r1 := context.heap, context.roots;
      var element := ValueToTerm(elements[i], context, depth);
      ScopeKept(context.attached, h1, r1, context.heap, context.roots, acc, h, entry, vs);
      if element.Ok? {
        ghost var v := JsOutcome(elements[i], depth).value;
        var ok;
        acc, ok := PushInScope(context, acc, element.value, h, entry, vs, v);
        vs := vs + [v];
        i := i + 1;
      } else {
        if element.error != Refused { ItemErrorStays(elements, depth, i + 1); }
        r, failed := Err(element.error), true;
      }
    }
    if !failed {
      assert elements[..i] == elements;
      h1, r1 := context.heap, context.roots;
      ScopeRun(context.attached, context.heap, context.roots, acc, h, entry, vs);
      var list := context.ToList(acc, vs);
      ScopeKept(context.attached, h1, r1, context.heap, context.roots, acc, h, entry, vs);
      r := if list.Ok? then Ok(list.value) else Err(Refused);
    }
    ScopeClosable(context.attached, context.heap, context.roots, acc, h, entry, vs);
    CloseScope(context, acc, h, entry, rootDepth);
  }

  method ObjectToTerm(ghost whole: Js, properties: seq<Property>, context: ProcessContext, depth: nat)
    returns (r: Result<Term, ConvertError>)
    requires context.Valid() && whole == JsObject(properties) && 0 < depth <= MAX_CONVERSION_DEPTH + 1
    modifies context
    ensures context.Valid()
            && Keeps(context.attached, old(context.heap), old(context.roots), context.heap, context.roots)
    ensures Delivers(context.heap, r, JsOutcome(whole, depth - 1), old(context.refusals), context.refusals)
    decreases whole, 0
  {
    hide Stands, JsHeight, Convertible, FirstOffence, FromJson, LeafStands;
    hide Denotes, SameMeaning, Keeps, InScope, Closable, Alternate, Held, Fits;
    ghost var h, start := context.heap, context.roots;
    var rootDepth := |context.roots|;
    var acc := OpenScope(context);
    ghost var entries: seq<(Value, Value)> := [];
    var failed := false;
    r := Err(Refused);
    var i := 0;
    while i < |properties| && !failed
      invariant i <= |properties|
      invariant context.Valid()
      invariant !failed ==> InScope(context.attached, context.heap, context.roots, acc, h, start, Alternate(entries))
                            && context.refusals == old(context.refusals)
                            && PropertyOutcomes(properties[..i], depth) == Ok(entries)
      invariant failed ==> Closable(context.attached, context.heap, context.roots, h, start)
                           && r.Err?
                           && Delivers(context.heap, r, JsOutcome(whole, depth - 1), old(context.refusals),
                                       context.refusals)
      decreases |properties| - i, !failed
    {
      assert properties[..i + 1][..i] == properties[..i];
      var stored;
      acc, stored := PropertyToTerm(properties[i], context, acc, depth, h, start, entries);
      if stored.Ok? {
        entries := entries + [PropertyOutcome(properties[i], depth).value];
        i := i + 1;
      } else {
        if stored.error != Refused { PropertyErrorStays(properties, depth, i + 1); }
        r, failed := Err(stored.error), true;
      }
    }
    if !failed {
      assert properties[..i] == properties;
      r := FinishMap(context, acc, h, start, entries);
    }
    CloseScope(context, acc, h, start, rootDepth);
  }

  /** One property: key checked, value read, key pushed before its value is built. */
  method PropertyToTerm(property: Property, context: ProcessContext, acc: Accumulator, depth: nat,
                        ghost h: Heap, ghost start: seq<Term>, ghost entries: seq<(Value, Value)>)
    returns (next: Accumulator, r: Result<(), ConvertError>)
    requires context.Valid()
    requires InScope(context.attached, context.heap, context.roots, acc, h, start, Alternate(entries))
    modifies context
    ensures context.Valid()
    ensures r.Ok? ==> PropertyOutcome(property, depth).Ok? && context.refusals == old(context.refusals)
                      && InScope(context.attached, context.heap, context.roots, next, h, start,
                                 Alternate(entries + [PropertyOutcome(property, depth).value]))
    ensures r.Err? ==> Closable(context.attached, context.heap, context.roots, h, start)
                       && (if r.error == Refused then context.refusals > old(context.refusals)
                           else PropertyOutcome(property, depth) == Err(r.error)
                                && context.refusals == old(context.refusals))
    decreases property, 2
  {
    hide Stands, JsHeight, Convertible, FirstOffence, FromJson, LeafStands;
    hide Denotes, SameMeaning, Keeps, InScope, Closable;
    ghost var vs := Alternate(entries);
    ScopeClosable(context.attached, context.heap, context.roots, acc, h, start, vs);
    if property.key == OtherKey {
      return acc, Err(KeyNotString);
    }
    if property.answer == Threw {
      return acc, Err(ReadThrew);
    }
    ghost var h1, r1 := context.heap, context.roots;
    var key := BinaryToTerm(property.key.name, context);
    ScopeKept(context.attached, h1, r1, context.heap, context.roots, acc, h, start, vs);
    if key.Err? {
      ScopeClosable(context.attached, context.heap, context.roots, acc, h, start, vs);
      return acc, Err(Refused);
    }
    ghost var k := VBinary(Text(property.key.name));
    var ok;
    next, ok := PushInScope(context, acc, key.value, h, start, vs, k);
    h1, r1 := context.heap, context.roots;
    var value := ValueToTerm(property.answer.value, context, depth);
    ScopeKept(context.attached, h1, r1, context.heap, context.roots, next, h, start, vs + [k]);
    if value.Err? {
      ScopeClosable(context.attached, context.heap, context.roots, next, h, start, vs + [k]);
      return next, Err(value.error);
    }
    ghost var v := JsOutcome(property.answer.value, depth).value;
    next, ok := PushInScope(context, next, value.value, h, start, vs + [k], v);
    AlternateNext(entries, (k, v));
    r := Ok(());
  }
}
