/** The bundle's length-prefixed archive, and the loader that reads it back. */
module Archive {
  import opened Wrappers

  type Byte = b: int | 0 <= b < 0x100

  predicate Continuation(b: Byte) {
    0x80 <= b <= 0xBF
  }

  /** Well-formed UTF-8, as every module name is. */
  predicate Utf8(s: seq<Byte>) {
    || s == []
    || (s[0] < 0x80 && Utf8(s[1..]))
    || (|s| >= 2 && 0xC2 <= s[0] <= 0xDF && Continuation(s[1]) && Utf8(s[2..]))
    || (|s| >= 3 && 0xE0 <= s[0] <= 0xEF && Continuation(s[1]) && Continuation(s[2])
        && (s[0] == 0xE0 ==> s[1] >= 0xA0) && (s[0] == 0xED ==> s[1] <= 0x9F) && Utf8(s[3..]))
    || (|s| >= 4 && 0xF0 <= s[0] <= 0xF4 && Continuation(s[1]) && Continuation(s[2]) && Continuation(s[3])
        && (s[0] == 0xF0 ==> s[1] >= 0x90) && (s[0] == 0xF4 ==> s[1] <= 0x8F) && Utf8(s[4..]))
  }

  type Name = s: seq<Byte> | Utf8(s)

  /** A Unicode scalar value, and its encoding by the table of section 3 of RFC 3629. */
  type Scalar = c: nat | c < 0xD800 || 0xE000 <= c < 0x11_0000

  function Encoding(c: Scalar): (r: seq<Byte>) {
    if c < 0x80 then [c]
    else if c < 0x800 then [0xC0 + c / 0x40, 0x80 + c % 0x40]
    else if c < 0x1_0000 then [0xE0 + c / 0x1000, 0x80 + c / 0x40 % 0x40, 0x80 + c % 0x40]
    else [0xF0 + c / 0x4_0000, 0x80 + c / 0x1000 % 0x40, 0x80 + c / 0x40 % 0x40, 0x80 + c % 0x40]
  }

  function EncodingOf(cs: seq<Scalar>): (r: seq<Byte>) {
    if cs == [] then [] else Encoding(cs[0]) + EncodingOf(cs[1..])
  }

  lemma EncodingIsUtf8(c: Scalar, rest: seq<Byte>)
    requires Utf8(rest)
    ensures Utf8(Encoding(c) + rest)
  {
    var s := Encoding(c) + rest;
    assert s[|Encoding(c)|..] == rest;
    if 0x800 <= c {
      Digits(c);
    }
  }

  /** The six-bit digits of a number. */
  lemma Digits(c: nat)
    ensures c == c / 0x40 * 0x40 + c % 0x40 && c / 0x40 == c / 0x1000 * 0x40 + c / 0x40 % 0x40
    ensures c / 0x1000 == c / 0x4_0000 * 0x40 + c / 0x1000 % 0x40
  {
    var d := c / 0x40;
    var e := d / 0x40;
    assert c / 0x1000 == e && c / 0x4_0000 == e / 0x40;
  }

  /** Three digits below a leading one make the number they are the digits of. */
  lemma FromDigits(d3: nat, d2: nat, d1: nat, d0: nat)
    requires d2 < 0x40 && d1 < 0x40 && d0 < 0x40
    ensures var c := d3 * 0x4_0000 + d2 * 0x1000 + d1 * 0x40 + d0;
            c / 0x4_0000 == d3 && c / 0x1000 % 0x40 == d2 && c / 0x40 % 0x40 == d1 && c % 0x40 == d0
            && c / 0x1000 == d3 * 0x40 + d2 && c / 0x40 == d3 * 0x1000 + d2 * 0x40 + d1
  {
    var c := d3 * 0x4_0000 + d2 * 0x1000 + d1 * 0x40 + d0;
    assert c / 0x40 == d3 * 0x1000 + d2 * 0x40 + d1;
    assert c / 0x1000 == d3 * 0x40 + d2;
  }

  /** The scalar value that two, three or four bytes encode. */
  lemma TwoBytes(b0: int, b1: int) returns (c: Scalar)
    requires 0xC2 <= b0 <= 0xDF && 0x80 <= b1 <= 0xBF
    ensures Encoding(c) == [b0, b1]
  {
    FromDigits(0, 0, b0 - 0xC0, b1 - 0x80);
    c := (b0 - 0xC0) * 0x40 + (b1 - 0x80);
  }

  lemma ThreeBytes(b0: int, b1: int, b2: int) returns (c: Scalar)
    requires 0xE0 <= b0 <= 0xEF && 0x80 <= b1 <= 0xBF && 0x80 <= b2 <= 0xBF
    requires (b0 == 0xE0 ==> b1 >= 0xA0) && (b0 == 0xED ==> b1 <= 0x9F)
    ensures Encoding(c) == [b0, b1, b2]
  {
    FromDigits(0, b0 - 0xE0, b1 - 0x80, b2 - 0x80);
    c := (b0 - 0xE0) * 0x1000 + (b1 - 0x80) * 0x40 + (b2 - 0x80);
  }

  lemma FourBytes(b0: int, b1: int, b2: int, b3: int) returns (c: Scalar)
    requires 0xF0 <= b0 <= 0xF4 && 0x80 <= b1 <= 0xBF && 0x80 <= b2 <= 0xBF && 0x80 <= b3 <= 0xBF
    requires (b0 == 0xF0 ==> b1 >= 0x90) && (b0 == 0xF4 ==> b1 <= 0x8F)
    ensures Encoding(c) == [b0, b1, b2, b3]
  {
    FromDigits(b0 - 0xF0, b1 - 0x80, b2 - 0x80, b3 - 0x80);
    c := (b0 - 0xF0) * 0x4_0000 + (b1 - 0x80) * 0x1000 + (b2 - 0x80) * 0x40 + (b3 - 0x80);
  }

  /** The first scalar value of a well-formed text, and what follows it. */
  lemma FirstScalar(s: seq<Byte>) returns (c: Scalar, rest: seq<Byte>)
    requires Utf8(s) && s != []
    ensures s == Encoding(c) + rest && |rest| < |s| && Utf8(rest)
  {
    if s[0] < 0x80 {
      c, rest := s[0] as int, s[1..];
    } else if s[0] < 0xE0 {
      rest := s[2..];
      c := TwoBytes(s[0], s[1]);
    } else if s[0] < 0xF0 {
      rest := s[3..];
      c := ThreeBytes(s[0], s[1], s[2]);
    } else {
      rest := s[4..];
      c := FourBytes(s[0], s[1], s[2], s[3]);
    }
  }

  /** A byte string is well-formed exactly if it encodes some scalar values. */
  lemma {:induction false} Utf8IffEncoding(s: seq<Byte>)
    ensures Utf8(s) <==> exists cs :: EncodingOf(cs) == s
  {
    if Utf8(s) {
      var cs := Scalars(s);
    }
    if cs :| EncodingOf(cs) == s {
      EncodingOfIsUtf8(cs);
    }
  }

  lemma {:induction false} EncodingOfIsUtf8(cs: seq<Scalar>)
    ensures Utf8(EncodingOf(cs))
  {
    hide Encoding;
    if cs != [] {
      EncodingOfIsUtf8(cs[1..]);
      EncodingIsUtf8(cs[0], EncodingOf(cs[1..]));
    }
  }

  lemma {:induction false} Scalars(s: seq<Byte>) returns (cs: seq<Scalar>)
    requires Utf8(s)
    ensures EncodingOf(cs) == s
    decreases |s|
  {
    hide Encoding;
    cs := [];
    if s != [] {
      var c, rest := FirstScalar(s);
      var more := Scalars(rest);
      cs := [c] + more;
      assert cs[1..] == more;
    }
  }

  datatype Module = Module(name: Name, compressed: seq<Byte>)
  datatype PackError = TooManyModules | NameTooLong(index: nat) | PayloadTooLong(index: nat)

  /** `BEAMR_EMBED` and a zero byte. */
  const MAGIC: seq<Byte> := [66, 69, 65, 77, 82, 95, 69, 77, 66, 69, 68, 0]
  const VERSION: Byte := 1
  const HEADER_LEN: nat := 17
  const U16: nat := 0x1_0000
  const U32: nat := 0x1_0000_0000

  function Le16(n: nat): (r: seq<Byte>)
    requires n < U16
    ensures |r| == 2 && FromLe16(r) == n
  {
    [n % 0x100, n / 0x100]
  }

  function FromLe16(s: seq<Byte>): (n: nat)
    requires |s| == 2
    ensures n < U16
  {
    s[0] as int + 0x100 * s[1] as int
  }

  function Le32(n: nat): (r: seq<Byte>)
    requires n < U32
    ensures |r| == 4 && FromLe32(r) == n
  {
    var (second, third) := (n / 0x100, n / 0x1_0000);
    assert third == second / 0x100 && n / 0x100_0000 == third / 0x100;
    [n % 0x100, second % 0x100, third % 0x100, n / 0x100_0000]
  }

  function FromLe32(s: seq<Byte>): (n: nat)
    requires |s| == 4
    ensures n < U32
  {
    s[0] as int + 0x100 * s[1] as int + 0x1_0000 * s[2] as int + 0x100_0000 * s[3] as int
  }

  lemma Le16Back(s: seq<Byte>)
    requires |s| == 2
    ensures Le16(FromLe16(s)) == s
  {
  }

  lemma Le32Back(s: seq<Byte>)
    requires |s| == 4
    ensures Le32(FromLe32(s)) == s
  {
    var n, b1, b2, b3: int := FromLe32(s), s[1] as int, s[2] as int, s[3] as int;
    assert n / 0x100 == b1 + 0x100 * b2 + 0x1_0000 * b3;
    assert n / 0x1_0000 == b2 + 0x100 * b3;
    assert n / 0x100_0000 == b3;
  }

  predicate Fits(m: Module) {
    |m.name| < U16 && |m.compressed| < U32
  }

  predicate WithinLimits(ms: seq<Module>) {
    |ms| < U32 && forall i :: 0 <= i < |ms| ==> Fits(ms[i])
  }

  // --- The layout ---

  function Entry(m: Module): (r: seq<Byte>)
    requires Fits(m)
  {
    Le16(|m.name|) + m.name + Le32(|m.compressed|) + m.compressed
  }

  function Entries(ms: seq<Module>): (r: seq<Byte>)
    requires forall i :: 0 <= i < |ms| ==> Fits(ms[i])
  {
    if ms == [] then [] else Entry(ms[0]) + Entries(ms[1..])
  }

  function Layout(ms: seq<Module>): (r: seq<Byte>)
    requires WithinLimits(ms)
  {
    MAGIC + [VERSION] + Le32(|ms|) + Entries(ms)
  }

  lemma {:induction false} EntriesAppend(ms: seq<Module>, m: Module)
    requires Fits(m) && forall i :: 0 <= i < |ms| ==> Fits(ms[i])
    ensures Entries(ms + [m]) == Entries(ms) + Entry(m)
  {
    if ms == [] {
      assert [] + [m] == [m];
      assert [m][1..] == [];
      assert Entries([]) == [];
      assert Entries([m]) == Entry(m) + Entries([m][1..]);
      assert Entry(m) + [] == Entry(m);
    } else {
      EntriesAppend(ms[1..], m);
      assert (ms + [m])[1..] == ms[1..] + [m];
    }
  }

  // --- Packing ---

  /** The archive of the modules, or the first limit they break. */
  method ArchivePack(modules: seq<Module>) returns (r: Result<seq<Byte>, PackError>)
    ensures r.Ok? <==> WithinLimits(modules)
    ensures r.Ok? ==> r.value == Layout(modules) && Parsed(r.value) == Some(modules)
    // the limits, the header and the entries, spelled out
    ensures r.Ok? <==> |modules| < 4294967296 && forall i :: 0 <= i < |modules| ==>
                         |modules[i].name| < 65536 && |modules[i].compressed| < 4294967296
    ensures r.Ok? ==>
              var n := |modules|;
              |r.value| >= 17
              && r.value[..13] == [66, 69, 65, 77, 82, 95, 69, 77, 66, 69, 68, 0, 1]
              && r.value[13..17] == [n % 256, n / 256 % 256, n / 65536 % 256, n / 16777216]
    ensures r.Ok? ==> exists at :: EntriesStand(r.value, modules, at)
    ensures r.Err? ==>
              match r.error
              case TooManyModules => |modules| >= U32
              case NameTooLong(i) => FirstUnfit(modules, i) && |modules[i].name| >= U16
              case PayloadTooLong(i) => FirstUnfit(modules, i) && |modules[i].name| < U16
  {
    hide Entry, Le16, Le32, Utf8, Parsed, EntriesStand, IsEntry;
    NoEntriesYet();
    var packed := EmptyArchiveBytes();
    if |modules| >= U32 {
      return Err(TooManyModules);
    }
    packed := packed[..|MAGIC| + 1] + Le32(|modules|) + packed[HEADER_LEN..];
    ghost var header := packed;
    assert header == MAGIC + [VERSION] + Le32(|modules|);
    ghost var at: seq<nat> := [17];
    for i := 0 to |modules|
      invariant forall j :: 0 <= j < i ==> Fits(modules[j])
      invariant packed == header + Entries(modules[..i]) && EntriesStand(packed, modules[..i], at)
    {
      ghost var before := packed;
      var written := WriteEntry(packed, modules[i].name, modules[i].compressed, i);
      if written.Err? {
        return Err(written.error);
      }
      packed := written.value;
      EntriesAppend(modules[..i], modules[i]);
      ghost var entry :| packed == before + entry && IsEntry(entry, modules[i]);
      EntriesStandNext(before, modules[..i], at, entry, modules[i]);
      at := at + [|packed|];
      assert modules[..i + 1] == modules[..i] + [modules[i]];
    }
    assert modules[..|modules|] == modules;
    ParsedIffPacked(packed, modules);
    HeaderBytes(packed, |modules|);
    return Ok(packed);
  }

  lemma HeaderBytes(bytes: seq<Byte>, n: nat)
    requires n < U32 && MAGIC + [VERSION] + Le32(n) <= bytes
    ensures |bytes| >= 17 && bytes[..13] == [66, 69, 65, 77, 82, 95, 69, 77, 66, 69, 68, 0, 1]
    ensures bytes[13..17] == [n % 256, n / 256 % 256, n / 65536 % 256, n / 16777216]
  {
    assert MAGIC + [VERSION] == [66, 69, 65, 77, 82, 95, 69, 77, 66, 69, 68, 0, 1];
    assert bytes[13..17] == Le32(n);
  }

  /** The entry of a module: the length of its name in two bytes, low byte first, the name,
      the length of its payload in four, and the payload. */
  ghost predicate EntryStands(bytes: seq<Byte>, from: nat, to: nat, m: Module) {
    from <= to <= |bytes| && IsEntry(bytes[from..to], m)
  }

  ghost predicate IsEntry(entry: seq<Byte>, m: Module) {
    && |m.name| < 65536 && |m.compressed| < 4294967296
    && var n, k := |m.name|, |m.compressed|;
       entry == [n % 256, n / 256] + m.name + [k % 256, k / 256 % 256, k / 65536 % 256, k / 16777216] + m.compressed
  }

  /** The entries stand in order, back to back, from the header to the end. */
  ghost predicate EntriesStand(bytes: seq<Byte>, ms: seq<Module>, at: seq<nat>) {
    && |at| == |ms| + 1 && at[0] == 17 && at[|ms|] == |bytes|
    && forall i :: 0 <= i < |ms| ==> EntryStands(bytes, at[i], at[i + 1], ms[i])
  }

  lemma NoEntriesYet()
    ensures forall bytes: seq<Byte> :: |bytes| == 17 ==> EntriesStand(bytes, [], [17])
  {
  }

  lemma EntriesStandNext(bytes: seq<Byte>, ms: seq<Module>, at: seq<nat>, entry: seq<Byte>, m: Module)
    requires EntriesStand(bytes, ms, at) && IsEntry(entry, m)
    ensures EntriesStand(bytes + entry, ms + [m], at + [|bytes + entry|])
  {
    hide Utf8, IsEntry;
    var n, more := |ms|, bytes + entry;
    var to := at + [|more|];
    forall i | 0 <= i < n + 1
      ensures EntryStands(more, to[i], to[i + 1], (ms + [m])[i])
    {
      if i < n {
        assert EntryStands(bytes, at[i], at[i + 1], ms[i]);
        assert more[at[i]..at[i + 1]] == bytes[at[i]..at[i + 1]];
      } else {
        assert more[|bytes|..|more|] == entry;
      }
    }
  }

  ghost predicate FirstUnfit(ms: seq<Module>, i: nat) {
    i < |ms| < U32 && !Fits(ms[i]) && forall j :: 0 <= j < i ==> Fits(ms[j])
  }

  method EmptyArchiveBytes() returns (bytes: seq<Byte>)
    ensures |bytes| == HEADER_LEN && bytes == MAGIC + [VERSION] + Le32(0)
    ensures bytes == [66, 69, 65, 77, 82, 95, 69, 77, 66, 69, 68, 0, 1, 0, 0, 0, 0]
  {
    bytes := MAGIC;
    bytes := bytes + [VERSION];
    bytes := bytes + Le32(0);
  }

  method WriteEntry(output: seq<Byte>, name: Name, compressed: seq<Byte>, index: nat)
    returns (r: Result<seq<Byte>, PackError>)
    ensures r.Ok? <==> Fits(Module(name, compressed))
    ensures r.Ok? ==> r.value == output + Entry(Module(name, compressed))
    // both lengths are little-endian, of two and of four bytes
    ensures r.Ok? ==> exists entry :: r.value == output + entry && IsEntry(entry, Module(name, compressed))
    ensures r.Err? ==> r.error == if |name| >= U16 then NameTooLong(index) else PayloadTooLong(index)
  {
    if |name| >= U16 {
      return Err(NameTooLong(index));
    }
    if |compressed| >= U32 {
      return Err(PayloadTooLong(index));
    }
    var out := output;
    out := out + Le16(|name|);
    out := out + name;
    out := out + Le32(|compressed|);
    out := out + compressed;
    assert out == output + Entry(Module(name, compressed));
    assert IsEntry(Entry(Module(name, compressed)), Module(name, compressed));
    return Ok(out);
  }

  // --- Parsing ---

  /** One entry off the front, and what follows it. */
  function ReadEntry(s: seq<Byte>): (r: Option<(Module, seq<Byte>)>)
    ensures r.Some? ==> |r.value.1| < |s|
  {
    if |s| < 2 then None else
    var n := FromLe16(s[..2]);
    if |s| < 2 + n then None else
    var name := s[2..2 + n];
    if !Utf8(name) || |s| < 6 + n then None else
    var len := FromLe32(s[2 + n..6 + n]);
    if |s| < 6 + n + len then None
    else Some((Module(name, s[6 + n..6 + n + len]), s[6 + n + len..]))
  }

  /** Exactly `count` entries and then the end. */
  function ReadEntries(s: seq<Byte>, count: nat): (r: Option<seq<Module>>) {
    if count == 0 then
      if s == [] then Some([]) else None
    else
      match ReadEntry(s)
      case None => None
      case Some((m, rest)) =>
        match ReadEntries(rest, count - 1)
        case None => None
        case Some(ms) => Some([m] + ms)
  }

  function Parsed(bytes: seq<Byte>): (r: Option<seq<Module>>) {
    if |bytes| < HEADER_LEN || bytes[..|MAGIC|] != MAGIC || bytes[|MAGIC|] != VERSION then None
    else ReadEntries(bytes[HEADER_LEN..], FromLe32(bytes[|MAGIC| + 1..HEADER_LEN]))
  }

  /** The loader's parser, with its one cursor. */
  method Parse(bytes: seq<Byte>) returns (r: Option<seq<Module>>)
    ensures r == Parsed(bytes)
    ensures r.Some? <==> exists ms :: WithinLimits(ms) && bytes == Layout(ms)
    ensures r.Some? ==> WithinLimits(r.value) && bytes == Layout(r.value)
  {
    hide ReadEntry, Layout, FromLe32;
    ParsesIffLaidOut(bytes);
    if |bytes| < HEADER_LEN {
      return None;
    }
    if bytes[..|MAGIC|] != MAGIC {
      return None;
    }
    var cursor := |MAGIC|;
    if bytes[cursor] != VERSION {
      return None;
    }
    cursor := cursor + 1;
    var count := FromLe32(bytes[cursor..cursor + 4]);
    cursor := cursor + 4;
    var entries: seq<Module> := [];
    PrependNothing(ReadEntries(bytes[cursor..], count));
    for i := 0 to count
      invariant cursor <= |bytes|
      invariant Parsed(bytes) == Prepended(entries, ReadEntries(bytes[cursor..], count - i))
    {
      var next := ParseEntry(bytes, cursor);
      if next.None? {
        return None;
      }
      var (m, end) := next.value;
      PrependNext(entries, m, ReadEntries(bytes[end..], count - i - 1));
      entries := entries + [m];
      cursor := end;
    }
    assert Parsed(bytes) == Prepended(entries, ReadEntries(bytes[cursor..], 0));
    if cursor != |bytes| {
      return None;
    }
    assert bytes[cursor..] == [] && entries + [] == entries;
    return Some(entries);
  }

  method ParseEntry(bytes: seq<Byte>, start: nat) returns (r: Option<(Module, nat)>)
    requires start <= |bytes|
    ensures r.None? <==> ReadEntry(bytes[start..]).None?
    ensures r.Some? ==> r.value.1 <= |bytes| && ReadEntry(bytes[start..]) == Some((r.value.0, bytes[r.value.1..]))
  {
    hide Utf8, FromLe16, FromLe32;
    var cursor := start;
    ghost var s := bytes[start..];
    var head := ReadSlice(bytes, cursor, 2);
    if head.None? { return None; }
    cursor := cursor + 2;
    var n := FromLe16(head.value);
    assert s[..2] == head.value;
    var name := ReadSlice(bytes, cursor, n);
    if name.None? { return None; }
    cursor := cursor + n;
    assert s[2..2 + n] == name.value;
    if !Utf8(name.value) { return None; }
    var size := ReadSlice(bytes, cursor, 4);
    if size.None? { return None; }
    cursor := cursor + 4;
    assert s[2 + n..6 + n] == size.value;
    var len := FromLe32(size.value);
    var payload := ReadSlice(bytes, cursor, len);
    if payload.None? { return None; }
    cursor := cursor + len;
    assert s[6 + n..6 + n + len] == payload.value && s[6 + n + len..] == bytes[cursor..];
    return Some((Module(name.value, payload.value), cursor));
  }

  method ReadSlice(bytes: seq<Byte>, cursor: nat, len: nat) returns (r: Option<seq<Byte>>)
    requires cursor <= |bytes|
    ensures r == if cursor + len <= |bytes| then Some(bytes[cursor..cursor + len]) else None
  {
    var end := cursor + len;
    if end > |bytes| {
      return None;
    }
    return Some(bytes[cursor..end]);
  }

  function Prepended(ms: seq<Module>, rest: Option<seq<Module>>): Option<seq<Module>> {
    match rest
    case None => None
    case Some(more) => Some(ms + more)
  }

  lemma PrependNothing(rest: Option<seq<Module>>)
    ensures Prepended([], rest) == rest
  {
    if rest.Some? {
      assert [] + rest.value == rest.value;
    }
  }

  lemma PrependNext(ms: seq<Module>, m: Module, rest: Option<seq<Module>>)
    ensures Prepended(ms + [m], rest) == Prepended(ms, Prepended([m], rest))
  {
    if rest.Some? {
      assert ms + [m] + rest.value == ms + ([m] + rest.value);
    }
  }

  // --- Round trips ---

  lemma ReadWritten(m: Module, rest: seq<Byte>)
    requires Fits(m)
    ensures ReadEntry(Entry(m) + rest) == Some((m, rest))
  {
    hide Utf8, Le16, Le32, FromLe16, FromLe32;
    var s := Entry(m) + rest;
    var n, len := |m.name|, |m.compressed|;
    assert s[..2] == Le16(n);
    assert s[2..2 + n] == m.name;
    assert s[2 + n..6 + n] == Le32(len);
    assert s[6 + n..6 + n + len] == m.compressed;
    assert s[6 + n + len..] == rest;
  }

  lemma WrittenRead(s: seq<Byte>)
    requires ReadEntry(s).Some?
    ensures var (m, rest) := ReadEntry(s).value; Fits(m) && s == Entry(m) + rest
  {
    hide Utf8, Le16, Le32, FromLe16, FromLe32;
    var (m, rest) := ReadEntry(s).value;
    var n, len := |m.name|, |m.compressed|;
    Le16Back(s[..2]);
    Le32Back(s[2 + n..6 + n]);
    assert s == s[..2] + s[2..2 + n] + s[2 + n..6 + n] + s[6 + n..6 + n + len] + s[6 + n + len..];
  }

  lemma {:induction false} EntriesRead(ms: seq<Module>)
    requires forall i :: 0 <= i < |ms| ==> Fits(ms[i])
    ensures ReadEntries(Entries(ms), |ms|) == Some(ms)
  {
    hide ReadEntry, Entry;
    if ms != [] {
      ReadWritten(ms[0], Entries(ms[1..]));
      EntriesRead(ms[1..]);
      assert ms == [ms[0]] + ms[1..];
    }
  }

  lemma {:induction false} ReadAreEntries(s: seq<Byte>, count: nat)
    requires ReadEntries(s, count).Some?
    ensures var ms := ReadEntries(s, count).value;
            |ms| == count && (forall i :: 0 <= i < |ms| ==> Fits(ms[i])) && s == Entries(ms)
    decreases count
  {
    hide ReadEntry, Entry;
    if count > 0 {
      var (m, rest) := ReadEntry(s).value;
      WrittenRead(s);
      ReadAreEntries(rest, count - 1);
      var ms := ReadEntries(s, count).value;
      assert ms[0] == m && ms[1..] == ReadEntries(rest, count - 1).value;
    }
  }

  /** An archive has one parse: the module list it was packed from. */
  lemma ParsedIffPacked(bytes: seq<Byte>, ms: seq<Module>)
    ensures Parsed(bytes) == Some(ms) <==> WithinLimits(ms) && bytes == Layout(ms)
  {
    hide ReadEntries, Entries, Le32, FromLe32;
    if WithinLimits(ms) && bytes == Layout(ms) {
      EntriesRead(ms);
      assert bytes[..|MAGIC|] == MAGIC;
      assert bytes[|MAGIC| + 1..HEADER_LEN] == Le32(|ms|);
      assert bytes[HEADER_LEN..] == Entries(ms);
    }
    if Parsed(bytes) == Some(ms) {
      var count := bytes[|MAGIC| + 1..HEADER_LEN];
      ReadAreEntries(bytes[HEADER_LEN..], FromLe32(count));
      Le32Back(count);
      assert bytes == bytes[..|MAGIC|] + [bytes[|MAGIC|]] + count + bytes[HEADER_LEN..];
    }
  }

  lemma ParsesIffLaidOut(bytes: seq<Byte>)
    ensures Parsed(bytes).Some? <==> exists ms :: WithinLimits(ms) && bytes == Layout(ms)
    ensures Parsed(bytes).Some? ==> WithinLimits(Parsed(bytes).value) && bytes == Layout(Parsed(bytes).value)
  {
    hide Parsed, Layout;
    if Parsed(bytes).Some? {
      ParsedIffPacked(bytes, Parsed(bytes).value);
    }
    if ms :| WithinLimits(ms) && bytes == Layout(ms) {
      ParsedIffPacked(bytes, ms);
    }
  }
}
