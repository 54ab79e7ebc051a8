/** The bundle's Base64 printer, against the decoder of section 4 of RFC 4648. */
module Base64 {
  import opened Wrappers

  const UPPER := "ABCDEFGHIJKLMNOPQRSTUVWXYZ"
  const LOWER := "abcdefghijklmnopqrstuvwxyz"
  const REST := "0123456789+/"
  const TABLE: string := UPPER + LOWER + REST

  // --- The decoder ---

  function Value(c: char): (v: Option<nat>)
    ensures v.Some? ==> v.value < 64 && c != '='
  {
    if 'A' <= c <= 'Z' then Some(c as nat - 'A' as nat)
    else if 'a' <= c <= 'z' then Some(c as nat - 'a' as nat + 26)
    else if '0' <= c <= '9' then Some(c as nat - '0' as nat + 52)
    else if c == '+' then Some(62)
    else if c == '/' then Some(63)
    else None
  }

  function Sextet(c: char): (v: Option<bv8>)
    ensures v.Some? ==> c != '='
  {
    if Value(c).None? then None else Some(Value(c).value as bv8)
  }

  /** Four sextets make one 24-bit group, most significant first. */
  function Group(v0: bv8, v1: bv8, v2: bv8, v3: bv8): bv32 {
    ((v0 as bv32) << 18) | ((v1 as bv32) << 12) | ((v2 as bv32) << 6) | (v3 as bv32)
  }

  function Octet(group: bv32, i: nat): bv8
    requires i < 3
  {
    (if i == 0 then (group >> 16) & 0xff else if i == 1 then (group >> 8) & 0xff else group & 0xff) as bv8
  }

  function DecodeFull(c0: char, c1: char, c2: char, c3: char): (r: Option<seq<bv8>>) {
    match (Sextet(c0), Sextet(c1), Sextet(c2), Sextet(c3))
    case (Some(v0), Some(v1), Some(v2), Some(v3)) =>
      var g := Group(v0, v1, v2, v3);
      Some([Octet(g, 0), Octet(g, 1), Octet(g, 2)])
    case _ => None
  }

  /** The final group may be padded; the bits that padding leaves over must be zero. */
  function DecodeLast(c0: char, c1: char, c2: char, c3: char): (r: Option<seq<bv8>>) {
    if c3 != '=' then DecodeFull(c0, c1, c2, c3)
    else if c2 != '=' then
      match (Sextet(c0), Sextet(c1), Sextet(c2))
      case (Some(v0), Some(v1), Some(v2)) =>
        var g := Group(v0, v1, v2, 0);
        if Octet(g, 2) == 0 then Some([Octet(g, 0), Octet(g, 1)]) else None
      case _ => None
    else
      match (Sextet(c0), Sextet(c1))
      case (Some(v0), Some(v1)) =>
        var g := Group(v0, v1, 0, 0);
        if Octet(g, 1) == 0 then Some([Octet(g, 0)]) else None
      case _ => None
  }

  function Decode(s: string): (r: Option<seq<bv8>>) {
    if s == [] then Some([])
    else if |s| < 4 then None
    else if |s| == 4 then DecodeLast(s[0], s[1], s[2], s[3])
    else
      match (DecodeFull(s[0], s[1], s[2], s[3]), Decode(s[4..]))
      case (Some(group), Some(rest)) => Some(group + rest)
      case _ => None
  }

  // --- The printer ---

  function Symbol(v: bv8): char
    requires v < 64
  {
    TableSize(v);
    TABLE[v as nat]
  }

  function First(b0: bv8): (v: bv8)
    ensures v < 64
  {
    b0 >> 2
  }

  function Second(b0: bv8, b1: bv8): (v: bv8)
    ensures v < 64
  {
    ((b0 & 0x3) << 4) | (b1 >> 4)
  }

  function Third(b1: bv8, b2: bv8): (v: bv8)
    ensures v < 64
  {
    ((b1 & 0xf) << 2) | (b2 >> 6)
  }

  function Fourth(b2: bv8): (v: bv8)
    ensures v < 64
  {
    b2 & 0x3f
  }

  /** The text of one chunk of at most three bytes. */
  function Chunk(chunk: seq<bv8>): (r: string)
    requires 1 <= |chunk| <= 3
    ensures |r| == 4
  {
    var b1 := if |chunk| > 1 then chunk[1] else 0;
    var b2 := if |chunk| > 2 then chunk[2] else 0;
    [Symbol(First(chunk[0])), Symbol(Second(chunk[0], b1)),
     if |chunk| > 1 then Symbol(Third(b1, b2)) else '=',
     if |chunk| > 2 then Symbol(Fourth(b2)) else '=']
  }

  function Encoded(bytes: seq<bv8>): (r: string)
    ensures |r| == (|bytes| + 2) / 3 * 4
  {
    if bytes == [] then []
    else if |bytes| <= 3 then Chunk(bytes)
    else Chunk(bytes[..3]) + Encoded(bytes[3..])
  }

  method Encode(bytes: seq<bv8>) returns (output: string)
    ensures output == Encoded(bytes)
    ensures Decode(output) == Some(bytes) && |output| == (|bytes| + 2) / 3 * 4
  {
    hide Encoded, Decode, Chunk;
    output := [];
    assert bytes[0..] == bytes;
    var i := 0;
    while i < |bytes|
      invariant i <= |bytes| && Encoded(bytes) == output + Encoded(bytes[i..])
    {
      var chunk := bytes[i..if i + 3 <= |bytes| then i + 3 else |bytes|];
      output := PutChunk(output, chunk);
      NextChunk(bytes[i..]);
      assert bytes[i..][..|chunk|] == chunk && bytes[i..][|chunk|..] == bytes[i + |chunk|..];
      i := i + |chunk|;
    }
    EncodedNothing(bytes[i..]);
    DecodeIffEncoded(output, bytes);
  }

  /** Four symbols for up to three bytes. */
  method PutChunk(before: string, chunk: seq<bv8>) returns (output: string)
    requires 1 <= |chunk| <= 3
    ensures output == before + Chunk(chunk)
  {
    hide Symbol, First, Second, Third, Fourth, UPPER, LOWER, REST, TABLE;
    var b0 := chunk[0];
    var b1 := if |chunk| > 1 then chunk[1] else 0;
    var b2 := if |chunk| > 2 then chunk[2] else 0;
    output := before + [Symbol(First(b0))];
    output := output + [Symbol(Second(b0, b1))];
    if |chunk| > 1 {
      output := output + [Symbol(Third(b1, b2))];
    } else {
      output := output + ['='];
    }
    if |chunk| > 2 {
      output := output + [Symbol(Fourth(b2))];
    } else {
      output := output + ['='];
    }
  }

  lemma EncodedNothing(bytes: seq<bv8>)
    requires bytes == []
    ensures Encoded(bytes) == []
  {
  }

  lemma NextChunk(rest: seq<bv8>)
    requires rest != []
    ensures var n := if |rest| < 3 then |rest| else 3;
            Encoded(rest) == Chunk(rest[..n]) + Encoded(rest[n..])
  {
    hide Chunk;
    if |rest| <= 3 {
      assert rest[..|rest|] == rest;
    }
  }

  // --- The alphabet ---

  lemma UpperAt(i: nat)
    requires i < 26
    ensures UPPER[i] as nat == 'A' as nat + i
  {
  }

  lemma LowerAt(i: nat)
    requires i < 26
    ensures LOWER[i] as nat == 'a' as nat + i
  {
  }

  lemma RestAt(i: nat)
    requires i < 12
    ensures if i < 10 then REST[i] as nat == '0' as nat + i else REST[i] == if i == 10 then '+' else '/'
  {
  }

  lemma TableAt(i: nat)
    requires i < 64
    ensures |TABLE| == 64
    ensures TABLE[i] == if i < 26 then UPPER[i] else if i < 52 then LOWER[i - 26] else REST[i - 52]
  {
  }

  lemma TableSize(v: bv8)
    requires v < 64
    ensures v as nat < |TABLE|
  {
  }

  lemma TableValue(i: nat)
    requires i < 64
    ensures |TABLE| == 64 && Value(TABLE[i]) == Some(i)
  {
    hide UPPER, LOWER, REST, TABLE;
    TableAt(i);
    if i < 26 { UpperAt(i); } else if i < 52 { LowerAt(i - 26); } else { RestAt(i - 52); }
  }

  lemma SextetSymbol(v: bv8)
    requires v < 64
    ensures Sextet(Symbol(v)) == Some(v) && Symbol(v) != '='
  {
    hide UPPER, LOWER, REST, TABLE, Value;
    TableValue(v as nat);
  }

  lemma ValueTable(c: char)
    requires Value(c).Some?
    ensures |TABLE| == 64 && TABLE[Value(c).value] == c
  {
    hide UPPER, LOWER, REST, TABLE;
    var i := Value(c).value;
    TableAt(i);
    if i < 26 { UpperAt(i); } else if i < 52 { LowerAt(i - 26); } else { RestAt(i - 52); }
  }

  lemma SmallBits(i: nat)
    requires i < 64
    ensures i as bv8 < 64 && (i as bv8) as nat == i
  {
  }

  lemma SymbolSextet(c: char)
    requires Sextet(c).Some?
    ensures Sextet(c).value < 64 && Symbol(Sextet(c).value) == c
  {
    hide UPPER, LOWER, REST, TABLE, Value;
    ValueTable(c);
    SmallBits(Value(c).value);
  }

  // --- Round trips ---

  /** The test vectors of section 10 of RFC 4648, and one with the last two symbols. */
  lemma TestVectors()
    ensures Encoded([]) == "" && Encoded([102]) == "Zg==" && Encoded([102, 111]) == "Zm8="
    ensures Encoded([102, 111, 111]) == "Zm9v" && Encoded([102, 111, 111, 98]) == "Zm9vYg=="
    ensures Encoded([102, 111, 111, 98, 97]) == "Zm9vYmE=" && Encoded([102, 111, 111, 98, 97, 114]) == "Zm9vYmFy"
    ensures Encoded([251, 240]) == "+/A="
  {
    hide Symbol;
    VectorSymbols();
    assert Encoded([]) == [];
    assert Chunk([102, 111, 111]) == "Zm9v";
    assert [102, 111, 111, 98][..3] == [102, 111, 111] && [102, 111, 111, 98][3..] == [98];
    assert [102, 111, 111, 98, 97][..3] == [102, 111, 111] && [102, 111, 111, 98, 97][3..] == [98, 97];
    assert [102, 111, 111, 98, 97, 114][..3] == [102, 111, 111];
    assert [102, 111, 111, 98, 97, 114][3..] == [98, 97, 114];
  }

  lemma VectorSymbols()
    ensures Symbol(0) == 'A' && Symbol(4) == 'E' && Symbol(5) == 'F' && Symbol(24) == 'Y' && Symbol(25) == 'Z'
    ensures Symbol(32) == 'g' && Symbol(38) == 'm' && Symbol(47) == 'v' && Symbol(50) == 'y'
    ensures Symbol(60) == '8' && Symbol(61) == '9' && Symbol(62) == '+' && Symbol(63) == '/'
  {
    hide Symbol;
    UpperSymbols();
    LowerSymbols();
    RestSymbols();
  }

  lemma UpperSymbols()
    ensures Symbol(0) == 'A' && Symbol(4) == 'E' && Symbol(5) == 'F' && Symbol(24) == 'Y' && Symbol(25) == 'Z'
  {
    hide Symbol;
    SymbolSextet('A');
    SymbolSextet('E');
    SymbolSextet('F');
    SymbolSextet('Y');
    SymbolSextet('Z');
  }

  lemma LowerSymbols()
    ensures Symbol(32) == 'g' && Symbol(38) == 'm' && Symbol(47) == 'v' && Symbol(50) == 'y'
  {
    hide Symbol;
    SymbolSextet('g');
    SymbolSextet('m');
    SymbolSextet('v');
    SymbolSextet('y');
  }

  lemma RestSymbols()
    ensures Symbol(60) == '8' && Symbol(61) == '9' && Symbol(62) == '+' && Symbol(63) == '/'
  {
    hide Symbol;
    SymbolSextet('8');
    SymbolSextet('9');
    SymbolSextet('+');
    SymbolSextet('/');
  }

  lemma OctetsBack(b0: bv8, b1: bv8, b2: bv8)
    ensures var g := Group(First(b0), Second(b0, b1), Third(b1, b2), Fourth(b2));
            Octet(g, 0) == b0 && Octet(g, 1) == b1 && Octet(g, 2) == b2
  {
  }

  lemma SextetsBack(v0: bv8, v1: bv8, v2: bv8, v3: bv8)
    requires v0 < 64 && v1 < 64 && v2 < 64 && v3 < 64
    ensures var g := Group(v0, v1, v2, v3);
            var b0, b1, b2 := Octet(g, 0), Octet(g, 1), Octet(g, 2);
            v0 == First(b0) && v1 == Second(b0, b1) && v2 == Third(b1, b2) && v3 == Fourth(b2)
  {
  }

  lemma PaddingBits(b0: bv8, b1: bv8)
    ensures Fourth(0) == 0 && Third(0, 0) == 0
  {
  }

  lemma FullChunk(b0: bv8, b1: bv8, b2: bv8)
    ensures var t := Chunk([b0, b1, b2]); t[3] != '=' && DecodeFull(t[0], t[1], t[2], t[3]) == Some([b0, b1, b2])
  {
    hide Symbol, Sextet, First, Second, Third, Fourth, Group, Octet;
    SextetSymbol(First(b0));
    SextetSymbol(Second(b0, b1));
    SextetSymbol(Third(b1, b2));
    SextetSymbol(Fourth(b2));
    OctetsBack(b0, b1, b2);
  }

  lemma LastChunk(chunk: seq<bv8>)
    requires 1 <= |chunk| <= 3
    ensures var t := Chunk(chunk); DecodeLast(t[0], t[1], t[2], t[3]) == Some(chunk)
  {
    hide Symbol, Sextet, First, Second, Third, Fourth, Group, Octet;
    var b0 := chunk[0];
    var b1 := if |chunk| > 1 then chunk[1] else 0;
    var b2 := if |chunk| > 2 then chunk[2] else 0;
    PaddingBits(b0, b1);
    SextetSymbol(First(b0));
    SextetSymbol(Second(b0, b1));
    SextetSymbol(Third(b1, b2));
    SextetSymbol(Fourth(b2));
    OctetsBack(b0, b1, b2);
    if |chunk| == 3 {
      FullChunk(b0, b1, b2);
      assert chunk == [b0, b1, b2];
    } else if |chunk| == 2 {
      assert chunk == [b0, b1];
    } else {
      assert chunk == [b0];
    }
  }

  lemma FullDecoded(c0: char, c1: char, c2: char, c3: char)
    requires DecodeFull(c0, c1, c2, c3).Some?
    ensures Chunk(DecodeFull(c0, c1, c2, c3).value) == [c0, c1, c2, c3]
  {
    hide Symbol, Sextet, First, Second, Third, Fourth, Group, Octet;
    SymbolSextet(c0);
    SymbolSextet(c1);
    SymbolSextet(c2);
    SymbolSextet(c3);
    SextetsBack(Sextet(c0).value, Sextet(c1).value, Sextet(c2).value, Sextet(c3).value);
  }

  lemma LastDecoded(c0: char, c1: char, c2: char, c3: char)
    requires DecodeLast(c0, c1, c2, c3).Some?
    ensures var r := DecodeLast(c0, c1, c2, c3).value; 1 <= |r| <= 3 && Chunk(r) == [c0, c1, c2, c3]
  {
    hide Symbol, Sextet, First, Second, Third, Fourth, Group, Octet;
    if c3 != '=' {
      FullDecoded(c0, c1, c2, c3);
    } else {
      SymbolSextet(c0);
      SymbolSextet(c1);
      if c2 != '=' {
        SymbolSextet(c2);
        SextetsBack(Sextet(c0).value, Sextet(c1).value, Sextet(c2).value, 0);
      } else {
        SextetsBack(Sextet(c0).value, Sextet(c1).value, 0, 0);
      }
    }
  }

  /** The printed text is the one canonical text that decodes to the bytes. */
  lemma {:induction false} DecodeIffEncoded(s: string, bytes: seq<bv8>)
    ensures Decode(s) == Some(bytes) <==> s == Encoded(bytes)
    decreases |s| + |bytes|
  {
    hide Chunk, DecodeLast, DecodeFull;
    EncodedDecodes(bytes);
    if Decode(s) == Some(bytes) {
      DecodedEncodes(s);
    }
  }

  lemma {:induction false} EncodedDecodes(bytes: seq<bv8>)
    ensures Decode(Encoded(bytes)) == Some(bytes)
  {
    hide Chunk, DecodeLast, DecodeFull;
    if bytes == [] {
    } else if |bytes| <= 3 {
      LastChunk(bytes);
    } else {
      EncodedDecodes(bytes[3..]);
      FullChunk(bytes[0], bytes[1], bytes[2]);
      assert bytes[..3] == [bytes[0], bytes[1], bytes[2]];
      var t, rest := Chunk(bytes[..3]), Encoded(bytes[3..]);
      assert (t + rest)[4..] == rest && |t + rest| > 4;
      assert bytes == bytes[..3] + bytes[3..];
    }
  }

  lemma {:induction false} DecodedEncodes(s: string)
    requires Decode(s).Some?
    ensures Encoded(Decode(s).value) == s
  {
    hide Chunk, DecodeLast;
    if s == [] {
    } else if |s| == 4 {
      LastDecoded(s[0], s[1], s[2], s[3]);
    } else {
      DecodedEncodes(s[4..]);
      FullDecoded(s[0], s[1], s[2], s[3]);
      var group, rest := DecodeFull(s[0], s[1], s[2], s[3]).value, Decode(s[4..]).value;
      assert (group + rest)[..3] == group && (group + rest)[3..] == rest;
      assert s == [s[0], s[1], s[2], s[3]] + s[4..];
    }
  }
}
