/** The bundle's string printer, against the string grammar of section 7 of RFC 8259. */
module JsString {
  import opened Wrappers

  // --- The reader ---

  function HexValue(c: char): (v: Option<nat>)
    ensures v.Some? ==> v.value < 16
  {
    if '0' <= c <= '9' then Some(c as nat - '0' as nat)
    else if 'a' <= c <= 'f' then Some(c as nat - 'a' as nat + 10)
    else if 'A' <= c <= 'F' then Some(c as nat - 'A' as nat + 10)
    else None
  }

  /** Four hexadecimal digits. A surrogate stands for no character on its own. */
  function ReadHex(h0: char, h1: char, h2: char, h3: char): (c: Option<char>) {
    match (HexValue(h0), HexValue(h1), HexValue(h2), HexValue(h3))
    case (Some(v0), Some(v1), Some(v2), Some(v3)) =>
      var code := v0 * 0x1000 + v1 * 0x100 + v2 * 0x10 + v3;
      if 0xD800 <= code < 0xE000 then None else Some(code as char)
    case _ => None
  }

  /** The character of a one-letter escape. */
  function Letter(c: char): (r: Option<char>) {
    match c
    case '"' => Some('"')
    case '\\' => Some('\\')
    case '/' => Some('/')
    case 'b' => Some(0x8 as char)
    case 'f' => Some(0xC as char)
    case 'n' => Some('\n')
    case 'r' => Some('\r')
    case 't' => Some('\t')
    case _ => None
  }

  /** One character of a string body, and what follows it. */
  function ReadChar(s: string): (r: Option<(char, string)>)
    ensures r.Some? ==> |r.value.1| < |s|
  {
    if s == [] || s[0] == '"' || s[0] as nat < 0x20 then None
    else if s[0] != '\\' then Some((s[0], s[1..]))
    else if |s| < 2 then None
    else if s[1] != 'u' then
      match Letter(s[1])
      case None => None
      case Some(c) => Some((c, s[2..]))
    else if |s| < 6 then None
    else
      match ReadHex(s[2], s[3], s[4], s[5])
      case None => None
      case Some(c) => Some((c, s[6..]))
  }

  /** Characters up to the closing quote, which must end the text. */
  function ReadBody(s: string): (r: Option<string>) {
    if s == "\"" then Some("")
    else
      match ReadChar(s)
      case None => None
      case Some((c, rest)) =>
        match ReadBody(rest)
        case None => None
        case Some(more) => Some([c] + more)
  }

  function ReadString(s: string): (r: Option<string>) {
    if s == [] || s[0] != '"' then None else ReadBody(s[1..])
  }

  // --- The printer ---

  /** The control characters of Unicode: C0, delete and C1. */
  predicate IsControl(c: char) {
    c as nat < 0x20 || 0x7F <= c as nat < 0xA0
  }

  const DIGITS := "0123456789abcdef"

  /** At least four lower-case hexadecimal digits, zero-padded; `n` never needs more. */
  function Hex4(n: nat): (r: string)
    requires n < 0x1_0000
    ensures |r| == 4
  {
    [DIGITS[n / 0x1000], DIGITS[n / 0x100 % 0x10], DIGITS[n / 0x10 % 0x10], DIGITS[n % 0x10]]
  }

  function Escape(c: char): (r: string) {
    match c
    case '\\' => "\\\\"
    case '"' => "\\\""
    case '\n' => "\\n"
    case '\r' => "\\r"
    case '\t' => "\\t"
    case _ => if IsControl(c) then "\\u" + Hex4(c as nat) else [c]
  }

  function Body(value: string): (r: string) {
    if value == [] then [] else Escape(value[0]) + Body(value[1..])
  }

  method Print(value: string) returns (output: string)
    ensures output == "\"" + Body(value) + "\""
    ensures ReadString(output) == Some(value)
    ensures forall c :: c in output ==> !IsControl(c)
  {
    hide ReadString, Escape, IsControl, Body;
    output := "\"";
    BodyEmpty();
    for i := 0 to |value|
      invariant output == "\"" + Body(value[..i])
    {
      BodyAppend(value[..i], value[i]);
      assert value[..i + 1] == value[..i] + [value[i]];
      output := PushEscaped(output, value[i]);
    }
    assert value[..|value|] == value;
    output := output + "\"";
    PrintedReadsBack(value);
    PrintedIsPlain(value);
  }

  predicate IsLowerHex(c: char, v: nat) {
    if v < 10 then c as nat == '0' as nat + v else v < 16 && c as nat == 'a' as nat + (v - 10)
  }

  lemma HexOfControl(n: nat)
    requires n < 0x100
    ensures Hex4(n)[..2] == "00" && IsLowerHex(Hex4(n)[2], n / 16) && IsLowerHex(Hex4(n)[3], n % 16)
  {
    assert n / 0x100 == 0 && n / 0x1000 == 0 && n / 0x10 % 0x10 == n / 16;
    LowerDigit(n / 16);
    LowerDigit(n % 16);
  }

  lemma LowerDigit(v: nat)
    requires v < 16
    ensures IsLowerHex(DIGITS[v], v)
  {
  }

  /** The body of the printer's loop. */
  method PushEscaped(output: string, character: char) returns (out: string)
    ensures out == output + Escape(character)
    // spelled out: five short escapes, four lower-case hexadecimal digits for the other
    // control characters, and any other character as it is
    ensures character == '\\' ==> out == output + "\\\\"
    ensures character == '"' ==> out == output + "\\\""
    ensures character == '\n' ==> out == output + "\\n"
    ensures character == '\r' ==> out == output + "\\r"
    ensures character == '\t' ==> out == output + "\\t"
    ensures character !in "\\\"\n\r\t" && (character as nat < 0x20 || 0x7F <= character as nat < 0xA0) ==>
              && |out| == |output| + 6 && out[..|output| + 4] == output + "\\u00"
              && IsLowerHex(out[|output| + 4], character as nat / 16)
              && IsLowerHex(out[|output| + 5], character as nat % 16)
    ensures character !in "\\\"\n\r\t" && !(character as nat < 0x20 || 0x7F <= character as nat < 0xA0) ==>
              out == output + [character]
  {
    hide Hex4;
    match character {
      case '\\' => out := output + "\\\\";
      case '"' => out := output + "\\\"";
      case '\n' => out := output + "\\n";
      case '\r' => out := output + "\\r";
      case '\t' => out := output + "\\t";
      case _ =>
        if IsControl(character) {
          out := output + "\\u";
          out := out + Hex4(character as nat);
          HexOfControl(character as nat);
        } else {
          out := output + [character];
        }
    }
  }

  // --- Round trip ---

  lemma DigitAt(i: nat)
    requires i < 16
    ensures HexValue(DIGITS[i]) == Some(i) && !IsControl(DIGITS[i])
  {
  }

  lemma HexBack(c: char)
    requires c as nat < 0xD800
    ensures var h := Hex4(c as nat); ReadHex(h[0], h[1], h[2], h[3]) == Some(c)
  {
    hide HexValue, DIGITS;
    var n := c as nat;
    DigitAt(n / 0x1000);
    DigitAt(n / 0x100 % 0x10);
    DigitAt(n / 0x10 % 0x10);
    DigitAt(n % 0x10);
    DigitsSum(n);
  }

  lemma DigitsSum(n: nat)
    ensures n / 0x1000 * 0x1000 + n / 0x100 % 0x10 * 0x100 + n / 0x10 % 0x10 * 0x10 + n % 0x10 == n
  {
    var a := n / 0x10;
    var b := a / 0x10;
    assert n / 0x100 == b && n / 0x1000 == b / 0x10;
  }

  lemma EscapeReadsBack(c: char, rest: string)
    ensures ReadChar(Escape(c) + rest) == Some((c, rest)) && Escape(c)[0] != '"'
  {
    hide ReadHex, Hex4;
    var s := Escape(c) + rest;
    if IsControl(c) && c != '\n' && c != '\r' && c != '\t' {
      HexBack(c);
      assert s[6..] == rest;
      assert s[2..6] == Hex4(c as nat);
    } else if |Escape(c)| == 2 {
      assert s[2..] == rest;
    } else {
      assert s[1..] == rest;
    }
  }

  lemma {:induction false} BodyReadsBack(value: string)
    ensures ReadBody(Body(value) + "\"") == Some(value)
  {
    hide ReadChar, Escape;
    if value != [] {
      var rest := Body(value[1..]) + "\"";
      EscapeReadsBack(value[0], rest);
      BodyReadsBack(value[1..]);
      assert Body(value) + "\"" == Escape(value[0]) + rest;
      assert value == [value[0]] + value[1..];
    }
  }

  /** The printed text is one string literal, and it reads back as the value. */
  lemma PrintedReadsBack(value: string)
    ensures ReadString("\"" + Body(value) + "\"") == Some(value)
  {
    BodyReadsBack(value);
    assert ("\"" + Body(value) + "\"")[1..] == Body(value) + "\"";
  }

  lemma EscapeIsPlain(c: char)
    ensures forall e :: e in Escape(c) ==> !IsControl(e)
  {
    hide DIGITS;
    var n := c as nat;
    if IsControl(c) {
      DigitAt(n / 0x1000);
      DigitAt(n / 0x100 % 0x10);
      DigitAt(n / 0x10 % 0x10);
      DigitAt(n % 0x10);
    }
  }

  lemma {:induction false} PrintedIsPlain(value: string)
    ensures forall e :: e in "\"" + Body(value) + "\"" ==> !IsControl(e)
  {
    hide Escape;
    if value != [] {
      EscapeIsPlain(value[0]);
      PrintedIsPlain(value[1..]);
      assert forall e :: e in Body(value[1..]) ==> e in "\"" + Body(value[1..]) + "\"";
    }
  }

  lemma BodyEmpty()
    ensures Body([]) == []
  {
  }

  lemma {:induction false} BodyAppend(value: string, c: char)
    ensures Body(value + [c]) == Body(value) + Escape(c)
  {
    hide Escape;
    if value == [] {
      assert value + [c] == [c];
      assert Body([c]) == Escape(c) + Body([c][1..]);
    } else {
      BodyAppend(value[1..], c);
      assert (value + [c])[1..] == value[1..] + [c];
    }
  }
}
