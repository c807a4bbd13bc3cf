/** The JSON string printer of the command line (src/qx_qxf_main.c:235-249), against
    strings as section 7 of RFC 8259 defines them. */
module CliJson {
  import opened Words
  import opened Utf8

  const QUOTE: Byte := 34
  const BACKSLASH: Byte := 92

  // ----- the printer -----

  function HexDigit(n: nat): Byte
    requires n < 16
  {
    if n < 10 then 48 + n else 87 + n
  }

  /** What one byte is printed as. */
  function EmitByte(c: Byte): seq<Byte> {
    if c == QUOTE || c == BACKSLASH then [BACKSLASH, c]
    else if c == 8 then [BACKSLASH, 98]
    else if c == 12 then [BACKSLASH, 102]
    else if c == 10 then [BACKSLASH, 110]
    else if c == 13 then [BACKSLASH, 114]
    else if c == 9 then [BACKSLASH, 116]
    else if c < 0x20 then [BACKSLASH, 117, 48, 48, HexDigit(c / 16), HexDigit(c % 16)]
    else [c]
  }

  function EmitBytes(text: seq<Byte>, n: nat): seq<Byte>
    requires n <= |text|
  {
    if n == 0 then [] else EmitBytes(text, n - 1) + EmitByte(text[n - 1])
  }

  /** The body of the loop at line 237. */
  method PrintByte(c: Byte) returns (out: seq<Byte>)
    ensures out == EmitByte(c)
  {
    if c == QUOTE || c == BACKSLASH {
      out := [BACKSLASH];
      out := out + [c];
    } else if c == 8 {
      out := [BACKSLASH, 98];
    } else if c == 12 {
      out := [BACKSLASH, 102];
    } else if c == 10 {
      out := [BACKSLASH, 110];
    } else if c == 13 {
      out := [BACKSLASH];
      out := out + [114];
    } else if c == 9 {
      out := [BACKSLASH, 116];
    } else if c < 0x20 {
      out := [BACKSLASH, 117, 48, 48, HexDigit(c / 16), HexDigit(c % 16)];
    } else {
      out := [c];
    }
  }

  /** qx_cli_json_string. */
  method PrintString(text: seq<Byte>) returns (out: seq<Byte>)
    ensures out == [QUOTE] + EmitBytes(text, |text|) + [QUOTE]
  {
    hide EmitByte;
    out := [QUOTE];
    for i := 0 to |text|
      invariant out == [QUOTE] + EmitBytes(text, i)
    {
      var printed := PrintByte(text[i]);
      out := out + printed;
    }
    out := out + [QUOTE];
  }

  // ----- strings by RFC 8259, section 7 -----

  function HexValue(c: nat): Option<nat> {
    if 48 <= c <= 57 then Some(c - 48)
    else if 97 <= c <= 102 then Some(c - 87)
    else if 65 <= c <= 70 then Some(c - 55)
    else None
  }

  /** The code unit of four hexadecimal digits. */
  function HexUnit(s: Text): Option<nat> {
    if |s| < 4 then None else
      match (HexValue(s[0]), HexValue(s[1]), HexValue(s[2]), HexValue(s[3]))
      case (Some(a), Some(b), Some(c), Some(d)) => Some(((a * 16 + b) * 16 + c) * 16 + d)
      case _ => None
  }

  /** The character of a two-character escape other than \u. */
  function ShortEscape(c: nat): Option<Scalar> {
    if c == QUOTE || c == BACKSLASH || c == 47 then Some(c)
    else if c == 98 then Some(8)
    else if c == 102 then Some(12)
    else if c == 110 then Some(10)
    else if c == 114 then Some(13)
    else if c == 116 then Some(9)
    else None
  }

  /** A \u escape after its `u`: a character outside the surrogates, or two escapes
      that are a surrogate pair. */
  function LongEscape(s: Text): (r: Option<(Scalar, nat)>)
    ensures r.Some? ==> 0 < r.value.1 <= |s|
  {
    match HexUnit(s)
    case None => None
    case Some(high) =>
      if high < 0xD800 || 0xE000 <= high < 0x1_0000 then Some((high, 4))
      else if high < 0xDC00 && |s| >= 10 && s[4] == BACKSLASH && s[5] == 117 then
        match HexUnit(s[6..])
        case Some(low) =>
          if 0xDC00 <= low < 0xE000 then Some((0x1_0000 + (high - 0xD800) * 0x400 + (low - 0xDC00), 10)) else None
        case None => None
      else None
  }

  /** The first character of a string's contents, and how much of them spells it. */
  function Character(s: Text): (r: Option<(Scalar, nat)>)
    requires s != []
    ensures r.Some? ==> 0 < r.value.1 <= |s|
  {
    if s[0] == BACKSLASH then
      if |s| < 2 then None
      else if s[1] == 117 then
        match LongEscape(s[2..])
        case None => None
        case Some((c, n)) => Some((c, n + 2))
      else
        match ShortEscape(s[1])
        case None => None
        case Some(c) => Some((c, 2))
    else if s[0] == QUOTE || s[0] < 0x20 then None
    else Some((s[0], 1))
  }

  /** The contents up to the closing quotation mark, which must end the text. */
  function Contents(s: Text): Option<Text>
    decreases |s|
  {
    if s == [] then None
    else if s[0] == QUOTE then (if |s| == 1 then Some([]) else None)
    else
      match Character(s)
      case None => None
      case Some((c, n)) =>
        match Contents(s[n..])
        case None => None
        case Some(rest) => Some([c] + rest)
  }

  /** A JSON text in UTF-8 that is one string. */
  function ParseString(bytes: seq<Byte>): Option<Text> {
    match Decode(bytes)
    case None => None
    case Some(s) => if s == [] || s[0] != QUOTE then None else Contents(s[1..])
  }

  // ----- printing, character by character -----

  /** What one character is printed as. */
  function EmitScalar(c: Scalar): Text { if c < 0x80 then EmitByte(c) else [c] }

  function EmitText(t: Text): Text {
    if t == [] then [] else EmitScalar(t[0]) + EmitText(t[1..])
  }

  lemma {:induction false} EmitConcat(a: seq<Byte>, b: seq<Byte>, n: nat)
    requires n <= |b|
    ensures EmitBytes(a + b, |a| + n) == EmitBytes(a, |a|) + EmitBytes(b, n)
    decreases n
  {
    hide EmitByte;
    if n == 0 {
      EmitPrefix(a, b, |a|);
    } else {
      EmitConcat(a, b, n - 1);
      assert (a + b)[|a| + n - 1] == b[n - 1];
    }
  }

  lemma {:induction false} EmitPrefix(a: seq<Byte>, b: seq<Byte>, n: nat)
    requires n <= |a|
    ensures EmitBytes(a + b, n) == EmitBytes(a, n)
  {
    hide EmitByte;
    if n > 0 { EmitPrefix(a, b, n - 1); }
  }

  lemma {:induction false} EncodeConcat(a: Text, b: Text)
    ensures Encode(a + b) == Encode(a) + Encode(b)
    decreases |a|
  {
    hide EncodeOne;
    if a == [] {
      assert a + b == b;
    } else {
      assert (a + b)[0] == a[0] && (a + b)[1..] == a[1..] + b;
      EncodeConcat(a[1..], b);
      assert EncodeOne(a[0]) + (Encode(a[1..]) + Encode(b)) == EncodeOne(a[0]) + Encode(a[1..]) + Encode(b);
    }
  }

  /** Bytes past ASCII are printed as they are. */
  lemma {:induction false} EmitHigh(b: seq<Byte>, n: nat)
    requires n <= |b| && forall i :: 0 <= i < |b| ==> b[i] >= 0x80
    ensures EmitBytes(b, n) == b[..n]
  {
    if n > 0 { EmitHigh(b, n - 1); }
  }

  lemma HighBytes(c: Scalar)
    requires c >= 0x80
    ensures forall i :: 0 <= i < |EncodeOne(c)| ==> EncodeOne(c)[i] >= 0x80
  {
  }

  lemma EncodeSingle(c: Scalar)
    ensures Encode([c]) == EncodeOne(c)
  {
    hide EncodeOne;
    assert [c][1..] == [];
    assert Encode([c]) == EncodeOne(c) + Encode([]);
  }

  lemma EmitSingle(c: Byte)
    ensures EmitBytes([c], 1) == EmitByte(c)
  {
    hide EmitByte;
    assert EmitBytes([c], 1) == EmitBytes([c], 0) + EmitByte(c);
  }

  /** Printing the bytes of a character is encoding its printed form. */
  lemma OneCharacter(c: Scalar)
    ensures EmitBytes(EncodeOne(c), |EncodeOne(c)|) == Encode(EmitScalar(c))
  {
    if c < 0x80 {
      EmitSingle(c);
      EncodeAscii(EmitByte(c));
    } else {
      hide EncodeOne;
      HighBytes(c);
      EmitHigh(EncodeOne(c), |EncodeOne(c)|);
      EncodeSingle(c);
    }
  }

  lemma NothingPrinted()
    ensures EmitBytes([], 0) == []
  {
  }

  lemma {:induction false} PrintedBytes(t: Text)
    ensures EmitBytes(Encode(t), |Encode(t)|) == Encode(EmitText(t))
  {
    hide EncodeOne, EmitScalar, EmitBytes;
    if t == [] {
      NothingPrinted();
    } else {
      PrintedBytes(t[1..]);
      OneCharacter(t[0]);
      EmitConcat(EncodeOne(t[0]), Encode(t[1..]), |Encode(t[1..])|);
      EncodeConcat(EmitScalar(t[0]), EmitText(t[1..]));
    }
  }

  // ----- reading back -----

  lemma HexRead(n: nat)
    requires n < 16
    ensures HexValue(HexDigit(n)) == Some(n)
  {
  }

  lemma ControlRead(c: Scalar, rest: Text)
    requires c < 0x20
    ensures LongEscape([48, 48, HexDigit(c / 16), HexDigit(c % 16)] + rest) == Some((c, 4))
  {
    var s := [48, 48, HexDigit(c / 16), HexDigit(c % 16)] + rest;
    assert s[0] == 48 && s[1] == 48 && s[2] == HexDigit(c / 16) && s[3] == HexDigit(c % 16);
    hide HexDigit;
    HexRead(c / 16);
    HexRead(c % 16);
    assert HexValue(48) == Some(0);
    assert HexUnit(s) == Some(c);
  }

  predicate Plain(c: Scalar) { c >= 0x20 && c != QUOTE && c != BACKSLASH }

  predicate Short(c: Scalar) { c == QUOTE || c == BACKSLASH || c == 8 || c == 12 || c == 10 || c == 13 || c == 9 }

  lemma PlainRead(c: Scalar, rest: Text)
    requires Plain(c)
    ensures EmitScalar(c) == [c] && Character([c] + rest) == Some((c, 1))
  {
  }

  lemma ShortRead(c: Scalar, rest: Text)
    requires Short(c)
    ensures |EmitScalar(c)| == 2 && Character(EmitScalar(c) + rest) == Some((c, 2))
  {
    var e := EmitScalar(c);
    assert (e + rest)[0] == e[0] && (e + rest)[1] == e[1];
  }

  lemma LongRead(c: Scalar, rest: Text)
    requires !Plain(c) && !Short(c)
    ensures |EmitScalar(c)| == 6 && Character(EmitScalar(c) + rest) == Some((c, 6))
  {
    var e := EmitScalar(c);
    assert e == [BACKSLASH, 117] + [48, 48, HexDigit(c / 16), HexDigit(c % 16)];
    var s := e + rest;
    assert s[0] == BACKSLASH && s[1] == 117;
    assert s[2..] == [48, 48, HexDigit(c / 16), HexDigit(c % 16)] + rest;
    ControlRead(c, rest);
    hide LongEscape, HexDigit;
  }

  lemma CharacterRead(c: Scalar, rest: Text)
    ensures Character(EmitScalar(c) + rest) == Some((c, |EmitScalar(c)|))
    ensures EmitScalar(c)[0] != QUOTE
  {
    hide Character;
    if Plain(c) { PlainRead(c, rest); } else if Short(c) { ShortRead(c, rest); } else { LongRead(c, rest); }
  }

  lemma {:induction false} ContentsRead(t: Text)
    ensures Contents(EmitText(t) + [QUOTE]) == Some(t)
  {
    if t == [] {
      assert EmitText(t) + [QUOTE] == [QUOTE];
    } else {
      hide EmitScalar, Character;
      var e, rest := EmitScalar(t[0]), EmitText(t[1..]) + [QUOTE];
      ContentsRead(t[1..]);
      CharacterRead(t[0], rest);
      assert EmitText(t) + [QUOTE] == e + rest;
      assert (e + rest)[|e|..] == rest;
      assert [t[0]] + t[1..] == t;
    }
  }

  /** For every UTF-8 byte string the printer writes a JSON string whose value is the
      same characters. */
  lemma PrintsWhatItWasGiven(t: Text)
    ensures var bytes := Encode(t); ParseString([QUOTE] + EmitBytes(bytes, |bytes|) + [QUOTE]) == Some(t)
  {
    hide EncodeOne, EmitScalar, EmitByte, EmitBytes, Contents, EmitText;
    var printed := [QUOTE] + EmitText(t) + [QUOTE];
    PrintedBytes(t);
    EncodeAscii([QUOTE]);
    EncodeConcat([QUOTE] + EmitText(t), [QUOTE]);
    EncodeConcat([QUOTE], EmitText(t));
    DecodeEncode(printed);
    assert printed[1..] == EmitText(t) + [QUOTE];
    ContentsRead(t);
  }
}
