/** UTF-8 (RFC 3629, section 3): the strict codec behind Python's str.encode and bytes.decode. */
module Utf8 {
  import opened Words

  /** A Unicode scalar value. */
  type Scalar = n: nat | n < 0xD800 || 0xE000 <= n <= 0x10FFFF

  type Text = seq<Scalar>

  function EncodeOne(c: Scalar): (b: seq<Byte>)
    ensures 1 <= |b| <= 4
  {
    if c < 0x80 then [c]
    else if c < 0x800 then [0xC0 + c / 64, 0x80 + c % 64]
    else if c < 0x10000 then [0xE0 + c / 64 / 64, 0x80 + c / 64 % 64, 0x80 + c % 64]
    else [0xF0 + c / 64 / 64 / 64, 0x80 + c / 64 / 64 % 64, 0x80 + c / 64 % 64, 0x80 + c % 64]
  }

  function Encode(t: Text): seq<Byte> {
    if t == [] then [] else EncodeOne(t[0]) + Encode(t[1..])
  }

  /** Payload bits of a continuation byte and of the lead bytes of 2, 3 and 4. */
  function Six(b: Byte): nat { b % 64 }

  function Lead2(b: Byte): nat { b % 32 }

  function Lead3(b: Byte): nat { b % 16 }

  function Lead4(b: Byte): nat { b % 8 }

  predicate Continuation(b: Byte) { 0x80 <= b < 0xC0 }

  /** The value and length of the first well-formed sequence: no overlong form,
      no surrogate, nothing past U+10FFFF. */
  function DecodeOne(b: seq<Byte>): (r: Option<(Scalar, nat)>)
    ensures r.Some? ==> 1 <= r.value.1 <= 4 && r.value.1 <= |b|
  {
    if b == [] then None
    else if b[0] < 0x80 then Some((b[0], 1))
    else if 0xC2 <= b[0] < 0xE0 && |b| >= 2 && Continuation(b[1]) then
      Some((Lead2(b[0]) * 64 + Six(b[1]), 2))
    else if 0xE0 <= b[0] < 0xF0 && |b| >= 3 && Continuation(b[1]) && Continuation(b[2]) then
      var v := (Lead3(b[0]) * 64 + Six(b[1])) * 64 + Six(b[2]);
      if v < 0x800 || 0xD800 <= v < 0xE000 then None else Some((v, 3))
    else if 0xF0 <= b[0] < 0xF5 && |b| >= 4 && Continuation(b[1]) && Continuation(b[2]) && Continuation(b[3]) then
      var v := ((Lead4(b[0]) * 64 + Six(b[1])) * 64 + Six(b[2])) * 64 + Six(b[3]);
      if v < 0x10000 || v > 0x10FFFF then None else Some((v, 4))
    else None
  }

  function Decode(b: seq<Byte>): Option<Text> {
    if b == [] then Some([]) else
      match DecodeOne(b)
      case None => None
      case Some((c, n)) =>
        match Decode(b[n..])
        case None => None
        case Some(rest) => Some([c] + rest)
  }

  /** Six more bits. */
  lemma Digit(high: nat, low: nat)
    requires low < 64
    ensures (high * 64 + low) / 64 == high && (high * 64 + low) % 64 == low
  {
  }

  lemma Digits(c: nat)
    ensures c == c / 64 * 64 + c % 64
  {
  }

  lemma DecodeTwo(c: Scalar, b: seq<Byte>)
    requires 0x80 <= c < 0x800 && |b| >= 2 && b[0] == 0xC0 + c / 64 && b[1] == 0x80 + c % 64
    ensures DecodeOne(b) == Some((c, 2))
  {
    Digits(c);
  }

  lemma DecodeThree(c: Scalar, b: seq<Byte>)
    requires 0x800 <= c < 0x10000 && |b| >= 3
    requires b[0] == 0xE0 + c / 64 / 64 && b[1] == 0x80 + c / 64 % 64 && b[2] == 0x80 + c % 64
    ensures DecodeOne(b) == Some((c, 3))
  {
    Digits(c);
    Digits(c / 64);
    assert Lead3(b[0]) == c / 64 / 64 && Six(b[1]) == c / 64 % 64 && Six(b[2]) == c % 64;
  }

  lemma DecodeFour(c: Scalar, b: seq<Byte>)
    requires 0x10000 <= c && |b| >= 4
    requires b[0] == 0xF0 + c / 64 / 64 / 64 && b[1] == 0x80 + c / 64 / 64 % 64
    requires b[2] == 0x80 + c / 64 % 64 && b[3] == 0x80 + c % 64
    ensures DecodeOne(b) == Some((c, 4))
  {
    Digits(c);
    Digits(c / 64);
    Digits(c / 64 / 64);
    assert c / 64 / 64 / 64 <= 4;
    assert Lead4(b[0]) == c / 64 / 64 / 64 && Six(b[1]) == c / 64 / 64 % 64 && Six(b[2]) == c / 64 % 64;
    assert Six(b[3]) == c % 64;
  }

  lemma DecodeEncodeOne(c: Scalar, rest: seq<Byte>)
    ensures DecodeOne(EncodeOne(c) + rest) == Some((c, |EncodeOne(c)|))
  {
    var e := EncodeOne(c);
    var b := e + rest;
    assert forall i :: 0 <= i < |e| ==> b[i] == e[i];
    if c < 0x80 {
    } else if c < 0x800 {
      DecodeTwo(c, b);
    } else if c < 0x10000 {
      DecodeThree(c, b);
    } else {
      DecodeFour(c, b);
    }
  }

  /** Decoding undoes encoding. */
  lemma {:induction false} DecodeEncode(t: Text)
    ensures Decode(Encode(t)) == Some(t)
  {
    hide EncodeOne, DecodeOne;
    if t != [] {
      var e := EncodeOne(t[0]);
      DecodeEncodeOne(t[0], Encode(t[1..]));
      assert (e + Encode(t[1..]))[|e|..] == Encode(t[1..]);
      DecodeEncode(t[1..]);
      assert [t[0]] + t[1..] == t;
    }
  }

  lemma EncodeTwo(b: seq<Byte>)
    requires DecodeOne(b).Some? && DecodeOne(b).value.1 == 2
    ensures EncodeOne(DecodeOne(b).value.0) == b[..2]
  {
    Digit(Lead2(b[0]), Six(b[1]));
    assert b[..2] == [b[0], b[1]];
  }

  lemma EncodeThree(b: seq<Byte>)
    requires DecodeOne(b).Some? && DecodeOne(b).value.1 == 3
    ensures EncodeOne(DecodeOne(b).value.0) == b[..3]
  {
    Digit(Lead3(b[0]), Six(b[1]));
    Digit(Lead3(b[0]) * 64 + Six(b[1]), Six(b[2]));
    assert b[..3] == [b[0], b[1], b[2]];
  }

  lemma EncodeFour(b: seq<Byte>)
    requires DecodeOne(b).Some? && DecodeOne(b).value.1 == 4
    ensures EncodeOne(DecodeOne(b).value.0) == b[..4]
  {
    Digit(Lead4(b[0]), Six(b[1]));
    Digit(Lead4(b[0]) * 64 + Six(b[1]), Six(b[2]));
    Digit((Lead4(b[0]) * 64 + Six(b[1])) * 64 + Six(b[2]), Six(b[3]));
    assert b[..4] == [b[0], b[1], b[2], b[3]];
  }

  lemma EncodeDecodeOne(b: seq<Byte>)
    requires DecodeOne(b).Some?
    ensures var (c, n) := DecodeOne(b).value; EncodeOne(c) == b[..n]
  {
    var (c, n) := DecodeOne(b).value;
    if n == 2 { EncodeTwo(b); } else if n == 3 { EncodeThree(b); } else if n == 4 { EncodeFour(b); }
  }

  /** The codec accepts no second spelling: what decodes is what encodes back. */
  lemma {:induction false} EncodeDecode(b: seq<Byte>)
    requires Decode(b).Some?
    ensures Encode(Decode(b).value) == b
    decreases |b|
  {
    hide EncodeOne, DecodeOne;
    if b != [] {
      var (c, n) := DecodeOne(b).value;
      EncodeDecodeOne(b);
      EncodeDecode(b[n..]);
      var rest := Decode(b[n..]).value;
      assert ([c] + rest)[1..] == rest;
      assert b == b[..n] + b[n..];
    }
  }

  lemma EncodeStep(t: Text)
    requires t != []
    ensures Encode(t) == EncodeOne(t[0]) + Encode(t[1..])
  {
  }

  /** ASCII text is its own encoding. */
  lemma {:induction false} EncodeAscii(t: Text)
    requires forall i :: 0 <= i < |t| ==> t[i] < 0x80
    ensures Encode(t) == t
  {
    if t != [] {
      EncodeAscii(t[1..]);
      assert t == [t[0]] + t[1..];
    }
  }

  /** An ASCII character is in a text exactly when its byte is in the encoding. */
  lemma {:induction false} AsciiByte(t: Text, c: Scalar)
    requires c < 0x80
    ensures c in t <==> c in Encode(t)
  {
    if t != [] {
      AsciiByte(t[1..], c);
      hide Encode;
      EncodeStep(t);
      OwnByte(t[0], c);
      assert c in t <==> c == t[0] || c in t[1..];
    }
  }

  lemma OwnByte(x: Scalar, c: Scalar)
    requires c < 0x80
    ensures c in EncodeOne(x) <==> c == x
  {
    if x < 0x80 { assert EncodeOne(x) == [x]; }
  }
}
