/** fnv1a64 (scripts/export_qwen3_tokenizer.py:97-102). */
module Fnv {
  import opened Words
  import opened Bits

  const OFFSET: U64 := 1469598103934665603
  const PRIME: U64 := 1099511628211

  /** PRIME's inverse modulo 2^64; it has one because it is odd. */
  const INVERSE: U64 := 0xCE965057AFF6957B

  function Mul(v: nat): U64 { v * PRIME % U64_LIMIT }

  lemma Wraps(v: U64, j: int)
    ensures (v + j * U64_LIMIT) % U64_LIMIT == v
  {
  }

  /** Multiplying by the inverse undoes the multiplication, wrap-around included. */
  lemma MulUndone(v: U64)
    ensures Mul(v) * INVERSE % U64_LIMIT == v
  {
    var k := v * PRIME / U64_LIMIT;
    var c := PRIME * INVERSE / U64_LIMIT;
    assert Mul(v) == v * PRIME - k * U64_LIMIT;
    assert PRIME * INVERSE == 1 + c * U64_LIMIT;
    var j := v * c - k * INVERSE;
    calc {
      Mul(v) * INVERSE;
      (v * PRIME - k * U64_LIMIT) * INVERSE;
      v * (PRIME * INVERSE) - k * INVERSE * U64_LIMIT;
      v * (1 + c * U64_LIMIT) - k * INVERSE * U64_LIMIT;
      v + j * U64_LIMIT;
    }
    Wraps(v, j);
  }

  /** One byte into the hash. */
  function Absorb(v: U64, b: Byte): U64 { Mul(Xor(v, b)) }

  /** The hash of the first `n` bytes, started from `seed`. */
  function Fold(seed: U64, data: seq<Byte>, n: nat): U64
    requires n <= |data|
  {
    if n == 0 then seed else Absorb(Fold(seed, data, n - 1), data[n - 1])
  }

  function Hash(data: seq<Byte>): U64 { Fold(OFFSET, data, |data|) }

  method Fnv1a64(data: seq<Byte>) returns (value: nat)
    ensures value == Hash(data)
  {
    value := OFFSET;
    for i := 0 to |data|
      invariant value == Fold(OFFSET, data, i)
    {
      value := Xor(value, data[i]);
      value := value * PRIME % U64_LIMIT;
    }
  }

  /** The exclusive or of a word and a byte is a word. */
  lemma XorIsWord(v: U64, b: Byte)
    ensures Xor(v, b) < U64_LIMIT
  {
    Pow64();
    XorBound(v, b, 64);
  }

  /** Absorbing is injective in the state and in the byte. */
  lemma AbsorbInjective(v: U64, w: U64, b: Byte, c: Byte)
    requires Absorb(v, b) == Absorb(w, c)
    ensures b == c ==> v == w
    ensures v == w ==> b == c
  {
    hide Mul;
    XorIsWord(v, b);
    XorIsWord(w, c);
    MulUndone(Xor(v, b));
    MulUndone(Xor(w, c));
    assert Xor(v, b) == Xor(w, c);
    XorTwice(v, b);
    XorTwice(w, c);
    XorCommutes(v, b);
    XorCommutes(w, c);
    XorTwice(b, v);
    XorTwice(c, w);
  }

  /** Different states stay different over the same bytes. */
  lemma {:induction false} FoldInjective(s: U64, t: U64, data: seq<Byte>, n: nat)
    requires n <= |data| && Fold(s, data, n) == Fold(t, data, n)
    ensures s == t
  {
    hide Absorb;
    if n > 0 {
      AbsorbInjective(Fold(s, data, n - 1), Fold(t, data, n - 1), data[n - 1], data[n - 1]);
      FoldInjective(s, t, data, n - 1);
    }
  }

  lemma {:induction false} FoldPrefix(seed: U64, a: seq<Byte>, b: seq<Byte>, n: nat)
    requires n <= |a| && n <= |b| && a[..n] == b[..n]
    ensures Fold(seed, a, n) == Fold(seed, b, n)
  {
    hide Absorb;
    if n > 0 {
      assert a[..n - 1] == a[..n][..n - 1] == b[..n][..n - 1] == b[..n - 1];
      assert a[n - 1] == a[..n][n - 1] == b[..n][n - 1] == b[n - 1];
      FoldPrefix(seed, a, b, n - 1);
    }
  }

  /** Hashing a concatenation is hashing the second part from the first part's hash. */
  lemma {:induction false} FoldConcat(seed: U64, a: seq<Byte>, b: seq<Byte>, n: nat)
    requires n <= |b|
    ensures Fold(seed, a + b, |a| + n) == Fold(Fold(seed, a, |a|), b, n)
  {
    hide Absorb;
    if n == 0 {
      assert (a + b)[..|a|] == a[..|a|];
      FoldPrefix(seed, a + b, a, |a|);
    } else {
      FoldConcat(seed, a, b, n - 1);
      assert (a + b)[|a| + n - 1] == b[n - 1];
    }
  }

  /** Two strings of one length that differ in exactly one byte have different
      hashes, whatever the length and wherever the byte. */
  lemma DetectsOneByte(front: seq<Byte>, x: Byte, y: Byte, back: seq<Byte>)
    requires x != y
    ensures Hash(front + [x] + back) != Hash(front + [y] + back)
  {
    hide Absorb;
    var s := Fold(OFFSET, front, |front|);
    FoldConcat(OFFSET, front, [x], 1);
    FoldConcat(OFFSET, front, [y], 1);
    assert Fold(s, [x], 1) == Absorb(Fold(s, [x], 0), x) && Fold(s, [y], 1) == Absorb(Fold(s, [y], 0), y);
    FoldConcat(OFFSET, front + [x], back, |back|);
    FoldConcat(OFFSET, front + [y], back, |back|);
    if Hash(front + [x] + back) == Hash(front + [y] + back) {
      FoldInjective(Absorb(s, x), Absorb(s, y), back, |back|);
      AbsorbInjective(s, s, x, y);
    }
  }
}
