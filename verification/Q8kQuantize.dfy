/** Q8_K quantisation (scripts/q8k_activation_spike.py:33-58) of single-precision
    activations, with every rounding the script makes. */
module Q8kQuantize {
  import opened Words
  import opened Bits
  import opened Floats
  import opened Rounding
  import opened Q8kNearest
  import opened Q8kScaling

  const QK: nat := 256

  /** The activation is read and computed in single precision. */
  ghost predicate Singles(values: seq<real>) { forall i :: 0 <= i < |values| ==> IsSingle(values[i]) }

  // ----- the largest value of a block -----

  /** amax and signed_max after `n` values of the block at `base`. */
  function Peak(values: seq<real>, base: nat, n: nat): (p: (real, real))
    requires base + n <= |values|
    ensures p.0 == Abs(p.1)
  {
    if n == 0 then (0.0, 0.0) else
      var p := Peak(values, base, n - 1);
      var v := values[base + n - 1];
      if Abs(v) > p.0 then (Abs(v), v) else p
  }

  function AMax(values: seq<real>, base: nat): real
    requires base + QK <= |values|
  {
    Peak(values, base, QK).0
  }

  /** amax bounds every value of the block. */
  lemma {:induction false} PeakBounds(values: seq<real>, base: nat, n: nat, i: nat)
    requires base + n <= |values| && i < n
    ensures Abs(values[base + i]) <= Peak(values, base, n).0
  {
    if i < n - 1 { PeakBounds(values, base, n - 1, i); }
  }

  /** The value the peak is taken from is one of the block's. */
  lemma {:induction false} PeakIsSingle(values: seq<real>, base: nat, n: nat)
    requires base + n <= |values| && Singles(values)
    ensures Peak(values, base, n).1 == 0.0 || IsSingle(Peak(values, base, n).1)
  {
    hide IsSingle;
    if n > 0 { PeakIsSingle(values, base, n - 1); }
  }

  // ----- one block -----

  datatype Block = Block(scale: real, quants: seq<int>, sums: seq<int>)

  /** The block is all zeros, or its inverse scale is below the overflow threshold. */
  ghost predicate Scalable(values: seq<real>, base: nat)
    requires base + QK <= |values|
  {
    AMax(values, base) == 0.0 || 127.0 / AMax(values, base) < Overflow()
  }

  function Min127(n: int): int { if n < 127 then n else 127 }

  predicate Quantizable(inverse: real, v: real) {
    Normal(inverse, v).Some? && NearestInt(Normal(inverse, v).value).Some?
  }

  function QuantOf(inverse: real, v: real): int
    requires Quantizable(inverse, v)
  {
    Min127(NearestInt(Normal(inverse, v).value).value)
  }

  predicate IsQuant(q: int, inverse: real, v: real) { Quantizable(inverse, v) && q == QuantOf(inverse, v) }

  /** The inverse scale of a block that has one. */
  lemma PeakInverse(values: seq<real>, base: nat)
    requires base + QK <= |values| && Singles(values)
    ensures var (amax, signed) := Peak(values, base, QK); amax != 0.0 ==>
      signed != 0.0 && IsSingle(signed) && amax == Abs(signed) && (Inverse(signed).Some? <==> Scalable(values, base))
  {
    hide Peak, IsSingle, Inverse, Overflow, Singles;
    var (amax, signed) := Peak(values, base, QK);
    PeakIsSingle(values, base, QK);
    if amax != 0.0 { RefusedExactly(signed); }
  }

  /** Every product is accepted and rounded to nearest, ties to even; the cap at 127
      never acts, and every quant is an int8. */
  lemma QuantInRange(values: seq<real>, base: nat, i: nat)
    requires base + QK <= |values| && Singles(values) && i < QK
    requires Peak(values, base, QK).1 != 0.0 && Inverse(Peak(values, base, QK).1).Some?
    ensures var inverse := Inverse(Peak(values, base, QK).1).value; var v := values[base + i];
            Quantizable(inverse, v) && QuantOf(inverse, v) == RoundEven(Normal(inverse, v).value) &&
            -127 <= QuantOf(inverse, v) <= 127
  {
    hide Peak, IsSingle, Inverse, NearestInt, RoundEven, Normal, Abs;
    var (amax, signed) := Peak(values, base, QK);
    PeakIsSingle(values, base, QK);
    PeakBounds(values, base, QK, i);
    QuantRange(signed, Inverse(signed).value, values[base + i]);
  }

  ghost function Quants(values: seq<real>, base: nat, n: nat): (q: seq<int>)
    requires base + QK <= |values| && Singles(values) && Scalable(values, base) && n <= QK
    ensures |q| == n
  {
    PeakInverse(values, base);
    var (amax, signed) := Peak(values, base, QK);
    if amax == 0.0 then seq(n, _ => 0) else
      seq(n, i requires 0 <= i < n => (QuantInRange(values, base, i); QuantOf(Inverse(signed).value, values[base + i])))
  }

  function SumOf(q: seq<int>, from: nat, n: nat): int
    requires from + n <= |q|
  {
    if n == 0 then 0 else SumOf(q, from, n - 1) + q[from + n - 1]
  }

  function GroupSums(q: seq<int>): (s: seq<int>)
    requires |q| == QK
    ensures |s| == 16
  {
    seq(16, g requires 0 <= g < 16 => SumOf(q, 16 * g, 16))
  }

  ghost function Scale(values: seq<real>, base: nat): real
    requires base + QK <= |values| && Singles(values) && Scalable(values, base)
  {
    PeakInverse(values, base);
    var (amax, signed) := Peak(values, base, QK);
    if amax == 0.0 then 0.0 else
      HasScale(signed, Inverse(signed).value);
      ScaleOf(Inverse(signed).value).value
  }

  /** The block the quantiser makes of the values at `base`. */
  ghost function BlockAt(values: seq<real>, base: nat): (b: Block)
    requires base + QK <= |values| && Singles(values) && Scalable(values, base)
    ensures |b.quants| == QK
  {
    var q := Quants(values, base, QK);
    Block(Scale(values, base), q, GroupSums(q))
  }

  /** What a quant stands for. */
  function Dequant(b: Block, i: nat): real
    requires i < |b.quants|
  {
    b.scale * b.quants[i] as real
  }

  /** How far off dequantised values may be: half a quant, and what the roundings add. */
  function Step(amax: real): real { amax * (1.0 / 254.0 + 1.0 / 1048576.0) }

  /** Dequantised values are within half a quant of the originals, but for the roundings. */
  lemma DequantClose(values: seq<real>, base: nat, i: nat)
    requires base + QK <= |values| && Singles(values) && Scalable(values, base) && i < QK
    ensures Abs(Dequant(BlockAt(values, base), i) - values[base + i]) <= Step(AMax(values, base))
  {
    hide Peak, NearestInt, RoundEven, GroupSums, Normal, IsSingle, Inverse, ScaleOf, Undoes, Scalable;
    var (amax, signed) := Peak(values, base, QK);
    PeakInverse(values, base);
    PeakBounds(values, base, QK, i);
    if amax != 0.0 {
      var v, inverse := values[base + i], Inverse(signed).value;
      QuantInRange(values, base, i);
      RoundEvenBounds(Normal(inverse, v).value);
      HasScale(signed, inverse);
      var t := ScaleOf(inverse).value;
      DequantOne(signed, inverse, t, v, QuantOf(inverse, v) as real);
    }
  }

  // ----- the quantiser -----

  method FindPeak(values: seq<real>, base: nat) returns (amax: real, signedMax: real)
    requires base + QK <= |values|
    ensures (amax, signedMax) == Peak(values, base, QK)
  {
    amax, signedMax := 0.0, 0.0;
    for i := 0 to QK
      invariant (amax, signedMax) == Peak(values, base, i)
    {
      var absolute := Abs(values[base + i]);
      if absolute > amax { amax, signedMax := absolute, values[base + i]; }
    }
  }

  method SumGroups(q: seq<int>) returns (sums: seq<int>)
    requires |q| == QK
    ensures sums == GroupSums(q)
  {
    sums := [];
    for g := 0 to 16
      invariant |sums| == g && forall k :: 0 <= k < g ==> sums[k] == SumOf(q, 16 * k, 16)
    {
      var total := 0;
      for i := 0 to 16
        invariant total == SumOf(q, 16 * g, i)
      {
        total := total + q[16 * g + i];
      }
      sums := sums + [total];
    }
  }

  lemma QuantsAre(values: seq<real>, base: nat, q: seq<int>)
    requires base + QK <= |values| && Singles(values) && Scalable(values, base) && |q| == QK
    requires var (amax, signed) := Peak(values, base, QK);
             forall k {:trigger q[k]} :: 0 <= k < QK ==>
               if amax == 0.0 then q[k] == 0
               else signed != 0.0 && Inverse(signed).Some? && IsQuant(q[k], Inverse(signed).value, values[base + k])
    ensures q == Quants(values, base, QK)
  {
    hide Peak, QuantOf, Quantizable, Scalable, Singles, Inverse;
    PeakInverse(values, base);
    var quants := Quants(values, base, QK);
    forall k | 0 <= k < QK ensures q[k] == quants[k] {}
  }

  lemma {:induction false} ZeroSum(q: seq<int>, from: nat, n: nat)
    requires from + n <= |q| && forall i :: 0 <= i < |q| ==> q[i] == 0
    ensures SumOf(q, from, n) == 0
  {
    if n > 0 { ZeroSum(q, from, n - 1); }
  }

  lemma ZeroSums(q: seq<int>)
    requires |q| == QK && forall i :: 0 <= i < |q| ==> q[i] == 0
    ensures GroupSums(q) == seq(16, _ => 0)
  {
    forall g | 0 <= g < 16 ensures GroupSums(q)[g] == 0 { ZeroSum(q, 16 * g, 16); }
  }

  /** Lines 53-55. */
  method ScaleValues(values: seq<real>, base: nat, signed: real, inverse: real) returns (quants: seq<int>)
    requires base + QK <= |values| && Singles(values)
    requires signed == Peak(values, base, QK).1 != 0.0 && Inverse(signed) == Some(inverse)
    ensures |quants| == QK
    ensures forall k {:trigger quants[k]} :: 0 <= k < QK ==> IsQuant(quants[k], inverse, values[base + k])
  {
    hide Peak, Singles, Inverse, Normal, NearestInt, RoundEven;
    quants := [];
    for i := 0 to QK
      invariant |quants| == i
      invariant forall k {:trigger quants[k]} :: 0 <= k < i ==> IsQuant(quants[k], inverse, values[base + k])
    {
      QuantInRange(values, base, i);
      var product := Normal(inverse, values[base + i]);
      var rounded := NearestInt(product.value);
      var quant := Min127(rounded.value);
      if quant < -128 || quant > 127 { assert false; }
      assert IsQuant(quant, inverse, values[base + i]);
      quants := quants + [quant];
    }
  }

  /** Lines 40-57 for one block: None stands for the OverflowError of line 52, the
      only exception a block of singles can raise. */
  method QuantizeBlock(values: seq<real>, base: nat) returns (b: Option<Block>)
    requires base + QK <= |values| && Singles(values)
    ensures b.Some? <==> Scalable(values, base)
    ensures b.Some? ==> b.value == BlockAt(values, base)
  {
    hide Peak, Singles, Inverse, Normal, NearestInt, RoundEven, SumOf, GroupSums, Quants, QuantOf;
    hide Quantizable, ScaleOf, Undoes;
    PeakInverse(values, base);
    var amax, signed := FindPeak(values, base);
    if amax == 0.0 {
      var zeros := seq(QK, _ => 0);
      ZeroSums(zeros);
      QuantsAre(values, base, zeros);
      return Some(Block(0.0, zeros, seq(16, _ => 0)));
    }
    var inverse := Inverse(signed);
    if inverse.None? { return None; }
    var quants := ScaleValues(values, base, signed, inverse.value);
    var sums := SumGroups(quants);
    QuantsAre(values, base, quants);
    HasScale(signed, inverse.value);
    b := Some(Block(ScaleOf(inverse.value).value, quants, sums));
  }

  // ----- any input -----

  /** A Python float. */
  datatype Number = Finite(value: real) | NonFinite

  predicate AllFinite(numbers: seq<Number>) { forall i :: 0 <= i < |numbers| ==> numbers[i].Finite? }

  function Reals(numbers: seq<Number>): (values: seq<real>)
    requires AllFinite(numbers)
    ensures |values| == |numbers| && forall i :: 0 <= i < |values| ==> values[i] == numbers[i].value
  {
    seq(|numbers|, i requires 0 <= i < |numbers| => numbers[i].value)
  }

  /** The finite numbers of the input are singles. */
  ghost predicate SinglesOnly(numbers: seq<Number>) {
    forall i :: 0 <= i < |numbers| && numbers[i].Finite? ==> IsSingle(numbers[i].value)
  }

  /** Whole blocks of finite numbers, each of which can be scaled. */
  ghost predicate Quantifies(numbers: seq<Number>) {
    numbers != [] && |numbers| % QK == 0 && AllFinite(numbers) &&
    forall b :: 0 <= b < |numbers| / QK ==> Scalable(Reals(numbers), QK * b)
  }

  method CheckFinite(numbers: seq<Number>) returns (finite: bool)
    ensures finite == AllFinite(numbers)
  {
    for i := 0 to |numbers|
      invariant forall k :: 0 <= k < i ==> numbers[k].Finite?
    {
      if numbers[i].NonFinite? { return false; }
    }
    finite := true;
  }

  /** quantize_q8_k: an input is refused exactly when it is empty, ends in a partial
      block, holds an infinity or NaN, or has a block whose inverse scale overflows. */
  method Quantize(numbers: seq<Number>) returns (r: Option<seq<Block>>)
    requires SinglesOnly(numbers)
    ensures r.Some? <==> Quantifies(numbers)
    ensures r.Some? ==> |r.value| == |numbers| / QK && Singles(Reals(numbers))
    ensures r.Some? ==> forall b :: 0 <= b < |r.value| ==> r.value[b] == BlockAt(Reals(numbers), QK * b)
  {
    hide BlockAt, Scalable, IsSingle;
    if numbers == [] || |numbers| % QK != 0 { return None; }
    var finite := CheckFinite(numbers);
    if !finite { return None; }
    var values := Reals(numbers);
    var blocks := [];
    var n := |values| / QK;
    for b := 0 to n
      invariant forall k :: 0 <= k < b ==> Scalable(values, QK * k)
      invariant |blocks| == b && forall k :: 0 <= k < b ==> blocks[k] == BlockAt(values, QK * k)
    {
      var block := QuantizeBlock(values, QK * b);
      if block.None? { return None; }
      blocks := blocks + [block.value];
    }
    r := Some(blocks);
  }

  // ----- an input that is refused -----

  lemma {:induction false} PeakOfOne(values: seq<real>, n: nat)
    requires 0 < n <= |values| && values[0] > 0.0 && forall i :: 0 < i < |values| ==> values[i] == 0.0
    ensures Peak(values, 0, n) == (values[0], values[0])
  {
    if n > 1 { PeakOfOne(values, n - 1); }
  }

  lemma SmallestNormal()
    ensures IsSingle(Power(-126)) && IsSingle(0.0) && 127.0 / Power(-126) >= Overflow()
  {
    hide Power, Pow2;
    PowerUp(-126, 126);
    PowerStep(126);
    PowerStep(127);
    PowerWhole(24);
    PowerUp(1, 24);
    Power24();
    assert Dyadic(Power(-126), 1, -126) && Small(1, 24);
    assert Dyadic(0.0, 0, 0) && Small(0, 24);
    PowerAdd(126, -126);
    PowerZero();
    QuotientIs(127.0, Power(-126), 127.0 * Power(126));
  }

  /** One smallest normal single and 255 zeros: finite singles, a whole block, and
      the script raises. */
  lemma TinyPeakRefused(values: seq<real>)
    requires |values| == QK && values[0] == Power(-126) && forall i :: 0 < i < QK ==> values[i] == 0.0
    ensures Singles(values) && !Scalable(values, 0)
  {
    hide Power, IsSingle, Overflow;
    SmallestNormal();
    PeakOfOne(values, QK);
  }
}
