/** Both dot products of scripts/q8k_activation_spike.py:105-135 on one activation: a
    limit on its magnitudes under which neither overflows, how far apart the two
    results then are, and an activation whose integer dot overflows. */
module Iq4Returns {
  import opened Words
  import opened Floats
  import opened Rounding
  import opened Summation
  import opened Q8kScaling
  import opened Q8kQuantize
  import opened Iq4Dot
  import opened Iq4Bounds
  import opened Iq4Rounded
  import opened Iq4Range
  import opened Iq4Plain

  /** Every activation is at most `peak` in magnitude. */
  predicate Within(values: seq<real>, peak: real) { forall i :: 0 <= i < |values| ==> Abs(values[i]) <= peak }

  lemma DigitsBelow(x: real, m: int, p: real)
    requires x == m as real * p && -2048 < m < 2048 && 0.0 < p <= 32.0
    ensures Abs(x) <= 65536.0
  {
    SmallTimes(x, m as real, 2048.0, p, 2048.0 * p);
  }

  /** A finite half-precision number is below 2^16. */
  lemma HalfBelow(low: Byte, high: Byte)
    requires Half(low, high).Some?
    ensures Abs(Half(low, high).value) <= 65536.0
  {
    hide Power, Half;
    var m, e := HalfDigits(low, high);
    PowerUp(e, 5);
    Power5();
    DigitsBelow(Half(low, high).value, m, Power(e));
  }

  lemma WeightScaleBelow(row: seq<Byte>, blocks: nat, b: nat)
    requires Row(row, blocks) && b < blocks
    ensures Abs(WeightScale(row, blocks, b)) <= 65536.0
  {
    hide Half;
    HalfBelow(row[BYTES * b], row[BYTES * b + 1]);
  }

  lemma {:induction false} PeakBelow(values: seq<real>, base: nat, n: nat, peak: real)
    requires base + n <= |values| && Within(values, peak) && peak >= 0.0
    ensures Peak(values, base, n).0 <= peak
  {
    if n > 0 { PeakBelow(values, base, n - 1, peak); }
  }

  lemma AtMost(x: real, n: real, a: real)
    requires x * n <= 2.0 && n * a >= 126.0 && n > 0.0
    ensures x <= a
  {
    if a < x { LessTimes(a, x, n, a * n); }
  }

  /** A scale that undoes an inverse scale is at most the peak it was made from. */
  lemma ScaleBelow(t: real, i: real, n: real, a: real)
    requires Undoes(t, i) && n == Abs(i) && n * a >= 127.0 - 1.0 / 65536.0 && a > 0.0 && n > 0.0
    ensures Abs(t) <= a
  {
    var x := Abs(t);
    Magnitudes(t, i, x, n);
    AtMost(x, n, a);
  }

  lemma BlockScaleBelow(values: seq<real>, base: nat)
    requires base + QK <= |values| && Singles(values) && Scalable(values, base)
    ensures Abs(BlockAt(values, base).scale) <= AMax(values, base)
  {
    hide Peak, Inverse, IsSingle, Singles, Scalable, Q8kQuantize.Quants, GroupSums, Power, ScaleOf, Undoes;
    PeakInverse(values, base);
    var (amax, signed) := Peak(values, base, QK);
    if amax != 0.0 {
      var i := Inverse(signed).value;
      HasScale(signed, i);
      InverseClose(signed, i);
      AbsSingle(signed);
      InverseRange(amax, signed, i, Abs(i));
      PositivePower(-122);
      ScaleBelow(ScaleOf(i).value, i, Abs(i), amax);
    }
  }

  // ----- the masses -----

  lemma ProductBelow(x: real, y: real, a: real, b: real, p: real)
    requires Abs(x) <= a && Abs(y) <= b && p == x * y
    ensures Abs(p) <= a * b
  {
    var m, n := Abs(x), Abs(y);
    var q := m * n;
    Magnitudes(x, y, m, n);
    SizesBelow(q, m, n, a, b);
    Either(p, q, a * b);
  }

  lemma SizesBelow(q: real, m: real, n: real, a: real, b: real)
    requires 0.0 <= m <= a && 0.0 <= n <= b && q == m * n
    ensures q <= a * b
  {
    WithinTimes(m, a, n);
    AbsOrdered(a, n, b);
  }

  lemma Either(p: real, q: real, limit: real)
    requires (p == q || p == -q) && 0.0 <= q <= limit
    ensures Abs(p) <= limit
  {
  }

  lemma AbsOrdered(a: real, n: real, b: real)
    requires 0.0 <= a && n <= b
    ensures a * n <= a * b
  {
    UnitTimes(a, n, b);
  }

  lemma ThreeFactors(d: real, s: real, sum: int, peak: real, x: real)
    requires Abs(d) <= 65536.0 && Abs(s) <= peak && -134217728 <= sum <= 134217728 && x == Rescale(d, s, sum)
    ensures Abs(x) <= 8796093022208.0 * peak
  {
    hide Abs;
    var p := d * s;
    ProductBelow(d, s, 65536.0, peak, p);
    SumSize(sum);
    ProductBelow(p, sum as real, 65536.0 * peak, 134217728.0, x);
  }

  lemma SumSize(sum: int)
    requires -134217728 <= sum <= 134217728
    ensures Abs(sum as real) <= 134217728.0
  {
  }

  lemma TermBelow(row: seq<Byte>, values: seq<real>, qs: seq<Block>, b: nat, peak: real)
    requires Row(row, |qs|) && Quantized(values, qs) && Blocks(qs) && b < |qs| && Within(values, peak) && peak >= 0.0
    ensures Abs(ExactTerm(row, qs, b)) <= 8796093022208.0 * peak
  {
    hide Row, Abs, WeightScale, Rescale, IntegerSum, BlockAt, Singles, Scalable, Within, Int8s;
    RowSpan(row, |qs|, b);
    WeightScaleBelow(row, |qs|, b);
    BlockScaleBelow(values, QK * b);
    PeakBelow(values, QK * b, QK, peak);
    QuantsAreInt8(values, QK * b);
    IntegerSumFits(row, BYTES * b, qs[b].quants, 8);
    ThreeFactors(WeightScale(row, |qs|, b), qs[b].scale, BlockSum(row, qs, b), peak, ExactTerm(row, qs, b));
  }

  lemma {:induction false} TermMassBelow(row: seq<Byte>, values: seq<real>, qs: seq<Block>, n: nat, peak: real)
    requires Row(row, |qs|) && Quantized(values, qs) && Blocks(qs) && n <= |qs| && Within(values, peak) && peak >= 0.0
    ensures TermMass(row, qs, n) <= n as real * (8796093022208.0 * peak)
  {
    hide Row, Quantized, Blocks, Within, ExactTerm, Abs;
    if n > 0 {
      TermMassBelow(row, values, qs, n - 1, peak);
      TermBelow(row, values, qs, n - 1, peak);
      OneMoreReal(n, 8796093022208.0 * peak);
    }
  }

  lemma OneMoreReal(n: nat, x: real)
    requires n > 0
    ensures n as real * x == (n - 1) as real * x + x
  {
  }

  lemma WeightBelow(row: seq<Byte>, blocks: nat, b: nat, k: nat)
    requires Row(row, blocks) && b < blocks && k < QK
    ensures Abs(Weight(row, blocks, b, k)) <= 268435456.0
  {
    hide Row, Abs, WeightScale, LocalScale, Entry;
    RowSpan(row, blocks, b);
    WeightScaleBelow(row, blocks, b);
    var d, l, e := WeightScale(row, blocks, b), LocalScale(row, BYTES * b, k / 32), Entry(row, BYTES * b, k);
    ProductSizes(d, l, e);
  }

  lemma ProductSizes(d: real, l: int, e: int)
    requires Abs(d) <= 65536.0 && -32 <= l < 32 && -127 <= e <= 113
    ensures Abs(Product(d, l, e)) <= 268435456.0
  {
    var p := d * l as real;
    ProductBelow(d, l as real, 65536.0, 32.0, p);
    ProductBelow(p, e as real, 65536.0 * 32.0, 128.0, Product(d, l, e));
  }

  lemma NoMass(row: seq<Byte>, blocks: nat, b: nat, act: seq<real>, peak: real)
    requires Row(row, blocks) && b < blocks && |act| == QK * blocks
    ensures BlockMass(row, blocks, b, act, 0) <= 0 as real * (268435456.0 * peak)
  {
    hide Row;
  }

  lemma ActivationBelow(act: seq<real>, i: nat, peak: real)
    requires i < |act| && Within(act, peak)
    ensures Abs(act[i]) <= peak
  {
  }

  lemma {:induction false} BlockMassBelow(row: seq<Byte>, blocks: nat, b: nat, act: seq<real>, n: nat, peak: real)
    requires Row(row, blocks) && b < blocks && |act| == QK * blocks && n <= QK && Within(act, peak) && peak >= 0.0
    ensures BlockMass(row, blocks, b, act, n) <= n as real * (268435456.0 * peak)
  {
    hide Row, Weight, Abs, BlockMass, PlainBlock, RoundedBlock, Added, Double, Within;
    if n == 0 {
      NoMass(row, blocks, b, act, peak);
    } else {
      BlockMassBelow(row, blocks, b, act, n - 1, peak);
      WeightBelow(row, blocks, b, n - 1);
      var w, x := Weight(row, blocks, b, n - 1), act[QK * b + n - 1];
      var p := w * x;
      ActivationBelow(act, QK * b + n - 1, peak);
      ProductBelow(w, x, 268435456.0, peak, p);
      BlockStep(row, blocks, b, act, n - 1, p);
      MassStep(BlockMass(row, blocks, b, act, n - 1), Abs(p), n, 268435456.0 * peak);
    }
  }

  lemma MassStep(mass: real, size: real, n: nat, limit: real)
    requires n > 0 && mass <= (n - 1) as real * limit && size <= limit
    ensures mass + size <= n as real * limit
  {
    OneMoreReal(n, limit);
  }

  lemma {:induction false} PlainMassBelow(row: seq<Byte>, blocks: nat, act: seq<real>, n: nat, peak: real)
    requires Row(row, blocks) && |act| == QK * blocks && n <= blocks && Within(act, peak) && peak >= 0.0
    ensures PlainMass(row, blocks, act, n) <= n as real * (68719476736.0 * peak)
  {
    hide Row, BlockMass, Within;
    if n > 0 {
      PlainMassBelow(row, blocks, act, n - 1, peak);
      BlockMassBelow(row, blocks, n - 1, act, QK, peak);
      OneMoreReal(n, 68719476736.0 * peak);
    }
  }

  // ----- neither overflows -----

  lemma MassFits(mass: real, n: nat, peak: real)
    requires n <= MAX_BLOCKS && 0.0 <= peak <= Power(63) && mass <= n as real * (8796093022208.0 * peak)
    ensures mass <= Power(126)
  {
    hide Power;
    Power63();
    PowerAdd(63, 63);
    Square(Power(63), Power(126));
    TwentyBits(mass, n as real, 8796093022208.0 * peak);
  }

  lemma TwentyBits(mass: real, n: real, block: real)
    requires mass <= n * block && n <= 1048576.0 && block >= 0.0
    ensures mass <= 1048576.0 * block
  {
    WithinTimes(n, 1048576.0, block);
  }

  lemma Square(p: real, q: real)
    requires p == 9223372036854775808.0 && q == p * p
    ensures q == 9223372036854775808.0 * p
  {
  }

  lemma Power63()
    ensures Power(63) == 9223372036854775808.0
  {
    hide Power;
    Power48();
    Power5();
    PowerAdd(5, 5);
    PowerAdd(10, 5);
    PowerAdd(48, 15);
  }

  /** Activations of at most 2^63 in magnitude, in at most 2^20 blocks: the masses stay
      far from overflow. */
  lemma MassesFit(row: seq<Byte>, values: seq<real>, qs: seq<Block>)
    requires Row(row, |qs|) && Quantized(values, qs) && Blocks(qs) && |values| == QK * |qs| && |qs| <= MAX_BLOCKS
    requires Within(values, Power(63))
    ensures TermMass(row, qs, |qs|) <= Power(126) && PlainMass(row, |qs|, values, |qs|) <= Power(126)
  {
    hide Power, Row, Quantized, Blocks, Within, TermMass, PlainMass;
    var n, peak := |qs|, Power(63);
    PositivePower(63);
    TermMassBelow(row, values, qs, n, peak);
    PlainMassBelow(row, n, values, n, peak);
    MassFits(TermMass(row, qs, n), n, peak);
    Larger(n, peak);
    MassFits(PlainMass(row, n, values, n), n, peak);
  }

  lemma Larger(n: nat, peak: real)
    requires peak > 0.0
    ensures n as real * (68719476736.0 * peak) <= n as real * (8796093022208.0 * peak)
  {
    UnitTimes(n as real, 68719476736.0 * peak, 8796093022208.0 * peak);
  }

  /** The script's two dots of one activation, all roundings included: for magnitudes of
      at most 2^63 in at most 2^20 blocks both are returned, and they differ by at most
      the quantisation's slack and what the roundings of either can add. */
  lemma ReturnedDotsAreClose(row: seq<Byte>, values: seq<real>, qs: seq<Block>)
    requires Row(row, |qs|) && Quantized(values, qs) && Blocks(qs) && |values| == QK * |qs| && |qs| <= MAX_BLOCKS
    requires Within(values, Power(63))
    ensures var plain, factored := ToSingle(RoundedPlain(row, |qs|, values, |qs|)), RoundedDot(row, qs, |qs|);
            plain.Some? && factored.Some? &&
            Abs(factored.value - plain.value) <= Slack(row, |qs|, values, |qs|) +
              Unit(PlainMass(row, |qs|, values, |qs|)) +
              ((2 * |qs| + 1) as real / 8388608.0 * TermMass(row, qs, |qs|) + (3 * |qs|) as real * Power(-149))
  {
    hide Power, Row, Quantized, Blocks, Within, TermMass, PlainMass, RoundedPlain, RoundedDot, Slack, Plain;
    hide Factored, Unit;
    hide ToSingle, Abs;
    MassesFit(row, values, qs);
    QuantizedScales(values, qs);
    DotReturns(row, qs);
    PlainReturns(row, |qs|, values);
    DotsAreClose(row, qs, values);
    var rounding := (2 * |qs| + 1) as real / 8388608.0 * TermMass(row, qs, |qs|) + (3 * |qs|) as real * Power(-149);
    ThreeSteps(RoundedDot(row, qs, |qs|).value, Factored(row, |qs|, qs, |qs|), Plain(row, |qs|, values, |qs|),
               ToSingle(RoundedPlain(row, |qs|, values, |qs|)).value, rounding, Slack(row, |qs|, values, |qs|),
               Unit(PlainMass(row, |qs|, values, |qs|)));
  }

  lemma ThreeSteps(x: real, y: real, z: real, w: real, a: real, b: real, c: real)
    requires Abs(x - y) <= a && Abs(z - y) <= b && Abs(w - z) <= c
    ensures Abs(x - w) <= b + c + a
  {
  }

  // ----- an activation that overflows -----

  /** One block whose scale is the largest finite half-precision number, 65504, and whose
      local scales and table entries are their largest, 31 and 113. */
  function LoudRow(): (row: seq<Byte>)
    ensures |row| == BYTES && row[0] == 0xFF && row[1] == 0x7B && forall i :: 2 <= i < BYTES ==> row[i] == 0xFF
  {
    [0xFF, 0x7B] + seq(134, _ => 0xFF)
  }

  lemma LargestHalf()
    ensures Half(0xFF, 0x7B) == Some(65504.0)
  {
    hide Power;
    Power5();
  }

  lemma HighBits(group: nat)
    requires group < 8
    ensures Shift2(0xFFFF, group) % 4 == 3
  {
    assert Shift2(0xFFFF, 1) == 0x3FFF && Shift2(0xFFFF, 2) == 0xFFF && Shift2(0xFFFF, 3) == 0x3FF;
    assert Shift2(0xFFFF, 4) == 0xFF && Shift2(0xFFFF, 5) == 0x3F && Shift2(0xFFFF, 6) == 15 && Shift2(0xFFFF, 7) == 3;
  }

  lemma LoudScale(group: nat)
    requires group < 8
    ensures LocalScale(LoudRow(), 0, group) == 31
  {
    hide LoudRow, Shift2;
    HighBits(group);
  }

  lemma LoudEntry(k: nat)
    requires k < QK
    ensures Entry(LoudRow(), 0, k) == 113
  {
    hide LoudRow;
  }

  lemma LoudIsRow()
    ensures Row(LoudRow(), 1) && WeightScale(LoudRow(), 1, 0) == 65504.0
  {
    hide LoudRow, Half;
    LargestHalf();
  }

  lemma {:induction false} LoudTerms(q: seq<int>, n: nat)
    requires |q| == QK && n <= QK && forall k :: 0 <= k < QK ==> q[k] == q[0]
    ensures Terms(LoudRow(), 0, q, n) == n * (q[0] * 3503)
  {
    hide LoudRow, Entry, LocalScale;
    if n > 0 {
      LoudTerms(q, n - 1);
      LoudEntry(n - 1);
      LoudScale((n - 1) / 32);
    }
  }

  /** A block of one value: its peak is that value, and its quants are equal. */
  lemma EqualValues(values: seq<real>, v: real)
    requires |values| == QK && v > 1.0 && IsSingle(v) && forall k :: 0 <= k < QK ==> values[k] == v
    ensures Singles(values) && AMax(values, 0) == v && Scalable(values, 0)
    ensures var q := BlockAt(values, 0).quants; forall k :: 0 <= k < QK ==> q[k] == q[0]
  {
    hide Peak, IsSingle, Overflow, Quantizable, QuantOf, Inverse, GroupSums;
    PeakBounds(values, 0, QK, 0);
    PeakBelow(values, 0, QK, v);
    LimitLarge();
    QuotientPositive(v);
    ProductMore(127.0 / v, v, 1.0, 127.0, Overflow());
    PeakInverse(values, 0);
  }

  lemma LoudSize(t: real, q: int, p: real, v: real, x: real)
    requires p == t * q as real && Abs(p - v) <= Step(v) && v > 0.0 && x == Rescale(65504.0, t, 256 * (q * 3503))
    ensures x >= 51539607552.0 * v
  {
    assert (256 * (q * 3503)) as real == 896768.0 * q as real;
    assert x == 65504.0 * 896768.0 * p;
    assert p >= 0.99 * v;
  }

  lemma DoubleLarge(x: real, d: real, limit: real)
    requires Abs(d - x) * 9007199254740992.0 <= Abs(x) && x >= 1.5 * limit && limit > 0.0
    ensures d >= limit
  {
  }

  lemma LargeOverflows(d: real, scale: real, sum: int)
    requires IsSingle(d) && IsSingle(scale) && Rescale(d, scale, sum) >= 1.5 * Power(128)
    ensures TermOf(d, scale, sum).None?
  {
    hide Power, IsSingle, Rescale, ToSingle, Double, Times;
    var x := Rescale(d, scale, sum);
    ProductExact(d, scale);
    RescaleIs(d, scale, sum);
    PowerUp(-1022, 128);
    DoubleClose(x);
    DoubleLarge(x, Double(x), Power(128));
    OverflowExactly(Double(x));
  }

  lemma LoudLimit(v: real, x: real)
    requires v >= Power(93) && x >= 51539607552.0 * v
    ensures x >= 1.5 * Power(128)
  {
    hide Power;
    Power5();
    PowerAdd(5, 5);
    PowerAdd(10, 10);
    PowerAdd(20, 10);
    PowerAdd(30, 5);
    PowerAdd(93, 35);
  }

  /** 256 activations of 2^93 or more, finite singles in one block, and finite weights:
      the integer dot raises OverflowError. */
  lemma LoudOverflows(values: seq<real>, v: real)
    requires |values| == QK && IsSingle(v) && v >= Power(93) && forall k :: 0 <= k < QK ==> values[k] == v
    ensures Singles(values) && Scalable(values, 0) && Row(LoudRow(), 1)
    ensures RoundedDot(LoudRow(), [BlockAt(values, 0)], 1).None?
  {
    hide Power, IsSingle, Singles, Scalable, BlockAt, LoudRow, Row, TermOf, WeightScale, IntegerSum, AMax;
    hide Rescale, Abs, Step;
    PowerUp(1, 93);
    PowerZero();
    PowerStep(0);
    EqualValues(values, v);
    LoudIsRow();
    var b := BlockAt(values, 0);
    GroupsAreTerms(LoudRow(), 0, b.quants, 8);
    LoudTerms(b.quants, QK);
    DequantClose(values, 0, 0);
    var p := Dequant(b, 0);
    assert Abs(p - v) <= Step(v) by { assert values[0 + 0] == v && AMax(values, 0) == v; }
    ScaleIsSingle(values, 0);
    WeightIsSingle(LoudRow(), 1, 0);
    var sum := IntegerSum(LoudRow(), 0, b.quants, 8);
    LoudSize(b.scale, b.quants[0], p, v, Rescale(65504.0, b.scale, sum));
    LoudLimit(v, Rescale(65504.0, b.scale, sum));
    LargeOverflows(65504.0, b.scale, sum);
  }
}
