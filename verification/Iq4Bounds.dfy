/** How far the integer dot of a quantised activation can be from the plain dot,
    and how large its integers get. */
module Iq4Bounds {
  import opened Words
  import opened Rounding
  import opened Q8kNearest
  import opened Q8kScaling
  import opened Q8kQuantize
  import opened Iq4Dot

  /** The blocks quantize_q8_k makes of `values`. */
  ghost predicate Quantized(values: seq<real>, qs: seq<Block>) {
    |values| == QK * |qs| && Singles(values) &&
    forall b :: 0 <= b < |qs| ==> Scalable(values, QK * b) && qs[b] == BlockAt(values, QK * b)
  }

  lemma QuantizedBlocks(values: seq<real>, qs: seq<Block>)
    requires Quantized(values, qs)
    ensures Blocks(qs)
  {
    hide Singles, Scalable;
  }

  /** Sum of the first `n` weights' magnitudes. */
  function Mass(row: seq<Byte>, blocks: nat, b: nat, n: nat): (m: real)
    requires Row(row, blocks) && b < blocks && n <= QK
  {
    if n == 0 then 0.0 else Mass(row, blocks, b, n - 1) + Abs(Weight(row, blocks, b, n - 1))
  }

  /** How far products with this much weight can be off when the block's peak is `amax`. */
  function Error(amax: real, mass: real): real { Step(amax) * mass }

  lemma TermClose(w: real, x: real, y: real, e: real)
    requires Abs(x - y) <= e
    ensures Abs(w * x - w * y) <= e * Abs(w)
  {
    var d := x - y;
    assert w * x - w * y == w * d;
    if w >= 0.0 {
      assert w * d <= w * e && w * d >= w * -e;
    } else {
      assert w * d >= w * e && w * d <= w * -e;
    }
  }

  lemma Triangle(a: real, b: real, c: real, d: real, e: real, f: real)
    requires Abs(a - b) <= e && Abs(c - d) <= f
    ensures Abs(a + c - (b + d)) <= e + f
  {
  }

  lemma ActClose(qs: seq<Block>, values: seq<real>, b: nat, k: nat)
    requires Quantized(values, qs) && Blocks(qs) && b < |qs| && k < QK
    ensures Abs(values[QK * b + k] - Dequants(qs)[QK * b + k]) <= Step(AMax(values, QK * b))
  {
    hide BlockAt, AMax, Dequants, Dequant, Abs, Singles, Scalable, Step;
    DequantsAt(qs, b, k);
    DequantClose(values, QK * b, k);
    AbsSwap(values[QK * b + k], Dequants(qs)[QK * b + k]);
  }

  lemma Accumulate(p: real, q: real, w: real, x: real, y: real, amax: real, mass: real, p1: real, q1: real, mass1: real)
    requires Abs(p - q) <= Error(amax, mass) && Abs(x - y) <= Step(amax)
    requires p1 == p + w * x && q1 == q + w * y && mass1 == mass + Abs(w)
    ensures Abs(p1 - q1) <= Error(amax, mass1)
  {
    TermClose(w, x, y, Step(amax));
    Triangle(p, q, w * x, w * y, Error(amax, mass), Step(amax) * Abs(w));
    Together(Step(amax), mass, Abs(w));
  }

  /** One more product: what the induction adds. */
  lemma OneTerm(row: seq<Byte>, blocks: nat, b: nat, x: seq<real>, y: seq<real>, amax: real, n: nat)
    requires Row(row, blocks) && b < blocks && |x| == |y| == QK * blocks && n < QK
    requires Abs(PlainBlock(row, blocks, b, x, n) - PlainBlock(row, blocks, b, y, n)) <=
      Error(amax, Mass(row, blocks, b, n))
    requires Abs(x[QK * b + n] - y[QK * b + n]) <= Step(amax)
    ensures Abs(PlainBlock(row, blocks, b, x, n + 1) - PlainBlock(row, blocks, b, y, n + 1)) <=
            Error(amax, Mass(row, blocks, b, n + 1))
  {
    hide Row, Weight, Abs, Error;
    Accumulate(PlainBlock(row, blocks, b, x, n), PlainBlock(row, blocks, b, y, n), Weight(row, blocks, b, n),
               x[QK * b + n], y[QK * b + n], amax, Mass(row, blocks, b, n),
               PlainBlock(row, blocks, b, x, n + 1), PlainBlock(row, blocks, b, y, n + 1), Mass(row, blocks, b, n + 1));
  }

  /** In one block every product is off by at most half a quant times the weight. */
  lemma {:induction false} BlockClose(row: seq<Byte>, qs: seq<Block>, values: seq<real>, b: nat, n: nat)
    requires Row(row, |qs|) && |values| == QK * |qs| && Quantized(values, qs) && Blocks(qs) && b < |qs| && n <= QK
    ensures Abs(PlainBlock(row, |qs|, b, values, n) - PlainBlock(row, |qs|, b, Dequants(qs), n)) <=
            Error(AMax(values, QK * b), Mass(row, |qs|, b, n))
  {
    hide Row, Quantized, Blocks, PlainBlock, Mass, AMax, Dequants, Error, Weight, Abs;
    var amax := AMax(values, QK * b);
    if n > 0 {
      BlockClose(row, qs, values, b, n - 1);
      ActClose(qs, values, b, n - 1);
      OneTerm(row, |qs|, b, values, Dequants(qs), amax, n - 1);
    } else {
      NoTerms(row, |qs|, b, values, Dequants(qs), amax);
    }
  }

  lemma AbsSwap(x: real, y: real)
    ensures Abs(x - y) == Abs(y - x)
  {
  }

  lemma Together(e: real, a: real, b: real)
    ensures e * a + e * b == e * (a + b)
  {
  }

  lemma NoTerms(row: seq<Byte>, blocks: nat, b: nat, x: seq<real>, y: seq<real>, amax: real)
    requires Row(row, blocks) && b < blocks && |x| == |y| == QK * blocks
    ensures Abs(PlainBlock(row, blocks, b, x, 0) - PlainBlock(row, blocks, b, y, 0)) <=
      Error(amax, Mass(row, blocks, b, 0))
  {
  }

  /** The error the whole row may have. */
  function Slack(row: seq<Byte>, blocks: nat, values: seq<real>, n: nat): real
    requires Row(row, blocks) && |values| == QK * blocks && n <= blocks
  {
    if n == 0 then 0.0
    else Slack(row, blocks, values, n - 1) + Error(AMax(values, QK * (n - 1)), Mass(row, blocks, n - 1, QK))
  }

  lemma {:induction false} PlainClose(row: seq<Byte>, qs: seq<Block>, values: seq<real>, n: nat)
    requires Row(row, |qs|) && |values| == QK * |qs| && Quantized(values, qs) && Blocks(qs) && n <= |qs|
    ensures Abs(Plain(row, |qs|, values, n) - Plain(row, |qs|, Dequants(qs), n)) <= Slack(row, |qs|, values, n)
  {
    hide Row, Quantized, Blocks, PlainBlock, Mass, Dequants, AMax, Error;
    if n > 0 {
      PlainClose(row, qs, values, n - 1);
      BlockClose(row, qs, values, n - 1, QK);
      Triangle(Plain(row, |qs|, values, n - 1), Plain(row, |qs|, Dequants(qs), n - 1),
               PlainBlock(row, |qs|, n - 1, values, QK), PlainBlock(row, |qs|, n - 1, Dequants(qs), QK),
               Slack(row, |qs|, values, n - 1), Error(AMax(values, QK * (n - 1)), Mass(row, |qs|, n - 1, QK)));
    }
  }

  /** The integer dot of the quantised activation is within the sum over the blocks
      of half a quant times the weights' magnitudes of the plain dot. */
  lemma DotsAreClose(row: seq<Byte>, qs: seq<Block>, values: seq<real>)
    requires Row(row, |qs|) && Quantized(values, qs)
    ensures Blocks(qs)
    ensures Abs(Plain(row, |qs|, values, |qs|) - Factored(row, |qs|, qs, |qs|)) <= Slack(row, |qs|, values, |qs|)
  {
    hide *;
    QuantizedBlocks(values, qs);
    QuantizedLength(values, qs);
    FactoredIsPlain(row, qs, |qs|);
    PlainClose(row, qs, values, |qs|);
  }

  lemma QuantizedLength(values: seq<real>, qs: seq<Block>)
    requires Quantized(values, qs)
    ensures |values| == QK * |qs|
  {
  }

  // ----- the integers -----

  predicate Int8s(q: seq<int>) { |q| == QK && forall i :: 0 <= i < QK ==> -128 <= q[i] <= 127 }

  /** Every quant the quantiser makes is an int8. */
  lemma QuantsAreInt8(values: seq<real>, base: nat)
    requires base + QK <= |values| && Singles(values) && Scalable(values, base)
    ensures Int8s(BlockAt(values, base).quants)
  {
    hide Peak, RoundEven, NearestInt, GroupSums, Normal, QuantOf, Quantizable, Inverse, Singles, Scalable, Scale;
    PeakInverse(values, base);
    var (amax, signed) := Peak(values, base, QK);
    if amax != 0.0 {
      forall i | 0 <= i < QK ensures -128 <= BlockAt(values, base).quants[i] <= 127 { QuantInRange(values, base, i); }
    }
  }

  lemma Below(a: nat, b: nat, c: nat, d: nat)
    requires a <= c && b <= d
    ensures a * b <= c * d
  {
    assert a * b <= a * d <= c * d;
  }

  lemma ProductBound(q: int, e: int)
    requires -128 <= q <= 127 && -127 <= e <= 113
    ensures -16256 <= q * e <= 16256
  {
    var a, b := if q < 0 then -q else q, if e < 0 then -e else e;
    Below(a, b, 128, 127);
    assert q * e == a * b || q * e == -(a * b);
  }

  lemma {:induction false} HalfGroupBound(row: seq<Byte>, at: nat, q: seq<int>, group: nat, high: bool, n: nat)
    requires at + BYTES <= |row| && Int8s(q) && group < 8 && n <= 16
    ensures -16256 * n <= HalfGroup(row, at, q, group, high, n) <= 16256 * n
  {
    hide Iq4;
    if n > 0 {
      HalfGroupBound(row, at, q, group, high, n - 1);
      var byte := row[at + 8 + group * 16 + n - 1];
      if high {
        ProductBound(q[group * 32 + 16 + n - 1], Iq4(byte / 16));
      } else {
        ProductBound(q[group * 32 + n - 1], Iq4(byte % 16));
      }
    }
  }

  lemma ScaledBound(g: int, l: int)
    requires -520192 <= g <= 520192 && -32 <= l < 32
    ensures -16646144 <= g * l <= 16646144
  {
    if g >= 0 { assert g * l <= g * 32 && g * l >= g * -32; } else { assert g * l >= g * 32 && g * l <= g * -32; }
  }

  /** The running sum of any row with any int8 quants fits a signed 32-bit integer,
      after every group. */
  lemma {:induction false} IntegerSumFits(row: seq<Byte>, at: nat, q: seq<int>, groups: nat)
    requires at + BYTES <= |row| && Int8s(q) && groups <= 8
    ensures -16646144 * groups <= IntegerSum(row, at, q, groups) <= 16646144 * groups
    ensures -0x8000_0000 <= IntegerSum(row, at, q, groups) < 0x8000_0000
  {
    hide HalfGroup, LocalScale;
    if groups > 0 {
      var g := groups - 1;
      IntegerSumFits(row, at, q, g);
      HalfGroupBound(row, at, q, g, false, 16);
      HalfGroupBound(row, at, q, g, true, 16);
      ScaledBound(GroupSum(row, at, q, g), LocalScale(row, at, g));
    }
  }
}
