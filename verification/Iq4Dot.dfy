/** The IQ4_XS dot products of scripts/q8k_activation_spike.py:89-135 in exact
    arithmetic: decoding then multiplying, against the factored integer form. */
module Iq4Dot {
  import opened Words
  import opened Floats
  import opened Q8kQuantize

  const BYTES: nat := 136

  /** IQ4_VALUES. */
  function Iq4(n: nat): (e: int)
    requires n < 16
    ensures -127 <= e <= 113
  {
    match n
    case 0 => -127
    case 1 => -104
    case 2 => -83
    case 3 => -65
    case 4 => -49
    case 5 => -35
    case 6 => -22
    case 7 => -10
    case 8 => 1
    case 9 => 13
    case 10 => 25
    case 11 => 38
    case 12 => 53
    case 13 => 69
    case 14 => 89
    case _ => 113
  }

  /** A row of whole blocks whose scales are finite. */
  predicate Row(row: seq<Byte>, blocks: nat) {
    |row| == BYTES * blocks && forall b :: 0 <= b < blocks ==> Half(row[BYTES * b], row[BYTES * b + 1]).Some?
  }

  lemma RowSpan(row: seq<Byte>, blocks: nat, b: nat)
    requires Row(row, blocks) && b < blocks
    ensures BYTES * b + BYTES <= |row|
  {
  }

  function WeightScale(row: seq<Byte>, blocks: nat, b: nat): real
    requires Row(row, blocks) && b < blocks
  {
    Half(row[BYTES * b], row[BYTES * b + 1]).value
  }

  /** n >> 2k on 16 bits, for the two-bit fields of scales_high. */
  function Shift2(n: nat, k: nat): nat {
    if k == 0 then n else Shift2(n / 4, k - 1)
  }

  /** Line 97 and 127-128: four low bits, two high bits, minus 32. */
  function LocalScale(row: seq<Byte>, at: nat, group: nat): (s: int)
    requires at + BYTES <= |row| && group < 8
    ensures -32 <= s < 32
  {
    var low: nat := row[at + 4 + group / 2];
    var top: nat := row[at + 3];
    var high: nat := row[at + 2] + 256 * top;
    var four: nat := if group % 2 == 0 then low else low / 16;
    four % 16 + Shift2(high, group) % 4 * 16 - 32
  }

  /** Table entry of weight `k` of the block at `at`: the first sixteen weights of a
      group of 32 are the low halves of its bytes, the next sixteen the high halves. */
  function Entry(row: seq<Byte>, at: nat, k: nat): (e: int)
    requires at + BYTES <= |row| && k < QK
    ensures -127 <= e <= 113
  {
    var group, i := k / 32, k % 32;
    if i < 16 then Iq4(row[at + 8 + group * 16 + i] % 16) else Iq4(row[at + 8 + group * 16 + i - 16] / 16)
  }

  function Product(scale: real, local: int, entry: int): real { scale * local as real * entry as real }

  /** decode_iq4_xs: weight `k` of block `b`. */
  function Weight(row: seq<Byte>, blocks: nat, b: nat, k: nat): real
    requires Row(row, blocks) && b < blocks && k < QK
  {
    Product(WeightScale(row, blocks, b), LocalScale(row, BYTES * b, k / 32), Entry(row, BYTES * b, k))
  }

  /** The first `n` weights of a block. */
  function Weights(row: seq<Byte>, blocks: nat, b: nat, n: nat): (w: seq<real>)
    requires Row(row, blocks) && b < blocks && n <= QK
    ensures |w| == n
  {
    if n == 0 then [] else Weights(row, blocks, b, n - 1) + [Weight(row, blocks, b, n - 1)]
  }

  lemma {:induction false} WeightsAt(row: seq<Byte>, blocks: nat, b: nat, n: nat, k: nat)
    requires Row(row, blocks) && b < blocks && k < n <= QK
    ensures Weights(row, blocks, b, n)[k] == Weight(row, blocks, b, k)
  {
    hide Weight;
    if k < n - 1 { WeightsAt(row, blocks, b, n - 1, k); }
  }

  lemma OneMore(row: seq<Byte>, blocks: nat, b: nat, n: nat)
    requires Row(row, blocks) && b < blocks && n < QK
    ensures Weights(row, blocks, b, n + 1) == Weights(row, blocks, b, n) + [Weight(row, blocks, b, n)]
  {
  }

  // ----- the plain dot -----

  /** Line 112 for one block, the first `n` terms. */
  function PlainBlock(row: seq<Byte>, blocks: nat, b: nat, act: seq<real>, n: nat): real
    requires Row(row, blocks) && b < blocks && |act| == QK * blocks && n <= QK
  {
    if n == 0 then 0.0
    else PlainBlock(row, blocks, b, act, n - 1) + Weight(row, blocks, b, n - 1) * act[QK * b + n - 1]
  }

  function Plain(row: seq<Byte>, blocks: nat, act: seq<real>, n: nat): real
    requires Row(row, blocks) && |act| == QK * blocks && n <= blocks
  {
    if n == 0 then 0.0 else Plain(row, blocks, act, n - 1) + PlainBlock(row, blocks, n - 1, act, QK)
  }

  // ----- the factored dot -----

  /** Lines 131 and 132: half a group, `high` for the high halves of its bytes. */
  function HalfGroup(row: seq<Byte>, at: nat, q: seq<int>, group: nat, high: bool, n: nat): int
    requires at + BYTES <= |row| && |q| == QK && group < 8 && n <= 16
  {
    if n == 0 then 0 else
      var byte := row[at + 8 + group * 16 + n - 1];
      HalfGroup(row, at, q, group, high, n - 1) +
      (if high then q[group * 32 + 16 + n - 1] * Iq4(byte / 16) else q[group * 32 + n - 1] * Iq4(byte % 16))
  }

  function GroupSum(row: seq<Byte>, at: nat, q: seq<int>, group: nat): int
    requires at + BYTES <= |row| && |q| == QK && group < 8
  {
    HalfGroup(row, at, q, group, false, 16) + HalfGroup(row, at, q, group, true, 16)
  }

  function IntegerSum(row: seq<Byte>, at: nat, q: seq<int>, groups: nat): int
    requires at + BYTES <= |row| && |q| == QK && groups <= 8
  {
    if groups == 0 then 0
    else IntegerSum(row, at, q, groups - 1) + GroupSum(row, at, q, groups - 1) * LocalScale(row, at, groups - 1)
  }

  predicate Blocks(qs: seq<Block>) { forall b :: 0 <= b < |qs| ==> |qs[b].quants| == QK }

  function Factored(row: seq<Byte>, blocks: nat, qs: seq<Block>, n: nat): real
    requires Row(row, blocks) && |qs| == blocks && Blocks(qs) && n <= blocks
  {
    if n == 0 then 0.0 else
      Factored(row, blocks, qs, n - 1) +
      Rescale(WeightScale(row, blocks, n - 1), qs[n - 1].scale, IntegerSum(row, BYTES * (n - 1), qs[n - 1].quants, 8))
  }

  /** What the script's dot products come to: ValueError, OverflowError, an infinity or
      NaN, or the dot. */
  datatype Dot = Mismatch | Overflows | NotFinite | Value(dot: real)

  /** The scale of block `b`, if it is finite. */
  function BlockScale(row: seq<Byte>, b: nat): Option<real>
    requires BYTES * b + BYTES <= |row|
  {
    Half(row[BYTES * b], row[BYTES * b + 1])
  }

  // ----- the loops -----

  /** The table entry of the low or high half of byte `i` of a group. */
  function HalfEntry(row: seq<Byte>, at: nat, group: nat, high: bool, i: nat): int
    requires at + BYTES <= |row| && group < 8 && i < 16
  {
    var byte := row[at + 8 + group * 16 + i];
    if high then Iq4(byte / 16) else Iq4(byte % 16)
  }

  /** The first weight of the low or high half of a group. */
  function First(group: nat, high: bool): (k: nat)
    ensures group < 8 ==> k + 16 <= QK
  {
    32 * group + if high then 16 else 0
  }

  /** Lines 100 and 101: sixteen more weights, from the low or the high halves. */
  method Extend(row: seq<Byte>, blocks: nat, b: nat, group: nat, high: bool, before: seq<real>)
    returns (weights: seq<real>)
    requires Row(row, blocks) && b < blocks && group < 8
    requires before == Weights(row, blocks, b, First(group, high))
    ensures weights == Weights(row, blocks, b, First(group, high) + 16)
  {
    hide *;
    RowSpan(row, blocks, b);
    var at := BYTES * b;
    weights := before;
    for i := 0 to 16
      invariant weights == Weights(row, blocks, b, First(group, high) + i)
    {
      WeightIs(row, blocks, b, group, high, i);
      OneMore(row, blocks, b, First(group, high) + i);
      var entry := HalfEntry(row, at, group, high, i);
      weights := weights + [Product(WeightScale(row, blocks, b), LocalScale(row, at, group), entry)];
    }
  }

  /** decode_iq4_xs on block `b`. */
  method Decode(row: seq<Byte>, blocks: nat, b: nat) returns (weights: seq<real>)
    requires Row(row, blocks) && b < blocks
    ensures weights == Weights(row, blocks, b, QK)
  {
    hide Row, Weight;
    weights := [];
    for group := 0 to 8
      invariant weights == Weights(row, blocks, b, 32 * group)
    {
      weights := Extend(row, blocks, b, group, false, weights);
      weights := Extend(row, blocks, b, group, true, weights);
    }
  }

  method SumIntegers(row: seq<Byte>, at: nat, q: seq<int>) returns (sum: int)
    requires at + BYTES <= |row| && |q| == QK
    ensures sum == IntegerSum(row, at, q, 8)
  {
    hide LocalScale, Entry, Iq4;
    sum := 0;
    for group := 0 to 8
      invariant sum == IntegerSum(row, at, q, group)
    {
      var low, high := 0, 0;
      for i := 0 to 16
        invariant low == HalfGroup(row, at, q, group, false, i)
      {
        low := low + q[group * 32 + i] * Iq4(row[at + 8 + group * 16 + i] % 16);
      }
      for i := 0 to 16
        invariant high == HalfGroup(row, at, q, group, true, i)
      {
        high := high + q[group * 32 + 16 + i] * Iq4(row[at + 8 + group * 16 + i] / 16);
      }
      sum := sum + (low + high) * LocalScale(row, at, group);
    }
  }

  // ----- the two agree -----

  lemma LowEntry(row: seq<Byte>, at: nat, group: nat, i: nat)
    requires at + BYTES <= |row| && group < 8 && i < 16
    ensures (32 * group + i) / 32 == group && Entry(row, at, 32 * group + i) == Iq4(row[at + 8 + group * 16 + i] % 16)
  {
  }

  lemma HighEntry(row: seq<Byte>, at: nat, group: nat, i: nat)
    requires at + BYTES <= |row| && group < 8 && i < 16
    ensures (32 * group + 16 + i) / 32 == group
    ensures Entry(row, at, 32 * group + 16 + i) == Iq4(row[at + 8 + group * 16 + i] / 16)
  {
  }

  lemma WeightIs(row: seq<Byte>, blocks: nat, b: nat, group: nat, high: bool, i: nat)
    requires Row(row, blocks) && b < blocks && group < 8 && i < 16
    ensures var at := BYTES * b;
            Weight(row, blocks, b, First(group, high) + i) ==
              Product(WeightScale(row, blocks, b), LocalScale(row, at, group), HalfEntry(row, at, group, high, i))
  {
    hide LocalScale, Half, Entry, Product, Iq4;
    if high { HighEntry(row, BYTES * b, group, i); } else { LowEntry(row, BYTES * b, group, i); }
  }

  /** Weight times quant, the real scales left out. */
  function Term(row: seq<Byte>, at: nat, q: seq<int>, k: nat): int
    requires at + BYTES <= |row| && |q| == QK && k < QK
  {
    q[k] * Entry(row, at, k) * LocalScale(row, at, k / 32)
  }

  function Terms(row: seq<Byte>, at: nat, q: seq<int>, n: nat): int
    requires at + BYTES <= |row| && |q| == QK && n <= QK
  {
    if n == 0 then 0 else Terms(row, at, q, n - 1) + Term(row, at, q, n - 1)
  }

  lemma MultiplyOut(a: int, x: int, e: int, l: int)
    ensures (a + x * e) * l == a * l + x * e * l
  {
  }

  lemma {:induction false} LowHalf(row: seq<Byte>, at: nat, q: seq<int>, group: nat, n: nat)
    requires at + BYTES <= |row| && |q| == QK && group < 8 && n <= 16
    ensures Terms(row, at, q, 32 * group + n) ==
            Terms(row, at, q, 32 * group) + HalfGroup(row, at, q, group, false, n) * LocalScale(row, at, group)
  {
    hide LocalScale, Entry, Iq4;
    if n > 0 {
      LowHalf(row, at, q, group, n - 1);
      LowEntry(row, at, group, n - 1);
      var k := 32 * group + n - 1;
      MultiplyOut(HalfGroup(row, at, q, group, false, n - 1), q[k], Entry(row, at, k), LocalScale(row, at, group));
    }
  }

  lemma {:induction false} HighHalf(row: seq<Byte>, at: nat, q: seq<int>, group: nat, n: nat)
    requires at + BYTES <= |row| && |q| == QK && group < 8 && n <= 16
    ensures Terms(row, at, q, 32 * group + 16 + n) ==
            Terms(row, at, q, 32 * group + 16) + HalfGroup(row, at, q, group, true, n) * LocalScale(row, at, group)
  {
    hide LocalScale, Entry, Iq4;
    if n > 0 {
      HighHalf(row, at, q, group, n - 1);
      HighEntry(row, at, group, n - 1);
      var k := 32 * group + 16 + n - 1;
      MultiplyOut(HalfGroup(row, at, q, group, true, n - 1), q[k], Entry(row, at, k), LocalScale(row, at, group));
    }
  }

  lemma {:induction false} GroupsAreTerms(row: seq<Byte>, at: nat, q: seq<int>, groups: nat)
    requires at + BYTES <= |row| && |q| == QK && groups <= 8
    ensures IntegerSum(row, at, q, groups) == Terms(row, at, q, 32 * groups)
  {
    hide LocalScale, HalfGroup, Term;
    if groups > 0 {
      var g := groups - 1;
      GroupsAreTerms(row, at, q, g);
      LowHalf(row, at, q, g, 16);
      HighHalf(row, at, q, g, 16);
    }
  }

  function Quants(qs: seq<Block>, b: nat): (q: seq<int>)
    requires Blocks(qs) && b < |qs|
    ensures |q| == QK
  {
    qs[b].quants
  }

  /** The activations the blocks stand for. */
  function Dequants(qs: seq<Block>): (act: seq<real>)
    requires Blocks(qs)
    ensures |act| == QK * |qs|
  {
    seq(QK * |qs|, i requires 0 <= i < QK * |qs| => qs[i / QK].scale * Quants(qs, i / QK)[i % QK] as real)
  }

  lemma DequantsAt(qs: seq<Block>, b: nat, k: nat)
    requires Blocks(qs) && b < |qs| && k < QK
    ensures Dequants(qs)[QK * b + k] == Dequant(qs[b], k)
  {
    assert (QK * b + k) / QK == b && (QK * b + k) % QK == k;
  }

  /** One product, regrouped. */
  lemma Regroup(d: real, local: int, entry: int, scale: real, q: int)
    ensures d * local as real * entry as real * (scale * q as real) == d * scale * (q * entry * local) as real
  {
    var l, e, x := local as real, entry as real, q as real;
    assert (q * entry * local) as real == x * e * l;
    calc {
      d * l * e * (scale * x);
      d * scale * (x * e * l);
    }
  }

  /** A block's integer, scaled back. */
  function Rescale(d: real, scale: real, sum: int): real { d * scale * sum as real }

  lemma OneAgrees(p: real, d: real, l: int, e: int, scale: real, q: int, t: int, x: real, p1: real, t1: int)
    requires p == Rescale(d, scale, t) && x == scale * q as real
    requires p1 == p + Product(d, l, e) * x && t1 == t + q * e * l
    ensures p1 == Rescale(d, scale, t1)
  {
    Regroup(d, l, e, scale, q);
    Distribute(d * scale, t, q * e * l);
  }

  lemma {:induction false} BlockAgrees(row: seq<Byte>, qs: seq<Block>, b: nat, n: nat)
    requires Row(row, |qs|) && Blocks(qs) && b < |qs| && n <= QK
    ensures PlainBlock(row, |qs|, b, Dequants(qs), n) ==
            Rescale(WeightScale(row, |qs|, b), qs[b].scale, Terms(row, BYTES * b, qs[b].quants, n))
  {
    hide LocalScale, Entry, Half, WeightScale, Dequants, Row, Product;
    RowSpan(row, |qs|, b);
    var at, d, s, q := BYTES * b, WeightScale(row, |qs|, b), qs[b].scale, qs[b].quants;
    if n > 0 {
      hide Rescale;
      BlockAgrees(row, qs, b, n - 1);
      DequantsAt(qs, b, n - 1);
      OneAgrees(PlainBlock(row, |qs|, b, Dequants(qs), n - 1), d, LocalScale(row, at, (n - 1) / 32),
                Entry(row, at, n - 1),
                s, q[n - 1], Terms(row, at, q, n - 1), Dequants(qs)[QK * b + n - 1],
                PlainBlock(row, |qs|, b, Dequants(qs), n), Terms(row, at, q, n));
    }
  }

  lemma Distribute(c: real, a: int, b: int)
    ensures c * (a + b) as real == c * a as real + c * b as real
  {
  }

  /** The factored dot is the plain dot of the decoded weights with the dequantised
      activations. */
  lemma {:induction false} FactoredIsPlain(row: seq<Byte>, qs: seq<Block>, n: nat)
    requires Row(row, |qs|) && Blocks(qs) && n <= |qs|
    ensures Factored(row, |qs|, qs, n) == Plain(row, |qs|, Dequants(qs), n)
  {
    hide WeightScale, PlainBlock, IntegerSum, Dequants, Terms, Rescale, Row;
    if n > 0 {
      RowSpan(row, |qs|, n - 1);
      FactoredIsPlain(row, qs, n - 1);
      BlockAgrees(row, qs, n - 1, QK);
      GroupsAreTerms(row, BYTES * (n - 1), qs[n - 1].quants, 8);
    }
  }
}
