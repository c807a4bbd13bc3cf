/** The decoded dot of scripts/q8k_activation_spike.py:105-113 with its roundings: sum
    adds from left to right in double precision, as CPython 3.11 does, the version of
    .github/workflows/ci.yml:14. */
module Iq4Plain {
  import opened Words
  import opened Bits
  import opened Floats
  import opened Rounding
  import opened Summation
  import opened Q8kScaling
  import opened Q8kQuantize
  import opened Iq4Dot
  import opened Iq4Bounds
  import opened Iq4Rounded
  import opened Iq4Range

  function Multiplied(w: real, x: real): real { Double(w * x) }

  function Added(t: real, y: real): real { Double(t + y) }

  /** Line 112's sum after `n` terms. */
  function RoundedBlock(row: seq<Byte>, blocks: nat, b: nat, act: seq<real>, n: nat): real
    requires Row(row, blocks) && b < blocks && |act| == QK * blocks && n <= QK
  {
    if n == 0 then 0.0
    else Added(RoundedBlock(row, blocks, b, act, n - 1),
               Multiplied(Weight(row, blocks, b, n - 1), act[QK * b + n - 1]))
  }

  /** The dot after `n` blocks. */
  function RoundedPlain(row: seq<Byte>, blocks: nat, act: seq<real>, n: nat): real
    requires Row(row, blocks) && |act| == QK * blocks && n <= blocks
  {
    if n == 0 then 0.0
    else Added(RoundedPlain(row, blocks, act, n - 1), RoundedBlock(row, blocks, n - 1, act, QK))
  }

  // ----- any row -----

  function RowBlock(row: seq<Byte>, b: nat): (block: seq<Byte>)
    requires BYTES * b + BYTES <= |row|
    ensures |block| == BYTES && forall i :: 0 <= i < BYTES ==> block[i] == row[BYTES * b + i]
  {
    row[BYTES * b..BYTES * b + BYTES]
  }

  function ActBlock(act: seq<real>, b: nat): (block: seq<real>)
    requires QK * b + QK <= |act|
    ensures |block| == QK && forall i :: 0 <= i < QK ==> block[i] == act[QK * b + i]
  {
    act[QK * b..QK * b + QK]
  }

  /** Line 112's sum for one block: with a scale that is not finite every product is an
      infinity or NaN. */
  function BlockDot(block: seq<Byte>, act: seq<real>): Dot
    requires |block| == BYTES && |act| == QK
  {
    if BlockScale(block, 0).None? then NotFinite else Value(RoundedBlock(block, 1, 0, act, QK))
  }

  function PlainPlus(dot: Dot, sum: Dot): Dot {
    if dot.Value? && sum.Value? then Value(Added(dot.dot, sum.dot)) else NotFinite
  }

  function RunningPlain(row: seq<Byte>, blocks: nat, act: seq<real>, n: nat): Dot
    requires |row| == BYTES * blocks && |act| == QK * blocks && n <= blocks
  {
    if n == 0 then Value(0.0)
    else PlainPlus(RunningPlain(row, blocks, act, n - 1), BlockDot(RowBlock(row, n - 1), ActBlock(act, n - 1)))
  }

  lemma SliceScale(row: seq<Byte>, blocks: nat, b: nat)
    requires |row| == BYTES * blocks && b < blocks
    ensures BlockScale(RowBlock(row, b), 0) == BlockScale(row, b)
  {
    hide Half, RowBlock;
  }

  lemma SliceLocal(row: seq<Byte>, b: nat, group: nat)
    requires BYTES * b + BYTES <= |row| && group < 8
    ensures LocalScale(RowBlock(row, b), 0, group) == LocalScale(row, BYTES * b, group)
  {
    hide RowBlock, Shift2;
  }

  lemma SliceEntry(row: seq<Byte>, b: nat, k: nat)
    requires BYTES * b + BYTES <= |row| && k < QK
    ensures Entry(RowBlock(row, b), 0, k) == Entry(row, BYTES * b, k)
  {
    hide RowBlock, Iq4;
  }

  lemma SliceIsRow(row: seq<Byte>, blocks: nat, b: nat)
    requires Row(row, blocks) && b < blocks
    ensures BYTES * b + BYTES <= |row| && Row(RowBlock(row, b), 1)
    ensures WeightScale(RowBlock(row, b), 1, 0) == WeightScale(row, blocks, b)
  {
    hide Half, RowBlock;
    RowSpan(row, blocks, b);
    var block := RowBlock(row, b);
    assert block[BYTES * 0] == row[BYTES * b] && block[BYTES * 0 + 1] == row[BYTES * b + 1];
  }

  /** Decoding the slice of a block gives the weights of the row. */
  lemma SliceWeight(row: seq<Byte>, blocks: nat, b: nat, k: nat)
    requires Row(row, blocks) && b < blocks && k < QK && BYTES * b + BYTES <= |row| && Row(RowBlock(row, b), 1)
    ensures Weight(RowBlock(row, b), 1, 0, k) == Weight(row, blocks, b, k)
  {
    hide Row, RowBlock, WeightScale, LocalScale, Entry, Product;
    SliceIsRow(row, blocks, b);
    SliceLocal(row, b, k / 32);
    SliceEntry(row, b, k);
  }

  lemma {:induction false} SliceSum(row: seq<Byte>, blocks: nat, b: nat, act: seq<real>, n: nat)
    requires Row(row, blocks) && |act| == QK * blocks && b < blocks && n <= QK
    requires BYTES * b + BYTES <= |row| && Row(RowBlock(row, b), 1)
    ensures RoundedBlock(RowBlock(row, b), 1, 0, ActBlock(act, b), n) == RoundedBlock(row, blocks, b, act, n)
  {
    hide Row, RowBlock, ActBlock, Weight, Added, Multiplied;
    if n > 0 {
      SliceSum(row, blocks, b, act, n - 1);
      SliceWeight(row, blocks, b, n - 1);
    }
  }

  lemma {:induction false} PlainRunsFinite(row: seq<Byte>, blocks: nat, act: seq<real>, n: nat)
    requires Row(row, blocks) && |row| == BYTES * blocks && |act| == QK * blocks && n <= blocks
    ensures RunningPlain(row, blocks, act, n) == Value(RoundedPlain(row, blocks, act, n))
  {
    hide Row, RowBlock, ActBlock, RoundedBlock, Added, BlockScale;
    if n > 0 {
      PlainRunsFinite(row, blocks, act, n - 1);
      SliceIsRow(row, blocks, n - 1);
      SliceScale(row, blocks, n - 1);
      SliceSum(row, blocks, n - 1, act, QK);
      RowOfScales(row, blocks);
    }
  }

  lemma {:induction false} RunsOn(row: seq<Byte>, blocks: nat, act: seq<real>, n: nat)
    requires |row| == BYTES * blocks && |act| == QK * blocks && n <= blocks
    ensures var r := RunningPlain(row, blocks, act, n);
            r.Value? || (r.NotFinite? && exists b :: 0 <= b < n && BlockScale(row, b).None?)
    ensures RunningPlain(row, blocks, act, n).Value? ==> forall b :: 0 <= b < n ==> BlockScale(row, b).Some?
  {
    hide RowBlock, ActBlock, RoundedBlock, Added, BlockScale;
    if n > 0 {
      RunsOn(row, blocks, act, n - 1);
      SliceScale(row, blocks, n - 1);
    }
  }

  lemma PlainRunIs(row: seq<Byte>, blocks: nat, act: seq<real>)
    requires |row| == BYTES * blocks && |act| == QK * blocks
    ensures RunningPlain(row, blocks, act, blocks) ==
      if Row(row, blocks) then Value(RoundedPlain(row, blocks, act, blocks)) else NotFinite
  {
    hide Row, RunningPlain, RoundedPlain, BlockScale;
    RowOfScales(row, blocks);
    RunsOn(row, blocks, act, blocks);
    if Row(row, blocks) { PlainRunsFinite(row, blocks, act, blocks); }
  }

  /** The terms of one block, from left to right. */
  method SumBlock(block: seq<Byte>, act: seq<real>) returns (sum: real)
    requires Row(block, 1) && |act| == QK
    ensures sum == RoundedBlock(block, 1, 0, act, QK)
  {
    hide Row, Weight, Weights, Added, Multiplied;
    var weights := Decode(block, 1, 0);
    sum := 0.0;
    for k := 0 to QK
      invariant sum == RoundedBlock(block, 1, 0, act, k)
    {
      WeightsAt(block, 1, 0, QK, k);
      sum := Added(sum, Multiplied(weights[k], act[k]));
    }
  }

  /** dot_iq4_xs_f32. */
  method DotPlain(row: seq<Byte>, act: seq<real>) returns (r: Dot)
    ensures r.Mismatch? <==> !(|row| % BYTES == 0 && |act| == |row| / BYTES * QK)
    ensures r.NotFinite? <==> !r.Mismatch? && !Row(row, |row| / BYTES)
    ensures !r.Mismatch? && Row(row, |row| / BYTES) ==>
      r == DotOf(ToSingle(RoundedPlain(row, |row| / BYTES, act, |row| / BYTES))) &&
      (r.Overflows? <==> Abs(RoundedPlain(row, |row| / BYTES, act, |row| / BYTES)) >= Overflow())
  {
    hide Row, RoundedBlock, Added, ToSingle, Overflow, Half, RowBlock, ActBlock, RoundedPlain, Abs;
    var n := |row| / BYTES;
    if |row| % BYTES != 0 || |act| != n * QK { return Mismatch; }
    var dot := Value(0.0);
    for b := 0 to n
      invariant dot == RunningPlain(row, n, act, b)
    {
      var block := RowBlock(row, b);
      var sum := NotFinite;
      if BlockScale(block, 0).Some? {
        RowOfScales(block, 1);
        var total := SumBlock(block, ActBlock(act, b));
        sum := Value(total);
      }
      dot := PlainPlus(dot, sum);
    }
    PlainRunIs(row, n, act);
    if dot.NotFinite? { return NotFinite; }
    OverflowExactly(dot.dot);
    r := DotOf(ToSingle(dot.dot));
  }

  // ----- decoding does not round -----

  lemma DigitsTimes(x: real, m: int, e: int, c: int, y: real)
    requires x == m as real * Power(e) && y == x * c as real
    ensures y == (m * c) as real * Power(e)
  {
    hide Power;
    assert (m * c) as real == m as real * c as real;
    assert m as real * Power(e) * c as real == m as real * c as real * Power(e);
  }

  lemma Bounded(m: int, c: int, a: nat, b: nat)
    requires m <= a && -m <= a && c <= b && -c <= b
    ensures m * c <= a * b && -(m * c) <= a * b
  {
    var x, y := if m < 0 then -m else m, if c < 0 then -c else c;
    Below(x, y, a, b);
    Flip(m, c);
    assert m * c == x * y || m * c == -(x * y);
  }

  /** A half-precision number times a small integer is a single. */
  lemma HalfTimes(low: Byte, high: Byte, c: int, y: real)
    requires Half(low, high).Some? && -4096 <= c <= 4096 && y == Half(low, high).value * c as real
    ensures IsSingle(y)
  {
    hide Power, IsSingle, Half;
    var m, e := HalfDigits(low, high);
    DigitsTimes(Half(low, high).value, m, e, c, y);
    Bounded(m, c, 2047, 4096);
    DigitsAreSingle(y, m * c, e);
  }

  /** f32 of a single, computed in double precision, is that single. */
  lemma SingleKept(x: real)
    requires IsSingle(x)
    ensures Double(x) == x && ToSingle(Double(x)) == Some(x)
  {
    hide Power, Round, Dyadic, Small;
    var m: int, e: int :| Dyadic(x, m, e) && Small(m, 24) && e >= -149;
    MoreDigits(m);
    FormatExact(x, m, e, 53, -1074, 971);
    SingleStays(x);
  }

  lemma MoreDigits(m: int)
    requires Small(m, 24)
    ensures Small(m, 53)
  {
    hide Pow2, Power;
    PowerWhole(24);
    PowerWhole(53);
    PowerUp(24, 53);
  }

  lemma LocalTimesEntry(d: real, l: int, e: int, multiplier: real, weight: real)
    requires multiplier == d * l as real && weight == multiplier * e as real
    ensures weight == Product(d, l, e) && weight == d * (l * e) as real
  {
    assert (l * e) as real == l as real * e as real;
    assert d * (l as real * e as real) == d * l as real * e as real;
  }

  /** Lines 98 to 101: neither f32 changes anything, so the decoded weight is the product. */
  lemma DecodeIsExact(low: Byte, high: Byte, l: int, e: int, multiplier: real, weight: real)
    requires Half(low, high).Some? && -32 <= l < 32 && -127 <= e <= 113
    requires multiplier == Half(low, high).value * l as real && weight == multiplier * e as real
    ensures ToSingle(Double(multiplier)) == Some(multiplier) && ToSingle(Double(weight)) == Some(weight)
    ensures weight == Product(Half(low, high).value, l, e)
  {
    hide Power, IsSingle, Half, ToSingle, Double, Product;
    HalfTimes(low, high, l, multiplier);
    SingleKept(multiplier);
    Bounded(l, e, 32, 127);
    LocalTimesEntry(Half(low, high).value, l, e, multiplier, weight);
    HalfTimes(low, high, l * e, weight);
    SingleKept(weight);
  }

  // ----- how far the additions can be off -----

  lemma DoubleFrom(x: real)
    ensures RoundedFrom(Double(x), x, 1.0 / 9007199254740992.0, Power(-1075))
  {
    hide Power, Round;
    Concrete();
    PositivePower(-1075);
    RoundError(x, 53, -1074, 971);
    FromEither(Abs(Double(x) - x), Abs(x), Power(-1075));
  }

  lemma FromEither(error: real, size: real, tiny: real)
    requires error * 9007199254740992.0 <= size || error <= tiny
    requires size >= 0.0 && tiny >= 0.0
    ensures error <= 1.0 / 9007199254740992.0 * size + tiny
  {
  }

  /** Magnitudes of the products of a block, and of a row. */
  function BlockMass(row: seq<Byte>, blocks: nat, b: nat, act: seq<real>, n: nat): (m: real)
    requires Row(row, blocks) && b < blocks && |act| == QK * blocks && n <= QK
    ensures m >= 0.0
  {
    if n == 0 then 0.0
    else BlockMass(row, blocks, b, act, n - 1) + Abs(Weight(row, blocks, b, n - 1) * act[QK * b + n - 1])
  }

  function PlainMass(row: seq<Byte>, blocks: nat, act: seq<real>, n: nat): (m: real)
    requires Row(row, blocks) && |act| == QK * blocks && n <= blocks
    ensures m >= 0.0
  {
    if n == 0 then 0.0 else PlainMass(row, blocks, act, n - 1) + BlockMass(row, blocks, n - 1, act, QK)
  }

  /** 2^-53 for every rounding: one a product and one an addition, two a term. */
  function Share53(n: nat): real { (2 * n + 1) as real / 9007199254740992.0 }

  function Rest53(n: nat): real { (3 * n) as real * Power(-1075) }

  lemma Share53Step(n: nat)
    requires n < QK
    ensures Share53(n) + 2.0 / 9007199254740992.0 == Share53(n + 1)
    ensures 1.0 / 9007199254740992.0 <= Share53(n) <= 1.0
  {
  }

  lemma Rest53Step(n: nat, r: real)
    requires n < QK && r == Rest53(n) + Power(-1075)
    ensures r + 1.0 / 9007199254740992.0 * r + Power(-1075) <= Rest53(n + 1)
  {
    hide Power;
    RestIs(n, Power(-1075));
    Rest53Products(n, Power(-1075), r);
  }

  lemma Rest53Products(n: nat, e: real, r: real)
    requires n < QK && r == (3 * n + 1) as real * e && 0.0 < e
    ensures r + 1.0 / 9007199254740992.0 * r + e <= (3 * (n + 1)) as real * e
  {
    var c := (3 * n + 1) as real;
    WithinTimes(c, 1000.0, e);
    assert (3 * (n + 1)) as real * e == c * e + 2.0 * e;
  }

  /** One more term, on plain numbers. */
  lemma TermAdded(t: real, exact: real, mass: real, x: real, y: real, n: nat)
    requires n < QK && Near(t, exact, mass, Share53(n), Rest53(n)) && Abs(exact) <= mass && y == Double(x)
    ensures Abs(exact + x) <= mass + Abs(x)
    ensures Near(Added(t, y), exact + x, mass + Abs(x), Share53(n + 1), Rest53(n + 1))
  {
    hide Power, Near, RoundedFrom, Abs, Rest53, Share53, Double;
    var tiny, size, unit := Power(-1075), Abs(x), 1.0 / 9007199254740992.0;
    var r := Rest53(n) + tiny;
    Share53Step(n);
    Rest53Step(n, r);
    DoubleFrom(x);
    ProductNear(y, x, unit, tiny);
    DoubleFrom(t + y);
    var next := Added(t, y);
    AddRounded(t, exact, mass, y, x, size, next, Share53(n), Rest53(n), unit, tiny, unit, tiny, r);
    WeakerRest(next, exact + x, mass + size, Share53(n + 1), r + unit * r + tiny, Rest53(n + 1));
  }

  lemma ProductNear(y: real, x: real, unit: real, tiny: real)
    requires RoundedFrom(y, x, unit, tiny)
    ensures Near(y, x, Abs(x), unit, tiny)
  {
  }

  lemma NoTermsYet(row: seq<Byte>, blocks: nat, b: nat, act: seq<real>)
    requires Row(row, blocks) && b < blocks && |act| == QK * blocks
    ensures Abs(PlainBlock(row, blocks, b, act, 0)) <= BlockMass(row, blocks, b, act, 0)
    ensures Near(RoundedBlock(row, blocks, b, act, 0), PlainBlock(row, blocks, b, act, 0),
                 BlockMass(row, blocks, b, act, 0), Share53(0), Rest53(0))
  {
    hide Row, Power;
  }

  lemma BlockStep(row: seq<Byte>, blocks: nat, b: nat, act: seq<real>, n: nat, x: real)
    requires Row(row, blocks) && b < blocks && |act| == QK * blocks && n < QK
    requires x == Weight(row, blocks, b, n) * act[QK * b + n]
    ensures PlainBlock(row, blocks, b, act, n + 1) == PlainBlock(row, blocks, b, act, n) + x
    ensures BlockMass(row, blocks, b, act, n + 1) == BlockMass(row, blocks, b, act, n) + Abs(x)
    ensures RoundedBlock(row, blocks, b, act, n + 1) == Added(RoundedBlock(row, blocks, b, act, n), Double(x))
  {
    hide Row, Weight, Double;
  }

  lemma {:induction false} BlockNear(row: seq<Byte>, blocks: nat, b: nat, act: seq<real>, n: nat)
    requires Row(row, blocks) && b < blocks && |act| == QK * blocks && n <= QK
    ensures Abs(PlainBlock(row, blocks, b, act, n)) <= BlockMass(row, blocks, b, act, n)
    ensures Near(RoundedBlock(row, blocks, b, act, n), PlainBlock(row, blocks, b, act, n),
                 BlockMass(row, blocks, b, act, n), Share53(n), Rest53(n))
  {
    hide Row, Weight, Near, Abs, PlainBlock, BlockMass, RoundedBlock, Share53, Rest53, Added, Double;
    if n > 0 {
      var k := n - 1;
      var x := Weight(row, blocks, b, k) * act[QK * b + k];
      BlockNear(row, blocks, b, act, k);
      BlockStep(row, blocks, b, act, k, x);
      TermAdded(RoundedBlock(row, blocks, b, act, k), PlainBlock(row, blocks, b, act, k),
                BlockMass(row, blocks, b, act, k), x, Double(x), k);
    } else {
      NoTermsYet(row, blocks, b, act);
    }
  }

  // ----- the row -----

  /** After `n` blocks: 513 roundings a block at most count, two for its own addition. */
  function RowShare(n: nat): real { (2 * n + 513) as real / 9007199254740992.0 }

  function RowRest(n: nat): real { (2304 * n) as real * Power(-1075) }

  lemma RowShareStep(n: nat)
    requires n < MAX_BLOCKS
    ensures RowShare(n) + 2.0 / 9007199254740992.0 == RowShare(n + 1) && Share53(QK) <= RowShare(n) <= 1.0
  {
  }

  lemma RowRestStep(n: nat, r: real)
    requires n < MAX_BLOCKS && r == RowRest(n) + Rest53(QK)
    ensures r + 1.0 / 9007199254740992.0 * r + Power(-1075) <= RowRest(n + 1)
  {
    hide Power;
    var e := Power(-1075);
    PositivePower(-1075);
    assert RowRest(n) == (2304 * n) as real * e && Rest53(QK) == 768.0 * e;
    assert RowRest(n + 1) == (2304 * (n + 1)) as real * e;
    RowRestIs(n, e, r);
  }

  lemma RowRestIs(n: nat, e: real, r: real)
    requires n < MAX_BLOCKS && 0.0 < e && r == (2304 * n) as real * e + 768.0 * e
    ensures r + 1.0 / 9007199254740992.0 * r + e <= (2304 * (n + 1)) as real * e
  {
    var c := (2304 * n) as real;
    assert c <= 2415919104.0;
    WithinTimes(c, 2415919104.0, e);
    assert (2304 * (n + 1)) as real * e == c * e + 2304.0 * e;
  }

  /** One more block, on plain numbers. */
  lemma RowAdded(t: real, exact: real, mass: real, y: real, x: real, size: real, n: nat)
    requires n < MAX_BLOCKS && Near(t, exact, mass, RowShare(n), RowRest(n)) && Abs(exact) <= mass
    requires Near(y, x, size, Share53(QK), Rest53(QK)) && Abs(x) <= size
    ensures Abs(exact + x) <= mass + size
    ensures Near(Added(t, y), exact + x, mass + size, RowShare(n + 1), RowRest(n + 1))
  {
    hide Power, Near, RoundedFrom, Abs, Rest53, Share53, RowShare, RowRest, Double;
    var tiny, unit := Power(-1075), 1.0 / 9007199254740992.0;
    var r := RowRest(n) + Rest53(QK);
    RowShareStep(n);
    RowRestStep(n, r);
    DoubleFrom(t + y);
    var next := Added(t, y);
    AddRounded(t, exact, mass, y, x, size, next, RowShare(n), RowRest(n), Share53(QK), Rest53(QK), unit, tiny, r);
    WeakerRest(next, exact + x, mass + size, RowShare(n + 1), r + unit * r + tiny, RowRest(n + 1));
  }

  lemma NoRowYet(row: seq<Byte>, blocks: nat, act: seq<real>)
    requires Row(row, blocks) && |act| == QK * blocks
    ensures Abs(Plain(row, blocks, act, 0)) <= PlainMass(row, blocks, act, 0)
    ensures Near(RoundedPlain(row, blocks, act, 0), Plain(row, blocks, act, 0), PlainMass(row, blocks, act, 0),
                 RowShare(0), RowRest(0))
  {
    hide Row, Power;
  }

  lemma RowStep(row: seq<Byte>, blocks: nat, act: seq<real>, n: nat)
    requires Row(row, blocks) && |act| == QK * blocks && n < blocks
    ensures Plain(row, blocks, act, n + 1) == Plain(row, blocks, act, n) + PlainBlock(row, blocks, n, act, QK)
    ensures PlainMass(row, blocks, act, n + 1) == PlainMass(row, blocks, act, n) + BlockMass(row, blocks, n, act, QK)
    ensures RoundedPlain(row, blocks, act, n + 1) ==
      Added(RoundedPlain(row, blocks, act, n), RoundedBlock(row, blocks, n, act, QK))
  {
    hide Row, PlainBlock, BlockMass, RoundedBlock, Added;
  }

  lemma {:induction false} RowNear(row: seq<Byte>, blocks: nat, act: seq<real>, n: nat)
    requires Row(row, blocks) && |act| == QK * blocks && n <= blocks <= MAX_BLOCKS
    ensures Abs(Plain(row, blocks, act, n)) <= PlainMass(row, blocks, act, n)
    ensures Near(RoundedPlain(row, blocks, act, n), Plain(row, blocks, act, n), PlainMass(row, blocks, act, n),
                 RowShare(n), RowRest(n))
  {
    hide Row, Near, Abs, Plain, PlainBlock, PlainMass, BlockMass, RoundedPlain, RoundedBlock, RowShare;
    hide RowRest, Share53;
    hide Rest53, Added;
    if n > 0 {
      var b := n - 1;
      RowNear(row, blocks, act, b);
      RowStep(row, blocks, act, b);
      BlockNear(row, blocks, b, act, QK);
      RowAdded(RoundedPlain(row, blocks, act, b), Plain(row, blocks, act, b), PlainMass(row, blocks, act, b),
               RoundedBlock(row, blocks, b, act, QK), PlainBlock(row, blocks, b, act, QK),
               BlockMass(row, blocks, b, act, QK), b);
    } else {
      NoRowYet(row, blocks, act);
    }
  }

  // ----- the last rounding -----

  /** The share and the rest before the last rounding, generously. */
  lemma RowErrors(n: nat)
    requires n <= MAX_BLOCKS
    ensures 0.0 <= RowShare(n) <= 1.0 / 1073741824.0 && 0.0 <= RowRest(n) <= Power(-151)
  {
    hide Power;
    var e := Power(-1075);
    PositivePower(-1075);
    PowerAdd(-1075, 48);
    PowerUp(-1075 + 48, -151);
    Power48();
    assert RowRest(n) == (2304 * n) as real * e;
    RestSize((2304 * n) as real, e, RowRest(n), Power(48), Power(-1075 + 48));
  }

  lemma RestSize(c: real, e: real, rest: real, w: real, limit: real)
    requires 0.0 <= c <= w && 0.0 < e && rest == c * e && limit == e * w
    ensures 0.0 <= rest <= limit
  {
    WithinTimes(0.0, c, e);
    WithinTimes(c, w, e);
  }

  lemma Power48()
    ensures Power(48) == 281474976710656.0
  {
    hide Power;
    Power24();
    PowerAdd(24, 24);
  }

  lemma LastRounding(d: real, exact: real, mass: real, r: real, share: real, rest: real, half: real)
    requires Abs(d - exact) <= share * mass + rest && Abs(exact) <= mass && half > 0.0
    requires 0.0 <= share <= 1.0 / 1073741824.0 && rest <= half / 2.0
    requires Abs(r - d) * 16777216.0 <= Abs(d) || Abs(r - d) <= half
    ensures Abs(r - exact) <= mass / 8388608.0 + 2.0 * half
  {
    var product := share * mass;
    ThirtyBits(product, share, mass);
    LastSizes(d, exact, mass, r, product, rest, half);
  }

  lemma ThirtyBits(product: real, share: real, mass: real)
    requires product == share * mass && share <= 1.0 / 1073741824.0 && mass >= 0.0
    ensures product <= mass / 1073741824.0
  {
    WithinTimes(share, 1.0 / 1073741824.0, mass);
  }

  lemma LastSizes(d: real, exact: real, mass: real, r: real, product: real, rest: real, half: real)
    requires Abs(d - exact) <= product + rest && Abs(exact) <= mass && half > 0.0
    requires product <= mass / 1073741824.0 && rest <= half / 2.0
    requires Abs(r - d) * 16777216.0 <= Abs(d) || Abs(r - d) <= half
    ensures Abs(r - exact) <= mass / 8388608.0 + 2.0 * half
  {
  }

  lemma LastFits(d: real, exact: real, mass: real, share: real, rest: real, limit: real)
    requires Abs(d - exact) <= share * mass + rest && Abs(exact) <= mass <= limit && 4.0 <= limit
    requires 0.0 <= share <= 0.26 && rest <= 1.0
    ensures Abs(d) <= 2.0 * limit
  {
    SizeOf(d, exact, share * mass + rest, mass);
    TwiceTheLimit(Abs(d), mass, share, rest, limit);
  }

  /** A row of at most 2^20 blocks whose products come to at most 2^126 in magnitude has
      a decoded dot, off by at most a 2^23rd of those magnitudes, and 2^-149. */
  lemma PlainReturns(row: seq<Byte>, blocks: nat, act: seq<real>)
    requires Row(row, blocks) && |act| == QK * blocks && blocks <= MAX_BLOCKS
    requires PlainMass(row, blocks, act, blocks) <= Power(126)
    ensures var r := ToSingle(RoundedPlain(row, blocks, act, blocks));
            r.Some? && Abs(r.value - Plain(row, blocks, act, blocks)) <= Unit(PlainMass(row, blocks, act, blocks))
  {
    hide Power, Row, Plain, PlainMass, RoundedPlain, RowShare, RowRest, ToSingle, Overflow;
    var d, exact := RoundedPlain(row, blocks, act, blocks), Plain(row, blocks, act, blocks);
    var mass := PlainMass(row, blocks, act, blocks);
    RowNear(row, blocks, act, blocks);
    RowErrors(blocks);
    BigPowers();
    PowerUp(-151, -149);
    LastFits(d, exact, mass, RowShare(blocks), RowRest(blocks), Power(126));
    OverflowExactly(d);
    SingleError(d);
    PowerStep(-151);
    PowerStep(-150);
    PositivePower(-150);
    LastRounding(d, exact, mass, ToSingle(d).value, RowShare(blocks), RowRest(blocks), Power(-150));
  }
}
