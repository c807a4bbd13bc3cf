/** The factored dot with the roundings of scripts/q8k_activation_spike.py:116-135,
    and how far what it returns can be from the plain dot of the activation. */
module Iq4Rounded {
  import opened Words
  import opened Bits
  import opened Floats
  import opened Rounding
  import opened Q8kScaling
  import opened Q8kQuantize
  import opened Iq4Dot
  import opened Iq4Bounds

  /** The inner f32 of line 134. */
  function TermOf(d: real, scale: real, sum: int): Option<real> { ToSingle(Double(Times(Double(d * scale), sum))) }

  function Times(x: real, n: int): real { x * n as real }

  /** The outer one. */
  function Accumulated(total: real, term: real): Option<real> { ToSingle(Double(total + term)) }

  function BlockTerm(row: seq<Byte>, qs: seq<Block>, b: nat): Option<real>
    requires Row(row, |qs|) && Blocks(qs) && b < |qs|
  {
    TermOf(WeightScale(row, |qs|, b), qs[b].scale, BlockSum(row, qs, b))
  }

  function BlockSum(row: seq<Byte>, qs: seq<Block>, b: nat): int
    requires Row(row, |qs|) && Blocks(qs) && b < |qs|
  {
    RowSpan(row, |qs|, b);
    IntegerSum(row, BYTES * b, qs[b].quants, 8)
  }

  /** The total after `n` blocks; None once a rounding has overflowed. */
  function RoundedDot(row: seq<Byte>, qs: seq<Block>, n: nat): Option<real>
    requires Row(row, |qs|) && Blocks(qs) && n <= |qs|
  {
    if n == 0 then Some(0.0) else
      match RoundedDot(row, qs, n - 1)
      case None => None
      case Some(total) =>
        match BlockTerm(row, qs, n - 1)
        case None => None
        case Some(term) => Accumulated(total, term)
  }

  function DotOf(r: Option<real>): Dot {
    match r
    case None => Overflows
    case Some(dot) => Value(dot)
  }

  // ----- any row -----

  /** The inner f32 of line 134 for block `b`: with a scale that is not finite nothing
      overflows and the term is an infinity or NaN. */
  function TermAt(row: seq<Byte>, qs: seq<Block>, b: nat): Dot
    requires |row| == BYTES * |qs| && Blocks(qs) && b < |qs|
  {
    match BlockScale(row, b)
    case None => NotFinite
    case Some(d) => DotOf(TermOf(d, qs[b].scale, IntegerSum(row, BYTES * b, qs[b].quants, 8)))
  }

  /** A total that is not finite stays so, unless a later term overflows. */
  function Plus(total: Dot, term: Dot): Dot {
    if total.Value? && term.Value? then DotOf(Accumulated(total.dot, term.dot))
    else if total.Overflows? || term.Overflows? then Overflows
    else NotFinite
  }

  function RunningDot(row: seq<Byte>, qs: seq<Block>, n: nat): Dot
    requires |row| == BYTES * |qs| && Blocks(qs) && n <= |qs|
  {
    if n == 0 then Value(0.0) else Plus(RunningDot(row, qs, n - 1), TermAt(row, qs, n - 1))
  }

  lemma {:induction false} StaysOverflowed(row: seq<Byte>, qs: seq<Block>, i: nat, n: nat)
    requires |row| == BYTES * |qs| && Blocks(qs) && i <= n <= |qs| && RunningDot(row, qs, i).Overflows?
    ensures RunningDot(row, qs, n).Overflows?
  {
    hide Blocks, TermAt, Accumulated;
    if i < n { StaysOverflowed(row, qs, i, n - 1); }
  }

  /** With finite scales the total never leaves the finite numbers. */
  lemma {:induction false} RunsFinite(row: seq<Byte>, qs: seq<Block>, n: nat)
    requires Row(row, |qs|) && Blocks(qs) && n <= |qs|
    ensures RunningDot(row, qs, n) == DotOf(RoundedDot(row, qs, n))
  {
    hide Blocks, TermOf, IntegerSum, Accumulated, Half;
    if n > 0 { RunsFinite(row, qs, n - 1); }
  }

  /** A finite total comes from finite scales, and one that is not from one that is not. */
  lemma {:induction false} FiniteScales(row: seq<Byte>, qs: seq<Block>, n: nat)
    requires |row| == BYTES * |qs| && Blocks(qs) && n <= |qs|
    ensures !RunningDot(row, qs, n).Mismatch?
    ensures RunningDot(row, qs, n).Value? ==> forall b :: 0 <= b < n ==> BlockScale(row, b).Some?
    ensures RunningDot(row, qs, n).NotFinite? ==> exists b :: 0 <= b < n && BlockScale(row, b).None?
  {
    hide Blocks, TermOf, IntegerSum, Accumulated, BlockScale;
    if n > 0 { FiniteScales(row, qs, n - 1); }
  }

  lemma RowOfScales(row: seq<Byte>, blocks: nat)
    requires |row| == BYTES * blocks
    ensures Row(row, blocks) <==> forall b :: 0 <= b < blocks ==> BlockScale(row, b).Some?
  {
    hide Half;
    if forall b :: 0 <= b < blocks ==> BlockScale(row, b).Some? {
      forall b | 0 <= b < blocks ensures Half(row[BYTES * b], row[BYTES * b + 1]).Some? {
        assert BlockScale(row, b).Some?;
      }
    }
  }

  /** What the running total says of the row, and the rounded dot when it is finite. */
  lemma RunIs(row: seq<Byte>, qs: seq<Block>)
    requires |row| == BYTES * |qs| && Blocks(qs)
    ensures var r := RunningDot(row, qs, |qs|);
            !r.Mismatch? && (r.Value? ==> Row(row, |qs|)) && (r.NotFinite? ==> !Row(row, |qs|)) &&
            (Row(row, |qs|) ==> r == DotOf(RoundedDot(row, qs, |qs|)))
  {
    hide Row, RunningDot, RoundedDot, BlockScale;
    RowOfScales(row, |qs|);
    FiniteScales(row, qs, |qs|);
    if Row(row, |qs|) { RunsFinite(row, qs, |qs|); }
  }

  /** dot_iq4_xs_q8_k. */
  method DotFactored(row: seq<Byte>, qs: seq<Block>) returns (r: Dot)
    requires Blocks(qs)
    ensures r.Mismatch? <==> |row| != BYTES * |qs|
    ensures |row| == BYTES * |qs| ==> r == RunningDot(row, qs, |qs|)
    ensures r.Value? ==> Row(row, |qs|)
    ensures r.NotFinite? ==> !Row(row, |qs|)
    ensures Row(row, |qs|) ==> r == DotOf(RoundedDot(row, qs, |qs|))
  {
    hide Row, Half, IntegerSum, TermOf, Accumulated, RoundedDot;
    if |row| != BYTES * |qs| {
      RowLength(row, |qs|);
      return Mismatch;
    }
    RunIs(row, qs);
    var total := Value(0.0);
    for b := 0 to |qs|
      invariant !total.Overflows? && RunningDot(row, qs, b) == total
    {
      var sum := SumIntegers(row, BYTES * b, qs[b].quants);
      var scale := BlockScale(row, b);
      var term := if scale.None? then NotFinite else DotOf(TermOf(scale.value, qs[b].scale, sum));
      total := Plus(total, term);
      if total.Overflows? {
        StaysOverflowed(row, qs, b + 1, |qs|);
        return Overflows;
      }
    }
    r := total;
  }

  lemma RowLength(row: seq<Byte>, blocks: nat)
    ensures Row(row, blocks) ==> |row| == BYTES * blocks
  {
  }

  // ----- one rounding to double and one to single -----

  /** The most the two roundings move `x`. */
  function Unit(x: real): real { Abs(x) / 8388608.0 + Power(-149) }

  lemma ErrorSum(x: real, d: real, y: real, small: real, tiny: real)
    requires Abs(d - x) * 9007199254740992.0 <= Abs(x) || Abs(d - x) <= tiny
    requires Abs(y - d) * 16777216.0 <= Abs(d) || Abs(y - d) <= small
    requires 0.0 < tiny && 4.0 * tiny <= small
    ensures Abs(y - x) <= Abs(x) / 8388608.0 + 2.0 * small
  {
    var e, f, w := Abs(d - x), Abs(y - d), Abs(x);
    assert Abs(d) <= w + e && Abs(y - x) <= e + f;
    assert e <= w / 1000000000.0 + tiny;
    assert f <= (w + e) / 16777216.0 + small;
  }

  lemma TwoRoundings(x: real)
    requires ToSingle(Double(x)).Some?
    ensures Abs(ToSingle(Double(x)).value - x) <= Unit(x)
  {
    hide Power, Round, Abs;
    var d := Double(x);
    Concrete();
    RoundError(x, 53, -1074, 971);
    RoundError(d, 24, -149, 104);
    PowerUp(-1075, -152);
    PowerStep(-152);
    PowerStep(-151);
    PowerStep(-150);
    PositivePower(-1075);
    ErrorSum(x, d, ToSingle(d).value, Power(-150), Power(-1075));
  }

  lemma PositivePower(n: int)
    ensures Power(n) > 0.0
  {
  }

  // ----- a block's term -----

  /** A finite half-precision number has eleven digits. */
  lemma HalfDigits(low: Byte, high: Byte) returns (m: int, e: int)
    requires Half(low, high).Some?
    ensures Half(low, high).value == m as real * Power(e) && -2048 < m < 2048 && -24 <= e <= 5
  {
    hide Power;
    var exponent := high % 128 / 4;
    var fraction: nat := high % 4 * 256 + low;
    var n := if exponent == 0 then fraction else 1024 + fraction;
    e := if exponent == 0 then -24 else exponent - 25;
    TimesOdd(n, Power(e));
    m := if high >= 128 then -n else n;
  }

  lemma DigitsAreSingle(x: real, m: int, e: int)
    requires -16777216 < m < 16777216 && -24 <= e <= 5 && x == m as real * Power(e)
    ensures IsSingle(x)
  {
    hide Power, Pow2;
    PowerWhole(24);
    Power24();
    assert Dyadic(x, m, e) && Small(m, 24);
    DyadicBelow(x, m, e, 24);
    PowerUp(24 + e, 128);
  }

  /** A finite half-precision number is a single. */
  lemma HalfIsSingle(low: Byte, high: Byte)
    requires Half(low, high).Some?
    ensures IsSingle(Half(low, high).value)
  {
    hide Power, IsSingle, Half;
    var m, e := HalfDigits(low, high);
    DigitsAreSingle(Half(low, high).value, m, e);
  }

  lemma WeightIsSingle(row: seq<Byte>, blocks: nat, b: nat)
    requires Row(row, blocks) && b < blocks
    ensures IsSingle(WeightScale(row, blocks, b))
  {
    hide Half, IsSingle;
    HalfIsSingle(row[BYTES * b], row[BYTES * b + 1]);
  }

  /** The block's scales are singles, as the quantiser's are. */
  ghost predicate SingleScales(qs: seq<Block>) { forall b :: 0 <= b < |qs| ==> IsSingle(qs[b].scale) }

  function ExactTerm(row: seq<Byte>, qs: seq<Block>, b: nat): real
    requires Row(row, |qs|) && Blocks(qs) && b < |qs|
  {
    Rescale(WeightScale(row, |qs|, b), qs[b].scale, BlockSum(row, qs, b))
  }

  lemma RescaleIs(d: real, scale: real, sum: int)
    ensures Rescale(d, scale, sum) == Times(d * scale, sum)
  {
  }

  lemma TermClose(d: real, scale: real, sum: int)
    requires IsSingle(d) && IsSingle(scale) && TermOf(d, scale, sum).Some?
    ensures Abs(TermOf(d, scale, sum).value - Rescale(d, scale, sum)) <= Unit(Rescale(d, scale, sum))
  {
    hide Double, ToSingle, IsSingle, Unit, Times, Rescale;
    ProductExact(d, scale);
    RescaleIs(d, scale, sum);
    TwoRoundings(Times(d * scale, sum));
  }

  lemma BlockClose(row: seq<Byte>, qs: seq<Block>, b: nat)
    requires Row(row, |qs|) && Blocks(qs) && SingleScales(qs) && b < |qs| && BlockTerm(row, qs, b).Some?
    ensures Abs(BlockTerm(row, qs, b).value - ExactTerm(row, qs, b)) <= Unit(ExactTerm(row, qs, b))
  {
    hide Row, Blocks, IsSingle, TermOf, Rescale, Unit, WeightScale, BlockSum, Abs;
    WeightIsSingle(row, |qs|, b);
    TermClose(WeightScale(row, |qs|, b), qs[b].scale, BlockSum(row, qs, b));
  }

  // ----- the whole row -----

  function Get(x: Option<real>): real { if x.Some? then x.value else 0.0 }

  /** What the roundings can add up to: two a block, of the term and of the total. */
  function Drift(row: seq<Byte>, qs: seq<Block>, n: nat): real
    requires Row(row, |qs|) && Blocks(qs) && n <= |qs|
  {
    if n == 0 then 0.0 else
      Drift(row, qs, n - 1) + Unit(ExactTerm(row, qs, n - 1)) +
      Unit(Get(RoundedDot(row, qs, n - 1)) + Get(BlockTerm(row, qs, n - 1)))
  }

  lemma FactoredStep(row: seq<Byte>, qs: seq<Block>, n: nat)
    requires Row(row, |qs|) && Blocks(qs) && n < |qs|
    ensures Factored(row, |qs|, qs, n + 1) == Factored(row, |qs|, qs, n) + ExactTerm(row, qs, n)
  {
    hide Row, Blocks, Rescale, WeightScale, IntegerSum;
  }

  lemma ThreeErrors(total: real, term: real, next: real, exact: real, exactTerm: real, a: real, b: real, c: real)
    requires Abs(total - exact) <= a && Abs(term - exactTerm) <= b && Abs(next - (total + term)) <= c
    ensures Abs(next - (exact + exactTerm)) <= a + b + c
  {
  }

  /** The rounded dot is within the drift of the exact factored one. */
  lemma {:induction false} RoundedClose(row: seq<Byte>, qs: seq<Block>, n: nat)
    requires Row(row, |qs|) && Blocks(qs) && SingleScales(qs) && n <= |qs| && RoundedDot(row, qs, n).Some?
    ensures Abs(RoundedDot(row, qs, n).value - Factored(row, |qs|, qs, n)) <= Drift(row, qs, n)
  {
    hide Row, Blocks, SingleScales, BlockTerm, ExactTerm, Unit, Factored, Abs, ToSingle, Double;
    if n > 0 {
      RoundedClose(row, qs, n - 1);
      BlockClose(row, qs, n - 1);
      FactoredStep(row, qs, n - 1);
      var total, term := RoundedDot(row, qs, n - 1).value, BlockTerm(row, qs, n - 1).value;
      TwoRoundings(total + term);
      ThreeErrors(total, term, RoundedDot(row, qs, n).value, Factored(row, |qs|, qs, n - 1), ExactTerm(row, qs, n - 1),
                  Drift(row, qs, n - 1), Unit(ExactTerm(row, qs, n - 1)), Unit(total + term));
    } else {
      NothingYet(row, qs);
    }
  }

  lemma NothingYet(row: seq<Byte>, qs: seq<Block>)
    requires Row(row, |qs|) && Blocks(qs)
    ensures Abs(RoundedDot(row, qs, 0).value - Factored(row, |qs|, qs, 0)) <= Drift(row, qs, 0)
  {
    hide Row, Blocks;
  }

  lemma ScaleIsSingle(values: seq<real>, base: nat)
    requires base + QK <= |values| && Singles(values) && Scalable(values, base)
    ensures IsSingle(BlockAt(values, base).scale)
  {
    hide Peak, Inverse, IsSingle, Singles, Scalable, Q8kQuantize.Quants, GroupSums, Power, ToSingle, Double, Undoes;
    PeakInverse(values, base);
    var (amax, signed) := Peak(values, base, QK);
    if amax == 0.0 {
      SmallestNormal();
    } else {
      HasScale(signed, Inverse(signed).value);
      SingleResult(Double(Reciprocal(Inverse(signed).value)));
    }
  }

  lemma QuantizedScales(values: seq<real>, qs: seq<Block>)
    requires Quantized(values, qs)
    ensures SingleScales(qs)
  {
    hide IsSingle, BlockAt, Scalable, Singles;
    forall b | 0 <= b < |qs| ensures IsSingle(qs[b].scale) { ScaleIsSingle(values, QK * b); }
  }

  /** What the script's integer dot returns for a quantised activation is within the
      drift and the quantisation's slack of the plain dot of the activation itself. */
  lemma RoundedIsClose(row: seq<Byte>, qs: seq<Block>, values: seq<real>)
    requires Row(row, |qs|) && Quantized(values, qs) && Blocks(qs) && |values| == QK * |qs|
    requires RoundedDot(row, qs, |qs|).Some?
    ensures Abs(RoundedDot(row, qs, |qs|).value - Plain(row, |qs|, values, |qs|)) <=
      Drift(row, qs, |qs|) + Slack(row, |qs|, values, |qs|)
  {
    hide *;
    QuantizedScales(values, qs);
    RoundedClose(row, qs, |qs|);
    DotsAreClose(row, qs, values);
    TwoSteps(RoundedDot(row, qs, |qs|).value, Factored(row, |qs|, qs, |qs|), Plain(row, |qs|, values, |qs|),
             Drift(row, qs, |qs|), Slack(row, |qs|, values, |qs|));
  }

  lemma TwoSteps(x: real, y: real, z: real, a: real, b: real)
    requires Abs(x - y) <= a && Abs(z - y) <= b
    ensures Abs(x - z) <= a + b
  {
  }
}
