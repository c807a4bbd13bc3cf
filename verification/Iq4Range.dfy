/** When the integer dot of scripts/q8k_activation_spike.py:116-135 overflows, and how
    close it is otherwise, in terms of the exact terms alone. */
module Iq4Range {
  import opened Words
  import opened Floats
  import opened Rounding
  import opened Summation
  import opened Q8kScaling
  import opened Q8kQuantize
  import opened Iq4Dot
  import opened Iq4Rounded

  const MAX_BLOCKS: nat := 0x10_0000

  /** Magnitudes of the first `n` exact terms together. */
  function TermMass(row: seq<Byte>, qs: seq<Block>, n: nat): (m: real)
    requires Row(row, |qs|) && Blocks(qs) && n <= |qs|
    ensures m >= 0.0
  {
    if n == 0 then 0.0 else TermMass(row, qs, n - 1) + Abs(ExactTerm(row, qs, n - 1))
  }

  lemma {:induction false} MassGrows(row: seq<Byte>, qs: seq<Block>, n: nat, m: nat)
    requires Row(row, |qs|) && Blocks(qs) && n <= m <= |qs|
    ensures TermMass(row, qs, n) <= TermMass(row, qs, m)
    decreases m - n
  {
    hide Row, Blocks, ExactTerm;
    if n < m { MassGrows(row, qs, n, m - 1); }
  }

  // ----- no overflow -----

  lemma BigPowers()
    ensures Power(127) == 2.0 * Power(126) && Power(126) >= 4.0 && Power(-149) <= 1.0 && Power(127) * 1.5 < Overflow()
  {
    hide Power;
    PowerStep(126);
    PowerUp(2, 126);
    PowerUp(-149, 0);
    PowerZero();
    Power5();
    Units();
    PowerStep(0);
    PowerStep(1);
    LimitLarge();
  }

  lemma DoubleSize(x: real, d: real, limit: real)
    requires Abs(d - x) * 9007199254740992.0 <= Abs(x) || Abs(d - x) <= 1.0
    requires Abs(x) <= limit && 4.0 <= limit
    ensures Abs(d) < limit * 1.5
  {
  }

  /** A number of at most 2^127 survives both roundings. */
  lemma NoOverflowBelow(x: real)
    requires Abs(x) <= Power(127)
    ensures ToSingle(Double(x)).Some?
  {
    hide Power, Round, Abs, Overflow, ToSingle;
    BigPowers();
    Concrete();
    RoundError(x, 53, -1074, 971);
    PowerUp(-1075, 0);
    PowerZero();
    DoubleSize(x, Double(x), Power(127));
    OverflowExactly(Double(x));
  }

  // ----- the shares -----

  /** 2^-23 for every rounding but one, of at most two a block. */
  function Share(n: nat): real { (2 * n + 1) as real / 8388608.0 }

  function Rest(n: nat): real { (3 * n) as real * Power(-149) }

  lemma ShareStep(n: nat)
    requires n < MAX_BLOCKS
    ensures Share(n) + 2.0 / 8388608.0 == Share(n + 1) && 1.0 / 8388608.0 <= Share(n) <= 0.26
  {
  }

  lemma RestStep(n: nat, r: real)
    requires n < MAX_BLOCKS && r == Rest(n) + Power(-149)
    ensures r + 1.0 / 8388608.0 * r + Power(-149) <= Rest(n + 1) && 0.0 <= r <= 1.0
  {
    hide Power;
    var e := Power(-149);
    PowerUp(-149, -23);
    Power22();
    PowerStep(-23);
    assert r == (3 * n + 1) as real * e by { RestIs(n, e); }
    RestIs(n + 1, e);
    RestProducts(n, e, r);
  }

  lemma RestIs(n: nat, e: real)
    ensures (3 * n) as real * e + e == (3 * n + 1) as real * e
    ensures (3 * n) as real * e == 3.0 * (n as real * e)
  {
  }

  lemma RestProducts(n: nat, e: real, r: real)
    requires n < MAX_BLOCKS && r == (3 * n + 1) as real * e && 0.0 < e <= 1.0 / 8388608.0
    ensures r + 1.0 / 8388608.0 * r + e <= (3 * (n + 1)) as real * e && 0.0 <= r <= 1.0
  {
    var c := (3 * n + 1) as real;
    assert c <= 4194304.0;
    WithinTimes(c, 4194304.0, e);
    assert (3 * (n + 1)) as real * e == c * e + 2.0 * e;
  }

  // ----- the dot -----

  lemma TwoRoundingsFrom(x: real)
    requires ToSingle(Double(x)).Some?
    ensures RoundedFrom(ToSingle(Double(x)).value, x, 1.0 / 8388608.0, Power(-149))
  {
    hide Power, ToSingle, Double, Abs;
    TwoRoundings(x);
  }

  lemma TermAccepted(d: real, scale: real, sum: int)
    requires IsSingle(d) && IsSingle(scale) && Abs(Rescale(d, scale, sum)) <= Power(127)
    ensures TermOf(d, scale, sum).Some?
  {
    hide Power, IsSingle, Rescale, Abs, ToSingle, Double, Times;
    ProductExact(d, scale);
    RescaleIs(d, scale, sum);
    NoOverflowBelow(Rescale(d, scale, sum));
  }

  lemma TermNear(row: seq<Byte>, qs: seq<Block>, b: nat)
    requires Row(row, |qs|) && Blocks(qs) && SingleScales(qs) && b < |qs| && Abs(ExactTerm(row, qs, b)) <= Power(126)
    ensures BlockTerm(row, qs, b).Some?
    ensures var x := ExactTerm(row, qs, b);
            Near(BlockTerm(row, qs, b).value, x, Abs(x), 1.0 / 8388608.0, Power(-149))
  {
    hide Power, Row, Blocks, IsSingle, Rescale, WeightScale, BlockSum, Abs, ToSingle, Double, Times;
    var d, scale, sum := WeightScale(row, |qs|, b), qs[b].scale, BlockSum(row, qs, b);
    WeightIsSingle(row, |qs|, b);
    BigPowers();
    TermAccepted(d, scale, sum);
    Iq4Rounded.BlockClose(row, qs, b);
  }

  lemma SumBelow(t: real, exact: real, mass: real, y: real, x: real, size: real, k: real, rest: real, small: real,
                 limit: real)
    requires Near(t, exact, mass, k, rest) && Near(y, x, size, 1.0 / 8388608.0, small)
    requires Abs(exact) <= mass && Abs(x) <= size && mass + size <= limit && 4.0 <= limit
    requires 1.0 / 8388608.0 <= k <= 0.26 && rest <= 1.0 && small <= 1.0
    ensures Abs(t + y) <= 2.0 * limit
  {
    hide Near;
    var z, r := mass + size, rest + small;
    ErrorBefore(t, exact, mass, y, x, size, k, rest, 1.0 / 8388608.0, small, z, r);
    SizeOf(t + y, exact + x, k * z + r, z);
    TwiceTheLimit(Abs(t + y), z, k, r, limit);
  }

  lemma TwiceTheLimit(size: real, z: real, k: real, r: real, limit: real)
    requires size <= z + (k * z + r) && 0.0 <= z <= limit && k <= 0.26 && r <= 2.0 && 4.0 <= limit
    ensures size <= 2.0 * limit
  {
    WithinTimes(k, 0.26, z);
    var product := k * z;
    assert product <= 0.26 * z;
    assert size <= z + product + r;
  }

  lemma WeakerRest(t: real, exact: real, mass: real, k: real, r: real, s: real)
    requires Near(t, exact, mass, k, r) && r <= s
    ensures Near(t, exact, mass, k, s)
  {
  }

  /** One more block, on plain numbers. */
  lemma BlockAdded(t: real, exact: real, mass: real, y: real, x: real, n: nat)
    requires n < MAX_BLOCKS && Near(t, exact, mass, Share(n), Rest(n)) && Abs(exact) <= mass
    requires Near(y, x, Abs(x), 1.0 / 8388608.0, Power(-149)) && mass + Abs(x) <= Power(126)
    ensures Accumulated(t, y).Some? && Abs(exact + x) <= mass + Abs(x)
    ensures Near(Accumulated(t, y).value, exact + x, mass + Abs(x), Share(n + 1), Rest(n + 1))
  {
    hide Power, Near, RoundedFrom, Abs, Rest, Share, ToSingle, Double;
    var tiny, size := Power(-149), Abs(x);
    var r := Rest(n) + tiny;
    ShareStep(n);
    RestStep(n, r);
    BigPowers();
    RestsAreSmall(n, r, tiny);
    SumBelow(t, exact, mass, y, x, size, Share(n), Rest(n), tiny, Power(126));
    NoOverflowBelow(t + y);
    TwoRoundingsFrom(t + y);
    var next := Accumulated(t, y).value;
    AddRounded(t, exact, mass, y, x, size, next, Share(n), Rest(n), 1.0 / 8388608.0, tiny, 1.0 / 8388608.0, tiny, r);
    WeakerRest(next, exact + x, mass + size, Share(n + 1), r + 1.0 / 8388608.0 * r + tiny, Rest(n + 1));
  }

  lemma RestsAreSmall(n: nat, r: real, tiny: real)
    requires r == Rest(n) + tiny && tiny == Power(-149) && r <= 1.0
    ensures Rest(n) <= 1.0 && tiny <= 1.0
  {
    hide Power;
    assert (3 * n) as real * tiny >= 0.0 by { if n > 0 { TimesUp((3 * n) as real, 0.0, tiny); } }
  }

  lemma NoBlocks(row: seq<Byte>, qs: seq<Block>)
    requires Row(row, |qs|) && Blocks(qs)
    ensures RoundedDot(row, qs, 0) == Some(0.0) && Abs(Factored(row, |qs|, qs, 0)) <= TermMass(row, qs, 0)
    ensures Near(0.0, Factored(row, |qs|, qs, 0), TermMass(row, qs, 0), Share(0), Rest(0))
  {
    hide Row, Blocks, Power;
  }

  lemma DotStep(row: seq<Byte>, qs: seq<Block>, n: nat)
    requires Row(row, |qs|) && Blocks(qs) && n < |qs|
    ensures TermMass(row, qs, n + 1) == TermMass(row, qs, n) + Abs(ExactTerm(row, qs, n))
    ensures RoundedDot(row, qs, n).Some? && BlockTerm(row, qs, n).Some? ==>
      RoundedDot(row, qs, n + 1) == Accumulated(RoundedDot(row, qs, n).value, BlockTerm(row, qs, n).value)
  {
    hide Row, Blocks, ExactTerm, BlockTerm, Accumulated;
  }

  lemma {:induction false} DotNear(row: seq<Byte>, qs: seq<Block>, n: nat)
    requires Row(row, |qs|) && Blocks(qs) && SingleScales(qs) && n <= |qs| <= MAX_BLOCKS
    requires TermMass(row, qs, |qs|) <= Power(126)
    ensures RoundedDot(row, qs, n).Some? && Abs(Factored(row, |qs|, qs, n)) <= TermMass(row, qs, n)
    ensures Near(RoundedDot(row, qs, n).value, Factored(row, |qs|, qs, n), TermMass(row, qs, n), Share(n), Rest(n))
  {
    hide Power, Row, Blocks, SingleScales, ExactTerm, BlockTerm, Accumulated, RoundedDot, Factored, TermMass;
    hide Near, Share, Rest;
    if n > 0 {
      var b := n - 1;
      DotNear(row, qs, b);
      DotStep(row, qs, b);
      FactoredStep(row, qs, b);
      MassGrows(row, qs, n, |qs|);
      TermNear(row, qs, b);
      BlockAdded(RoundedDot(row, qs, b).value, Factored(row, |qs|, qs, b), TermMass(row, qs, b),
                 BlockTerm(row, qs, b).value, ExactTerm(row, qs, b), b);
    } else {
      NoBlocks(row, qs);
    }
  }

  /** A row of at most 2^20 blocks whose exact terms come to at most 2^126 in magnitude
      has an integer dot; it is off by at most 2 n + 1 times a 2^23rd of those
      magnitudes, and 3 n times 2^-149. */
  lemma DotReturns(row: seq<Byte>, qs: seq<Block>)
    requires Row(row, |qs|) && Blocks(qs) && SingleScales(qs) && |qs| <= MAX_BLOCKS
    requires TermMass(row, qs, |qs|) <= Power(126)
    ensures var r := RoundedDot(row, qs, |qs|);
            r.Some? && Abs(r.value - Factored(row, |qs|, qs, |qs|)) <=
              (2 * |qs| + 1) as real / 8388608.0 * TermMass(row, qs, |qs|) + (3 * |qs|) as real * Power(-149)
  {
    hide Power, Row, Blocks, SingleScales, Factored, TermMass, RoundedDot, Abs;
    DotNear(row, qs, |qs|);
  }
}
