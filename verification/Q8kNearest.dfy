/** nearest_int (scripts/q8k_activation_spike.py:26-30): rounding by adding
    1.5 * 2^23, with the two roundings the addition goes through. */
module Q8kNearest {
  import opened Words
  import opened Bits
  import opened Floats
  import opened Rounding

  /** The sum is rounded to double precision, then to single; the low 23 bits of a
      single between 2^23 and 2^24 are its distance from 2^23. None stands for the
      exception. */
  function NearestInt(value: real): Option<int> {
    if Abs(value) > 4194303.0 then None else
      match ToSingle(Double(value + 12582912.0))
      case None => None
      case Some(y) =>
        var mantissa := y.Floor - 0x80_0000;
        Some(mantissa % 0x80_0000 - 0x40_0000)
  }

  /** Why the low bits are that distance: the singles from 2^23 on, in order. */
  lemma LowBits(n: nat)
    requires n < 0x80_0000
    ensures Single(0x4B00_0000 + n) == Some((0x80_0000 + n) as real)
    ensures (0x4B00_0000 + n) % 0x80_0000 == n
  {
  }

  lemma QuantumIn(x: real, precision: nat, low: int, top: int, k: int)
    requires low <= k < top && Power(precision + k - 1) <= x < Power(precision + k)
    ensures Quantum(x, precision, low, top) == k
  {
    hide Power;
    var q := Quantum(x, precision, low, top);
    if q < k { PowerUp(precision + q, precision + k - 1); }
    if q > k { PowerUp(precision + k, precision + q - 1); }
  }

  lemma Binade()
    ensures Power(23) == 8388608.0 && Power(24) == 16777216.0 && Power(0) == 1.0
  {
    hide Power;
    Power24();
    PowerStep(23);
    PowerZero();
  }

  lemma NearestWhole(x: real)
    ensures Nearest(x, 0) == RoundEven(x) as real
  {
    hide RoundEven;
    assert Power(0) == 1.0;
    assert x / 1.0 == x;
  }

  /** Both roundings act on one binade. */
  lemma SumIs(s: real)
    requires 8388609.0 <= s <= 16777215.0
    ensures Double(s) == Nearest(s, -29) && 8388609.0 <= Double(s) <= 16777215.0
    ensures ToSingle(Double(s)) == Some(RoundEven(Double(s)) as real)
  {
    hide Power, Nearest, RoundEven;
    Binade();
    QuantumIn(s, 53, -1074, 971, -29);
    NearestAbove(s, 8388609, 0, -29);
    NearestBelow(s, 16777215, 0, -29);
    var d := Nearest(s, -29);
    QuantumIn(d, 24, -149, 104, 0);
    NearestWhole(d);
    RoundEvenAbove(d, 8388609);
    RoundEvenBounds(d);
    PowerUp(24, 128);
  }

  lemma Power29()
    ensures Power(-29) * 536870912.0 == 1.0 && Power(-29) == 1.0 / 536870912.0
  {
    hide Power;
    Binade();
    assert Power(29) == 536870912.0 by { PowerStep(24); PowerStep(25); PowerStep(26); PowerStep(27); PowerStep(28); }
    PowerAdd(-29, 29);
  }

  function ToGrid(x: real): real { x * 536870912.0 }

  function FromGrid(n: int): real { n as real / 536870912.0 }

  /** Rounding to multiples of 2^-29. */
  lemma Fine(x: real)
    ensures Nearest(x, -29) == FromGrid(RoundEven(ToGrid(x)))
  {
    hide Power, RoundEven;
    Power29();
    QuotientIs(x, Power(-29), x * 536870912.0);
  }

  lemma GridSum(x: real, n: int)
    ensures ToGrid(x + n as real) == ToGrid(x) + (n * 536870912) as real
  {
    assert (n * 536870912) as real == n as real * 536870912.0;
  }

  lemma FromGridSum(k: int, n: int)
    ensures FromGrid(k + n * 536870912) == FromGrid(k) + n as real
  {
    assert (k + n * 536870912) as real == k as real + n as real * 536870912.0;
  }

  lemma FineShift(x: real, n: int)
    ensures Nearest(x + n as real, -29) == Nearest(x, -29) + n as real
  {
    hide RoundEven, Nearest, ToGrid, FromGrid;
    Fine(x);
    Fine(x + n as real);
    GridSum(x, n);
    RoundEvenShift(ToGrid(x), n * 536870912);
    FromGridSum(RoundEven(ToGrid(x)), n);
  }

  /** What is left of the trick: a rounding to multiples of 2^-29, then one to integers. */
  lemma NearestIntIs(value: real)
    requires Abs(value) <= 4194303.0
    ensures NearestInt(value) == Some(RoundEven(Nearest(value, -29)))
  {
    hide Nearest, RoundEven, Double, ToSingle;
    var s := value + 12582912.0;
    SumIs(s);
    FineShift(value, 12582912);
    var d := Nearest(value, -29);
    RoundEvenShift(d, 12582912);
    RoundEvenBounds(Double(s));
  }

  // ----- float32 values -----

  lemma NearZero(x: real)
    requires Abs(x) < 0.5
    ensures RoundEven(x) == 0
  {
  }

  lemma FineIsClose(x: real)
    ensures Abs(Nearest(x, -29) - x) <= 0.1
  {
    hide Nearest, Power;
    NearestBounds(x, -29);
    Power29();
  }

  lemma Tiny(x: real, m: int, e: int)
    requires Dyadic(x, m, e) && Small(m, 24) && e < -29
    ensures Abs(x) <= 0.25
  {
    hide Power, Dyadic, Small, Abs;
    DyadicBelow(x, m, e, 24);
    PowerUp(24 + e, -2);
    assert Power(-2) == 0.25 by { PowerStep(-2); PowerStep(-1); PowerZero(); }
  }

  /** On single-precision values, which line 53 passes, the trick is rounding to
      nearest, ties to even. */
  lemma NearestIntRounds(value: real)
    requires IsSingle(value)
    ensures NearestInt(value) == if Abs(value) <= 4194303.0 then Some(RoundEven(value)) else None
  {
    hide Power, Nearest, RoundEven, Dyadic, Small;
    if Abs(value) <= 4194303.0 {
      NearestIntIs(value);
      var m: int, e: int :| Dyadic(value, m, e) && Small(m, 24) && e >= -149;
      if e >= -29 {
        NearestExact(value, m, e, -29);
      } else {
        Tiny(value, m, e);
        FineIsClose(value);
        NearZero(value);
        NearZero(Nearest(value, -29));
      }
    }
  }

  // ----- any accepted value -----

  /** The values whose sum is rounded to halfway between two integers, of which the
      further one is even. */
  predicate DoublyRounded(value: real) {
    var low := value.Floor;
    var over := value - low as real;
    if low % 2 == 0 then 0.5 < over <= 0.5 + 1.0 / 1073741824.0
    else 0.5 - 1.0 / 1073741824.0 <= over < 0.5
  }

  lemma FineHalf(over: real)
    requires 0.0 <= over < 1.0
    ensures 0.0 <= Nearest(over, -29) <= 1.0
    ensures Nearest(over, -29) == 0.5 <==> 0.5 - 1.0 / 1073741824.0 <= over <= 0.5 + 1.0 / 1073741824.0
    ensures (over > 0.5 ==> Nearest(over, -29) >= 0.5) && (over < 0.5 ==> Nearest(over, -29) <= 0.5)
  {
    hide Nearest;
    Fine(over);
  }

  lemma RoundEvenSplit(low: int, s: real)
    requires 0.0 <= s <= 1.0
    ensures RoundEven(low as real + s) == low + (if s < 0.5 || (s == 0.5 && low % 2 == 0) then 0 else 1)
  {
    var x := low as real + s;
    assert x.Floor == if s < 1.0 then low else low + 1;
  }

  /** For any accepted value: the trick rounds to nearest, ties to even, exactly
      unless the value is doubly rounded. */
  lemma NearestIntExactly(value: real)
    requires Abs(value) <= 4194303.0
    ensures NearestInt(value) == Some(RoundEven(value)) <==> !DoublyRounded(value)
  {
    hide Nearest, RoundEven;
    var low := value.Floor;
    var over := value - low as real;
    var s := Nearest(over, -29);
    NearestIntIs(value);
    FineShift(over, low);
    FineHalf(over);
    RoundEvenSplit(low, s);
    RoundEvenSplit(low, over);
  }

  /** A double that is doubly rounded: 0.5 + 2^-40. */
  lemma DoubleRounding()
    ensures var value := 0.5 + Power(-40);
            Double(value) == value && NearestInt(value) == Some(0) && RoundEven(value) == 1
  {
    var value := 0.5 + Power(-40);
    Power40();
    hide Power, Nearest, Double;
    assert RoundEven(value) == 1;
    assert DoublyRounded(value);
    NearestIntExactly(value);
    NearestIntIs(value);
    FineHalf(value);
    RoundEvenSplit(0, Nearest(value, -29));
    ValueIsDouble(value);
  }

  lemma Power40()
    ensures Power(-40) == 1.0 / 1099511627776.0
  {
    hide Power;
    Power29();
    PowerAdd(-29, -11);
    assert Power(-11) == 1.0 / 2048.0 by { Power11(); }
  }

  lemma Power11()
    ensures Power(-11) == 1.0 / 2048.0
  {
  }

  lemma ValueIsDouble(value: real)
    requires value == 0.5 + Power(-40)
    ensures Double(value) == value
  {
    Power40();
    var m := 549755813889;
    hide Power, Round;
    assert Small(m, 53) by { SmallM(m); }
    FormatExact(value, m, -40, 53, -1074, 971);
  }

  lemma SmallM(m: int)
    requires m == 549755813889
    ensures Small(m, 53)
  {
    hide Pow2, Power;
    PowerWhole(53);
    Power24();
    PowerAdd(24, 24);
    PowerUp(48, 53);
  }
}
