/** Rounding to IEEE 754 single and double precision, ties to even
    (IEEE 754-2019, section 4.3.1), as Python floats and struct's "f" format do it. */
module Rounding {
  import opened Words
  import opened Bits
  import opened Floats

  function Abs(x: real): real { if x < 0.0 then -x else x }

  /** The nearest integer; of two, the even one. */
  function RoundEven(x: real): int {
    var low := x.Floor;
    var over := x - low as real;
    if over < 0.5 || (over == 0.5 && low % 2 == 0) then low else low + 1
  }

  /** The nearest multiple of 2^k; of two, the even one. */
  function Nearest(x: real, k: int): real { RoundEven(x / Power(k)) as real * Power(k) }

  /** The exponent of the last place of a magnitude in a format with `precision`
      digits whose last places range from 2^low to 2^top. */
  function Quantum(x: real, precision: nat, low: int, top: int): (k: int)
    requires low <= top
    ensures low <= k <= top
    ensures k < top ==> x < Power(precision + k)
    ensures k > low ==> x >= Power(precision + k - 1)
    decreases top - low
  {
    if low == top || x < Power(precision + low) then low else Quantum(x, precision, low + 1, top)
  }

  /** `x` in such a format, when it does not overflow. */
  function Round(x: real, precision: nat, low: int, top: int): real
    requires low <= top
  {
    Nearest(x, Quantum(Abs(x), precision, low, top))
  }

  /** Rounding to double precision, below its overflow. */
  function Double(x: real): real { Round(x, 53, -1074, 971) }

  function RawSingle(x: real): real { Round(x, 24, -149, 104) }

  /** f32, the round trip through struct's "f" format: None stands for its
      OverflowError, where a finite number would round to infinity. */
  function ToSingle(x: real): Option<real> {
    if Abs(RawSingle(x)) >= Power(128) then None else Some(RawSingle(x))
  }

  /** Halfway between the largest finite single and 2^128. */
  function Overflow(): real { Power(128) - Power(103) }

  /** The value is a finite single-precision number. */
  ghost predicate IsSingle(x: real) {
    Abs(x) < Power(128) && exists m: int, e: int :: Dyadic(x, m, e) && Small(m, 24) && e >= -149
  }

  predicate Dyadic(x: real, m: int, e: int) { x == m as real * Power(e) }

  predicate Small(m: int, digits: nat) { m < Pow2(digits) && -m < Pow2(digits) }

  // ----- powers of two -----

  lemma PowerStep(n: int)
    ensures Power(n + 1) == 2.0 * Power(n)
  {
  }

  lemma PowerZero()
    ensures Power(0) == 1.0
  {
  }

  lemma Twice(x: real, y: real)
    ensures x * (2.0 * y) == 2.0 * (x * y)
  {
  }

  lemma {:induction false} PowerAdd(a: int, b: int)
    ensures Power(a + b) == Power(a) * Power(b)
    decreases if b < 0 then -b else b
  {
    hide Power;
    if b == 0 {
      PowerZero();
    } else if b > 0 {
      PowerAdd(a, b - 1);
      PowerStep(a + (b - 1));
      PowerStep(b - 1);
      Twice(Power(a), Power(b - 1));
    } else {
      PowerAdd(a, b + 1);
      PowerStep(a + b);
      PowerStep(b);
      Twice(Power(a), Power(b));
    }
  }

  lemma {:induction false} PowerUp(a: int, b: int)
    requires a <= b
    ensures Power(a) <= Power(b)
    decreases b - a
  {
    if a < b {
      PowerUp(a, b - 1);
      PowerStep(b - 1);
    }
  }

  lemma {:induction false} PowerWhole(n: nat)
    ensures Power(n) == Pow2(n) as real
  {
    if n > 0 { PowerWhole(n - 1); }
  }

  // ----- rounding to an integer -----

  lemma RoundEvenBounds(x: real)
    ensures Abs(RoundEven(x) as real - x) <= 0.5
    ensures Abs(RoundEven(x) as real - x) == 0.5 ==> RoundEven(x) % 2 == 0
  {
  }

  lemma RoundEvenShift(x: real, n: int)
    requires n % 2 == 0
    ensures RoundEven(x + n as real) == RoundEven(x) + n
  {
    assert (x + n as real).Floor == x.Floor + n;
  }

  lemma RoundEvenOdd(x: real)
    ensures RoundEven(-x) == -RoundEven(x)
  {
    var low, back := x.Floor, (-x).Floor;
    assert back == if x == low as real then -low else -low - 1;
  }

  lemma RoundEvenWhole(n: int)
    ensures RoundEven(n as real) == n
  {
  }

  lemma RoundEvenAbove(x: real, n: int)
    requires x >= n as real
    ensures RoundEven(x) >= n
  {
  }

  // ----- rounding to a multiple of 2^k -----

  lemma Undivide(x: real, p: real)
    requires p > 0.0
    ensures x / p * p == x
  {
  }

  lemma Signs(d: real, h: real)
    requires h > 0.0
    ensures (d > 0.0 <==> d * h > 0.0) && (d < 0.0 <==> d * h < 0.0)
  {
  }

  lemma QuotientIs(x: real, p: real, q: real)
    requires p > 0.0 && x == q * p
    ensures x / p == q
  {
    var r := x / p;
    Undivide(x, p);
    assert (r - q) * p == r * p - q * p;
    Signs(r - q, p);
  }

  lemma HalfStep(d: real, p: real)
    requires p > 0.0 && Abs(d) <= 0.5
    ensures Abs(d * p) <= p / 2.0
  {
    assert (0.5 - d) * p >= 0.0 && (0.5 + d) * p >= 0.0;
    assert (0.5 - d) * p == p / 2.0 - d * p && (0.5 + d) * p == p / 2.0 + d * p;
  }

  lemma Scaled(r: real, y: real, p: real, x: real)
    requires p > 0.0 && Abs(r - y) <= 0.5 && y * p == x
    ensures Abs(r * p - x) <= p / 2.0
  {
    var d := r - y;
    HalfStep(d, p);
    assert r * p == (y + d) * p == y * p + d * p;
    assert r * p - x == d * p;
  }

  lemma NearestBounds(x: real, k: int)
    ensures Abs(Nearest(x, k) - x) <= Power(k) / 2.0
  {
    hide Power, RoundEven;
    var p := Power(k);
    RoundEvenBounds(x / p);
    Undivide(x, p);
    Scaled(RoundEven(x / p) as real, x / p, p, x);
  }

  lemma DivideOdd(x: real, p: real)
    requires p > 0.0
    ensures (-x) / p == -(x / p)
  {
    Undivide(x, p);
    QuotientIs(-x, p, -(x / p));
  }

  lemma TimesOdd(n: int, p: real)
    ensures (-n) as real * p == -(n as real * p)
  {
  }

  lemma NearestOdd(x: real, k: int)
    ensures Nearest(-x, k) == -Nearest(x, k)
  {
    hide Power, RoundEven;
    var p := Power(k);
    DivideOdd(x, p);
    RoundEvenOdd(x / p);
    TimesOdd(RoundEven(x / p), p);
  }

  /** A multiple of a higher power is a multiple of a lower one. */
  lemma Multiple(m: int, e: int, k: int)
    requires k <= e
    ensures m as real * Power(e) / Power(k) == (m * Pow2(e - k)) as real
  {
    hide Power, Pow2;
    PowerAdd(k, e - k);
    PowerWhole(e - k);
    Cancel(m as real, Pow2(e - k) as real, Power(k));
  }

  lemma Cancel(m: real, w: real, p: real)
    requires p > 0.0
    ensures m * (p * w) / p == m * w
  {
    QuotientIs(m * (p * w), p, m * w);
  }

  lemma WholeQuotient(x: real, p: real, n: int)
    requires p > 0.0 && x / p == n as real
    ensures RoundEven(x / p) as real * p == x
  {
    hide RoundEven;
    RoundEvenWhole(n);
    Undivide(x, p);
  }

  lemma NearestExact(x: real, m: int, e: int, k: int)
    requires Dyadic(x, m, e) && k <= e
    ensures Nearest(x, k) == x
  {
    hide Power, RoundEven, Pow2;
    Multiple(m, e, k);
    WholeQuotient(x, Power(k), m * Pow2(e - k));
  }

  lemma DivideUp(x: real, y: real, p: real)
    requires x >= y && p > 0.0
    ensures x / p >= y / p
  {
    var a, b := x / p, y / p;
    assert x == a * p && y == b * p;
    assert (b - a) * p == y - x;
    Signs(b - a, p);
  }

  lemma TimesUp(x: real, y: real, p: real)
    requires x >= y && p > 0.0
    ensures x * p >= y * p
  {
  }

  /** Rounding does not cross a multiple. */
  lemma NearestAbove(x: real, m: int, e: int, k: int)
    requires k <= e && x >= m as real * Power(e)
    ensures Nearest(x, k) >= m as real * Power(e)
  {
    hide Power, RoundEven, Pow2;
    var y := m as real * Power(e);
    Multiple(m, e, k);
    DivideUp(x, y, Power(k));
    RoundEvenAbove(x / Power(k), m * Pow2(e - k));
    TimesUp(RoundEven(x / Power(k)) as real, y / Power(k), Power(k));
    Undivide(y, Power(k));
  }

  lemma NearestBelow(x: real, m: int, e: int, k: int)
    requires k <= e && x <= m as real * Power(e)
    ensures Nearest(x, k) <= m as real * Power(e)
  {
    hide Power, Nearest;
    TimesOdd(m, Power(e));
    NearestOdd(x, k);
    NearestAbove(-x, -m, e, k);
  }

  // ----- rounding to a format -----

  lemma PowerLess(a: int, b: int)
    requires Power(a) < Power(b)
    ensures a < b
  {
    hide Power;
    if b <= a { PowerUp(b, a); }
  }

  lemma HalfPlace(err: real, half: real, w: real, least: real, x: real)
    requires err <= half && w > 0.0 && least == half * w && x >= least
    ensures err * w <= x
  {
    TimesUp(half, err, w);
  }

  /** The error of a rounding is at most half a last place of the value, or of the
      format. */
  lemma RoundError(x: real, precision: nat, low: int, top: int)
    requires low <= top
    ensures var error := Abs(Round(x, precision, low, top) - x);
            error * Power(precision) <= Abs(x) || error <= Power(low - 1)
  {
    hide Power, Nearest, Abs;
    var k := Quantum(Abs(x), precision, low, top);
    NearestBounds(x, k);
    PowerStep(k - 1);
    if k > low {
      PowerAdd(k - 1, precision);
      HalfPlace(Abs(Nearest(x, k) - x), Power(k - 1), Power(precision), Power(precision + k - 1), Abs(x));
    }
  }

  /** The error of rounding a normal number. */
  lemma RelativeError(x: real, precision: nat, low: int, top: int)
    requires low <= top && Abs(x) >= Power(precision + low - 1)
    ensures Abs(Round(x, precision, low, top) - x) * Power(precision) <= Abs(x)
  {
    hide Power, Round, Abs;
    RoundError(x, precision, low, top);
    var error := Abs(Round(x, precision, low, top) - x);
    if error <= Power(low - 1) {
      PowerAdd(low - 1, precision);
      HalfPlace(error, Power(low - 1), Power(precision), Power(precision + low - 1), Abs(x));
    }
  }

  lemma SmallTimes(x: real, m: real, w: real, p: real, bound: real)
    requires p > 0.0 && m < w && -m < w && x == m * p && bound == w * p
    ensures Abs(x) < bound
  {
    assert (w - m) * p > 0.0 && (w + m) * p > 0.0;
    assert (w - m) * p == w * p - m * p && (w + m) * p == w * p + m * p;
  }

  lemma DyadicBelow(x: real, m: int, e: int, precision: nat)
    requires Dyadic(x, m, e) && Small(m, precision)
    ensures Abs(x) < Power(precision + e)
  {
    hide Power, Pow2, Abs;
    PowerWhole(precision);
    PowerAdd(precision, e);
    SmallTimes(x, m as real, Power(precision), Power(e), Power(precision + e));
  }

  /** A number with no more digits than the format has is not rounded. */
  lemma FormatExact(x: real, m: int, e: int, precision: nat, low: int, top: int)
    requires Dyadic(x, m, e) && Small(m, precision) && low <= e && low <= top
    ensures Round(x, precision, low, top) == x
  {
    hide Power, Nearest, Dyadic, Small, Abs;
    var k := Quantum(Abs(x), precision, low, top);
    DyadicBelow(x, m, e, precision);
    if k > low { PowerLess(precision + k - 1, precision + e); }
    NearestExact(x, m, e, k);
  }

  // ----- single precision -----

  /** The magnitudes around the largest finite number, in units of 2^103. */
  lemma Units()
    ensures Power(104) == 2.0 * Power(103) && Power(127) == 16777216.0 * Power(103)
    ensures Power(128) == 33554432.0 * Power(103)
  {
    hide Power;
    PowerStep(103);
    PowerStep(127);
    PowerAdd(103, 24);
    Power24();
  }

  lemma Power24()
    ensures Power(24) == 16777216.0
  {
    assert Power(8) == 256.0;
    PowerAdd(8, 8);
    PowerAdd(16, 8);
  }

  lemma RoundsUpAt(z: real)
    ensures z >= 16777215.5 <==> RoundEven(z) >= 16777216
  {
  }

  lemma TopQuotient(x: real, h: real, z: real, n: int)
    requires h > 0.0 && z * (2.0 * h) == x
    ensures z >= 16777215.5 <==> x >= 33554431.0 * h
    ensures n >= 16777216 <==> n as real * (2.0 * h) >= 33554432.0 * h
  {
    var d, e := 2.0 * z - 33554431.0, (2 * n - 33554432) as real;
    assert d * h == x - 33554431.0 * h && e * h == n as real * (2.0 * h) - 33554432.0 * h;
    Signs(d, h);
    Signs(e, h);
  }

  lemma LowPlaces(x: real, k: int)
    requires x < Power(24 + k) && k < 104
    ensures Nearest(x, k) < Power(128) && x < Power(128) - Power(103)
  {
    hide Power, Pow2, Nearest;
    Units();
    PowerWhole(24);
    PowerAdd(24, k);
    NearestBelow(x, Pow2(24), k, k);
    PowerUp(24 + k, 127);
  }

  lemma TopPlace(x: real)
    ensures Nearest(x, 104) >= Power(128) <==> x >= Power(128) - Power(103)
  {
    hide Power, RoundEven;
    Units();
    var z := x / Power(104);
    Undivide(x, Power(104));
    RoundsUpAt(z);
    TopQuotient(x, Power(103), z, RoundEven(z));
  }

  lemma NotNegative(x: real, k: int)
    requires x >= 0.0
    ensures Nearest(x, k) >= 0.0
  {
    hide Power, Nearest;
    NearestAbove(x, 0, k, k);
  }

  /** struct refuses exactly the numbers from halfway between the largest finite
      single and the next power of two on. */
  lemma OverflowExactly(x: real)
    ensures ToSingle(x).None? <==> Abs(x) >= Overflow()
  {
    hide Power, Nearest;
    var y := Abs(x);
    var k := Quantum(y, 24, -149, 104);
    NotNegative(y, k);
    NearestOdd(x, k);
    if k < 104 { LowPlaces(y, k); } else { TopPlace(y); }
  }

  /** A single is not rounded any further. */
  lemma SingleStays(x: real)
    requires IsSingle(x)
    ensures ToSingle(x) == Some(x)
  {
    hide Power, Round, Dyadic, Small;
    var m: int, e: int :| Dyadic(x, m, e) && Small(m, 24) && e >= -149;
    FormatExact(x, m, e, 24, -149, 104);
  }

  lemma NearestWithin(x: real, k: int)
    requires Abs(x) < Power(24 + k)
    ensures Abs(Nearest(x, k)) <= Power(24 + k)
  {
    hide Power, Pow2, Nearest;
    PowerWhole(24);
    PowerAdd(24, k);
    TimesOdd(Pow2(24), Power(k));
    NearestBelow(x, Pow2(24), k, k);
    NearestAbove(x, 0 - Pow2(24), k, k);
  }

  lemma TimesAtMost(n: int, p: real, w: real)
    requires p > 0.0 && Abs(n as real * p) <= w * p
    ensures n as real <= w && -(n as real) <= w
  {
    var d, e := n as real - w, -(n as real) - w;
    assert d * p == n as real * p - w * p && e * p == -(n as real * p) - w * p;
    Signs(d, p);
    Signs(e, p);
  }

  /** At most 2^24 last places: a single, or one after the carry. */
  lemma PlacesAreSingle(y: real, n: int, k: int)
    requires y == n as real * Power(k) && Abs(y) <= Power(24 + k) && Abs(y) < Power(128) && k >= -149
    ensures IsSingle(y)
  {
    hide Power, Pow2;
    PowerWhole(24);
    PowerAdd(24, k);
    TimesAtMost(n, Power(k), Power(24));
    if Small(n, 24) {
      assert Dyadic(y, n, k);
    } else {
      Carry(n, k);
      assert Dyadic(y, n / 2, k + 1);
    }
  }

  lemma Carry(n: int, k: int)
    requires n == Pow2(24) || n == 0 - Pow2(24)
    ensures Small(n / 2, 24) && n as real * Power(k) == (n / 2) as real * Power(k + 1)
  {
    hide Power, Pow2;
    assert Pow2(24) == 2 * Pow2(23) by { PowerWhole(24); PowerWhole(23); PowerStep(23); }
    PowerStep(k);
    var half := n / 2;
    assert n == 2 * half;
    Twice(half as real, Power(k));
    assert n as real * Power(k) == 2.0 * (half as real * Power(k)) by { TwiceLeft(n as real, half as real, Power(k)); }
  }

  lemma TwiceLeft(x: real, half: real, y: real)
    requires x == 2.0 * half
    ensures x * y == 2.0 * (half * y)
  {
  }

  lemma Places(x: real, k: int)
    requires -149 <= k <= 104 && (k < 104 ==> Abs(x) < Power(24 + k)) && Abs(Nearest(x, k)) < Power(128)
    ensures Abs(Nearest(x, k)) <= Power(24 + k)
  {
    hide Power, Nearest;
    if k < 104 { NearestWithin(x, k); }
  }

  /** What f32 returns is a single. */
  lemma SingleResult(x: real)
    requires ToSingle(x).Some?
    ensures IsSingle(ToSingle(x).value)
  {
    hide Power, Nearest, IsSingle, Abs;
    var k := Quantum(Abs(x), 24, -149, 104);
    Places(x, k);
    NearestIsSingle(x, k);
  }

  lemma NearestIsSingle(x: real, k: int)
    requires Abs(Nearest(x, k)) <= Power(24 + k) && Abs(Nearest(x, k)) < Power(128) && k >= -149
    ensures IsSingle(Nearest(x, k))
  {
    hide Power, RoundEven, IsSingle, Abs;
    PlacesAreSingle(Nearest(x, k), RoundEven(x / Power(k)), k);
  }

  lemma SmallProduct(m: int, n: int)
    requires Small(m, 24) && Small(n, 24)
    ensures Small(m * n, 53)
  {
    hide Pow2;
    PowerWhole(24);
    PowerWhole(53);
    Power24();
    PowerAdd(24, 29);
    PowerUp(24, 29);
    SmallTimesInt(m, n, 16777216);
  }

  lemma BelowSquare(a: nat, b: nat, w: nat)
    requires a < w && b < w
    ensures a * b < w * w
  {
    assert (w - a) * b >= 0 && (w - b) * w > 0;
    assert (w - a) * b == w * b - a * b && (w - b) * w == w * w - b * w;
  }

  lemma Flip(m: int, n: int)
    ensures (-m) * n == -(m * n) && m * -n == -(m * n) && (-m) * -n == m * n
  {
  }

  lemma SmallTimesInt(m: int, n: int, w: nat)
    requires m < w && -m < w && n < w && -n < w
    ensures m * n < w * w && -(m * n) < w * w
  {
    Flip(m, n);
    if m >= 0 {
      if n >= 0 { BelowSquare(m, n, w); } else { BelowSquare(m, -n, w); }
    } else {
      if n >= 0 { BelowSquare(-m, n, w); } else { BelowSquare(-m, -n, w); }
    }
  }

  /** The double-precision product of two singles is exact. */
  lemma ProductExact(x: real, y: real)
    requires IsSingle(x) && IsSingle(y)
    ensures Double(x * y) == x * y
  {
    hide Power, Round, Small;
    var m: int, d: int :| Dyadic(x, m, d) && Small(m, 24) && d >= -149;
    var n: int, e: int :| Dyadic(y, n, e) && Small(n, 24) && e >= -149;
    SmallProduct(m, n);
    PowerAdd(d, e);
    Regroup(m as real, Power(d), n as real, Power(e));
    FormatExact(x * y, m * n, d + e, 53, -1074, 971);
  }

  lemma Regroup(a: real, b: real, c: real, d: real)
    ensures a * b * (c * d) == a * c * (b * d)
  {
  }

  // ----- signs -----

  lemma RoundOdd(x: real, precision: nat, low: int, top: int)
    requires low <= top
    ensures Round(-x, precision, low, top) == -Round(x, precision, low, top)
  {
    hide Power, Nearest, Quantum;
    NearestOdd(x, Quantum(Abs(x), precision, low, top));
  }

  lemma SingleOdd(x: real)
    requires IsSingle(x)
    ensures IsSingle(-x)
  {
    hide Power, Pow2;
    var m: int, e: int :| Dyadic(x, m, e) && Small(m, 24) && e >= -149;
    TimesOdd(m, Power(e));
    assert Dyadic(-x, -m, e) && Small(-m, 24);
  }

  /** A positive single as digits and an exponent. */
  lemma Digits(x: real) returns (m: nat, e: int)
    requires IsSingle(x) && x > 0.0
    ensures x == m as real * Power(e) && 0 < m < Pow2(24) && e >= -149
  {
    hide Power, Pow2;
    var n: int, d: int :| Dyadic(x, n, d) && Small(n, 24) && d >= -149;
    Signs(n as real, Power(d));
    m, e := n, d;
  }

  /** The smallest positive single is 2^-149. */
  lemma SmallestSingle(x: real)
    requires IsSingle(x) && x > 0.0
    ensures x >= Power(-149)
  {
    hide Power, Pow2, IsSingle;
    var m, e := Digits(x);
    PowerUp(-149, e);
    AtLeastOne(x, m, Power(e));
  }

  lemma AtLeastOne(x: real, m: nat, p: real)
    requires m > 0 && p > 0.0 && x == m as real * p
    ensures x >= p
  {
    TimesUp(m as real, 1.0, p);
  }
}
