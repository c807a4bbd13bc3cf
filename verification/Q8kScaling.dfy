/** The float32 numbers of one Q8_K block (scripts/q8k_activation_spike.py:52-57):
    when its inverse scale can be stored, and how far every rounding can take it. */
module Q8kScaling {
  import opened Words
  import opened Bits
  import opened Floats
  import opened Rounding
  import opened Q8kNearest

  /** Line 52. */
  function Inverse(signed: real): Option<real>
    requires signed != 0.0
  {
    ToSingle(Double(-127.0 / signed))
  }

  /** The argument of nearest_int in line 53. */
  function Normal(inverse: real, v: real): Option<real> { ToSingle(Double(inverse * v)) }

  function Reciprocal(x: real): real
    requires x != 0.0
  {
    1.0 / x
  }

  /** The scale of line 57. */
  function ScaleOf(inverse: real): Option<real>
    requires inverse != 0.0
  {
    ToSingle(Double(Reciprocal(inverse)))
  }

  // ----- the quotient 127 / amax -----

  lemma Concrete()
    ensures Power(6) == 64.0 && Power(7) == 128.0 && Power(53) == 9007199254740992.0 && Power(24) == 16777216.0
  {
    hide Power;
    Power24();
    PowerAdd(24, 24);
    Power5();
    PowerAdd(48, 5);
  }

  lemma Power5()
    ensures Power(5) == 32.0 && Power(6) == 64.0 && Power(7) == 128.0
  {
    assert Power(5) == 32.0;
  }

  lemma ProductLess(q: real, a: real, b: real, c: real, d: real)
    requires 0.0 < a <= b && 0.0 < q && q * a == c && d * b <= c
    ensures d <= q
  {
    TimesUp(b, a, q);
    assert (q - d) * b == q * b - d * b;
    Signs(q - d, b);
  }

  lemma ProductMore(q: real, a: real, b: real, c: real, d: real)
    requires 0.0 < b <= a && 0.0 < q && q * a == c && c < d * b
    ensures q < d
  {
    TimesUp(a, b, q);
    assert (d - q) * b == d * b - q * b;
    Signs(d - q, b);
  }

  lemma QuotientPositive(a: real)
    requires a > 0.0
    ensures 127.0 / a > 0.0 && 127.0 / a * a == 127.0
  {
    Undivide(127.0, a);
    Signs(127.0 / a, a);
  }

  /** The quotient of a positive single is a normal double. */
  lemma QuotientRange(a: real)
    requires IsSingle(a) && a > 0.0
    ensures var q := 127.0 / a; q * a == 127.0 && Power(-122) <= q < Power(156)
  {
    hide Power, Abs;
    var q := 127.0 / a;
    QuotientPositive(a);
    SmallestSingle(a);
    Concrete();
    PowerAdd(-122, 128);
    PowerAdd(156, -149);
    BelowLimit(a);
    ProductLess(q, a, Power(128), 127.0, Power(-122));
    ProductMore(q, a, Power(-149), 127.0, Power(156));
  }

  lemma BelowLimit(a: real)
    requires IsSingle(a)
    ensures a < Power(128) && -a < Power(128)
  {
    hide Power, Dyadic, Small;
  }

  lemma DoubleClose(x: real)
    requires Abs(x) >= Power(-1022)
    ensures Abs(Double(x) - x) * 9007199254740992.0 <= Abs(x)
  {
    hide Power, Round, Abs;
    Concrete();
    RelativeError(x, 53, -1074, 971);
  }

  /** Rounding the quotient to double precision does not take it below the limit. */
  lemma LargeRefused(q: real)
    requires Overflow() <= q < Power(156)
    ensures Double(q) >= Overflow()
  {
    hide Power, Nearest;
    Units();
    PowerUp(-149, 128);
    var k := Quantum(q, 53, -1074, 971);
    if k > -1074 { PowerLess(53 + k - 1, 156); }
    NearestAbove(q, 33554431, 103, k);
  }

  /** Nor up to it: 127 / amax is below the limit by more than its rounding error,
      because amax has 24 digits. */
  lemma Gap(a: real, limit: real)
    requires IsSingle(a) && a > 0.0 && limit == Overflow() && limit * a > 127.0
    ensures limit * a >= 127.0 + Power(-46)
  {
    hide Power, Pow2, IsSingle;
    var m, e := Digits(a);
    var g := 103 + e;
    Units();
    PowerAdd(103, e);
    LimitTimes(limit, Power(103), m, Power(e), a, Power(g));
    if g >= 0 {
      PowerUp(0, g);
      PowerUp(-46, 0);
      PowerZero();
      Plenty(m, Power(g), limit * a);
    } else {
      PowerUp(-46, g);
      GapBelow(m, g, limit * a);
    }
  }

  lemma LimitTimes(limit: real, h: real, m: nat, p: real, a: real, pg: real)
    requires limit == 33554431.0 * h && a == m as real * p && pg == h * p
    ensures limit * a == (33554431 * m) as real * pg
  {
    var d := m as real;
    assert h * (d * p) == d * (h * p);
    assert limit * a == 33554431.0 * (h * a);
    assert (33554431 * m) as real == 33554431.0 * d;
    assert 33554431.0 * d * pg == 33554431.0 * (d * pg);
  }

  lemma Plenty(m: nat, p: real, x: real)
    requires m > 0 && p >= 1.0 && x == (33554431 * m) as real * p
    ensures x >= 128.0
  {
    TimesUp((33554431 * m) as real, 128.0, p);
  }

  lemma GapBelow(m: nat, g: int, x: real)
    requires g < 0 && x == (33554431 * m) as real * Power(g) && x > 127.0
    ensures x >= 127.0 + Power(g)
  {
    hide Power, Pow2;
    PowerWhole(-g);
    PowerAdd(g, -g);
    PowerZero();
    Whole(33554431 * m, Power(g), Pow2(-g), x);
  }

  lemma Whole(n: nat, p: real, w: nat, x: real)
    requires p > 0.0 && p * w as real == 1.0 && x == n as real * p && x > 127.0
    ensures x >= 127.0 + p
  {
    var d := n as real - 127.0 * w as real;
    assert d * p == x - 127.0;
    Signs(d, p);
    assert n - 127 * w >= 1;
    TimesUp(d, 1.0, p);
  }

  lemma SmallAccepted(a: real)
    requires IsSingle(a) && a > 0.0 && 127.0 / a < Overflow()
    ensures Double(127.0 / a) < Overflow()
  {
    hide Power, Double, Overflow, IsSingle, Abs;
    var q, limit := 127.0 / a, Overflow();
    QuotientRange(a);
    PowerUp(-1022, -122);
    PositiveAbs(q, Power(-122));
    DoubleClose(q);
    LessTimes(q, limit, a, 127.0);
    Gap(a, limit);
    Concrete();
    PowerAdd(-46, 53);
    FromGap(q, Double(q), a, limit, Power(-46));
  }

  lemma PositiveAbs(x: real, least: real)
    requires 0.0 < least <= x
    ensures Abs(x) == x
  {
  }

  lemma LessTimes(x: real, y: real, p: real, c: real)
    requires x < y && p > 0.0 && x * p == c
    ensures c < y * p
  {
    assert (y - x) * p == y * p - x * p;
    Signs(y - x, p);
  }

  lemma FromGap(q: real, d: real, a: real, limit: real, gap: real)
    requires a > 0.0 && q * a == 127.0 && q > 0.0 && Abs(d - q) * 9007199254740992.0 <= q
    requires limit * a >= 127.0 + gap && gap * 9007199254740992.0 == 128.0
    ensures d < limit
  {
    var error := d - q;
    assert error * 9007199254740992.0 <= q;
    TimesUp(q, error * 9007199254740992.0, a);
    assert error * 9007199254740992.0 * a == error * a * 9007199254740992.0;
    assert d * a == q * a + error * a;
    assert (limit - d) * a == limit * a - d * a;
    Signs(limit - d, a);
  }

  // ----- the inverse scale -----

  lemma QuotientSign(signed: real)
    requires signed != 0.0
    ensures -127.0 / signed == if signed < 0.0 then 127.0 / Abs(signed) else -(127.0 / Abs(signed))
  {
    if signed < 0.0 {
      Undivide(127.0, -signed);
      NegativeQuotient(signed, 127.0 / -signed);
    } else {
      DivideOdd(127.0, signed);
    }
  }

  lemma NegativeQuotient(s: real, q: real)
    requires s < 0.0 && q * -s == 127.0
    ensures -127.0 / s == q
  {
    var r := -127.0 / s;
    assert r * s == -127.0;
    assert (q - r) * -s == q * -s + r * s;
    Signs(q - r, -s);
  }

  /** The inverse of a signed peak is that of its magnitude, with the other sign. */
  lemma InverseSign(signed: real)
    requires signed != 0.0
    ensures var d := Double(127.0 / Abs(signed)); Inverse(signed) == ToSingle(if signed < 0.0 then d else -d)
  {
    hide Power, Round, ToSingle;
    QuotientSign(signed);
    RoundOdd(127.0 / Abs(signed), 53, -1074, 971);
  }

  /** Line 52 raises exactly where 127 / amax reaches the overflow threshold: the
      rounding to double in between changes nothing. */
  lemma RefusedExactly(signed: real)
    requires IsSingle(signed) && signed != 0.0
    ensures Inverse(signed).None? <==> 127.0 / Abs(signed) >= Overflow()
  {
    hide Power, Double, Inverse, ToSingle, IsSingle, Overflow;
    var a := Abs(signed);
    var d := Double(127.0 / a);
    AbsSingle(signed);
    InverseSign(signed);
    OverflowExactly(d);
    OverflowExactly(-d);
    QuotientRange(a);
    RoundPositive(127.0 / a);
    if 127.0 / a >= Overflow() { LargeRefused(127.0 / a); } else { SmallAccepted(a); }
  }

  lemma AbsSingle(x: real)
    requires IsSingle(x)
    ensures IsSingle(Abs(x))
  {
    hide IsSingle;
    SingleOdd(x);
  }

  lemma RoundPositive(x: real)
    requires x >= 0.0
    ensures Double(x) >= 0.0
  {
    hide Power, Nearest;
    NotNegative(x, Quantum(x, 53, -1074, 971));
  }

  lemma SingleClose(x: real)
    requires Abs(x) >= Power(-126) && ToSingle(x).Some?
    ensures Abs(ToSingle(x).value - x) * 16777216.0 <= Abs(x)
  {
    hide Power, Round, Abs;
    Concrete();
    RelativeError(x, 24, -149, 104);
  }

  /** Two relative errors, for a positive quotient. */
  lemma TwoErrors(q: real, d: real, i: real, a: real)
    requires a > 0.0 && q > 0.0 && q * a == 127.0
    requires Abs(d - q) * 9007199254740992.0 <= q && Abs(i - d) * 16777216.0 <= Abs(d)
    ensures Abs(i * a - 127.0) <= 1.0 / 65536.0
  {
    assert Abs(d - q) <= q / 1000000000.0 && Abs(i - d) <= q / 16500000.0;
    var z := i - q;
    assert Abs(z) * 16000000.0 <= q;
    TimesUp(q, z * 16000000.0, a);
    TimesUp(q, -z * 16000000.0, a);
    assert z * 16000000.0 * a == z * a * 16000000.0 && -z * 16000000.0 * a == -(z * a * 16000000.0);
    assert i * a == q * a + z * a;
  }

  lemma HalfQuotient(q: real, d: real)
    requires q >= Power(-122) && Abs(d - q) * 9007199254740992.0 <= q
    ensures d >= Power(-126)
  {
    hide Power;
    PowerStep(-123);
    PowerUp(-126, -123);
  }

  lemma InverseOfMagnitude(a: real, i: real)
    requires IsSingle(a) && a > 0.0 && ToSingle(Double(127.0 / a)) == Some(i)
    ensures Abs(i * a - 127.0) <= 1.0 / 65536.0
  {
    hide Power, Double, ToSingle, IsSingle, Abs;
    var q := 127.0 / a;
    var d := Double(q);
    QuotientRange(a);
    PowerUp(-1022, -122);
    PositiveAbs(q, Power(-122));
    DoubleClose(q);
    HalfQuotient(q, d);
    PositiveAbs(d, Power(-126));
    SingleClose(d);
    TwoErrors(q, d, i, a);
  }

  lemma ToSingleOdd(x: real)
    ensures ToSingle(-x).Some? == ToSingle(x).Some?
    ensures ToSingle(x).Some? ==> ToSingle(-x).value == -ToSingle(x).value
  {
    hide Power, Round;
    RoundOdd(x, 24, -149, 104);
  }

  /** The stored inverse scale takes the peak to -127, but for 2^-16. */
  lemma InverseClose(signed: real, i: real)
    requires IsSingle(signed) && signed != 0.0 && Inverse(signed) == Some(i)
    ensures IsSingle(i) && Abs(i * signed + 127.0) <= 1.0 / 65536.0
  {
    hide Power, Double, Inverse, ToSingle, IsSingle;
    var a := Abs(signed);
    var d := Double(127.0 / a);
    AbsSingle(signed);
    InverseSign(signed);
    ToSingleOdd(d);
    if signed < 0.0 {
      SingleResult(d);
      InverseOfMagnitude(a, i);
      OtherSign(i, i, a, signed);
    } else {
      SingleResult(-d);
      var j := ToSingle(d).value;
      InverseOfMagnitude(a, j);
      OtherSign(i, j, a, signed);
    }
  }

  lemma OtherSign(i: real, j: real, a: real, s: real)
    requires (j == i && s == -a) || (j == -i && s == a)
    requires Abs(j * a - 127.0) <= 1.0 / 65536.0
    ensures Abs(i * s + 127.0) <= 1.0 / 65536.0
  {
    assert i * s == -(j * a) by { if j == i { assert i * -a == -(i * a); } else { assert -i * a == -(i * a); } }
  }

  // ----- scaling one value -----

  lemma ProductWithin(i: real, v: real, p: real)
    requires Abs(v) <= Abs(p)
    ensures Abs(i * v) <= Abs(i * p)
  {
    AbsProduct(i, v);
    AbsProduct(i, p);
    TimesUp(Abs(p), Abs(v), Abs(i) + 1.0);
    WithinTimes(Abs(v), Abs(p), Abs(i));
  }

  lemma AbsProduct(x: real, y: real)
    ensures Abs(x * y) == Abs(x) * Abs(y)
  {
    if x >= 0.0 {
      if y >= 0.0 { assert x * y >= 0.0; } else { assert x * -y >= 0.0; }
    } else {
      if y >= 0.0 { assert -x * y >= 0.0; } else { assert -x * -y >= 0.0; }
    }
  }

  lemma WithinTimes(x: real, y: real, p: real)
    requires x <= y && p >= 0.0
    ensures x * p <= y * p
  {
    assert (y - x) * p >= 0.0;
    assert (y - x) * p == y * p - x * p;
  }

  lemma SmallQuantum(x: real)
    requires Abs(x) < 128.0
    ensures Abs(RawSingle(x) - x) <= Power(-18)
  {
    hide Power, Nearest;
    Concrete();
    var k := Quantum(Abs(x), 24, -149, 104);
    if k > -149 { PowerLess(24 + k - 1, 7); }
    NearestBounds(x, k);
    PowerStep(k - 1);
    PowerUp(k - 1, -18);
  }

  lemma Power18()
    ensures Power(-18) == 1.0 / 262144.0
  {
    assert Power(-6) == 1.0 / 64.0;
    hide Power;
    PowerAdd(-6, -6);
    PowerAdd(-12, -6);
  }

  lemma LimitLarge()
    ensures Overflow() > 1000.0
  {
    hide Power;
    Units();
    PowerUp(0, 103);
    PowerZero();
  }

  /** Line 53's product is never refused, and is off by at most 2^-18; so no value
      of the block leaves the range of the quants. */
  lemma NormalClose(signed: real, i: real, v: real)
    requires IsSingle(signed) && signed != 0.0 && Inverse(signed) == Some(i) && IsSingle(v) && Abs(v) <= Abs(signed)
    ensures Normal(i, v).Some? && IsSingle(Normal(i, v).value)
    ensures Abs(Normal(i, v).value - i * v) <= 1.0 / 262144.0 && Abs(i * v) <= 127.0 + 1.0 / 65536.0
  {
    hide Power, Inverse, RawSingle, Double, IsSingle, Overflow;
    InverseClose(signed, i);
    ProductWithin(i, v, signed);
    ProductExact(i, v);
    var y := i * v;
    OverflowExactly(y);
    LimitLarge();
    SmallQuantum(y);
    Power18();
    SingleResult(y);
  }

  // ----- the stored scale -----

  /** A scale that is the reciprocal of the inverse scale, but for 2^-21. */
  predicate Undoes(scale: real, inverse: real) { Abs(scale * inverse - 1.0) <= 1.0 / 2097152.0 }

  lemma ErrorWithin(f: real, w: real, n: real)
    requires n > 0.0 && Abs(f) <= w
    ensures Abs(f * n) <= n * w
  {
    WithinTimes(f, w, n);
    WithinTimes(-f, w, n);
    assert -f * n == -(f * n);
  }

  lemma ErrorTimes(e: real, c: real, n: real, r: real)
    requires n > 0.0 && n * r == 1.0 && Abs(e) <= c * r
    ensures Abs(e * n) <= c
  {
    ErrorWithin(e, c * r, n);
    assert n * (c * r) == c * (n * r);
  }

  lemma DoubleStep(e: real, n: real, r: real)
    requires n > 0.0 && n * r == 1.0 && r > 0.0 && Abs(e) * 9007199254740992.0 <= r
    ensures Abs(e * n) <= 1.0 / 1000000000.0 && Abs(e) <= r / 1000000000.0
  {
    ErrorTimes(e, 1.0 / 1000000000.0, n, r);
  }

  lemma SingleStep(f: real, d: real, n: real, r: real, tiny: real)
    requires n > 0.0 && n * r == 1.0 && r > 0.0 && Abs(d - r) <= r / 1000000000.0
    requires Abs(f) * 16777216.0 <= Abs(d) || Abs(f) <= tiny
    requires n * tiny <= 1.0 / 4194304.0
    ensures Abs(f * n) <= 1.0 / 4194304.0
  {
    if Abs(f) <= tiny {
      ErrorWithin(f, tiny, n);
    } else {
      ErrorTimes(f, 1.0 / 16000000.0, n, r);
    }
  }

  /** A rounding to double and one to single, for a positive reciprocal `r` of `n`. */
  lemma ReciprocalErrors(n: real, r: real, d: real, t: real, tiny: real)
    requires n > 0.0 && n * r == 1.0 && r > 0.0
    requires Abs(d - r) * 9007199254740992.0 <= r
    requires Abs(t - d) * 16777216.0 <= Abs(d) || Abs(t - d) <= tiny
    requires n * tiny <= 1.0 / 4194304.0
    ensures Undoes(t, n)
  {
    var e, f := d - r, t - d;
    DoubleStep(e, n, r);
    SingleStep(f, d, n, r, tiny);
    SumTimes(t, r, e, f, n);
  }

  lemma SumTimes(t: real, r: real, e: real, f: real, n: real)
    requires t == r + e + f && n * r == 1.0
    requires Abs(e * n) <= 1.0 / 1000000000.0 && Abs(f * n) <= 1.0 / 4194304.0
    ensures Abs(t * n - 1.0) <= 1.0 / 2097152.0
  {
    var x, y := e * n, f * n;
    Spread(r, e, f, n);
    SmallSum(t * n, x, y);
  }

  lemma Spread(r: real, e: real, f: real, n: real)
    ensures (r + e + f) * n == n * r + e * n + f * n
  {
  }

  lemma SmallSum(p: real, x: real, y: real)
    requires p == 1.0 + x + y && Abs(x) <= 1.0 / 1000000000.0 && Abs(y) <= 1.0 / 4194304.0
    ensures Abs(p - 1.0) <= 1.0 / 2097152.0
  {
  }

  lemma ReciprocalPositive(n: real)
    requires n > 0.0
    ensures 1.0 / n > 0.0 && n * (1.0 / n) == 1.0
  {
    Undivide(1.0, n);
    Signs(1.0 / n, n);
  }

  /** The reciprocal of an inverse scale is normal as a double and no overflow. */
  lemma ReciprocalRange(n: real)
    requires Power(-122) <= n < Power(128)
    ensures var r := Reciprocal(n); n * r == 1.0 && Power(-128) <= r <= Power(122)
  {
    hide Power;
    var r := Reciprocal(n);
    ReciprocalPositive(n);
    PowerZero();
    PowerAdd(-128, 128);
    PowerAdd(122, -122);
    ReciprocalBounds(n, r, Power(128), Power(-128), Power(-122), Power(122));
  }

  lemma ReciprocalBounds(n: real, r: real, high: real, low: real, least: real, most: real)
    requires 0.0 < least <= n < high && r > 0.0 && n * r == 1.0 && low * high == 1.0 && most * least == 1.0
    ensures low <= r <= most
  {
    TimesUp(high, n, r);
    TimesUp(n, least, r);
    assert (r - low) * high == high * r - low * high && (most - r) * least == most * least - least * r;
    Signs(r - low, high);
    Signs(most - r, least);
  }

  lemma NotTiny(r: real)
    requires Power(-128) <= r <= Power(122)
    ensures Abs(r) == r && Abs(r) >= Power(-1022)
  {
    hide Power;
    PowerUp(-1022, -128);
  }

  lemma NoOverflow(r: real, d: real)
    requires 0.0 < r <= Power(122) && Abs(d - r) * 9007199254740992.0 <= r
    ensures ToSingle(d).Some?
  {
    hide Power, ToSingle;
    OverflowExactly(d);
    Units();
    PowerStep(122);
    PowerUp(123, 127);
  }

  lemma TinyTimes(n: real)
    requires 0.0 < n < Power(128)
    ensures n * Power(-150) <= 1.0 / 4194304.0
  {
    hide Power;
    PowerAdd(128, -150);
    WithinTimes(n, Power(128), Power(-150));
    Power22();
  }

  lemma Power22()
    ensures Power(-22) == 1.0 / 4194304.0
  {
    hide Power;
    Power11();
    PowerAdd(-11, -11);
  }

  lemma SingleError(d: real)
    requires ToSingle(d).Some?
    ensures Abs(ToSingle(d).value - d) * 16777216.0 <= Abs(d) || Abs(ToSingle(d).value - d) <= Power(-150)
  {
    hide Power, Round, Abs;
    Concrete();
    RoundError(d, 24, -149, 104);
  }

  lemma ScaleOfMagnitude(n: real) returns (t: real)
    requires Power(-122) <= n < Power(128)
    ensures n > 0.0 && ScaleOf(n) == Some(t) && Undoes(t, n)
  {
    hide Power, Double, ToSingle, Abs, Undoes;
    var r := Reciprocal(n);
    var d := Double(r);
    ReciprocalRange(n);
    NotTiny(r);
    DoubleClose(r);
    NoOverflow(r, d);
    SingleError(d);
    TinyTimes(n);
    t := ToSingle(d).value;
    ReciprocalErrors(n, r, d, t, Power(-150));
  }

  lemma ReciprocalSign(i: real, n: real)
    requires n > 0.0 && i == -n
    ensures Reciprocal(i) == -Reciprocal(n)
  {
    Undivide(1.0, n);
    var r, s := 1.0 / i, 1.0 / n;
    assert r * i == 1.0;
    assert (r + s) * n == -(r * i) + s * n by { assert r * i == -(r * n); }
    Signs(r + s, n);
  }

  lemma FlipTimes(t: real, u: real, i: real, n: real)
    requires t == -u && i == -n && Undoes(u, n)
    ensures Undoes(t, i)
  {
    assert -u * -n == u * n;
  }

  lemma NegativeScale(i: real, n: real)
    requires n > 0.0 && i == -n && ScaleOf(n).Some?
    ensures ScaleOf(i).Some? && ScaleOf(i).value == -ScaleOf(n).value
  {
    hide Power, Round, ToSingle, Reciprocal;
    ReciprocalSign(i, n);
    RoundOdd(Reciprocal(n), 53, -1074, 971);
    ToSingleOdd(Double(Reciprocal(n)));
  }

  lemma ScaleOfNegative(i: real, n: real) returns (t: real)
    requires i == -n && Power(-122) <= n < Power(128)
    ensures i != 0.0 && ScaleOf(i) == Some(t) && Undoes(t, i)
  {
    hide Power, ScaleOf, Undoes;
    var u := ScaleOfMagnitude(n);
    NegativeScale(i, n);
    t := ScaleOf(i).value;
    FlipTimes(t, u, i, n);
  }

  /** The stored scale undoes the inverse scale, even where it is subnormal. */
  lemma ScaleClose(i: real) returns (t: real)
    requires Power(-122) <= Abs(i) < Power(128)
    ensures i != 0.0 && ScaleOf(i) == Some(t) && Undoes(t, i)
  {
    hide Power, ScaleOf, Undoes;
    if i > 0.0 {
      t := ScaleOfMagnitude(i);
    } else {
      t := ScaleOfNegative(i, -i);
    }
  }

  // ----- what a quant stands for -----

  lemma Magnitudes(x: real, y: real, a: real, b: real)
    requires a == Abs(x) && b == Abs(y)
    ensures x * y == a * b || x * y == -(a * b)
    ensures a * b >= 0.0
  {
    AbsProduct(x, y);
  }

  lemma InverseRange(a: real, signed: real, i: real, n: real)
    requires IsSingle(a) && a == Abs(signed) && a > 0.0 && n == Abs(i) && IsSingle(i)
    requires Abs(i * signed + 127.0) <= 1.0 / 65536.0
    ensures Power(-122) <= n < Power(128) && n * a >= 127.0 - 1.0 / 65536.0
  {
    hide Power, IsSingle;
    Magnitudes(i, signed, n, a);
    BelowLimit(i);
    BelowLimit(a);
    Concrete();
    PowerAdd(-122, 128);
    Signs(n, a);
    ProductLess(n, a, Power(128), n * a, Power(-122));
  }

  /** |e| <= 2^-21 times at most 127.6, and 0.5 + 2^-18. */
  lemma ErrorProducts(e: real, q: real, h: real)
    requires Abs(e) <= 1.0 / 2097152.0 && Abs(q) <= 127.6 && Abs(h) <= 0.5 + 1.0 / 262144.0
    ensures Abs(e * q + h) <= 0.500066
  {
    var f, p := Abs(e), Abs(q);
    Magnitudes(e, q, f, p);
    WithinTimes(f, 1.0 / 2097152.0, p);
  }

  lemma Undone(w: real, t: real, i: real, q: real, v: real, y: real, e: real, h: real)
    requires w == t * q - v && y == i * v && e == t * i - 1.0 && h == q - y
    ensures w * i == e * q + h
  {
    assert w * i == t * q * i - v * i;
    assert e * q == t * i * q - q;
    assert t * q * i == t * i * q && v * i == y;
  }

  lemma FromDifference(d: real, x: real, a: real, b: real, n: real)
    requires d == x - a * b
    ensures d * n == x * n - n * a * b
  {
    assert a * b * n == n * a * b;
    assert d * n == x * n - a * b * n;
  }

  lemma WithinLimit(x: real, a: real, n: real, b: real)
    requires x * n <= 0.500066 && n > 0.0 && n * a >= 126.99 && b * 126.99 > 0.500066 && b > 0.0
    ensures x <= a * b
  {
    var d := x - a * b;
    WithinTimes(126.99, n * a, b);
    FromDifference(d, x, a, b, n);
    Signs(d, n);
  }

  lemma FromProduct(w: real, i: real, a: real, n: real)
    requires Abs(w * i) <= 0.500066 && n == Abs(i) && n > 0.0 && a > 0.0 && n * a >= 127.0 - 1.0 / 65536.0
    ensures Abs(w) <= a * (1.0 / 254.0 + 1.0 / 1048576.0)
  {
    Magnitudes(w, i, Abs(w), n);
    WithinLimit(Abs(w), a, n, 1.0 / 254.0 + 1.0 / 1048576.0);
  }

  /** A dequantised value is off by half a quant, but for what the roundings add. */
  lemma DequantError(signed: real, i: real, t: real, v: real, x: real, q: real)
    requires IsSingle(signed) && signed != 0.0 && IsSingle(i) && Abs(i * signed + 127.0) <= 1.0 / 65536.0
    requires Undoes(t, i)
    requires Abs(i * v) <= 127.0 + 1.0 / 65536.0 && Abs(x - i * v) <= 1.0 / 262144.0 && Abs(q - x) <= 0.5
    ensures Abs(t * q - v) <= Abs(signed) * (1.0 / 254.0 + 1.0 / 1048576.0)
  {
    hide Power, IsSingle;
    AbsSingle(signed);
    InverseRange(Abs(signed), signed, i, Abs(i));
    PowerPositive(-122);
    BothErrors(t * q - v, t, i, v, i * v, x, q);
    FromProduct(t * q - v, i, Abs(signed), Abs(i));
  }

  lemma PowerPositive(n: int)
    ensures Power(n) > 0.0
  {
  }

  lemma BothErrors(w: real, t: real, i: real, v: real, y: real, x: real, q: real)
    requires w == t * q - v && y == i * v && Abs(t * i - 1.0) <= 1.0 / 2097152.0
    requires Abs(y) <= 127.0 + 1.0 / 65536.0 && Abs(x - y) <= 1.0 / 262144.0 && Abs(q - x) <= 0.5
    ensures Abs(w * i) <= 0.500066
  {
    var e, h := t * i - 1.0, q - y;
    Undone(w, t, i, q, v, y, e, h);
    ErrorProducts(e, q, h);
  }

  lemma DequantOne(signed: real, i: real, t: real, v: real, q: real)
    requires IsSingle(signed) && signed != 0.0 && Inverse(signed) == Some(i) && Undoes(t, i)
    requires IsSingle(v) && Abs(v) <= Abs(signed) && Normal(i, v).Some? && Abs(q - Normal(i, v).value) <= 0.5
    ensures Abs(t * q - v) <= Abs(signed) * (1.0 / 254.0 + 1.0 / 1048576.0)
  {
    hide Power, Inverse, Normal, IsSingle, Undoes;
    InverseClose(signed, i);
    NormalClose(signed, i, v);
    DequantError(signed, i, t, v, Normal(i, v).value, q);
  }

  lemma HasScale(signed: real, i: real)
    requires IsSingle(signed) && signed != 0.0 && Inverse(signed) == Some(i)
    ensures i != 0.0 && ScaleOf(i).Some? && Undoes(ScaleOf(i).value, i)
  {
    hide Power, Inverse, ScaleOf, Undoes, IsSingle;
    InverseClose(signed, i);
    AbsSingle(signed);
    InverseRange(Abs(signed), signed, i, Abs(i));
    var t := ScaleClose(i);
  }

  /** What line 53 rounds: a single within 127.1 of zero, which is rounded to the
      nearest integer, ties to even, and never above 127 or below -127. */
  lemma QuantRange(signed: real, i: real, v: real)
    requires IsSingle(signed) && signed != 0.0 && Inverse(signed) == Some(i) && IsSingle(v) && Abs(v) <= Abs(signed)
    ensures Normal(i, v).Some?
    ensures var x := Normal(i, v).value; NearestInt(x) == Some(RoundEven(x)) && -127 <= RoundEven(x) <= 127
  {
    hide Power, Inverse, Normal, IsSingle, RoundEven, NearestInt;
    NormalClose(signed, i, v);
    var x := Normal(i, v).value;
    NearestIntRounds(x);
    RoundEvenBounds(x);
  }
}
