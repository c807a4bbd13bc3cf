/** How far a sum can be off whose every addition is rounded. */
module Summation {
  import opened Rounding

  /** `t` stands for `exact`, but for a share of `mass` and a constant. */
  predicate Near(t: real, exact: real, mass: real, share: real, rest: real) { Abs(t - exact) <= share * mass + rest }

  /** A rounding moves a number by a share of it and a constant. */
  predicate RoundedFrom(next: real, x: real, unit: real, tiny: real) { Abs(next - x) <= unit * Abs(x) + tiny }

  lemma Shares(k: real, j: real, s: real, t: real, z: real)
    requires j <= k && t >= 0.0 && z == s + t
    ensures k * s + j * t <= k * z
  {
    assert (k - j) * t >= 0.0;
    assert (k - j) * t == k * t - j * t && k * z == k * s + k * t;
  }

  lemma Growth(unit: real, z: real, k: real, e: real, rest: real, w: real, share: real)
    requires 0.0 <= unit && z >= 0.0 && k <= 1.0 && e <= k * z + rest && w == z + e && share == k + 2.0 * unit
    ensures e + unit * w <= share * z + (rest + unit * rest)
  {
    var v := k * z + rest;
    assert unit * (v - e) >= 0.0;
    assert unit * (v - e) == unit * v - unit * e;
    assert unit * w == unit * z + unit * e;
    assert unit * v == unit * (k * z) + unit * rest;
    assert (1.0 - k) * (unit * z) >= 0.0 by { assert unit * z >= 0.0; }
    assert (1.0 - k) * (unit * z) == unit * z - k * (unit * z) && k * (unit * z) == unit * (k * z);
    assert share * z == k * z + 2.0 * (unit * z);
  }

  lemma UnitTimes(unit: real, x: real, y: real)
    requires unit >= 0.0 && x <= y
    ensures unit * x <= unit * y
  {
    assert unit * (y - x) >= 0.0;
    assert unit * (y - x) == unit * y - unit * x;
  }

  lemma ErrorBefore(t: real, exact: real, mass: real, y: real, x: real, size: real, k: real, rest: real, j: real,
                    small: real, z: real, r: real)
    requires Near(t, exact, mass, k, rest) && Near(y, x, size, j, small) && z == mass + size && r == rest + small
    requires j <= k && size >= 0.0
    ensures Abs(t + y - (exact + x)) <= k * z + r
  {
    Shares(k, j, mass, size, z);
    TwoErrors(t, exact, y, x, k * mass + rest, j * size + small, k * z + r);
  }

  lemma TwoErrors(t: real, exact: real, y: real, x: real, a: real, b: real, bound: real)
    requires Abs(t - exact) <= a && Abs(y - x) <= b && a + b <= bound
    ensures Abs(t + y - (exact + x)) <= bound
  {
  }

  lemma Chain(next: real, sum: real, exact: real, a: real, e: real, bound: real)
    requires Abs(next - sum) <= a && Abs(sum - exact) <= e && a + e <= bound
    ensures Abs(next - exact) <= bound
  {
  }

  lemma SizeOf(sum: real, exact: real, e: real, z: real)
    requires Abs(sum - exact) <= e && Abs(exact) <= z
    ensures Abs(sum) <= z + e && z >= 0.0 && e >= 0.0
  {
  }

  lemma ErrorAfter(sum: real, exact: real, next: real, z: real, k: real, r: real, unit: real, tiny: real)
    requires Abs(sum - exact) <= k * z + r && Abs(exact) <= z && k <= 1.0 && 0.0 <= unit
    requires RoundedFrom(next, sum, unit, tiny)
    ensures Near(next, exact, z, k + 2.0 * unit, r + unit * r + tiny)
  {
    hide Abs;
    var e, size, share := Abs(sum - exact), Abs(sum), k + 2.0 * unit;
    var w := z + e;
    SizeOf(sum, exact, e, z);
    Growth(unit, z, k, e, r, w, share);
    UnitTimes(unit, size, w);
    Chain(next, sum, exact, unit * size + tiny, e, share * z + (r + unit * r + tiny));
  }

  /** One rounded addition of a number that is itself near an exact one. */
  lemma AddRounded(t: real, exact: real, mass: real, y: real, x: real, size: real, next: real, k: real, rest: real,
                   j: real, small: real, unit: real, tiny: real, r: real)
    requires Near(t, exact, mass, k, rest) && Near(y, x, size, j, small) && RoundedFrom(next, t + y, unit, tiny)
    requires Abs(exact) <= mass && Abs(x) <= size && j <= k <= 1.0 && 0.0 <= unit && r == rest + small
    ensures Near(next, exact + x, mass + size, k + 2.0 * unit, r + unit * r + tiny)
    ensures Abs(exact + x) <= mass + size
  {
    hide Near, RoundedFrom;
    ErrorBefore(t, exact, mass, y, x, size, k, rest, j, small, mass + size, r);
    ErrorAfter(t + y, exact + x, next, mass + size, k, r, unit, tiny);
  }
}
