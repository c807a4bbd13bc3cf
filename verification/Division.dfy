/** Division facts with a divisor that is not a literal. */
module Division {
  lemma Expand(a: nat, d: nat, m: nat)
    ensures (a + 1 + d) * m == a * m + m + d * m && d * m >= 0
  {
  }

  lemma Less(a: nat, b: nat, m: nat)
    ensures a < b ==> a * m + m <= b * m
  {
    if a < b { Expand(a, b - a - 1, m); }
  }

  /** Quotient and remainder are unique. */
  lemma Unique(q: nat, r: nat, m: nat)
    requires r < m
    ensures (q * m + r) / m == q && (q * m + r) % m == r
  {
    var x := q * m + r;
    var p, s := x / m, x % m;
    assert x == p * m + s;
    Less(p, q, m);
    Less(q, p, m);
  }

  /** Whole multiples do not change a remainder. */
  lemma AddMultiple(x: nat, q: nat, m: nat)
    requires m > 0
    ensures (x + q * m) % m == x % m
  {
    var p, r := x / m, x % m;
    assert x == p * m + r;
    assert x + q * m == (p + q) * m + r;
    Unique(p + q, r, m);
  }

  /** Equal remainders differ by a multiple. */
  lemma SameRemainder(a: nat, b: nat, m: nat) returns (j: nat)
    requires m > 0 && a <= b && a % m == b % m
    ensures b - a == j * m
  {
    var p, q := a / m, b / m;
    assert a == p * m + a % m && b == q * m + b % m;
    Less(q, p, m);
    j := q - p;
    assert (q - p) * m == q * m - p * m;
  }

  lemma SameSign(c: int, d: nat)
    requires d > 0
    ensures c >= 0 ==> c * d >= 0
  {
  }

  lemma Cancel(a: int, b: int, d: nat)
    requires a * d < b * d && d > 0
    ensures a < b
  {
    SameSign(a - b, d);
    assert (a - b) * d == a * d - b * d;
  }

  lemma QuotientBound(x: nat, rows: nat, workers: nat)
    requires workers > 0 && x <= rows * workers
    ensures x / workers <= rows
  {
    var q := x / workers;
    assert x == q * workers + x % workers;
    assert (rows + 1) * workers == rows * workers + workers;
    Cancel(q, rows + 1, workers);
  }

  lemma ExactQuotient(a: nat, b: nat)
    requires b > 0
    ensures a * b / b == a
  {
    var q := a * b / b;
    assert a * b == q * b + (a * b) % b;
    assert (a + 1) * b == a * b + b && (q + 1) * b == q * b + b;
    Cancel(q, a + 1, b);
    Cancel(a, q + 1, b);
  }

  lemma DivMonotone(x: nat, y: nat, d: nat)
    requires x <= y && d > 0
    ensures x / d <= y / d
  {
    var p, q := x / d, y / d;
    assert x == p * d + x % d && y == q * d + y % d;
    assert (q + 1) * d == q * d + d;
    Cancel(p, q + 1, d);
  }
}
