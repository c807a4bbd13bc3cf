/** When the experts qx_trace_expert (src/qx_qxf_main.c:79-93) chooses for one layer
    and token are pairwise distinct, wrap-around included. */
module RouteDistinct {
  import opened Words
  import opened Bits
  import opened RouteTrace
  import Division

  /** The experts of one layer and token are pairwise distinct. */
  ghost predicate Distinct(seed: U32, layer: U32, token: U32, experts: U32, topK: U32, percent: U32)
    requires experts > 0
  {
    forall a: U32, b: U32 :: a < b < topK ==>
      Expert(seed, layer, token, a, experts, percent) != Expert(seed, layer, token, b, experts, percent)
  }

  // ----- power-of-two counts -----

  /** Taking a remainder by a power of two is unaffected by 32-bit wrap-around. */
  lemma WrapMod(n: nat, e: nat)
    requires e <= 32
    ensures Wrap(n) % Pow2(e) == n % Pow2(e)
  {
    hide Pow2;
    WordBound();
    PowSplit(e, 32 - e);
    var q, s := n / U32_LIMIT, Pow2(32 - e);
    Regroup(q, s, Pow2(e));
    Division.AddMultiple(Wrap(n), q * s, Pow2(e));
  }

  lemma Regroup(q: nat, s: nat, p: nat)
    ensures q * (s * p) == q * s * p
  {
  }

  lemma {:induction false} PowSplit(a: nat, b: nat)
    ensures Pow2(a + b) == Pow2(b) * Pow2(a)
  {
    if a > 0 { PowSplit(a - 1, b); }
  }

  /** 17 is odd: a power of two that divides 17 d divides d. */
  lemma {:induction false} OddFactor(d: nat, j: nat, e: nat)
    requires 17 * d == j * Pow2(e)
    ensures d > 0 ==> d >= Pow2(e)
    decreases e
  {
    if e > 0 {
      Evens(d, j, Pow2(e - 1));
      OddFactor(d / 2, j, e - 1);
    }
  }

  lemma Evens(d: nat, j: nat, p: nat)
    requires 17 * d == j * (2 * p)
    ensures d % 2 == 0 && 17 * (d / 2) == j * p
  {
    assert 17 * d == 2 * (j * p);
  }

  /** For a power-of-two expert count the experts of one layer and token are
      pairwise distinct, despite the wrap-around. */
  lemma DistinctForPowersOfTwo(seed: U32, layer: U32, token: U32, e: nat, topK: U32, percent: U32, a: U32, b: U32)
    requires e < 32 && Pow2(e) < U32_LIMIT && topK <= Pow2(e) && a < b < topK
    ensures Expert(seed, layer, token, a, Pow2(e), percent) != Expert(seed, layer, token, b, Pow2(e), percent)
  {
    hide First, TokenTerm, Rest, Expert;
    var m := Pow2(e);
    var c := Rest(seed, layer, token, m, percent);
    ExpertIs(seed, layer, token, a, m, percent);
    ExpertIs(seed, layer, token, b, m, percent);
    WrapMod(c + 17 * a, e);
    WrapMod(c + 17 * b, e);
    if (c + 17 * a) % m == (c + 17 * b) % m {
      var j := Division.SameRemainder(c + 17 * a, c + 17 * b, m);
      OddFactor(b - a, j, e);
    }
  }

  // ----- any count: divisibility by 17 -----

  /** 17 is prime: a residue other than 0 has an inverse. */
  function Inverse(r: nat): (v: nat)
    requires 0 < r < 17
    ensures r * v % 17 == 1
  {
    match r
    case 1 => 1
    case 2 => 9
    case 3 => 6
    case 4 => 13
    case 5 => 7
    case 6 => 3
    case 7 => 5
    case 8 => 15
    case 9 => 2
    case 10 => 12
    case 11 => 14
    case 12 => 10
    case 13 => 4
    case 14 => 11
    case 15 => 8
    case _ => 16
  }

  /** A number that 17 does not divide has an inverse modulo 17. */
  lemma Invert(m: nat) returns (v: nat, w: nat)
    requires m % 17 != 0
    ensures m * v == 17 * w + 1
  {
    var a, r := m / 17, m % 17;
    v := Inverse(r);
    var b := r * v / 17;
    w := a * v + b;
    assert m * v == (17 * a + r) * v == 17 * (a * v) + r * v;
  }

  lemma Swap(j: nat, m: nat, v: nat, w: nat, d: nat)
    requires 17 * d == j * m && m * v == 17 * w + 1
    ensures 17 * (d * v) == 17 * (j * w) + j
  {
    assert 17 * d * v == j * m * v == j * (m * v);
  }

  lemma PrimeFactor(m: nat, j: nat, d: nat)
    requires 17 * d == j * m && m % 17 != 0
    ensures j % 17 == 0
  {
    var v, w := Invert(m);
    Swap(j, m, v, w, d);
    Seventeens(d * v, j * w, j);
  }

  lemma Seventeens(a: nat, b: nat, j: nat)
    requires 17 * a == 17 * b + j
    ensures j % 17 == 0
  {
    assert j == 17 * (a - b);
  }

  lemma CancelSeventeen(j: nat, s: nat, d: nat)
    requires 17 * d == j * (17 * s)
    ensures d == j * s
  {
    assert j * (17 * s) == 17 * (j * s);
  }

  /** Multiples of 17 come back to a multiple of `m` after `m` steps, or after m / 17. */
  lemma Steps(m: nat, j: nat, d: nat)
    requires m > 0 && d > 0 && 17 * d == j * m
    ensures d >= if m % 17 != 0 then m else m / 17
  {
    if m % 17 != 0 {
      PrimeFactor(m, j, d);
      assert d == j / 17 * m;
      Division.Less(0, j / 17, m);
    } else {
      CancelSeventeen(j, m / 17, d);
      Division.Less(0, j, m / 17);
    }
  }

  // ----- one pair -----

  function Gap(x: nat, y: nat): nat { if x < y then y - x else x - y }

  lemma SameIff(x: nat, y: nat, m: nat)
    requires m > 0
    ensures x % m == y % m <==> Gap(x, y) % m == 0
  {
    var low, high := if x < y then x else y, if x < y then y else x;
    if low % m == high % m {
      var j := Division.SameRemainder(low, high, m);
      Division.Unique(j, 0, m);
    }
    if (high - low) % m == 0 {
      var q := (high - low) / m;
      Division.AddMultiple(low, q, m);
      assert low + q * m == high;
    }
  }

  /** The sum before the choice's own 17 k, as a 32-bit word. */
  function Start(seed: U32, layer: U32, token: U32, experts: U32, percent: U32): U32
    requires experts > 0
  {
    Wrap(Rest(seed, layer, token, experts, percent))
  }

  /** How often the sum of choice `k` has wrapped around. */
  function Wraps(start: U32, k: nat): nat { (start + 17 * k) / U32_LIMIT }

  lemma ExpertAt(seed: U32, layer: U32, token: U32, k: U32, experts: U32, percent: U32)
    requires experts > 0
    ensures var c := Start(seed, layer, token, experts, percent);
            Expert(seed, layer, token, k, experts, percent) == Wrap(c + 17 * k) % experts
  {
    hide First, TokenTerm, Rest, Expert, Wrap;
    ExpertIs(seed, layer, token, k, experts, percent);
    WrapLeft(Rest(seed, layer, token, experts, percent), 17 * k);
  }

  lemma WrapGap(x: nat, y: nat)
    requires x <= y
    ensures x / U32_LIMIT <= y / U32_LIMIT
    ensures Gap(Wrap(x), Wrap(y)) == Gap(y - x, (y / U32_LIMIT - x / U32_LIMIT) * U32_LIMIT)
  {
  }

  /** Two choices of any layer and token agree exactly when the count divides the
      distance between them less 2^32 for every wrap-around in between. */
  lemma AgreeExactly(seed: U32, layer: U32, token: U32, a: U32, b: U32, experts: U32, percent: U32)
    requires experts > 0 && a <= b
    ensures var c := Start(seed, layer, token, experts, percent);
            Wraps(c, a) <= Wraps(c, b) &&
            (Expert(seed, layer, token, a, experts, percent) == Expert(seed, layer, token, b, experts, percent) <==>
             Gap(17 * (b - a), (Wraps(c, b) - Wraps(c, a)) * U32_LIMIT) % experts == 0)
  {
    hide Start, Expert, Wrap, Gap;
    var c := Start(seed, layer, token, experts, percent);
    ExpertAt(seed, layer, token, a, experts, percent);
    ExpertAt(seed, layer, token, b, experts, percent);
    SameIff(Wrap(c + 17 * a), Wrap(c + 17 * b), experts);
    WrapGap(c + 17 * a, c + 17 * b);
  }

  // ----- all pairs -----

  /** How many of the first `topK` choices come before the first wrap-around. */
  function Before(start: U32, topK: nat): (n: nat)
    ensures n <= topK && (n > 0 || topK == 0)
    ensures forall k: nat :: k < topK ==> (k < n <==> start + 17 * k < U32_LIMIT)
  {
    var n := (U32_LIMIT - start + 16) / 17;
    if n < topK then n else topK
  }

  lemma AtMostOnce(start: U32, topK: nat, k: nat)
    requires 17 * topK <= U32_LIMIT && k < topK
    ensures Wraps(start, k) == if k < Before(start, topK) then 0 else 1
  {
  }

  /** Two choices, told apart by the side of the wrap-around they are on. */
  lemma AgreeBySide(seed: U32, layer: U32, token: U32, a: U32, b: U32, experts: U32, topK: U32, percent: U32)
    requires experts > 0 && 17 * topK <= U32_LIMIT && a <= b < topK
    ensures var n := Before(Start(seed, layer, token, experts, percent), topK);
            Expert(seed, layer, token, a, experts, percent) == Expert(seed, layer, token, b, experts, percent) <==>
            (if a < n <= b then U32_LIMIT - 17 * (b - a) else 17 * (b - a)) % experts == 0
  {
    hide Start, Expert, Before, Wraps;
    var c := Start(seed, layer, token, experts, percent);
    AgreeExactly(seed, layer, token, a, b, experts, percent);
    AtMostOnce(c, topK, a);
    AtMostOnce(c, topK, b);
  }

  /** On one side of the wrap-around, choices agree at multiples of the count, or of
      its seventeenth. */
  lemma NearTogether(m: nat, d: nat)
    requires m > 0 && d > 0 && 17 * d % m == 0
    ensures d >= if m % 17 != 0 then m else m / 17
  {
    var j := 17 * d / m;
    assert 17 * d == j * m;
    Steps(m, j, d);
  }

  lemma SeventeenDivides(x: nat, m: nat)
    requires m > 0 && m % 17 == 0 && x % m == 0
    ensures x % 17 == 0
  {
    var j, s := x / m, m / 17;
    assert x == j * m == j * (17 * s) == 17 * (j * s);
  }

  /** A multiple of 17 never divides a distance across the wrap-around. */
  lemma NeverAcross(m: nat, d: nat)
    requires m > 0 && m % 17 == 0 && 17 * d <= U32_LIMIT
    ensures (U32_LIMIT - 17 * d) % m != 0
  {
    if (U32_LIMIT - 17 * d) % m == 0 { SeventeenDivides(U32_LIMIT - 17 * d, m); }
  }

  /** No distance below `topK` meets the count across a wrap-around. */
  predicate AcrossApart(experts: U32, topK: U32)
    requires experts > 0 && 17 * topK <= U32_LIMIT
  {
    forall d: nat {:trigger 17 * d} :: 0 < d < topK ==> (U32_LIMIT - 17 * d) % experts != 0
  }

  /** Of `topK` choices `n` come before the wrap-around: what keeps them apart. */
  predicate Apart(experts: U32, topK: U32, n: nat)
    requires experts > 0 && 17 * topK <= U32_LIMIT
  {
    if experts % 17 == 0 then n <= experts / 17 && topK <= n + experts / 17
    else n >= topK || AcrossApart(experts, topK)
  }

  lemma PairApart(seed: U32, layer: U32, token: U32, a: U32, b: U32, experts: U32, topK: U32, percent: U32)
    requires 0 < topK <= experts && 17 * topK <= U32_LIMIT && a < b < topK
    requires Apart(experts, topK, Before(Start(seed, layer, token, experts, percent), topK))
    ensures Expert(seed, layer, token, a, experts, percent) != Expert(seed, layer, token, b, experts, percent)
  {
    hide Start, Expert;
    var n := Before(Start(seed, layer, token, experts, percent), topK);
    AgreeBySide(seed, layer, token, a, b, experts, topK, percent);
    if a < n <= b {
      if experts % 17 == 0 { NeverAcross(experts, b - a); }
    } else if 17 * (b - a) % experts == 0 {
      NearTogether(experts, b - a);
    }
  }

  lemma WholeCount(m: nat, d: nat)
    requires m > 0 && 17 * d == m
    ensures 17 * d % m == 0
  {
  }

  /** Two choices that agree, where the condition fails. */
  lemma PairMeets(experts: U32, topK: U32, n: nat) returns (a: U32, b: U32)
    requires 0 < topK <= experts && 17 * topK <= U32_LIMIT && 0 < n <= topK && !Apart(experts, topK, n)
    ensures a < b < topK
    ensures (if a < n <= b then U32_LIMIT - 17 * (b - a) else 17 * (b - a)) % experts == 0
  {
    if experts % 17 == 0 {
      a := if n > experts / 17 then 0 else n;
      b := a + experts / 17;
      WholeCount(experts, b - a);
    } else {
      var d: nat :| 0 < d < topK && (U32_LIMIT - 17 * d) % experts == 0;
      b := if n - 1 + d < topK then n - 1 + d else topK - 1;
      a := b - d;
    }
  }

  /** For any seed, layer, token, count and reuse: the choices are distinct exactly
      when `Apart` holds of the number of choices before the wrap-around. */
  lemma DistinctExactly(seed: U32, layer: U32, token: U32, experts: U32, topK: U32, percent: U32)
    requires 0 < topK <= experts && 17 * topK <= U32_LIMIT
    ensures Distinct(seed, layer, token, experts, topK, percent) <==>
            Apart(experts, topK, Before(Start(seed, layer, token, experts, percent), topK))
  {
    hide Start, Expert, Apart;
    var n := Before(Start(seed, layer, token, experts, percent), topK);
    if Apart(experts, topK, n) {
      forall a: U32, b: U32 | a < b < topK
        ensures Expert(seed, layer, token, a, experts, percent) != Expert(seed, layer, token, b, experts, percent)
      {
        PairApart(seed, layer, token, a, b, experts, topK, percent);
      }
    } else {
      var a, b := PairMeets(experts, topK, n);
      AgreeBySide(seed, layer, token, a, b, experts, topK, percent);
    }
  }

  // ----- conditions on the arguments alone -----

  lemma StartsLow(seed: U32, layer: U32, token: U32, experts: U32, topK: U32, percent: U32)
    requires experts > 0 && experts + 31 * token + 7 * layer + 17 * topK <= U32_LIMIT
    ensures Before(Start(seed, layer, token, experts, percent), topK) == topK
  {
    hide First, Lcg, TokenTerm, Rest, Wrap;
    RestLow(seed, layer, token, experts, percent);
    WrapSmall(Rest(seed, layer, token, experts, percent));
  }

  lemma RestLow(seed: U32, layer: U32, token: U32, experts: U32, percent: U32)
    requires experts > 0 && 31 * token < U32_LIMIT
    ensures Rest(seed, layer, token, experts, percent) < experts + 31 * token + 7 * layer
  {
    hide First, Lcg;
  }

  lemma WrapSmall(n: nat)
    requires n < U32_LIMIT
    ensures Wrap(n) == n
  {
  }

  /** Where the arguments leave no room for a wrap-around, the choices are distinct
      exactly unless 17 divides the count and more than a seventeenth are asked for. */
  lemma DistinctBelowTheWrap(seed: U32, layer: U32, token: U32, experts: U32, topK: U32, percent: U32)
    requires 0 < topK <= experts && experts + 31 * token + 7 * layer + 17 * topK <= U32_LIMIT
    ensures Distinct(seed, layer, token, experts, topK, percent) <==> experts % 17 != 0 || topK <= experts / 17
  {
    hide Start, Distinct, Before;
    StartsLow(seed, layer, token, experts, topK, percent);
    DistinctExactly(seed, layer, token, experts, topK, percent);
  }

  /** A count that meets no distance across the wrap-around never repeats an expert,
      wherever the sum wraps. */
  lemma DistinctAlways(seed: U32, layer: U32, token: U32, experts: U32, topK: U32, percent: U32)
    requires 0 < topK <= experts && 17 * topK <= U32_LIMIT && experts % 17 != 0 && AcrossApart(experts, topK)
    ensures Distinct(seed, layer, token, experts, topK, percent)
  {
    hide Start, Distinct, Before, AcrossApart;
    DistinctExactly(seed, layer, token, experts, topK, percent);
  }

  /** 31 is odd: its inverse modulo 2^32. */
  const INVERSE_31: U32 := 3186588639

  /** A token whose term of the sum is `word`. */
  lemma TokenFor(word: U32) returns (token: U32)
    ensures Wrap(token * 31) == word
  {
    token := Wrap(word * INVERSE_31);
    WrapTimes(word * INVERSE_31, 31);
    assert word * INVERSE_31 * 31 == word + word * 23 * U32_LIMIT;
    Division.AddMultiple(word, word * 23, U32_LIMIT);
  }

  lemma WrapTimes(a: nat, b: nat)
    ensures Wrap(Wrap(a) * b) == Wrap(a * b)
  {
    var q := a / U32_LIMIT;
    assert a * b == Wrap(a) * b + q * b * U32_LIMIT by {
      assert a == Wrap(a) + q * U32_LIMIT;
      assert (Wrap(a) + q * U32_LIMIT) * b == Wrap(a) * b + q * b * U32_LIMIT;
    }
    Division.AddMultiple(Wrap(a) * b, q * b, U32_LIMIT);
  }

  lemma AlwaysFresh(seed: U32, layer: U32, token: U32)
    ensures TokenTerm(seed, layer, token, 0) == Wrap(token * 31)
  {
    hide First, Lcg, Wrap;
  }

  lemma StartsHigh(seed: U32, token: U32, experts: U32, topK: U32)
    requires 0 < experts <= 17 * (topK - 1) && Wrap(token * 31) == U32_LIMIT - experts
    ensures 0 < Before(Start(seed, 0, token, experts, 0), topK) < topK
  {
    hide First, TokenTerm;
    AlwaysFresh(seed, 0, token);
    assert Start(seed, 0, token, experts, 0) == First(seed, 0, token, 0) % experts + (U32_LIMIT - experts);
  }

  /** And that is needed: for a small count some token repeats an expert whatever the seed. */
  lemma SomeTokenRepeats(experts: U32, topK: U32) returns (token: U32)
    requires 0 < topK <= experts <= 17 * (topK - 1) && 17 * topK <= U32_LIMIT
    requires experts % 17 != 0 && !AcrossApart(experts, topK)
    ensures forall seed: U32 :: !Distinct(seed, 0, token, experts, topK, 0)
  {
    hide Start, Distinct, Before, AcrossApart, Wrap;
    token := TokenFor(U32_LIMIT - experts);
    forall seed: U32 ensures !Distinct(seed, 0, token, experts, topK, 0) {
      StartsHigh(seed, token, experts, topK);
      DistinctExactly(seed, 0, token, experts, topK, 0);
    }
  }

  // ----- the exact condition on the counts -----

  lemma {:induction false} XorZero(a: nat)
    ensures Xor(a, 0) == a
    decreases a
  {
    if a > 0 { XorZero(a / 2); }
  }

  lemma XorDiffers(a: nat, b: nat)
    requires a != b
    ensures Xor(a, b) != 0
  {
    hide Xor;
    if Xor(a, b) == 0 {
      XorTwice(a, b);
      XorCommutes(0, b);
      XorZero(b);
    }
  }

  /** The word the generator draws 0 after. */
  const BEFORE_ZERO: U32 := 634785765

  /** A seed with which this token of layer 0 draws 0. */
  lemma SeedFor(token: U32) returns (seed: U32)
    requires Wrap(token * 2891336453) != BEFORE_ZERO
    ensures First(seed, 0, token, 0) == 0
  {
    hide Xor, Pow2;
    var word := Wrap(token * 2891336453);
    WordBound();
    XorBound(BEFORE_ZERO, word, 32);
    seed := Xor(BEFORE_ZERO, word);
    XorDiffers(BEFORE_ZERO, word);
    XorZero(seed);
    XorTwice(BEFORE_ZERO, word);
    assert Mixed(seed, 0, token, 0) == BEFORE_ZERO;
  }

  /** A seed and token whose choices start at this word. */
  lemma StartAt(word: U32, token: U32, experts: U32) returns (seed: U32)
    requires experts > 0 && Wrap(token * 31) == word && Wrap(token * 2891336453) != BEFORE_ZERO
    ensures Start(seed, 0, token, experts, 0) == word
  {
    hide First, TokenTerm;
    seed := SeedFor(token);
    AlwaysFresh(seed, 0, token);
  }

  /** For a count that is not apart some seed and token repeat an expert. */
  lemma SomeSeedRepeats(experts: U32, topK: U32) returns (seed: U32, token: U32)
    requires 0 < topK <= experts && 17 * topK <= U32_LIMIT
    requires if experts % 17 == 0 then topK > experts / 17 else !AcrossApart(experts, topK)
    ensures !Distinct(seed, 0, token, experts, topK, 0)
  {
    hide Start, Distinct, AcrossApart;
    token := if experts % 17 == 0 then 0 else 1662567985;
    seed := StartAt(if experts % 17 == 0 then 0 else U32_LIMIT - 17, token, experts);
    if experts % 17 != 0 && topK == 1 { OneChoice(experts); }
    DistinctExactly(seed, 0, token, experts, topK, 0);
  }

  lemma OneChoice(experts: U32)
    requires experts > 0
    ensures AcrossApart(experts, 1)
  {
  }

  /** Exactly which counts never repeat an expert, whatever the seed, layer, token and
      reuse: multiples of 17 of which at most a seventeenth are asked for, and other
      counts that divide no distance across the wrap-around. */
  lemma NeverRepeatsExactly(experts: U32, topK: U32)
    requires 0 < topK <= experts && 17 * topK <= U32_LIMIT
    ensures (forall seed: U32, layer: U32, token: U32, percent: U32 ::
              Distinct(seed, layer, token, experts, topK, percent)) <==>
            if experts % 17 == 0 then topK <= experts / 17 else AcrossApart(experts, topK)
  {
    hide Start, Distinct, AcrossApart;
    if if experts % 17 == 0 then topK <= experts / 17 else AcrossApart(experts, topK) {
      forall seed: U32, layer: U32, token: U32, percent: U32
        ensures Distinct(seed, layer, token, experts, topK, percent)
      {
        DistinctExactly(seed, layer, token, experts, topK, percent);
      }
    } else {
      var seed, token := SomeSeedRepeats(experts, topK);
      assert !Distinct(seed, 0, token, experts, topK, 0);
    }
  }

  // ----- inputs that repeat an expert -----

  /** 17 experts: the first two choices of layer 0 and token 0 are the same. */
  lemma SeventeenRepeats(seed: U32, percent: U32)
    ensures Expert(seed, 0, 0, 0, 17, percent) == Expert(seed, 0, 0, 1, 17, percent)
  {
    hide First, Lcg;
  }

  lemma StartsThere(seed: U32)
    ensures U32_LIMIT - 20 <= Start(seed, 0, 692736660, 3, 0) <= U32_LIMIT - 18
  {
    hide First, TokenTerm;
    AlwaysFresh(seed, 0, 692736660);
  }

  lemma ThreeSteps(start: U32)
    requires U32_LIMIT - 20 <= start <= U32_LIMIT - 18
    ensures Wrap(start + 17 * 0) % 3 == Wrap(start + 17 * 2) % 3
  {
    assert Wrap(start + 34) == start + 34 - U32_LIMIT;
  }

  /** Three experts: with this token the sum wraps between the first and the third
      choice, and they are the same. */
  lemma WrapRepeats(seed: U32)
    ensures Expert(seed, 0, 692736660, 0, 3, 0) == Expert(seed, 0, 692736660, 2, 3, 0)
  {
    hide First, TokenTerm, Rest, Expert, Wrap;
    StartsThere(seed);
    var c := Start(seed, 0, 692736660, 3, 0);
    ExpertAt(seed, 0, 692736660, 0, 3, 0);
    ExpertAt(seed, 0, 692736660, 2, 3, 0);
    ThreeSteps(c);
  }
}
