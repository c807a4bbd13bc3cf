/** The synthetic route trace of src/qx_qxf_main.c:79-121, in 32-bit arithmetic. */
module RouteTrace {
  import opened Words
  import opened Bits
  import Division

  function Wrap(n: nat): U32 { n % U32_LIMIT }

  /** qx_lcg_next. */
  function Lcg(state: U32): U32 { Wrap(Wrap(state * 1664525) + 1013904223) }

  function Reuse(percent: U32): U32 { if percent > 100 then 100 else percent }

  /** The generator's state before its first draw (lines 86-88). */
  function Mixed(seed: U32, layer: U32, token: U32, percent: U32): nat {
    var state := Xor(if seed != 0 then seed else 1, Wrap(layer * 747796405));
    if Reuse(percent) < 100 then Xor(state, Wrap(token * 2891336453)) else state
  }

  lemma WordBound()
    ensures Pow2(32) == U32_LIMIT
  {
    hide Pow2;
    PowZero();
    Pow2Byte(0);
    Pow2Byte(8);
    Pow2Byte(16);
    Pow2Byte(24);
  }

  lemma MixedIsWord(seed: U32, layer: U32, token: U32, percent: U32)
    ensures Mixed(seed, layer, token, percent) < U32_LIMIT
  {
    hide Xor, Pow2;
    WordBound();
    var state := Xor(if seed != 0 then seed else 1, Wrap(layer * 747796405));
    XorBound(if seed != 0 then seed else 1, Wrap(layer * 747796405), 32);
    XorBound(state, Wrap(token * 2891336453), 32);
  }

  function First(seed: U32, layer: U32, token: U32, percent: U32): U32 {
    MixedIsWord(seed, layer, token, percent);
    Lcg(Mixed(seed, layer, token, percent))
  }

  /** Lines 90 and 91: a second draw decides whether the token moves the choice. */
  function TokenTerm(seed: U32, layer: U32, token: U32, percent: U32): U32 {
    var draw := Lcg(First(seed, layer, token, percent)) * 100 / U32_LIMIT;
    if draw >= Reuse(percent) then Wrap(token * 31) else 0
  }

  /** qx_trace_expert; every sum and product is taken modulo 2^32. */
  function Expert(seed: U32, layer: U32, token: U32, k: U32, experts: U32, percent: U32): (e: U32)
    requires experts > 0
    ensures e < experts
  {
    var base := First(seed, layer, token, percent) % experts;
    Wrap(Wrap(Wrap(base + Wrap(k * 17)) + TokenTerm(seed, layer, token, percent)) + Wrap(layer * 7)) % experts
  }

  /** The part of the sum that does not depend on `k`. */
  function Rest(seed: U32, layer: U32, token: U32, experts: U32, percent: U32): nat
    requires experts > 0
  {
    First(seed, layer, token, percent) % experts + TokenTerm(seed, layer, token, percent) + layer * 7
  }

  lemma WrapLeft(a: nat, b: nat)
    ensures Wrap(Wrap(a) + b) == Wrap(a + b)
  {
  }

  /** One wrap at the end is as good as a wrap at every step. */
  lemma ExpertIs(seed: U32, layer: U32, token: U32, k: U32, experts: U32, percent: U32)
    requires experts > 0
    ensures Expert(seed, layer, token, k, experts, percent) ==
      Wrap(Rest(seed, layer, token, experts, percent) + 17 * k) % experts
  {
    hide First, TokenTerm, Wrap;
    var base, term := First(seed, layer, token, percent) % experts, TokenTerm(seed, layer, token, percent);
    WrapLeft(k * 17, base);
    WrapLeft(base + Wrap(k * 17), term);
    WrapLeft(k * 17, base + term);
    WrapLeft(base + Wrap(k * 17) + term, Wrap(layer * 7));
    WrapLeft(k * 17, base + term + Wrap(layer * 7));
    WrapLeft(layer * 7, base + term + k * 17);
  }

  /** The function as it runs: one state word, mixed and then advanced twice. */
  method TraceExpert(seed: U32, layer: U32, token: U32, k: U32, experts: U32, percent: U32) returns (e: U32)
    requires experts > 0
    ensures e == Expert(seed, layer, token, k, experts, percent)
  {
    hide Xor, Wrap, Lcg;
    MixedIsWord(seed, layer, token, percent);
    var reuse := if percent > 100 then 100 else percent;
    var state: nat := if seed != 0 then seed else 1;
    state := Xor(state, Wrap(layer * 747796405));
    if reuse < 100 { state := Xor(state, Wrap(token * 2891336453)); }
    state := Lcg(state);
    var base := state % experts;
    state := Lcg(state);
    var isFresh := state * 100 / U32_LIMIT >= reuse;
    var term := if isFresh then Wrap(token * 31) else 0;
    e := Wrap(Wrap(Wrap(base + Wrap(k * 17)) + term) + Wrap(layer * 7)) % experts;
  }

  // ----- reuse -----

  /** With a reuse of 100 or more the choice does not depend on the token. */
  lemma FullReuseIgnoresToken(seed: U32, layer: U32, token: U32, token2: U32, k: U32, experts: U32, percent: U32)
    requires experts > 0 && percent >= 100
    ensures Expert(seed, layer, token, k, experts, percent) == Expert(seed, layer, token2, k, experts, percent)
  {
    hide First, TokenTerm, Wrap;
    SameFirst(seed, layer, token, token2, percent);
    NeverFresh(seed, layer, token, percent);
    NeverFresh(seed, layer, token2, percent);
  }

  lemma SameFirst(seed: U32, layer: U32, token: U32, token2: U32, percent: U32)
    requires percent >= 100
    ensures First(seed, layer, token, percent) == First(seed, layer, token2, percent)
  {
    hide Xor, Lcg, Wrap;
  }

  lemma NeverFresh(seed: U32, layer: U32, token: U32, percent: U32)
    requires percent >= 100
    ensures TokenTerm(seed, layer, token, percent) == 0
  {
    hide First, Lcg;
    var draw := Lcg(First(seed, layer, token, percent));
    assert draw * 100 / U32_LIMIT < 100;
  }

  // ----- the trace -----

  datatype Kind = Gate | Up | Down

  datatype Item = Item(layer: U32, expert: U32, kind: Kind)

  datatype Config = Config(layers: U32, experts: U32, topK: U32, tokens: U32, seed: U32, percent: U32)

  predicate Runs(c: Config) {
    c.layers != 0 && c.experts != 0 && c.topK != 0 && c.topK <= c.experts && c.tokens != 0
  }

  /** The items of the first `n` choices of a layer and token. */
  function Choices(c: Config, token: U32, layer: U32, n: nat): (r: seq<Item>)
    requires Runs(c) && n <= c.topK
    ensures |r| == 3 * n
  {
    if n == 0 then [] else
      var e := Expert(c.seed, layer, token, n - 1, c.experts, c.percent);
      Choices(c, token, layer, n - 1) + [Item(layer, e, Gate), Item(layer, e, Up), Item(layer, e, Down)]
  }

  function Layers(c: Config, token: U32, n: nat): (r: seq<Item>)
    requires Runs(c) && n <= c.layers
    ensures |r| == n * (3 * c.topK)
  {
    if n == 0 then [] else Layers(c, token, n - 1) + Choices(c, token, n - 1, c.topK)
  }

  function Trace(c: Config, n: nat): (r: seq<Item>)
    requires Runs(c) && n <= c.tokens
    ensures |r| == n * (c.layers * (3 * c.topK))
  {
    if n == 0 then [] else Trace(c, n - 1) + Layers(c, n - 1, c.layers)
  }

  /** Line 97, in 64-bit arithmetic. */
  function Requests(c: Config): U64 {
    c.layers * c.tokens % U64_LIMIT * c.topK % U64_LIMIT * 3 % U64_LIMIT
  }

  /** The loops at lines 110 and 112. */
  method RouteLayer(c: Config, token: U32, layer: U32, before: seq<Item>) returns (out: seq<Item>)
    requires Runs(c)
    ensures out == before + Choices(c, token, layer, c.topK)
  {
    hide Expert;
    out := before;
    for k := 0 to c.topK
      invariant out == before + Choices(c, token, layer, k)
    {
      var e := TraceExpert(c.seed, layer, token, k, c.experts, c.percent);
      out := out + [Item(layer, e, Gate)];
      out := out + [Item(layer, e, Up)];
      out := out + [Item(layer, e, Down)];
    }
  }

  /** route_trace: None stands for its return value 0. */
  method Route(c: Config) returns (items: Option<seq<Item>>)
    ensures items == if Runs(c) then Some(Trace(c, c.tokens)) else None
  {
    hide Choices;
    if c.layers == 0 || c.experts == 0 || c.topK == 0 || c.topK > c.experts || c.tokens == 0 { return None; }
    var out: seq<Item> := [];
    for token := 0 to c.tokens
      invariant out == Trace(c, token)
    {
      for layer := 0 to c.layers
        invariant out == Trace(c, token) + Layers(c, token, layer)
      {
        out := RouteLayer(c, token, layer, out);
      }
    }
    items := Some(out);
  }

  lemma WrapProduct(a: nat, b: nat)
    ensures a % U64_LIMIT * b % U64_LIMIT == a * b % U64_LIMIT
  {
    var q := a / U64_LIMIT;
    assert a * b == a % U64_LIMIT * b + q * b * U64_LIMIT by {
      assert a == a % U64_LIMIT + q * U64_LIMIT;
      assert (a % U64_LIMIT + q * U64_LIMIT) * b == a % U64_LIMIT * b + q * b * U64_LIMIT;
    }
    Division.AddMultiple(a % U64_LIMIT * b, q * b, U64_LIMIT);
  }

  /** The announced request count is the number of items, modulo 2^64; so it is the
      number of items whenever that fits. */
  lemma RequestsAreItems(c: Config)
    requires Runs(c)
    ensures Requests(c) == |Trace(c, c.tokens)| % U64_LIMIT
  {
    hide Trace;
    var n, m := c.layers * c.tokens, c.layers * c.tokens * c.topK;
    WrapProduct(n, c.topK);
    WrapProduct(m, 3);
    assert c.tokens * (c.layers * (3 * c.topK)) == m * 3;
  }
}
