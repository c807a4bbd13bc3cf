/** The bytes scripts/make_synthetic_gguf.py writes: the header, metadata and
    tensor records of a GGUF file (GGUF specification, section "File Structure"). */
module GgufFormat {
  import opened Words
  import opened LittleEndian
  import opened Layouts

  const GGUF_UINT8: U32 := 0
  const GGUF_INT8: U32 := 1
  const GGUF_UINT16: U32 := 2
  const GGUF_INT16: U32 := 3
  const GGUF_UINT32: U32 := 4
  const GGUF_INT32: U32 := 5
  const GGUF_FLOAT32: U32 := 6
  const GGUF_BOOL: U32 := 7
  const GGUF_STRING: U32 := 8
  const GGUF_ARRAY: U32 := 9
  const GGUF_UINT64: U32 := 10
  const GGUF_INT64: U32 := 11
  const GGUF_FLOAT64: U32 := 12

  const MAGIC: seq<Byte> := [0x47, 0x47, 0x55, 0x46]

  type I32 = n: int | -0x8000_0000 <= n < 0x8000_0000

  /** Two's complement of a 32-bit value. */
  function Bits32(n: I32): U32 { if n < 0 then n + U32_LIMIT else n }

  // ----- records -----

  /** Strings are held as the UTF-8 bytes that get stored. */
  datatype Meta =
    | MetaU32(key: Str, value: U32)
    | MetaStr(key: Str, text: Str)
    | MetaStrArray(key: Str, texts: seq<Str>)
    | MetaI32Array(key: Str, ints: seq<I32>)
    | MetaBool(key: Str, flag: bool)

  datatype Tensor = Tensor(name: Str, dims: seq<U64>, typ: U32, offset: U64)

  /** wstr: the length, then the bytes. */
  function EncStr(b: Str): Layout { Then(Num(|b|, 8), Raw(b)) }

  /** The first `n` strings; likewise below. */
  function EncStrs(ts: seq<Str>, n: nat): Layout
    requires n <= |ts|
  {
    if n == 0 then Nothing else Then(EncStrs(ts, n - 1), EncStr(ts[n - 1]))
  }

  function EncInts(ns: seq<I32>, n: nat): Layout
    requires n <= |ns|
  {
    if n == 0 then Nothing else Then(EncInts(ns, n - 1), Num(Bits32(ns[n - 1]), 4))
  }

  function TypeOf(m: Meta): U32 {
    match m
    case MetaU32(_, _) => GGUF_UINT32
    case MetaStr(_, _) => GGUF_STRING
    case MetaStrArray(_, _) => GGUF_ARRAY
    case MetaI32Array(_, _) => GGUF_ARRAY
    case MetaBool(_, _) => GGUF_BOOL
  }

  function EncArray(elem: U32, count: nat, body: Layout): Layout { Then(Then(Num(elem, 4), Num(count, 8)), body) }

  function EncValue(m: Meta): Layout {
    match m
    case MetaU32(_, value) => Num(value, 4)
    case MetaStr(_, text) => EncStr(text)
    case MetaStrArray(_, texts) => EncArray(GGUF_STRING, |texts|, EncStrs(texts, |texts|))
    case MetaI32Array(_, ints) => EncArray(GGUF_INT32, |ints|, EncInts(ints, |ints|))
    case MetaBool(_, flag) => Num(if flag then 1 else 0, 1)
  }

  /** A name and a 32-bit number, as every record begins. */
  function EncNamed(name: Str, n: nat): Layout { Then(EncStr(name), Num(n, 4)) }

  function EncMeta(m: Meta): Layout { Then(EncNamed(m.key, TypeOf(m)), EncValue(m)) }

  function EncMetas(ms: seq<Meta>, n: nat): Layout
    requires n <= |ms|
  {
    if n == 0 then Nothing else Then(EncMetas(ms, n - 1), EncMeta(ms[n - 1]))
  }

  function EncDims(ds: seq<U64>, n: nat): Layout
    requires n <= |ds|
  {
    if n == 0 then Nothing else Then(EncDims(ds, n - 1), Num(ds[n - 1], 8))
  }

  function EncTail(t: Tensor): Layout { Then(EncDims(t.dims, |t.dims|), Then(Num(t.typ, 4), Num(t.offset, 8))) }

  function EncTensor(t: Tensor): Layout { Then(EncNamed(t.name, |t.dims|), EncTail(t)) }

  function EncTensors(ts: seq<Tensor>, n: nat): Layout
    requires n <= |ts|
  {
    if n == 0 then Nothing else Then(EncTensors(ts, n - 1), EncTensor(ts[n - 1]))
  }

  /** b"GGUF", version 3, the two counts. */
  function EncHeader(tensors: nat, metas: nat): Layout {
    Then(Then(Raw(MAGIC), Num(3, 4)), Then(Num(tensors, 8), Num(metas, 8)))
  }

  /** Everything before the padding. */
  function Prefix(ms: seq<Meta>, ts: seq<Tensor>): Layout {
    Then(Then(EncHeader(|ts|, |ms|), EncMetas(ms, |ms|)), EncTensors(ts, |ts|))
  }

  // ----- sizes, and what each record needs to fit its fields -----

  lemma StrShape(b: Str)
    ensures Size(EncStr(b)) == 8 + |b| && (Fits(EncStr(b)) <==> |b| < Limit(8))
  {
  }

  lemma NamedShape(name: Str, n: nat)
    ensures Size(EncNamed(name, n)) == 12 + |name|
    ensures Fits(EncNamed(name, n)) <==> |name| < Limit(8) && n < Limit(4)
  {
    hide Limit;
    StrShape(name);
    assert Fits(Num(n, 4)) <==> n < Limit(4);
  }

  lemma NamedIsAt(file: seq<Byte>, pos: nat, name: Str, n: nat)
    requires At(file, pos, EncNamed(name, n))
    ensures var at := pos + 8 + |name|;
            At(file, pos, EncStr(name)) && at + 4 <= |file| && LeAt(file, at, 4) == n
  {
    StrShape(name);
    assert At(file, pos + 8 + |name|, Num(n, 4));
  }

  lemma ArrayShape(elem: U32, count: nat, body: Layout)
    ensures Size(EncArray(elem, count, body)) == 12 + Size(body)
    ensures Fits(EncArray(elem, count, body)) <==> elem < Limit(4) && count < Limit(8) && Fits(body)
  {
    hide Limit;
    PairShape(elem, 4, count, 8);
  }

  lemma ArrayIsAt(file: seq<Byte>, pos: nat, elem: U32, count: nat, body: Layout)
    requires At(file, pos, EncArray(elem, count, body))
    ensures pos + 12 <= |file| && LeAt(file, pos, 4) == elem && LeAt(file, pos + 4, 8) == count
    ensures At(file, pos + 12, body)
  {
    var head := Then(Num(elem, 4), Num(count, 8));
    assert At(file, pos, head) && Size(head) == 12;
    assert At(file, pos, Num(elem, 4)) && At(file, pos + 4, Num(count, 8));
  }

  lemma HeaderShape(tensors: nat, metas: nat)
    ensures Size(EncHeader(tensors, metas)) == 24
    ensures Fits(EncHeader(tensors, metas)) <==> tensors < Limit(8) && metas < Limit(8)
  {
    hide Limit;
    Limits();
    assert |MAGIC| == 4;
    var head := Then(Raw(MAGIC), Num(3, 4));
    assert Size(head) == 8 && (Fits(head) <==> 3 < Limit(4));
    PairShape(tensors, 8, metas, 8);
  }

  lemma HeaderIsAt(file: seq<Byte>, tensors: nat, metas: nat)
    requires At(file, 0, EncHeader(tensors, metas))
    ensures 24 <= |file| && Holds(file, 0, MAGIC) && LeAt(file, 4, 4) == 3
    ensures LeAt(file, 8, 8) == tensors && LeAt(file, 16, 8) == metas
  {
    var head, counts := Then(Raw(MAGIC), Num(3, 4)), Then(Num(tensors, 8), Num(metas, 8));
    assert |MAGIC| == 4;
    assert Size(head) == Size(Raw(MAGIC)) + 4 == 8;
    assert At(file, 0, head) && At(file, 8, counts);
    assert At(file, 0, Raw(MAGIC)) && At(file, 4, Num(3, 4)) && At(file, 8, Num(tensors, 8));
    assert At(file, 16, Num(metas, 8));
  }

  // ----- in a file shorter than 2^64 bytes every length fits its field -----

  lemma {:induction false} StrsFit(ts: seq<Str>, n: nat)
    requires n <= |ts| && Size(EncStrs(ts, n)) < U64_LIMIT
    ensures Fits(EncStrs(ts, n)) && 8 * n <= Size(EncStrs(ts, n))
  {
    if n > 0 {
      Limits();
      StrShape(ts[n - 1]);
      StrsFit(ts, n - 1);
    }
  }

  lemma {:induction false} IntsFit(ns: seq<I32>, n: nat)
    requires n <= |ns|
    ensures Fits(EncInts(ns, n)) && Size(EncInts(ns, n)) == 4 * n
  {
    if n > 0 {
      Limits();
      IntsFit(ns, n - 1);
    }
  }

  lemma {:induction false} DimsFit(ds: seq<U64>, n: nat)
    requires n <= |ds|
    ensures Fits(EncDims(ds, n)) && Size(EncDims(ds, n)) == 8 * n
  {
    if n > 0 {
      Limits();
      DimsFit(ds, n - 1);
    }
  }

  lemma ValueFits(m: Meta)
    requires Size(EncValue(m)) < U64_LIMIT
    ensures Fits(EncValue(m))
  {
    Limits();
    match m
    case MetaStr(_, text) => StrShape(text);
    case MetaStrArray(_, texts) =>
      ArrayShape(GGUF_STRING, |texts|, EncStrs(texts, |texts|));
      StrsFit(texts, |texts|);
    case MetaI32Array(_, ints) =>
      ArrayShape(GGUF_INT32, |ints|, EncInts(ints, |ints|));
      IntsFit(ints, |ints|);
    case _ =>
  }

  lemma {:induction false} MetasFit(ms: seq<Meta>, n: nat)
    requires n <= |ms| && Size(EncMetas(ms, n)) < U64_LIMIT
    ensures Fits(EncMetas(ms, n)) && n <= Size(EncMetas(ms, n))
  {
    if n > 0 {
      Limits();
      NamedShape(ms[n - 1].key, TypeOf(ms[n - 1]));
      ValueFits(ms[n - 1]);
      MetasFit(ms, n - 1);
    }
  }

  lemma TailShape(t: Tensor)
    ensures Size(EncTail(t)) == 8 * |t.dims| + 12 && Fits(EncTail(t))
  {
    hide Limit;
    Limits();
    DimsFit(t.dims, |t.dims|);
    PairShape(t.typ, 4, t.offset, 8);
  }

  lemma TailIsAt(file: seq<Byte>, pos: nat, t: Tensor)
    requires At(file, pos, EncTail(t))
    ensures var at := pos + 8 * |t.dims|;
            At(file, pos, EncDims(t.dims, |t.dims|)) && at + 12 <= |file| &&
            LeAt(file, at, 4) == t.typ && LeAt(file, at + 4, 8) == t.offset
  {
    DimsFit(t.dims, |t.dims|);
    var at := pos + 8 * |t.dims|;
    assert At(file, at, Then(Num(t.typ, 4), Num(t.offset, 8)));
    assert At(file, at, Num(t.typ, 4)) && At(file, at + 4, Num(t.offset, 8));
  }

  /** The rank field has 32 bits. */
  ghost predicate Ranked(ts: seq<Tensor>, rank: nat) {
    forall j :: 0 <= j < |ts| ==> |ts[j].dims| <= rank
  }

  lemma {:induction false} TensorsFit(ts: seq<Tensor>, n: nat)
    requires n <= |ts| && Size(EncTensors(ts, n)) < U64_LIMIT && Ranked(ts, U32_LIMIT - 1)
    ensures Fits(EncTensors(ts, n)) && n <= Size(EncTensors(ts, n))
  {
    if n > 0 {
      Limits();
      NamedShape(ts[n - 1].name, |ts[n - 1].dims|);
      TailShape(ts[n - 1]);
      TensorsFit(ts, n - 1);
    }
  }

  lemma PrefixShape(ms: seq<Meta>, ts: seq<Tensor>)
    ensures Size(Prefix(ms, ts)) == 24 + Size(EncMetas(ms, |ms|)) + Size(EncTensors(ts, |ts|))
    ensures Fits(Prefix(ms, ts)) <==>
      |ts| < Limit(8) && |ms| < Limit(8) && Fits(EncMetas(ms, |ms|)) && Fits(EncTensors(ts, |ts|))
  {
    HeaderShape(|ts|, |ms|);
    var front := Then(EncHeader(|ts|, |ms|), EncMetas(ms, |ms|));
    assert Size(front) == 24 + Size(EncMetas(ms, |ms|));
    assert Fits(front) <==> Fits(EncHeader(|ts|, |ms|)) && Fits(EncMetas(ms, |ms|));
  }

  lemma PrefixIsAt(file: seq<Byte>, ms: seq<Meta>, ts: seq<Tensor>)
    requires At(file, 0, Prefix(ms, ts))
    ensures At(file, 0, EncHeader(|ts|, |ms|)) && At(file, 24, EncMetas(ms, |ms|))
    ensures At(file, 24 + Size(EncMetas(ms, |ms|)), EncTensors(ts, |ts|))
  {
    HeaderShape(|ts|, |ms|);
    assert At(file, 0, Then(EncHeader(|ts|, |ms|), EncMetas(ms, |ms|)));
  }

  /** The parts of a written file are where the layout says. */
  lemma PrefixStarts(ms: seq<Meta>, ts: seq<Tensor>, tail: seq<Byte>)
    requires Size(Prefix(ms, ts)) < U64_LIMIT && Ranked(ts, U32_LIMIT - 1)
    ensures At(Flat(Prefix(ms, ts)) + tail, 0, Prefix(ms, ts))
  {
    PrefixShape(ms, ts);
    Limits();
    MetasFit(ms, |ms|);
    TensorsFit(ts, |ts|);
    StartsWith(Prefix(ms, ts), tail);
  }
}
