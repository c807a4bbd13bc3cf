/** scripts/make_synthetic_gguf.py:21-66 and 143-160: the file as sequential writes. */
module GgufWriter {
  import opened Words
  import opened LittleEndian
  import opened Layouts
  import opened GgufFormat

  function Zeros(n: nat): seq<Byte> { seq(n, _ => 0) }

  /** (-pos) % 32. */
  function Padding(pos: nat): nat { (32 - pos % 32) % 32 }

  /** The whole file: the data starts at the next multiple of 32. */
  function Written(ms: seq<Meta>, ts: seq<Tensor>, data: seq<Byte>): seq<Byte> {
    var prefix := Flat(Prefix(ms, ts));
    prefix + Zeros(Padding(|prefix|)) + data
  }

  /** Writing `b` after `a` is writing both. */
  lemma Join(out: seq<Byte>, a: Layout, b: Layout)
    ensures out + Flat(a) + Flat(b) == out + Flat(Then(a, b))
  {
  }

  // ----- every number written below this size fits its field -----

  lemma {:induction false} StrsSmall(ts: seq<Str>, n: nat)
    requires n <= |ts| && Size(EncStrs(ts, n)) < U64_LIMIT
    ensures n < U64_LIMIT && forall i :: 0 <= i < n ==> |ts[i]| < U64_LIMIT
  {
    if n > 0 {
      StrShape(ts[n - 1]);
      StrsSmall(ts, n - 1);
      StrsFit(ts, n);
    }
  }

  lemma {:induction false} MetaSmall(ms: seq<Meta>, i: nat, n: nat)
    requires i < n <= |ms| && Size(EncMetas(ms, n)) < U64_LIMIT
    ensures |ms[i].key| < U64_LIMIT && Size(EncValue(ms[i])) < U64_LIMIT
  {
    if i == n - 1 {
      NamedShape(ms[i].key, TypeOf(ms[i]));
    } else {
      MetaSmall(ms, i, n - 1);
    }
  }

  lemma {:induction false} TensorSmall(ts: seq<Tensor>, i: nat, n: nat)
    requires i < n <= |ts| && Size(EncTensors(ts, n)) < U64_LIMIT
    ensures |ts[i].name| < U64_LIMIT
  {
    if i == n - 1 {
      NamedShape(ts[i].name, |ts[i].dims|);
    } else {
      TensorSmall(ts, i, n - 1);
    }
  }

  lemma CountsSmall(ms: seq<Meta>, ts: seq<Tensor>)
    requires Size(Prefix(ms, ts)) < U64_LIMIT && Ranked(ts, U32_LIMIT - 1)
    ensures |ms| < U64_LIMIT && |ts| < U64_LIMIT
    ensures Size(EncMetas(ms, |ms|)) < U64_LIMIT && Size(EncTensors(ts, |ts|)) < U64_LIMIT
  {
    PrefixShape(ms, ts);
    MetasFit(ms, |ms|);
    TensorsFit(ts, |ts|);
  }

  /** The open output file. struct.pack refuses a number that does not fit its
      field; the preconditions are what it accepts. */
  class Writer {
    var out: seq<Byte>

    constructor ()
      ensures out == []
    {
      out := [];
    }

    method Write(bytes: seq<Byte>)
      modifies this
      ensures out == old(out) + bytes
    {
      out := out + bytes;
    }

    method Pack(n: nat, width: nat)
      requires n < Limit(width)
      modifies this
      ensures out == old(out) + Flat(Num(n, width))
    {
      Write(Le(n, width));
    }

    /** Two numbers packed by one format string. */
    method PackPair(a: nat, aWidth: nat, b: nat, bWidth: nat)
      requires a < Limit(aWidth) && b < Limit(bWidth)
      modifies this
      ensures out == old(out) + Flat(Then(Num(a, aWidth), Num(b, bWidth)))
    {
      Pack(a, aWidth);
      Pack(b, bWidth);
      Join(old(out), Num(a, aWidth), Num(b, bWidth));
    }

    method Wstr(b: Str)
      requires |b| < U64_LIMIT
      modifies this
      ensures out == old(out) + Flat(EncStr(b))
    {
      Limits();
      Pack(|b|, 8);
      Write(b);
      Join(old(out), Num(|b|, 8), Raw(b));
    }

    /** A name and the 32-bit number after it. */
    method Named(name: Str, n: U32)
      requires |name| < U64_LIMIT
      modifies this
      ensures out == old(out) + Flat(EncNamed(name, n))
    {
      Limits();
      Wstr(name);
      Pack(n, 4);
      Join(old(out), EncStr(name), Num(n, 4));
    }

    method Strs(texts: seq<Str>)
      requires forall i :: 0 <= i < |texts| ==> |texts[i]| < U64_LIMIT
      modifies this
      ensures out == old(out) + Flat(EncStrs(texts, |texts|))
    {
      for i := 0 to |texts|
        invariant out == old(out) + Flat(EncStrs(texts, i))
      {
        Wstr(texts[i]);
        Join(old(out), EncStrs(texts, i), EncStr(texts[i]));
      }
    }

    method Ints(ints: seq<I32>)
      modifies this
      ensures out == old(out) + Flat(EncInts(ints, |ints|))
    {
      Limits();
      for i := 0 to |ints|
        invariant out == old(out) + Flat(EncInts(ints, i))
      {
        Pack(Bits32(ints[i]), 4);
        Join(old(out), EncInts(ints, i), Num(Bits32(ints[i]), 4));
      }
    }

    method Value(m: Meta)
      requires Size(EncValue(m)) < U64_LIMIT
      modifies this
      ensures out == old(out) + Flat(EncValue(m))
    {
      Limits();
      match m
      case MetaU32(_, value) => Pack(value, 4);
      case MetaStr(_, text) =>
        StrShape(text);
        Wstr(text);
      case MetaStrArray(_, texts) =>
        ArrayShape(GGUF_STRING, |texts|, EncStrs(texts, |texts|));
        StrsSmall(texts, |texts|);
        PackPair(GGUF_STRING, 4, |texts|, 8);
        Strs(texts);
        Join(old(out), Then(Num(GGUF_STRING, 4), Num(|texts|, 8)), EncStrs(texts, |texts|));
      case MetaI32Array(_, ints) =>
        ArrayShape(GGUF_INT32, |ints|, EncInts(ints, |ints|));
        IntsFit(ints, |ints|);
        PackPair(GGUF_INT32, 4, |ints|, 8);
        Ints(ints);
        Join(old(out), Then(Num(GGUF_INT32, 4), Num(|ints|, 8)), EncInts(ints, |ints|));
      case MetaBool(_, flag) => Pack(if flag then 1 else 0, 1);
    }

    /** meta_u32, meta_str, meta_str_array, meta_i32_array and meta_bool. */
    method Pair(m: Meta)
      requires |m.key| < U64_LIMIT && Size(EncValue(m)) < U64_LIMIT
      modifies this
      ensures out == old(out) + Flat(EncMeta(m))
    {
      Named(m.key, TypeOf(m));
      Value(m);
      Join(old(out), EncNamed(m.key, TypeOf(m)), EncValue(m));
    }

    method Dims(ds: seq<U64>)
      modifies this
      ensures out == old(out) + Flat(EncDims(ds, |ds|))
    {
      Limits();
      for i := 0 to |ds|
        invariant out == old(out) + Flat(EncDims(ds, i))
      {
        Pack(ds[i], 8);
        Join(old(out), EncDims(ds, i), Num(ds[i], 8));
      }
    }

    /** tensor. */
    method Record(t: Tensor)
      requires |t.name| < U64_LIMIT && |t.dims| < U32_LIMIT
      modifies this
      ensures out == old(out) + Flat(EncTensor(t))
    {
      Limits();
      Named(t.name, |t.dims|);
      ghost var named := out;
      Dims(t.dims);
      PackPair(t.typ, 4, t.offset, 8);
      Join(named, EncDims(t.dims, |t.dims|), Then(Num(t.typ, 4), Num(t.offset, 8)));
      Join(old(out), EncNamed(t.name, |t.dims|), EncTail(t));
    }

    method Header(tensors: U64, metas: U64)
      modifies this
      ensures out == old(out) + Flat(EncHeader(tensors, metas))
    {
      Limits();
      Write(MAGIC);
      Pack(3, 4);
      Join(old(out), Raw(MAGIC), Num(3, 4));
      PackPair(tensors, 8, metas, 8);
      Join(old(out), Then(Raw(MAGIC), Num(3, 4)), Then(Num(tensors, 8), Num(metas, 8)));
    }

    /** Lines 146-156, after the header. */
    method Pairs(ms: seq<Meta>)
      requires Size(EncMetas(ms, |ms|)) < U64_LIMIT
      modifies this
      ensures out == old(out) + Flat(EncMetas(ms, |ms|))
    {
      hide EncMeta, EncValue;
      for i := 0 to |ms|
        invariant out == old(out) + Flat(EncMetas(ms, i))
      {
        MetaSmall(ms, i, |ms|);
        Pair(ms[i]);
        Join(old(out), EncMetas(ms, i), EncMeta(ms[i]));
      }
    }

    /** Lines 157-158. */
    method Records(ts: seq<Tensor>)
      requires Size(EncTensors(ts, |ts|)) < U64_LIMIT && Ranked(ts, U32_LIMIT - 1)
      modifies this
      ensures out == old(out) + Flat(EncTensors(ts, |ts|))
    {
      hide EncTensor;
      for i := 0 to |ts|
        invariant out == old(out) + Flat(EncTensors(ts, i))
      {
        TensorSmall(ts, i, |ts|);
        Record(ts[i]);
        Join(old(out), EncTensors(ts, i), EncTensor(ts[i]));
      }
    }

    /** Lines 144-160: header, pairs, records, padding, data. */
    method File(ms: seq<Meta>, ts: seq<Tensor>, data: seq<Byte>)
      requires out == [] && Size(Prefix(ms, ts)) < U64_LIMIT && Ranked(ts, U32_LIMIT - 1)
      modifies this
      ensures out == Written(ms, ts, data)
    {
      hide EncMetas, EncTensors, EncHeader, Padding, Zeros, Ranked;
      CountsSmall(ms, ts);
      var head := EncHeader(|ts|, |ms|);
      Header(|ts|, |ms|);
      Pairs(ms);
      Join([], head, EncMetas(ms, |ms|));
      Records(ts);
      Join([], Then(head, EncMetas(ms, |ms|)), EncTensors(ts, |ts|));
      assert out == Flat(Prefix(ms, ts));
      Write(Zeros(Padding(|out|)));
      Write(data);
    }
  }
}
