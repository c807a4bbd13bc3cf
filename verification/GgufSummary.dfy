/** What src/qx_gguf.c:144-238 and 316-335 read off the file: the summary and the
    tensor records. */
module GgufSummary {
  import opened Words
  import opened LittleEndian
  import opened Layouts
  import opened GgufFormat
  import opened GgufWalk

  datatype Result<+T> = Ok(value: T) | Err(error: GgufError)

  const ALIGNMENT: seq<Byte> := Ascii("general.alignment")
  const QWEN3: seq<Byte> := Ascii("qwen3.")
  const QWEN3MOE: seq<Byte> := Ascii("qwen3moe.")
  const COUNT_KEYS: set<seq<Byte>> :=
    {Ascii("block_count"), Ascii("expert_count"), Ascii("expert_used_count"), Ascii("embedding_length"),
     Ascii("feed_forward_length"), Ascii("attention.head_count"), Ascii("attention.head_count_kv")}

  /** The fields the metadata loop fills; `counts` holds the qwen3 fields by their
      key suffix, and a field that is not there is 0. */
  datatype Summary = Summary(alignment: nat, architecture: seq<Byte>, name: seq<Byte>, counts: map<seq<Byte>, nat>)

  const EMPTY: Summary := Summary(32, [], [], map[])

  predicate HasPrefix(key: seq<Byte>, prefix: seq<Byte>) { |prefix| <= |key| && key[..|prefix|] == prefix }

  function Cut(b: seq<Byte>, n: nat): seq<Byte> { if |b| <= n then b else b[..n] }

  /** apply_u64_meta. */
  function ApplyNumber(s: Summary, key: seq<Byte>, value: nat): Summary {
    if key == ALIGNMENT then s.(alignment := value % U32_LIMIT)
    else if HasPrefix(key, QWEN3) || HasPrefix(key, QWEN3MOE) then
      var suffix := if HasPrefix(key, QWEN3) then key[|QWEN3|..] else key[|QWEN3MOE|..];
      if suffix in COUNT_KEYS then s.(counts := s.counts[suffix := value]) else s
    else s
  }

  /** apply_string_meta, after its read: the summary's buffers hold 63 and 127 bytes. */
  function ApplyText(s: Summary, key: seq<Byte>, text: seq<Byte>): Summary {
    if key == ARCHITECTURE then s.(architecture := Cut(CString(text), 63))
    else if key == NAME then s.(name := Cut(CString(text), 127))
    else s
  }

  /** The pair whose value starts at `at`, applied (lines 203-210). */
  function ApplyValue(s: Summary, file: seq<Byte>, at: nat, typ: nat, key: seq<Byte>): Summary
    requires AfterPairValue(file, at, typ, TextKey(key)).Pos?
  {
    if typ == GGUF_STRING && TextKey(key) then ApplyText(s, key, Kept(file, at, 160))
    else if Integral(typ) then ApplyNumber(s, key, SignExtend(typ, LeAt(file, at, ScalarSize(typ))))
    else s
  }

  function ApplyPair(s: Summary, file: seq<Byte>, pos: nat): Summary
    requires AfterPair(file, pos).Pos?
  {
    var at := AfterString(file, pos, NAME_MAX).at;
    ApplyValue(s, file, at + 4, LeAt(file, at, 4), KeyAt(file, pos))
  }

  /** The summary after `n` pairs. */
  function Summarise(file: seq<Byte>, pos: nat, n: nat): Summary
    requires AfterPairs(file, pos, n).Pos?
  {
    if n == 0 then EMPTY else ApplyPair(Summarise(file, pos, n - 1), file, AfterPairs(file, pos, n - 1).at)
  }

  /** The first `n` tensor records. */
  function Records(file: seq<Byte>, pos: nat, n: nat): (ts: seq<TensorInfo>)
    requires AfterTensors(file, pos, n).Pos?
    ensures |ts| == n
  {
    if n == 0 then [] else Records(file, pos, n - 1) + [TensorAt(file, AfterTensors(file, pos, n - 1).at)]
  }

  /** qx_align_u64. */
  function AlignUp(value: nat, alignment: nat): nat {
    if alignment == 0 || value % alignment == 0 then value else value + (alignment - value % alignment)
  }

  datatype Inspection = Inspection(version: nat, tensorCount: nat, kvCount: nat, summary: Summary,
                                   tensorInfoOffset: nat,
                                   dataOffset: nat, first: seq<TensorInfo>)

  /** The end of qx_gguf_inspect, once both tables are read. */
  function Finish(file: seq<Byte>, version: nat, tensors: nat, kvs: nat, info: nat, end: nat): Inspection
    requires AfterPairs(file, 24, kvs) == Pos(info) && AfterTensors(file, info, tensors) == Pos(end)
  {
    var s := Summarise(file, 24, kvs);
    var ts := Records(file, info, tensors);
    Inspection(version, tensors, kvs, s, info, AlignUp(end, if s.alignment > 0 then s.alignment else 32),
               ts[..if |ts| < 8 then |ts| else 8])
  }

  /** What follows the fixed header. */
  function InspectTables(file: seq<Byte>, version: nat, tensors: nat, kvs: nat): Result<Inspection> {
    match AfterPairs(file, 24, kvs)
    case Fail(e) => Err(e)
    case Pos(info) =>
      match AfterTensors(file, info, tensors)
      case Fail(e) => Err(e)
      case Pos(end) => Ok(Finish(file, version, tensors, kvs, info, end))
  }

  /** qx_gguf_inspect. */
  function Inspect(file: seq<Byte>): Result<Inspection> {
    if |file| < 4 || file[..4] != MAGIC then Err(BadMagic)
    else if |file| < 24 then Err(ShortHeader)
    else
      var version := LeAt(file, 4, 4);
      if version < 2 || version > 3 then Err(UnsupportedVersion)
      else InspectTables(file, version, LeAt(file, 8, 8), LeAt(file, 16, 8))
  }

  // ----- on a written file -----

  /** The key as the C code compares it: 159 bytes of it, up to a NUL. */
  function KeyOf(m: Meta): Str { CString(Cut(m.key, NAME_MAX - 1)) }

  /** What a pair contributes to the summary. */
  function ApplyMeta(s: Summary, m: Meta): Summary {
    match m
    case MetaU32(_, v) => ApplyNumber(s, KeyOf(m), v)
    case MetaStr(_, text) => if TextKey(KeyOf(m)) then ApplyText(s, KeyOf(m), Cut(text, 159)) else s
    case _ => s
  }

  /** The summary the first `n` pairs describe. */
  function Described(ms: seq<Meta>, n: nat): Summary
    requires n <= |ms|
  {
    if n == 0 then EMPTY else ApplyMeta(Described(ms, n - 1), ms[n - 1])
  }

  function InfoOf(t: Tensor): TensorInfo { TensorInfo(CString(Cut(t.name, NAME_MAX - 1)), t.dims, t.typ, t.offset) }

  function InfosOf(ts: seq<Tensor>, n: nat): (r: seq<TensorInfo>)
    requires n <= |ts|
    ensures |r| == n
  {
    if n == 0 then [] else InfosOf(ts, n - 1) + [InfoOf(ts[n - 1])]
  }

  lemma KeptAt(file: seq<Byte>, pos: nat, b: Str, cap: nat)
    requires At(file, pos, EncStr(b)) && |file| < I64_LIMIT && cap > 0
    ensures AfterString(file, pos, cap).Pos? && Kept(file, pos, cap) == Cut(b, cap - 1)
  {
    StringAt(file, pos, b, cap);
    assert At(file, pos, Num(|b|, 8)) && At(file, pos + 8, Raw(b));
    var keep := Keep(|b|, cap);
    forall i | 0 <= i < keep ensures file[pos + 8 + i] == b[i] {}
  }

  lemma NameAt(file: seq<Byte>, pos: nat, name: Str)
    requires At(file, pos, EncStr(name)) && |file| < I64_LIMIT
    ensures AfterString(file, pos, NAME_MAX).Pos? && KeyAt(file, pos) == CString(Cut(name, NAME_MAX - 1))
  {
    KeptAt(file, pos, name, NAME_MAX);
  }

  lemma ApplyValueAt(s: Summary, file: seq<Byte>, at: nat, m: Meta)
    requires At(file, at, EncValue(m)) && |file| < I64_LIMIT
    ensures AfterPairValue(file, at, TypeOf(m), TextKey(KeyOf(m))).Pos?
    ensures ApplyValue(s, file, at, TypeOf(m), KeyOf(m)) == ApplyMeta(s, m)
  {
    hide KeyOf, TextKey, ApplyText, ApplyNumber;
    ValueAt(file, at, m, TextKey(KeyOf(m)));
    if m.MetaStr? && TextKey(KeyOf(m)) { KeptAt(file, at, m.text, 160); }
  }

  lemma ApplyPairAt(s: Summary, file: seq<Byte>, pos: nat, m: Meta)
    requires At(file, pos, EncMeta(m)) && |file| < I64_LIMIT
    ensures AfterPair(file, pos).Pos? && ApplyPair(s, file, pos) == ApplyMeta(s, m)
  {
    hide AfterString, AfterPairValue, EncValue, ApplyMeta, ApplyValue, TextKey, Cut, CString, KeyAt;
    PairAt(file, pos, m);
    NamedShape(m.key, TypeOf(m));
    NamedIsAt(file, pos, m.key, TypeOf(m));
    StringAt(file, pos, m.key, NAME_MAX);
    NameAt(file, pos, m.key);
    ApplyValueAt(s, file, pos + 12 + |m.key|, m);
  }

  /** The metadata loop gathers what the pairs describe. */
  lemma {:induction false} SummariseAt(file: seq<Byte>, pos: nat, ms: seq<Meta>, n: nat)
    requires n <= |ms| && At(file, pos, EncMetas(ms, n)) && |file| < I64_LIMIT
    ensures AfterPairs(file, pos, n).Pos? && Summarise(file, pos, n) == Described(ms, n)
  {
    hide AfterPair, EncMeta, ApplyPair, ApplyMeta;
    PairsAt(file, pos, ms, n);
    if n > 0 {
      PairsAt(file, pos, ms, n - 1);
      SummariseAt(file, pos, ms, n - 1);
      ApplyPairAt(Described(ms, n - 1), file, pos + Size(EncMetas(ms, n - 1)), ms[n - 1]);
    }
  }

  lemma LastDim(file: seq<Byte>, pos: nat, ds: seq<U64>, n: nat)
    requires 0 < n <= |ds| && At(file, pos, EncDims(ds, n))
    ensures At(file, pos, EncDims(ds, n - 1)) && pos + 8 * n <= |file| && LeAt(file, pos + 8 * (n - 1), 8) == ds[n - 1]
  {
    hide LeAt;
    DimsFit(ds, n - 1);
    assert EncDims(ds, n) == Then(EncDims(ds, n - 1), Num(ds[n - 1], 8));
  }

  lemma {:induction false} DimsRead(file: seq<Byte>, pos: nat, ds: seq<U64>, n: nat)
    requires n <= |ds| && At(file, pos, EncDims(ds, n))
    ensures pos + 8 * n <= |file| && forall d :: 0 <= d < n ==> LeAt(file, pos + 8 * d, 8) == ds[d]
  {
    hide LeAt;
    if n > 0 {
      hide At, EncDims;
      LastDim(file, pos, ds, n);
      DimsRead(file, pos, ds, n - 1);
    }
  }

  lemma DimsAre(file: seq<Byte>, pos: nat, ds: seq<U64>)
    requires At(file, pos, EncDims(ds, |ds|))
    ensures pos + 8 * |ds| <= |file| && DimsAt(file, pos, |ds|) == ds
  {
    hide LeAt;
    DimsRead(file, pos, ds, |ds|);
  }

  /** Where the fields of a tensor record are. */
  lemma TensorFields(file: seq<Byte>, pos: nat, t: Tensor)
    requires At(file, pos, EncTensor(t)) && |file| < I64_LIMIT
    ensures var at := pos + 8 + |t.name|; var tail := at + 4 + 8 * |t.dims|;
            AfterString(file, pos, NAME_MAX) == Pos(at) && KeyAt(file, pos) == CString(Cut(t.name, NAME_MAX - 1)) &&
            tail + 12 <= |file| && LeAt(file, at, 4) == |t.dims| && DimsAt(file, at + 4, |t.dims|) == t.dims &&
            LeAt(file, tail, 4) == t.typ && LeAt(file, tail + 4, 8) == t.offset
  {
    hide AfterString, KeyAt, CString, Cut, EncTail, LeAt, DimsAt;
    NamedShape(t.name, |t.dims|);
    NamedIsAt(file, pos, t.name, |t.dims|);
    StringAt(file, pos, t.name, NAME_MAX);
    NameAt(file, pos, t.name);
    TailIsAt(file, pos + 12 + |t.name|, t);
    DimsAre(file, pos + 12 + |t.name|, t.dims);
  }

  lemma TensorRead(file: seq<Byte>, pos: nat, t: Tensor)
    requires At(file, pos, EncTensor(t)) && |file| < I64_LIMIT && |t.dims| <= MAX_DIMS
    ensures AfterTensor(file, pos).Pos? && TensorAt(file, pos) == InfoOf(t)
  {
    hide AfterString, KeyAt, CString, Cut, EncTensor, LeAt, DimsAt;
    TensorWalk(file, pos, t);
    TensorFields(file, pos, t);
  }

  /** The tensor loop gathers the written records, names cut to the buffer. */
  lemma {:induction false} RecordsAt(file: seq<Byte>, pos: nat, ts: seq<Tensor>, n: nat)
    requires n <= |ts| && At(file, pos, EncTensors(ts, n)) && |file| < I64_LIMIT && Ranked(ts, MAX_DIMS)
    ensures AfterTensors(file, pos, n).Pos? && Records(file, pos, n) == InfosOf(ts, n)
  {
    hide AfterTensor, EncTensor, TensorAt, InfoOf;
    TensorsAt(file, pos, ts, n);
    if n > 0 {
      TensorsAt(file, pos, ts, n - 1);
      RecordsAt(file, pos, ts, n - 1);
      TensorRead(file, pos + Size(EncTensors(ts, n - 1)), ts[n - 1]);
    }
  }
}
