/** Where the C reader's file cursor goes: src/qx_gguf.c:46-238 as functions of
    the file's bytes and a position. A seek may leave the cursor past the end of
    the file; only the next read then fails. */
module GgufWalk {
  import opened Words
  import opened LittleEndian
  import opened Layouts
  import opened GgufFormat

  const I64_LIMIT: nat := 0x8000_0000_0000_0000
  const NAME_MAX: nat := 160
  const MAX_DIMS: nat := 4

  datatype GgufError =
    | ShortRead | BadMagic | ShortHeader | UnsupportedVersion | BadKv | BadStringMeta | UnsupportedValue
    | BadTensorInfo | RankTooHigh | BadDims | BadTail | DataPastEof | OutOfMemory | OffsetPastEof | NotMonotonic

  /** The cursor after a step, or the step's failure. */
  datatype Walk = Pos(at: nat) | Fail(error: GgufError)

  /** A failed step becomes the caller's own error. */
  function OrElse(w: Walk, e: GgufError): Walk { if w.Pos? then w else Fail(e) }

  /** fseek by a count that is cast to a signed 64-bit offset. */
  function SkipTo(pos: nat, n: nat): Walk {
    var step: int := if n < I64_LIMIT then n else n - U64_LIMIT;
    if 0 <= pos + step < I64_LIMIT then Pos(pos + step) else Fail(ShortRead)
  }

  /** How much of a string a buffer of `cap` bytes keeps before its NUL. */
  function Keep(len: nat, cap: nat): nat {
    if cap == 0 then 0 else if len < cap - 1 then len else cap - 1
  }

  /** Lines 81-88: past the bytes that follow a length. */
  function AfterText(file: seq<Byte>, at: nat, len: nat, cap: nat): Walk {
    var keep := Keep(len, cap);
    if keep > 0 && at + keep > |file| then Fail(ShortRead)
    else if cap > 0 && len <= keep then Pos(at + keep)
    else SkipTo(at + keep, len - keep)
  }

  /** read_string into a buffer of `cap` bytes (0 for none). */
  function AfterString(file: seq<Byte>, pos: nat, cap: nat): Walk {
    if pos + 8 > |file| then Fail(ShortRead) else AfterText(file, pos + 8, LeAt(file, pos, 8), cap)
  }

  /** The bytes read_string leaves in the buffer. */
  function Kept(file: seq<Byte>, pos: nat, cap: nat): seq<Byte>
    requires AfterString(file, pos, cap).Pos?
  {
    var keep := Keep(LeAt(file, pos, 8), cap);
    if keep == 0 then [] else file[pos + 8..pos + 8 + keep]
  }

  function ScalarSize(typ: nat): nat {
    if typ == GGUF_UINT8 || typ == GGUF_INT8 || typ == GGUF_BOOL then 1
    else if typ == GGUF_UINT16 || typ == GGUF_INT16 then 2
    else if typ == GGUF_UINT32 || typ == GGUF_INT32 || typ == GGUF_FLOAT32 then 4
    else if typ == GGUF_UINT64 || typ == GGUF_INT64 || typ == GGUF_FLOAT64 then 8
    else 0
  }

  /** The loop at line 116. */
  function AfterStrings(file: seq<Byte>, pos: nat, count: nat): Walk {
    if count == 0 then Pos(pos) else
      match AfterStrings(file, pos, count - 1)
      case Fail(e) => Fail(e)
      case Pos(at) => AfterString(file, at, 0)
  }

  /** The 64-bit product of line 121; the sizes are 1, 2, 4 and 8. */
  function ArrayBytes(size: nat, count: nat): nat {
    (if size == 1 then count else if size == 2 then 2 * count
     else if size == 4 then 4 * count else 8 * count) % U64_LIMIT
  }

  function AfterArray(file: seq<Byte>, pos: nat): Walk {
    if pos + 12 > |file| then Fail(ShortRead) else
      var elem, count := LeAt(file, pos, 4), LeAt(file, pos + 4, 8);
      if elem == GGUF_STRING then AfterStrings(file, pos + 12, count)
      else if ScalarSize(elem) == 0 then Fail(ShortRead)
      else SkipTo(pos + 12, ArrayBytes(ScalarSize(elem), count))
  }

  /** skip_value. */
  function AfterValue(file: seq<Byte>, pos: nat, typ: nat): Walk {
    if typ == GGUF_STRING then AfterString(file, pos, 0)
    else if typ == GGUF_ARRAY then AfterArray(file, pos)
    else if ScalarSize(typ) == 0 then Fail(ShortRead)
    else SkipTo(pos, ScalarSize(typ))
  }

  /** The integer types whose value read_u64_value returns. */
  predicate Integral(typ: nat) {
    typ == GGUF_UINT8 || typ == GGUF_INT8 || typ == GGUF_UINT16 || typ == GGUF_INT16 ||
    typ == GGUF_UINT32 || typ == GGUF_INT32 || typ == GGUF_UINT64 || typ == GGUF_INT64
  }

  /** read_u64_value: an integer is read, anything else is skipped. */
  function AfterNumber(file: seq<Byte>, pos: nat, typ: nat): Walk {
    if !Integral(typ) then AfterValue(file, pos, typ)
    else if pos + ScalarSize(typ) > |file| then Fail(ShortRead)
    else Pos(pos + ScalarSize(typ))
  }

  /** A signed value is converted to uint64_t by sign extension. */
  function SignExtend(typ: nat, v: nat): nat {
    if typ == GGUF_INT8 && v >= 0x80 then v + U64_LIMIT - 0x100
    else if typ == GGUF_INT16 && v >= 0x8000 then v + U64_LIMIT - 0x1_0000
    else if typ == GGUF_INT32 && v >= 0x8000_0000 then v + U64_LIMIT - U32_LIMIT
    else v
  }

  // ----- key-value pairs -----

  function Ascii(s: string): seq<Byte> { seq(|s|, i requires 0 <= i < |s| => s[i] as int % 256) }

  const ARCHITECTURE: seq<Byte> := Ascii("general.architecture")
  const NAME: seq<Byte> := Ascii("general.name")

  /** Index of the first NUL from the i-th byte on, or the length. */
  function FirstNul(b: seq<Byte>, i: nat): (n: nat)
    requires i <= |b|
    ensures i <= n <= |b|
    decreases |b| - i
  {
    if i == |b| || b[i] == 0 then i else FirstNul(b, i + 1)
  }

  /** A buffer read as a C string: up to its first NUL. */
  function CString(b: seq<Byte>): seq<Byte> { b[..FirstNul(b, 0)] }

  predicate TextKey(key: seq<Byte>) { key == ARCHITECTURE || key == NAME }

  /** The key of a pair as the C code compares it. */
  function KeyAt(file: seq<Byte>, pos: nat): seq<Byte>
    requires AfterString(file, pos, NAME_MAX).Pos?
  {
    CString(Kept(file, pos, NAME_MAX))
  }

  /** The value of a pair whose key and type are read (lines 203-210). */
  function AfterPairValue(file: seq<Byte>, pos: nat, typ: nat, text: bool): Walk {
    if typ == GGUF_STRING && text then OrElse(AfterString(file, pos, 160), BadStringMeta)
    else OrElse(AfterNumber(file, pos, typ), UnsupportedValue)
  }

  /** One pass of the loop at line 197. */
  function AfterPair(file: seq<Byte>, pos: nat): Walk {
    match AfterString(file, pos, NAME_MAX)
    case Fail(_) => Fail(BadKv)
    case Pos(at) =>
      if at + 4 > |file| then Fail(BadKv)
      else AfterPairValue(file, at + 4, LeAt(file, at, 4), TextKey(KeyAt(file, pos)))
  }

  function AfterPairs(file: seq<Byte>, pos: nat, n: nat): Walk {
    if n == 0 then Pos(pos) else
      match AfterPairs(file, pos, n - 1)
      case Fail(e) => Fail(e)
      case Pos(at) => AfterPair(file, at)
  }

  // ----- tensor records -----

  /** Lines 222-227: name, rank, dimensions, type and offset. */
  function AfterTensor(file: seq<Byte>, pos: nat): Walk {
    match AfterString(file, pos, NAME_MAX)
    case Fail(_) => Fail(BadTensorInfo)
    case Pos(at) =>
      if at + 4 > |file| then Fail(BadTensorInfo) else
        var rank := LeAt(file, at, 4);
        if rank > MAX_DIMS then Fail(RankTooHigh)
        else if at + 4 + 8 * rank > |file| then Fail(BadDims)
        else if at + 16 + 8 * rank > |file| then Fail(BadTail)
        else Pos(at + 16 + 8 * rank)
  }

  function AfterTensors(file: seq<Byte>, pos: nat, n: nat): Walk {
    if n == 0 then Pos(pos) else
      match AfterTensors(file, pos, n - 1)
      case Fail(e) => Fail(e)
      case Pos(at) => AfterTensor(file, at)
  }

  datatype TensorInfo = TensorInfo(name: seq<Byte>, dims: seq<nat>, typ: nat, offset: nat)

  function DimsAt(file: seq<Byte>, pos: nat, rank: nat): seq<nat>
    requires pos + 8 * rank <= |file|
  {
    seq(rank, d requires 0 <= d < rank => LeAt(file, pos + 8 * d, 8))
  }

  /** The record at `pos`. */
  function TensorAt(file: seq<Byte>, pos: nat): TensorInfo
    requires AfterTensor(file, pos).Pos?
  {
    var at := AfterString(file, pos, NAME_MAX).at;
    var rank := LeAt(file, at, 4);
    var tail := at + 4 + 8 * rank;
    TensorInfo(KeyAt(file, pos), DimsAt(file, at + 4, rank), LeAt(file, tail, 4), LeAt(file, tail + 4, 8))
  }

  // ----- a failure inside a loop is the loop's failure -----

  lemma {:induction false} StringsStop(file: seq<Byte>, pos: nat, i: nat, n: nat)
    requires i <= n && AfterStrings(file, pos, i).Fail?
    ensures AfterStrings(file, pos, n) == AfterStrings(file, pos, i)
  {
    if i < n { StringsStop(file, pos, i, n - 1); }
  }

  lemma {:induction false} PairsStop(file: seq<Byte>, pos: nat, i: nat, n: nat)
    requires i <= n && AfterPairs(file, pos, i).Fail?
    ensures AfterPairs(file, pos, n) == AfterPairs(file, pos, i)
  {
    if i < n { PairsStop(file, pos, i, n - 1); }
  }

  lemma {:induction false} TensorsStop(file: seq<Byte>, pos: nat, i: nat, n: nat)
    requires i <= n && AfterTensors(file, pos, i).Fail?
    ensures AfterTensors(file, pos, n) == AfterTensors(file, pos, i)
  {
    if i < n { TensorsStop(file, pos, i, n - 1); }
  }

  // ----- on an encoded record the cursor moves by exactly the encoded length -----

  lemma StringAt(file: seq<Byte>, pos: nat, b: Str, cap: nat)
    requires At(file, pos, EncStr(b)) && |file| < I64_LIMIT
    ensures AfterString(file, pos, cap) == Pos(pos + 8 + |b|)
  {
    assert At(file, pos, Num(|b|, 8)) && At(file, pos + 8, Raw(b));
  }

  lemma {:induction false} StringsAt(file: seq<Byte>, pos: nat, ts: seq<Str>, n: nat)
    requires n <= |ts| && At(file, pos, EncStrs(ts, n)) && |file| < I64_LIMIT
    ensures AfterStrings(file, pos, n) == Pos(pos + Size(EncStrs(ts, n)))
  {
    hide AfterString;
    if n > 0 {
      StringsAt(file, pos, ts, n - 1);
      StrShape(ts[n - 1]);
      StringAt(file, pos + Size(EncStrs(ts, n - 1)), ts[n - 1], 0);
    }
  }

  lemma StrArrayAt(file: seq<Byte>, pos: nat, texts: seq<Str>)
    requires At(file, pos, EncArray(GGUF_STRING, |texts|, EncStrs(texts, |texts|))) && |file| < I64_LIMIT
    ensures AfterArray(file, pos) == Pos(pos + 12 + Size(EncStrs(texts, |texts|)))
  {
    ArrayIsAt(file, pos, GGUF_STRING, |texts|, EncStrs(texts, |texts|));
    StringsAt(file, pos + 12, texts, |texts|);
  }

  lemma IntArrayAt(file: seq<Byte>, pos: nat, ints: seq<I32>)
    requires At(file, pos, EncArray(GGUF_INT32, |ints|, EncInts(ints, |ints|))) && |file| < I64_LIMIT
    ensures AfterArray(file, pos) == Pos(pos + 12 + Size(EncInts(ints, |ints|)))
  {
    ArrayIsAt(file, pos, GGUF_INT32, |ints|, EncInts(ints, |ints|));
    AtInside(file, pos + 12, EncInts(ints, |ints|));
    IntsFit(ints, |ints|);
  }

  lemma ValueAt(file: seq<Byte>, pos: nat, m: Meta, text: bool)
    requires At(file, pos, EncValue(m)) && |file| < I64_LIMIT
    ensures AfterPairValue(file, pos, TypeOf(m), text) == Pos(pos + Size(EncValue(m)))
  {
    match m
    case MetaU32(_, _) =>
    case MetaBool(_, _) =>
    case MetaStr(_, b) =>
      StrShape(b);
      StringAt(file, pos, b, if text then 160 else 0);
    case MetaStrArray(_, texts) =>
      ArrayShape(GGUF_STRING, |texts|, EncStrs(texts, |texts|));
      StrArrayAt(file, pos, texts);
    case MetaI32Array(_, ints) =>
      ArrayShape(GGUF_INT32, |ints|, EncInts(ints, |ints|));
      IntArrayAt(file, pos, ints);
  }

  lemma PairAt(file: seq<Byte>, pos: nat, m: Meta)
    requires At(file, pos, EncMeta(m)) && |file| < I64_LIMIT
    ensures AfterPair(file, pos) == Pos(pos + Size(EncMeta(m)))
  {
    hide AfterString, AfterPairValue, EncValue;
    NamedShape(m.key, TypeOf(m));
    NamedIsAt(file, pos, m.key, TypeOf(m));
    StringAt(file, pos, m.key, NAME_MAX);
    ValueAt(file, pos + 12 + |m.key|, m, TextKey(KeyAt(file, pos)));
  }

  /** The metadata loop stops at the byte after the last pair. */
  lemma {:induction false} PairsAt(file: seq<Byte>, pos: nat, ms: seq<Meta>, n: nat)
    requires n <= |ms| && At(file, pos, EncMetas(ms, n)) && |file| < I64_LIMIT
    ensures AfterPairs(file, pos, n) == Pos(pos + Size(EncMetas(ms, n)))
  {
    hide AfterPair, EncMeta;
    if n > 0 {
      PairsAt(file, pos, ms, n - 1);
      PairAt(file, pos + Size(EncMetas(ms, n - 1)), ms[n - 1]);
    }
  }

  lemma TensorWalk(file: seq<Byte>, pos: nat, t: Tensor)
    requires At(file, pos, EncTensor(t)) && |file| < I64_LIMIT && |t.dims| <= MAX_DIMS
    ensures AfterTensor(file, pos) == Pos(pos + Size(EncTensor(t)))
  {
    NamedShape(t.name, |t.dims|);
    NamedIsAt(file, pos, t.name, |t.dims|);
    StringAt(file, pos, t.name, NAME_MAX);
    TailShape(t);
    TailIsAt(file, pos + 12 + |t.name|, t);
  }

  /** The tensor loop stops at the byte after the last record. */
  lemma {:induction false} TensorsAt(file: seq<Byte>, pos: nat, ts: seq<Tensor>, n: nat)
    requires n <= |ts| && At(file, pos, EncTensors(ts, n)) && |file| < I64_LIMIT && Ranked(ts, MAX_DIMS)
    ensures AfterTensors(file, pos, n) == Pos(pos + Size(EncTensors(ts, n)))
  {
    hide AfterTensor, EncTensor;
    if n > 0 {
      TensorsAt(file, pos, ts, n - 1);
      TensorWalk(file, pos + Size(EncTensors(ts, n - 1)), ts[n - 1]);
    }
  }
}
