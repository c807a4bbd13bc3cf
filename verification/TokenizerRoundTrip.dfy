/** The Python reader returns the metadata the Python writer was given. */
module TokenizerRoundTrip {
  import opened Words
  import opened LittleEndian
  import opened Layouts
  import opened Utf8
  import opened GgufFormat
  import opened GgufWriter
  import opened TokenizerRead

  /** The writer's arguments, strings as text; meta_* stores them as UTF-8. */
  datatype Given =
    | GivenU32(key: Text, value: U32)
    | GivenStr(key: Text, text: Text)
    | GivenStrArray(key: Text, texts: seq<Text>)
    | GivenI32Array(key: Text, ints: seq<I32>)
    | GivenBool(key: Text, flag: bool)

  function EncodeAll(ts: seq<Text>): (r: seq<Str>)
    ensures |r| == |ts| && forall i :: 0 <= i < |ts| ==> r[i] == Encode(ts[i])
  {
    seq(|ts|, i requires 0 <= i < |ts| => Encode(ts[i]))
  }

  function Stored(g: Given): Meta {
    match g
    case GivenU32(key, value) => MetaU32(Encode(key), value)
    case GivenStr(key, text) => MetaStr(Encode(key), Encode(text))
    case GivenStrArray(key, texts) => MetaStrArray(Encode(key), EncodeAll(texts))
    case GivenI32Array(key, ints) => MetaI32Array(Encode(key), ints)
    case GivenBool(key, flag) => MetaBool(Encode(key), flag)
  }

  function StoredAll(gs: seq<Given>): (r: seq<Meta>)
    ensures |r| == |gs| && forall i :: 0 <= i < |gs| ==> r[i] == Stored(gs[i])
  {
    seq(|gs|, i requires 0 <= i < |gs| => Stored(gs[i]))
  }

  function IntAtoms(ns: seq<I32>): (r: seq<Atom>)
    ensures |r| == |ns| && forall i :: 0 <= i < |ns| ==> r[i] == Int(ns[i])
  {
    seq(|ns|, i requires 0 <= i < |ns| => Int(ns[i]))
  }

  /** What the reader should hold for a pair: the GGUF type, an array's element
      type, and the value that was given. */
  function ItemOf(g: Given): Item {
    match g
    case GivenU32(_, value) => Item(GGUF_UINT32, None, One(Int(value)))
    case GivenStr(_, text) => Item(GGUF_STRING, None, Words(text))
    case GivenStrArray(_, texts) => Item(GGUF_ARRAY, Some(GGUF_STRING), WordList(texts))
    case GivenI32Array(_, ints) => Item(GGUF_ARRAY, Some(GGUF_INT32), Atoms(IntAtoms(ints)))
    case GivenBool(_, flag) => Item(GGUF_BOOL, None, One(Int(if flag then 1 else 0)))
  }

  /** The reader's own limits: strings of at most 1 MiB, arrays of at most a million items. */
  predicate Small(t: Text) { |Encode(t)| <= MAX_STRING_BYTES }

  predicate Readable(g: Given) {
    Small(g.key) &&
    match g
    case GivenStr(_, text) => Small(text)
    case GivenStrArray(_, texts) => |texts| <= MAX_ARRAY_ITEMS && forall t <- texts :: Small(t)
    case GivenI32Array(_, ints) => |ints| <= MAX_ARRAY_ITEMS
    case _ => true
  }

  // ----- values -----

  lemma TextRead(file: seq<Byte>, pos: nat, t: Text)
    requires At(file, pos, EncStr(Encode(t))) && Small(t)
    ensures AfterText(file, pos) == Next(pos + 8 + |Encode(t)|) && TextAt(file, pos) == t
  {
    hide LeAt, Encode, Decode;
    var b := Encode(t);
    assert At(file, pos, Num(|b|, 8)) && At(file, pos + 8, Raw(b));
    assert file[pos + 8..pos + 8 + |b|] == b;
    DecodeEncode(t);
  }

  lemma LastText(file: seq<Byte>, pos: nat, ts: seq<Text>, n: nat)
    requires 0 < n <= |ts| && At(file, pos, EncStrs(EncodeAll(ts), n))
    ensures var before := EncStrs(EncodeAll(ts), n - 1);
            At(file, pos, before) && At(file, pos + Size(before), EncStr(Encode(ts[n - 1]))) &&
            Size(EncStrs(EncodeAll(ts), n)) == Size(before) + 8 + |Encode(ts[n - 1])|
  {
    hide Encode;
    StrShape(Encode(ts[n - 1]));
  }

  lemma {:induction false} TextsRead(file: seq<Byte>, pos: nat, ts: seq<Text>, n: nat)
    requires n <= |ts| && At(file, pos, EncStrs(EncodeAll(ts), n)) && forall t <- ts :: Small(t)
    ensures AfterTexts(file, pos, n) == Next(pos + Size(EncStrs(EncodeAll(ts), n)))
    ensures TextsAt(file, pos, n) == ts[..n]
  {
    hide AfterText, TextAt, Encode, At;
    if n > 0 {
      hide EncStrs, EncodeAll, Size;
      LastText(file, pos, ts, n);
      TextsRead(file, pos, ts, n - 1);
      TextRead(file, pos + Size(EncStrs(EncodeAll(ts), n - 1)), ts[n - 1]);
    }
  }

  lemma IntBack(n: I32)
    ensures AtomOf(GGUF_INT32, Bits32(n)) == Int(n) && ScalarSize(GGUF_INT32) == 4
  {
  }

  /** The last of `n` stored integers. */
  lemma LastInt(file: seq<Byte>, pos: nat, ns: seq<I32>, n: nat)
    requires 0 < n <= |ns| && At(file, pos, EncInts(ns, n))
    ensures At(file, pos, EncInts(ns, n - 1)) && pos + 4 * n <= |file|
    ensures LeAt(file, pos + 4 * (n - 1), 4) == Bits32(ns[n - 1])
  {
    hide LeAt, Bits32;
    IntsFit(ns, n - 1);
    assert At(file, pos + 4 * (n - 1), Num(Bits32(ns[n - 1]), 4));
  }

  lemma {:induction false} IntsRead(file: seq<Byte>, pos: nat, ns: seq<I32>, n: nat)
    requires n <= |ns| && At(file, pos, EncInts(ns, n)) && pos + 4 * n <= |file|
    ensures AtomsAt(file, pos, GGUF_INT32, n) == IntAtoms(ns)[..n]
  {
    hide LeAt, Bits32, EncInts, AtomOf;
    if n > 0 {
      LastInt(file, pos, ns, n);
      IntsRead(file, pos, ns, n - 1);
      IntBack(ns[n - 1]);
      assert IntAtoms(ns)[..n] == IntAtoms(ns)[..n - 1] + [Int(ns[n - 1])];
    }
  }

  lemma StrArrayRead(file: seq<Byte>, pos: nat, ts: seq<Text>)
    requires |ts| <= MAX_ARRAY_ITEMS && forall t <- ts :: Small(t)
    requires At(file, pos, EncArray(GGUF_STRING, |ts|, EncStrs(EncodeAll(ts), |ts|)))
    ensures AfterArray(file, pos) == Next(pos + 12 + Size(EncStrs(EncodeAll(ts), |ts|)))
    ensures ArrayAt(file, pos) == WordList(ts) && LeAt(file, pos, 4) == GGUF_STRING
  {
    hide LeAt, AfterTexts, TextsAt, EncStrs;
    ArrayIsAt(file, pos, GGUF_STRING, |ts|, EncStrs(EncodeAll(ts), |ts|));
    TextsRead(file, pos + 12, ts, |ts|);
    assert ts[..|ts|] == ts;
  }

  lemma IntArrayRead(file: seq<Byte>, pos: nat, ns: seq<I32>)
    requires |ns| <= MAX_ARRAY_ITEMS && At(file, pos, EncArray(GGUF_INT32, |ns|, EncInts(ns, |ns|)))
    ensures AfterArray(file, pos) == Next(pos + 12 + Size(EncInts(ns, |ns|)))
    ensures ArrayAt(file, pos) == Atoms(IntAtoms(ns)) && LeAt(file, pos, 4) == GGUF_INT32
  {
    hide LeAt, AtomsAt, EncInts;
    ArrayIsAt(file, pos, GGUF_INT32, |ns|, EncInts(ns, |ns|));
    AtInside(file, pos + 12, EncInts(ns, |ns|));
    IntsFit(ns, |ns|);
    IntsRead(file, pos + 12, ns, |ns|);
    assert IntAtoms(ns)[..|ns|] == IntAtoms(ns);
  }

  lemma ValueRead(file: seq<Byte>, pos: nat, g: Given)
    requires At(file, pos, EncValue(Stored(g))) && Readable(g)
    ensures AfterValue(file, pos, TypeOf(Stored(g))) == Next(pos + Size(EncValue(Stored(g))))
    ensures Item(TypeOf(Stored(g)), ElementAt(file, pos, TypeOf(Stored(g))), ValueAt(file, pos, TypeOf(Stored(g)))) ==
      ItemOf(g)
  {
    hide LeAt, AfterText, TextAt, AfterArray, ArrayAt, Encode, EncStrs, EncInts, Small;
    match g
    case GivenU32(_, _) =>
    case GivenBool(_, _) =>
    case GivenStr(_, text) =>
      StrShape(Encode(text));
      TextRead(file, pos, text);
    case GivenStrArray(_, texts) =>
      ArrayShape(GGUF_STRING, |texts|, EncStrs(EncodeAll(texts), |texts|));
      StrArrayRead(file, pos, texts);
    case GivenI32Array(_, ints) =>
      ArrayShape(GGUF_INT32, |ints|, EncInts(ints, |ints|));
      IntArrayRead(file, pos, ints);
  }

  lemma PairRead(file: seq<Byte>, pos: nat, g: Given)
    requires At(file, pos, EncMeta(Stored(g))) && Readable(g)
    ensures AfterPair(file, pos) == Next(pos + Size(EncMeta(Stored(g))))
    ensures TextAt(file, pos) == g.key && ItemAt(file, pos) == ItemOf(g)
  {
    hide LeAt, AfterText, TextAt, AfterValue, ValueAt, ElementAt, Encode, EncValue, ItemOf, Small;
    var m := Stored(g);
    NamedShape(m.key, TypeOf(m));
    NamedIsAt(file, pos, m.key, TypeOf(m));
    TextRead(file, pos, g.key);
    ValueRead(file, pos + 12 + |m.key|, g);
  }

  /** The dictionary the given pairs amount to: the last one of a wanted key wins. */
  function Expected(gs: seq<Given>, n: nat): Metadata
    requires n <= |gs|
  {
    if n == 0 then map[] else Keep(Expected(gs, n - 1), gs[n - 1].key, ItemOf(gs[n - 1]))
  }

  lemma {:induction false} PairsRead(file: seq<Byte>, pos: nat, gs: seq<Given>, n: nat)
    requires n <= |gs| && At(file, pos, EncMetas(StoredAll(gs), n)) && forall g <- gs :: Readable(g)
    ensures AfterPairs(file, pos, n) == Next(pos + Size(EncMetas(StoredAll(gs), n)))
    ensures Gather(file, pos, n) == Expected(gs, n)
  {
    hide AfterPair, TextAt, ItemAt, EncMeta, Stored, Keep, ItemOf, Readable;
    if n > 0 {
      PairsRead(file, pos, gs, n - 1);
      PairRead(file, pos + Size(EncMetas(StoredAll(gs), n - 1)), gs[n - 1]);
    }
  }

  /** Reading back any file the writer produced, within the reader's limits. */
  lemma ReadsWhatWasGiven(gs: seq<Given>, ts: seq<Tensor>, data: seq<Byte>)
    requires |Written(StoredAll(gs), ts, data)| < U64_LIMIT && Ranked(ts, U32_LIMIT - 1)
    requires |gs| <= MAX_ARRAY_ITEMS && forall g <- gs :: Readable(g)
    ensures ReadMetadata(Written(StoredAll(gs), ts, data)) == Ok(Expected(gs, |gs|))
  {
    hide LeAt, EncHeader, EncMetas, EncTensors, AfterPairs, Gather, Expected, Readable, Ranked, StoredAll;
    var ms := StoredAll(gs);
    var file := Written(ms, ts, data);
    var tail := Zeros(Padding(Size(Prefix(ms, ts)))) + data;
    assert file == Flat(Prefix(ms, ts)) + tail;
    PrefixStarts(ms, ts, tail);
    PrefixIsAt(file, ms, ts);
    HeaderIsAt(file, |ts|, |ms|);
    assert file[..4] == MAGIC;
    PairsRead(file, 24, gs, |gs|);
  }

  /** With one pair per key, the dictionary holds exactly the wanted pairs' values. */
  lemma {:induction false} EveryWantedValue(gs: seq<Given>, n: nat, i: nat)
    requires i < n <= |gs| && forall j, k :: 0 <= j < k < |gs| ==> gs[j].key != gs[k].key
    ensures gs[i].key in WANTED ==> gs[i].key in Expected(gs, n) && Expected(gs, n)[gs[i].key] == ItemOf(gs[i])
  {
    if i < n - 1 { EveryWantedValue(gs, n - 1, i); }
  }

  lemma {:induction false} NothingElse(gs: seq<Given>, n: nat, key: Text)
    requires n <= |gs| && key in Expected(gs, n)
    ensures key in WANTED && exists i :: 0 <= i < n && gs[i].key == key
  {
    if n > 0 && key in Expected(gs, n - 1) { NothingElse(gs, n - 1, key); }
  }
}
