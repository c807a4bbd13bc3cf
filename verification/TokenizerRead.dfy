/** The second GGUF reader, scripts/export_qwen3_tokenizer.py:37-137: what it
    returns and where its file handle goes, as functions of the file's bytes. */
module TokenizerRead {
  import opened Words
  import opened LittleEndian
  import opened Utf8
  import opened GgufFormat
  import Walker = GgufWalk

  const MAX_STRING_BYTES: nat := 0x10_0000
  const MAX_ARRAY_ITEMS: nat := 1_000_000
  const MAX_SIDECAR_BYTES: nat := 0x1000_0000

  datatype ReadError =
    | OutOfBounds | StringTooLong | BadUtf8 | UnsupportedScalar | ArrayTooLong | UnsupportedElement | ArrayTooBig
    | BadMagic | BadVersion | TooManyPairs

  datatype Result<+T> = Ok(value: T) | Err(error: ReadError)

  /** The handle after a step, or the exception the step raises. */
  datatype Step = Next(pos: nat) | Raise(error: ReadError)

  /** Reader.read, its bytes aside. */
  function AfterRead(file: seq<Byte>, pos: nat, size: nat): Step {
    if pos + size <= |file| then Next(pos + size) else Raise(OutOfBounds)
  }

  /** Reader.string. */
  function AfterText(file: seq<Byte>, pos: nat): Step {
    if pos + 8 > |file| then Raise(OutOfBounds) else
      var len := LeAt(file, pos, 8);
      if len > MAX_STRING_BYTES then Raise(StringTooLong)
      else if pos + 8 + len > |file| then Raise(OutOfBounds)
      else if Decode(file[pos + 8..pos + 8 + len]) == None then Raise(BadUtf8)
      else Next(pos + 8 + len)
  }

  function TextAt(file: seq<Byte>, pos: nat): Text
    requires AfterText(file, pos).Next?
  {
    Decode(file[pos + 8..pos + 8 + LeAt(file, pos, 8)]).value
  }

  /** The list comprehension at line 85. */
  function AfterTexts(file: seq<Byte>, pos: nat, n: nat): Step {
    if n == 0 then Next(pos) else
      match AfterTexts(file, pos, n - 1)
      case Raise(e) => Raise(e)
      case Next(at) => AfterText(file, at)
  }

  function TextsAt(file: seq<Byte>, pos: nat, n: nat): (ts: seq<Text>)
    requires AfterTexts(file, pos, n).Next?
    ensures |ts| == n
  {
    if n == 0 then [] else TextsAt(file, pos, n - 1) + [TextAt(file, AfterTexts(file, pos, n - 1).pos)]
  }

  /** A number struct.unpack returns; a float is left as its bits. */
  datatype Atom = Int(n: int) | Float(bits: nat)

  /** GGUF_TYPES: bytes of a scalar, 0 for a type that is not there. */
  function ScalarSize(typ: nat): nat { Walker.ScalarSize(typ) }

  /** The formats "b", "h", "i" and "q" are signed; "f" and "d" are floats. */
  function AtomOf(typ: nat, v: nat): Atom {
    if typ == GGUF_INT8 && v >= 0x80 then Int(v - 0x100)
    else if typ == GGUF_INT16 && v >= 0x8000 then Int(v - 0x1_0000)
    else if typ == GGUF_INT32 && v >= 0x8000_0000 then Int(v - U32_LIMIT)
    else if typ == GGUF_INT64 && v >= 0x8000_0000_0000_0000 then Int(v - U64_LIMIT)
    else if typ == GGUF_FLOAT32 || typ == GGUF_FLOAT64 then Float(v)
    else Int(v)
  }

  /** `n` scalars of `size` bytes; the sizes are 1, 2, 4 and 8. */
  function Total(size: nat, n: nat): nat {
    if size == 1 then n else if size == 2 then 2 * n else if size == 4 then 4 * n else 8 * n
  }

  function AtomsAt(file: seq<Byte>, pos: nat, typ: nat, n: nat): (r: seq<Atom>)
    requires ScalarSize(typ) > 0 && pos + Total(ScalarSize(typ), n) <= |file|
    ensures |r| == n
  {
    if n == 0 then [] else
      AtomsAt(file, pos, typ, n - 1) +
      [AtomOf(typ, LeAt(file, pos + Total(ScalarSize(typ), n - 1), ScalarSize(typ)))]
  }

  datatype Value = One(atom: Atom) | Words(text: Text) | WordList(texts: seq<Text>) | Atoms(atoms: seq<Atom>)

  function AfterArray(file: seq<Byte>, pos: nat): Step {
    if pos + 12 > |file| then Raise(OutOfBounds) else
      var elem, count := LeAt(file, pos, 4), LeAt(file, pos + 4, 8);
      if count > MAX_ARRAY_ITEMS then Raise(ArrayTooLong)
      else if elem == GGUF_STRING then AfterTexts(file, pos + 12, count)
      else if ScalarSize(elem) == 0 then Raise(UnsupportedElement)
      else if Total(ScalarSize(elem), count) > MAX_SIDECAR_BYTES then Raise(ArrayTooBig)
      else AfterRead(file, pos + 12, Total(ScalarSize(elem), count))
  }

  function ArrayAt(file: seq<Byte>, pos: nat): Value
    requires AfterArray(file, pos).Next?
  {
    var elem, count := LeAt(file, pos, 4), LeAt(file, pos + 4, 8);
    if elem == GGUF_STRING then WordList(TextsAt(file, pos + 12, count))
    else Atoms(AtomsAt(file, pos + 12, elem, count))
  }

  /** Reader.value. */
  function AfterValue(file: seq<Byte>, pos: nat, typ: nat): Step {
    if typ == GGUF_STRING then AfterText(file, pos)
    else if typ == GGUF_ARRAY then AfterArray(file, pos)
    else if ScalarSize(typ) == 0 then Raise(UnsupportedScalar)
    else AfterRead(file, pos, ScalarSize(typ))
  }

  function ValueAt(file: seq<Byte>, pos: nat, typ: nat): Value
    requires AfterValue(file, pos, typ).Next?
  {
    if typ == GGUF_STRING then Words(TextAt(file, pos))
    else if typ == GGUF_ARRAY then ArrayAt(file, pos)
    else One(AtomOf(typ, LeAt(file, pos, ScalarSize(typ))))
  }

  /** last_array_element_type after Reader.value. */
  function ElementAt(file: seq<Byte>, pos: nat, typ: nat): Option<nat>
    requires AfterValue(file, pos, typ).Next?
  {
    if typ == GGUF_ARRAY then Some(LeAt(file, pos, 4)) else None
  }

  datatype Item = Item(typ: nat, element: Option<nat>, value: Value)

  /** One pass of the loop at line 129. */
  function AfterPair(file: seq<Byte>, pos: nat): Step {
    match AfterText(file, pos)
    case Raise(e) => Raise(e)
    case Next(at) => if at + 4 > |file| then Raise(OutOfBounds) else AfterValue(file, at + 4, LeAt(file, at, 4))
  }

  function ItemAt(file: seq<Byte>, pos: nat): Item
    requires AfterPair(file, pos).Next?
  {
    var at := AfterText(file, pos).pos;
    var typ := LeAt(file, at, 4);
    Item(typ, ElementAt(file, at + 4, typ), ValueAt(file, at + 4, typ))
  }

  function AfterPairs(file: seq<Byte>, pos: nat, n: nat): Step {
    if n == 0 then Next(pos) else
      match AfterPairs(file, pos, n - 1)
      case Raise(e) => Raise(e)
      case Next(at) => AfterPair(file, at)
  }

  function Chars(s: string): Text { seq(|s|, i requires 0 <= i < |s| => s[i] as int % 128) }

  /** The keys kept (lines 117-127). */
  const WANTED: set<Text> :=
    {Chars("tokenizer.ggml.model"), Chars("tokenizer.ggml.pre"), Chars("tokenizer.ggml.tokens"),
     Chars("tokenizer.ggml.token_type"), Chars("tokenizer.ggml.merges"), Chars("tokenizer.ggml.bos_token_id"),
     Chars("tokenizer.ggml.eos_token_id"), Chars("tokenizer.ggml.add_bos_token"), Chars("tokenizer.ggml.add_eos_token")}

  type Metadata = map<Text, Item>

  function Keep(m: Metadata, key: Text, item: Item): Metadata {
    if key in WANTED then m[key := item] else m
  }

  /** The dictionary after `n` pairs. */
  function Gather(file: seq<Byte>, pos: nat, n: nat): Metadata
    requires AfterPairs(file, pos, n).Next?
  {
    if n == 0 then map[] else
      var at := AfterPairs(file, pos, n - 1).pos;
      Keep(Gather(file, pos, n - 1), TextAt(file, at), ItemAt(file, at))
  }

  /** read_tokenizer_metadata. */
  function ReadMetadata(file: seq<Byte>): Result<Metadata> {
    if |file| < 4 then Err(OutOfBounds)
    else if file[..4] != MAGIC then Err(BadMagic)
    else if |file| < 8 then Err(OutOfBounds)
    else if LeAt(file, 4, 4) != 2 && LeAt(file, 4, 4) != 3 then Err(BadVersion)
    else if |file| < 24 then Err(OutOfBounds)
    else
      var count := LeAt(file, 16, 8);
      if count > MAX_ARRAY_ITEMS then Err(TooManyPairs) else
        match AfterPairs(file, 24, count)
        case Raise(e) => Err(e)
        case Next(_) => Ok(Gather(file, 24, count))
  }

  // ----- an exception inside a loop ends the loop -----

  lemma {:induction false} TextsStop(file: seq<Byte>, pos: nat, i: nat, n: nat)
    requires i <= n && AfterTexts(file, pos, i).Raise?
    ensures AfterTexts(file, pos, n) == AfterTexts(file, pos, i)
  {
    if i < n { TextsStop(file, pos, i, n - 1); }
  }

  lemma {:induction false} PairsStop(file: seq<Byte>, pos: nat, i: nat, n: nat)
    requires i <= n && AfterPairs(file, pos, i).Raise?
    ensures AfterPairs(file, pos, n) == AfterPairs(file, pos, i)
  {
    if i < n { PairsStop(file, pos, i, n - 1); }
  }
}
