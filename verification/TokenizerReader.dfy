/** The Reader class of scripts/export_qwen3_tokenizer.py and the loop that drives it. */
module TokenizerReader {
  import opened Words
  import opened LittleEndian
  import opened Utf8
  import opened GgufFormat
  import opened TokenizerRead

  predicate Stepped<T>(s: Step, r: Result<T>, pos: nat) {
    match s
    case Raise(e) => r == Err(e)
    case Next(at) => r.Ok? && pos == at
  }

  class Reader {
    const bytes: seq<Byte>
    var pos: nat
    var lastElement: Option<nat>

    constructor (bytes: seq<Byte>)
      ensures this.bytes == bytes && pos == 0 && lastElement == None
    {
      this.bytes := bytes;
      pos, lastElement := 0, None;
    }

    method Read(size: nat) returns (r: Result<seq<Byte>>)
      modifies this`pos
      ensures Stepped(AfterRead(bytes, old(pos), size), r, pos)
      ensures r.Ok? ==> old(pos) + size <= |bytes| && r.value == bytes[old(pos)..old(pos) + size]
    {
      if pos + size > |bytes| { return Err(OutOfBounds); }
      r := Ok(bytes[pos..pos + size]);
      pos := pos + size;
    }

    /** unpack of one unsigned little-endian number. */
    method Unpack(width: nat) returns (r: Result<nat>)
      modifies this`pos
      ensures Stepped(AfterRead(bytes, old(pos), width), r, pos)
      ensures r.Ok? ==> old(pos) + width <= |bytes| && r.value == LeAt(bytes, old(pos), width)
    {
      if pos + width > |bytes| { return Err(OutOfBounds); }
      r := Ok(LeAt(bytes, pos, width));
      pos := pos + width;
    }

    method String() returns (r: Result<Text>)
      modifies this`pos
      ensures Stepped(AfterText(bytes, old(pos)), r, pos)
      ensures r.Ok? ==> r.value == TextAt(bytes, old(pos))
    {
      hide LeAt, Decode;
      var len := Unpack(8);
      if len.Err? { return Err(len.error); }
      if len.value > MAX_STRING_BYTES { return Err(StringTooLong); }
      var data := Read(len.value);
      if data.Err? { return Err(data.error); }
      match Decode(data.value)
      case None => r := Err(BadUtf8);
      case Some(text) => r := Ok(text);
    }

    method Strings(count: nat) returns (r: Result<seq<Text>>)
      modifies this`pos
      ensures Stepped(AfterTexts(bytes, old(pos), count), r, pos)
      ensures r.Ok? ==> r.value == TextsAt(bytes, old(pos), count)
    {
      hide AfterText, TextAt;
      var texts := [];
      for i := 0 to count
        invariant AfterTexts(bytes, old(pos), i) == Next(pos) && texts == TextsAt(bytes, old(pos), i)
      {
        var t := String();
        if t.Err? {
          TextsStop(bytes, old(pos), i + 1, count);
          return Err(t.error);
        }
        texts := texts + [t.value];
      }
      r := Ok(texts);
    }

    /** struct.unpack of `count` scalars. */
    method Scalars(typ: nat, count: nat) returns (r: Result<seq<Atom>>)
      requires ScalarSize(typ) > 0
      modifies this`pos
      ensures Stepped(AfterRead(bytes, old(pos), Total(ScalarSize(typ), count)), r, pos)
      ensures r.Ok? ==>
        old(pos) + Total(ScalarSize(typ), count) <= |bytes| && r.value == AtomsAt(bytes, old(pos), typ, count)
    {
      var total := Total(ScalarSize(typ), count);
      if pos + total > |bytes| { return Err(OutOfBounds); }
      r := Ok(AtomsAt(bytes, pos, typ, count));
      pos := pos + total;
    }

    method Array() returns (r: Result<Value>)
      modifies this
      ensures Stepped(AfterArray(bytes, old(pos)), r, pos)
      ensures r.Ok? ==> r.value == ArrayAt(bytes, old(pos)) && lastElement == Some(LeAt(bytes, old(pos), 4))
    {
      hide LeAt, AfterTexts, TextsAt, AtomsAt;
      var elem := Unpack(4);
      if elem.Err? { return Err(elem.error); }
      lastElement := Some(elem.value);
      var count := Unpack(8);
      if count.Err? { return Err(count.error); }
      if count.value > MAX_ARRAY_ITEMS { return Err(ArrayTooLong); }
      if elem.value == GGUF_STRING {
        var texts := Strings(count.value);
        r := match texts case Err(e) => Err(e) case Ok(ts) => Ok(WordList(ts));
      } else {
        if ScalarSize(elem.value) == 0 { return Err(UnsupportedElement); }
        if Total(ScalarSize(elem.value), count.value) > MAX_SIDECAR_BYTES { return Err(ArrayTooBig); }
        var atoms := Scalars(elem.value, count.value);
        r := match atoms case Err(e) => Err(e) case Ok(ns) => Ok(Atoms(ns));
      }
    }

    /** Reader.value. */
    method ReadValue(typ: nat) returns (r: Result<Value>)
      modifies this
      ensures Stepped(AfterValue(bytes, old(pos), typ), r, pos)
      ensures r.Ok? ==> r.value == ValueAt(bytes, old(pos), typ) && lastElement == ElementAt(bytes, old(pos), typ)
    {
      hide LeAt, AfterText, TextAt, AfterArray, ArrayAt;
      lastElement := None;
      if typ == GGUF_STRING {
        var text := String();
        r := match text case Err(e) => Err(e) case Ok(t) => Ok(Value.Words(t));
      } else if typ == GGUF_ARRAY {
        r := Array();
      } else {
        if ScalarSize(typ) == 0 { return Err(UnsupportedScalar); }
        var v := Unpack(ScalarSize(typ));
        r := match v case Err(e) => Err(e) case Ok(n) => Ok(One(AtomOf(typ, n)));
      }
    }

    /** One pass of the loop at line 129. */
    method Pair(metadata: Metadata) returns (r: Result<Metadata>)
      modifies this
      ensures Stepped(AfterPair(bytes, old(pos)), r, pos)
      ensures r.Ok? ==> r.value == Keep(metadata, TextAt(bytes, old(pos)), ItemAt(bytes, old(pos)))
    {
      hide LeAt, AfterText, TextAt, AfterValue, ValueAt, ElementAt, Keep;
      var key := String();
      if key.Err? { return Err(key.error); }
      var typ := Unpack(4);
      if typ.Err? { return Err(typ.error); }
      var value := ReadValue(typ.value);
      if value.Err? { return Err(value.error); }
      r := Ok(Keep(metadata, key.value, Item(typ.value, lastElement, value.value)));
    }

    method Pairs(count: nat) returns (r: Result<Metadata>)
      modifies this
      ensures Stepped(AfterPairs(bytes, old(pos), count), r, pos)
      ensures r.Ok? ==> r.value == Gather(bytes, old(pos), count)
    {
      hide AfterPair, TextAt, ItemAt, Keep;
      var metadata: Metadata := map[];
      for i := 0 to count
        invariant AfterPairs(bytes, old(pos), i) == Next(pos) && metadata == Gather(bytes, old(pos), i)
      {
        var next := Pair(metadata);
        if next.Err? {
          PairsStop(bytes, old(pos), i + 1, count);
          return Err(next.error);
        }
        metadata := next.value;
      }
      r := Ok(metadata);
    }
  }

  /** read_tokenizer_metadata on a file that opens. */
  method ReadTokenizerMetadata(bytes: seq<Byte>) returns (r: Result<Metadata>)
    ensures r == ReadMetadata(bytes)
  {
    hide LeAt, AfterPairs, Gather;
    var reader := new Reader(bytes);
    var magic := reader.Read(4);
    if magic.Err? { return Err(magic.error); }
    if magic.value != MAGIC { return Err(BadMagic); }
    var version := reader.Unpack(4);
    if version.Err? { return Err(version.error); }
    if version.value != 2 && version.value != 3 { return Err(BadVersion); }
    var tensors := reader.Unpack(8);
    if tensors.Err? { return Err(tensors.error); }
    var count := reader.Unpack(8);
    if count.Err? { return Err(count.error); }
    if count.value > MAX_ARRAY_ITEMS { return Err(TooManyPairs); }
    r := reader.Pairs(count.value);
  }
}
