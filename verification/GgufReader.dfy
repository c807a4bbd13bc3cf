/** src/qx_gguf.c:46-238: the open file and the functions that move its cursor. */
module GgufReader {
  import opened Words
  import opened LittleEndian
  import opened GgufFormat
  import opened GgufWalk
  import opened GgufSummary

  /** `ok` and the cursor agree with what the specification says of the step. */
  predicate Moved(w: Walk, ok: bool, pos: nat) { ok == w.Pos? && (ok ==> pos == w.at) }

  class File {
    const bytes: seq<Byte>
    var pos: nat

    constructor (bytes: seq<Byte>)
      ensures this.bytes == bytes && pos == 0
    {
      this.bytes := bytes;
      pos := 0;
    }

    /** rd into an integer variable; a short read leaves the cursor at the end. */
    method Rd(width: nat) returns (ok: bool, v: nat)
      modifies this
      ensures ok <==> old(pos) + width <= |bytes|
      ensures ok ==> v == LeAt(bytes, old(pos), width) && pos == old(pos) + width
    {
      ok, v := pos + width <= |bytes|, 0;
      if ok {
        v := LeAt(bytes, pos, width);
        pos := pos + width;
      } else if pos < |bytes| {
        pos := |bytes|;
      }
    }

    /** rd into a buffer. */
    method RdBytes(n: nat) returns (ok: bool, b: seq<Byte>)
      modifies this
      ensures ok <==> old(pos) + n <= |bytes|
      ensures ok ==> b == bytes[old(pos)..old(pos) + n] && pos == old(pos) + n
    {
      ok, b := pos + n <= |bytes|, [];
      if ok {
        b := bytes[pos..pos + n];
        pos := pos + n;
      } else if pos < |bytes| {
        b := bytes[pos..];
        pos := |bytes|;
      }
    }

    method SkipBytes(n: nat) returns (ok: bool)
      modifies this
      ensures Moved(SkipTo(old(pos), n), ok, pos)
    {
      var w := SkipTo(pos, n);
      ok := w.Pos?;
      if ok { pos := w.at; }
    }

    method ReadString(cap: nat) returns (ok: bool, kept: seq<Byte>)
      modifies this
      ensures Moved(AfterString(bytes, old(pos), cap), ok, pos)
      ensures ok ==> kept == Kept(bytes, old(pos), cap)
    {
      var len;
      kept := [];
      ok, len := Rd(8);
      if !ok { return; }
      if cap > 0 {
        var keep := if len < cap - 1 then len else cap - 1;
        if keep > 0 {
          ok, kept := RdBytes(keep);
          if !ok { return; }
        }
        if len > keep { ok := SkipBytes(len - keep); }
      } else {
        ok := SkipBytes(len);
      }
    }

    method SkipArray() returns (ok: bool)
      modifies this
      ensures Moved(AfterArray(bytes, old(pos)), ok, pos)
    {
      var elem, count, kept;
      ok, elem := Rd(4);
      if !ok { return; }
      ok, count := Rd(8);
      if !ok { return; }
      if elem == GGUF_STRING {
        ghost var body := pos;
        var i := 0;
        while i < count
          invariant i <= count && ok && AfterStrings(bytes, body, i) == Pos(pos)
        {
          ok, kept := ReadString(0);
          if !ok {
            StringsStop(bytes, body, i + 1, count);
            return;
          }
          i := i + 1;
        }
      } else {
        var size := ScalarSize(elem);
        if size == 0 { return false; }
        ok := SkipBytes(ArrayBytes(size, count));
      }
    }

    method SkipValue(typ: nat) returns (ok: bool)
      modifies this
      ensures Moved(AfterValue(bytes, old(pos), typ), ok, pos)
    {
      var kept;
      if typ == GGUF_STRING {
        ok, kept := ReadString(0);
      } else if typ == GGUF_ARRAY {
        ok := SkipArray();
      } else if ScalarSize(typ) == 0 {
        ok := false;
      } else {
        ok := SkipBytes(ScalarSize(typ));
      }
    }

    /** read_u64_value: `some` is its return value 1, a skipped value its 2. */
    method ReadNumber(typ: nat) returns (ok: bool, some: bool, v: nat)
      modifies this
      ensures Moved(AfterNumber(bytes, old(pos), typ), ok, pos) && some == Integral(typ)
      ensures ok && some ==> v == SignExtend(typ, LeAt(bytes, old(pos), ScalarSize(typ)))
    {
      some, v := Integral(typ), 0;
      if some {
        ok, v := Rd(ScalarSize(typ));
        if ok { v := SignExtend(typ, v); }
      } else {
        ok := SkipValue(typ);
      }
    }

    /** One pass of the metadata loop, on the summary so far. */
    method ReadPair(s: Summary) returns (r: Option<GgufError>, after: Summary)
      modifies this
      ensures match AfterPair(bytes, old(pos))
              case Fail(e) => r == Some(e)
              case Pos(at) => r == None && pos == at && after == ApplyPair(s, bytes, old(pos))
    {
      var ok, kept, typ;
      after := s;
      ok, kept := ReadString(NAME_MAX);
      if !ok { return Some(BadKv), after; }
      var key := CString(kept);
      ok, typ := Rd(4);
      if !ok { return Some(BadKv), after; }
      if typ == GGUF_STRING && TextKey(key) {
        ok, kept := ReadString(160);
        if !ok { return Some(BadStringMeta), after; }
        after := ApplyText(s, key, kept);
      } else {
        var some, v;
        ok, some, v := ReadNumber(typ);
        if !ok { return Some(UnsupportedValue), after; }
        if some { after := ApplyNumber(s, key, v); }
      }
      r := None;
    }

    method ReadDims(rank: nat) returns (ok: bool, dims: seq<nat>)
      requires pos <= |bytes|
      modifies this
      ensures ok <==> old(pos) + 8 * rank <= |bytes|
      ensures ok ==> pos == old(pos) + 8 * rank && dims == DimsAt(bytes, old(pos), rank)
    {
      hide LeAt;
      dims := [];
      for d := 0 to rank
        invariant |dims| == d && pos == old(pos) + 8 * d <= |bytes|
        invariant forall i :: 0 <= i < d ==> dims[i] == LeAt(bytes, old(pos) + 8 * i, 8)
      {
        var v;
        ok, v := Rd(8);
        if !ok { return; }
        dims := dims + [v];
      }
      ok := true;
    }

    /** One tensor record (lines 222-227 and 318-327). */
    method ReadTensor() returns (r: Result<TensorInfo>)
      modifies this
      ensures match AfterTensor(bytes, old(pos))
              case Fail(e) => r == Err(e)
              case Pos(at) => r == Ok(TensorAt(bytes, old(pos))) && pos == at
    {
      hide LeAt, AfterString, DimsAt, Kept;
      var ok, kept, rank, dims, typ, offset;
      ok, kept := ReadString(NAME_MAX);
      if !ok { return Err(BadTensorInfo); }
      ok, rank := Rd(4);
      if !ok { return Err(BadTensorInfo); }
      if rank > MAX_DIMS { return Err(RankTooHigh); }
      ok, dims := ReadDims(rank);
      if !ok { return Err(BadDims); }
      ok, typ := Rd(4);
      if !ok { return Err(BadTail); }
      ok, offset := Rd(8);
      if !ok { return Err(BadTail); }
      r := Ok(TensorInfo(CString(kept), dims, typ, offset));
    }

    /** The loop at line 197. */
    method ReadPairs(count: nat) returns (r: Result<Summary>)
      modifies this
      ensures match AfterPairs(bytes, old(pos), count)
              case Fail(e) => r == Err(e)
              case Pos(at) => r == Ok(Summarise(bytes, old(pos), count)) && pos == at
    {
      hide AfterPair, ApplyPair;
      var s := EMPTY;
      for i := 0 to count
        invariant AfterPairs(bytes, old(pos), i) == Pos(pos) && s == Summarise(bytes, old(pos), i)
      {
        var error;
        error, s := ReadPair(s);
        if error.Some? {
          PairsStop(bytes, old(pos), i + 1, count);
          return Err(error.value);
        }
      }
      r := Ok(s);
    }

    /** The loop at line 219; the summary keeps the first eight records. */
    method ReadTensors(count: nat) returns (r: Result<seq<TensorInfo>>)
      modifies this
      ensures match AfterTensors(bytes, old(pos), count)
              case Fail(e) => r == Err(e)
              case Pos(at) => pos == at && r == Ok(Records(bytes, old(pos), count)[..if count < 8 then count else 8])
    {
      hide AfterTensor, TensorAt;
      var first := [];
      for i := 0 to count
        invariant AfterTensors(bytes, old(pos), i) == Pos(pos)
        invariant first == Records(bytes, old(pos), i)[..if i < 8 then i else 8]
      {
        var t := ReadTensor();
        if t.Err? {
          TensorsStop(bytes, old(pos), i + 1, count);
          return Err(t.error);
        }
        if i < 8 { first := first + [t.value]; }
      }
      r := Ok(first);
    }
  }

  /** qx_gguf_inspect on a file that opens. */
  method InspectFile(bytes: seq<Byte>) returns (r: Result<Inspection>)
    ensures r == Inspect(bytes)
  {
    hide LeAt, AfterPairs, AfterTensors, Records, Summarise;
    var f := new File(bytes);
    var ok, magic, version, tensors, kvs;
    ok, magic := f.RdBytes(4);
    if !ok || magic != MAGIC { return Err(BadMagic); }
    ok, version := f.Rd(4);
    if !ok { return Err(ShortHeader); }
    ok, tensors := f.Rd(8);
    if !ok { return Err(ShortHeader); }
    ok, kvs := f.Rd(8);
    if !ok { return Err(ShortHeader); }
    if version < 2 || version > 3 { return Err(UnsupportedVersion); }
    var s := f.ReadPairs(kvs);
    if s.Err? { return Err(s.error); }
    var info := f.pos;
    var first := f.ReadTensors(tensors);
    if first.Err? { return Err(first.error); }
    var alignment := if s.value.alignment > 0 then s.value.alignment else 32;
    r := Ok(Inspection(version, tensors, kvs, s.value, info, AlignUp(f.pos, alignment), first.value));
  }
}
