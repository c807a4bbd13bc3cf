/** Where make_synthetic_gguf.py puts each tensor's data (lines 69-85 and 136-141),
    and the sizes the C loader recovers from it. */
module GgufLayout {
  import opened Words
  import opened Layouts
  import opened GgufFormat
  import opened GgufWalk
  import opened GgufSummary
  import opened GgufWriter
  import opened GgufRoundTrip
  import opened GgufTable

  // ----- tensor_nbytes -----

  /** GGML_LAYOUTS: elements and bytes of a block. */
  function BlockOf(typ: nat): Option<(nat, nat)> {
    if typ == 0 then Some((1, 4))
    else if typ == 12 then Some((256, 144))
    else if typ == 17 then Some((256, 74))
    else if typ == 18 then Some((256, 98))
    else if typ == 22 then Some((256, 82))
    else if typ == 23 then Some((256, 136))
    else None
  }

  function Elements(dims: seq<nat>, n: nat): nat
    requires n <= |dims|
  {
    if n == 0 then 1 else Elements(dims, n - 1) * dims[n - 1]
  }

  /** None stands for the exceptions: an unknown type, no dimension, a row that is
      not whole blocks. */
  function NBytes(dims: seq<nat>, typ: nat): Option<nat> {
    match BlockOf(typ)
    case None => None
    case Some((elements, bytes)) =>
      if dims == [] then None
      else if elements == 256 && dims[0] % 256 != 0 then None
      else if elements == 256 then Some(Elements(dims, |dims|) / 256 * bytes)
      else Some(Elements(dims, |dims|) * bytes)
  }

  method TensorNbytes(dims: seq<nat>, typ: nat) returns (r: Option<nat>)
    ensures r == NBytes(dims, typ)
  {
    var elements := 1;
    for i := 0 to |dims|
      invariant elements == Elements(dims, i)
    {
      elements := elements * dims[i];
    }
    var block := BlockOf(typ);
    if block == None || dims == [] { return None; }
    var (blockElements, blockBytes) := block.value;
    if blockElements == 256 {
      if dims[0] % 256 != 0 { return None; }
      r := Some(elements / 256 * blockBytes);
    } else {
      r := Some(elements * blockBytes);
    }
  }

  lemma Multiple(x: nat, y: nat)
    requires x % 256 == 0
    ensures x * y % 256 == 0
  {
    var k := x / 256;
    assert x * y == 256 * (k * y);
  }

  lemma {:induction false} WholeBlocks(dims: seq<nat>, n: nat)
    requires 0 < n <= |dims| && dims[0] % 256 == 0
    ensures Elements(dims, n) % 256 == 0
  {
    if n == 1 {
      assert Elements(dims, 1) == Elements(dims, 0) * dims[0] == dims[0];
    } else {
      WholeBlocks(dims, n - 1);
      Multiple(Elements(dims, n - 1), dims[n - 1]);
    }
  }

  /** No element is cut off by the division: the bytes are those of whole blocks. */
  lemma NBytesExact(dims: seq<nat>, typ: nat)
    requires NBytes(dims, typ).Some?
    ensures var (elements, bytes) := BlockOf(typ).value;
            exists blocks: nat ::
              Elements(dims, |dims|) == blocks * elements && NBytes(dims, typ).value == blocks * bytes
  {
    var (elements, bytes) := BlockOf(typ).value;
    var all := Elements(dims, |dims|);
    if elements == 256 {
      WholeBlocks(dims, |dims|);
      assert all == all / 256 * elements;
    } else {
      assert all == all * elements;
    }
  }

  // ----- the layout -----

  /** Length of the data once `n` tensors are placed, and where the next one goes. */
  function End(sizes: seq<nat>, n: nat): nat
    requires n <= |sizes|
  {
    if n == 0 then 0 else AlignUp(End(sizes, n - 1), 32) + sizes[n - 1]
  }

  function Start(sizes: seq<nat>, n: nat): nat
    requires n <= |sizes|
  {
    AlignUp(End(sizes, n), 32)
  }

  /** Lines 137-141; `sizes` are the tensors' byte counts. */
  method LayOut(sizes: seq<nat>) returns (offsets: seq<nat>, dataLen: nat)
    ensures |offsets| == |sizes| && dataLen == End(sizes, |sizes|)
    ensures forall i :: 0 <= i < |sizes| ==> offsets[i] == Start(sizes, i)
  {
    offsets, dataLen := [], 0;
    for i := 0 to |sizes|
      invariant |offsets| == i && dataLen == End(sizes, i)
      invariant forall k :: 0 <= k < i ==> offsets[k] == Start(sizes, k)
    {
      dataLen := (dataLen + 31) / 32 * 32;
      offsets := offsets + [dataLen];
      dataLen := dataLen + sizes[i];
    }
  }

  lemma AlignUpBounds(n: nat)
    ensures n <= AlignUp(n, 32) < n + 32 && AlignUp(n, 32) % 32 == 0
  {
  }

  /** Where tensor `i`'s region ends: at the next tensor, or with the data. */
  function Stop(sizes: seq<nat>, i: nat): nat
    requires i < |sizes|
  {
    if i + 1 < |sizes| then Start(sizes, i + 1) else End(sizes, |sizes|)
  }

  function Gaps(sizes: seq<nat>): (g: seq<nat>)
    ensures |g| == |sizes| && forall i :: 0 <= i < |sizes| ==> g[i] == Stop(sizes, i) - Start(sizes, i)
  {
    forall i | 0 <= i < |sizes| ensures Start(sizes, i) <= Stop(sizes, i) { StopBounds(sizes, i); }
    seq(|sizes|, i requires 0 <= i < |sizes| => Stop(sizes, i) - Start(sizes, i))
  }

  /** A tensor's bytes fit before the next tensor, with less than 32 bytes to spare. */
  lemma StopBounds(sizes: seq<nat>, i: nat)
    requires i < |sizes|
    ensures Start(sizes, i) + sizes[i] <= Stop(sizes, i) < Start(sizes, i) + sizes[i] + 32
    ensures i + 1 == |sizes| ==> Stop(sizes, i) == Start(sizes, i) + sizes[i]
  {
    assert End(sizes, i + 1) == Start(sizes, i) + sizes[i];
    AlignUpBounds(End(sizes, i + 1));
  }

  lemma {:induction false} Increasing(sizes: seq<nat>, i: nat, j: nat)
    requires i < j < |sizes| && forall k :: 0 <= k < |sizes| ==> sizes[k] > 0
    ensures Start(sizes, i) < Start(sizes, j) && Stop(sizes, i) <= Start(sizes, j)
    decreases j
  {
    StopBounds(sizes, i);
    if i + 1 < j {
      Increasing(sizes, i, j - 1);
      StopBounds(sizes, j - 1);
    }
  }

  lemma {:induction false} SumGaps(sizes: seq<nat>, n: nat)
    requires 0 < n <= |sizes|
    ensures Sum(Gaps(sizes)[..n]) == Stop(sizes, n - 1)
  {
    hide End, AlignUp;
    var g := Gaps(sizes);
    assert g[..n][..n - 1] == g[..n - 1];
    if n > 1 {
      SumGaps(sizes, n - 1);
    } else {
      StartsAtZero(sizes);
    }
  }

  lemma StartsAtZero(sizes: seq<nat>)
    ensures Start(sizes, 0) == 0
  {
  }

  /** Pointwise at most, and the same sum: the same. */
  lemma {:induction false} Squeeze(s: seq<nat>, g: seq<nat>)
    requires |s| == |g| && forall i :: 0 <= i < |s| ==> s[i] <= g[i]
    ensures Sum(s) <= Sum(g) && (Sum(s) == Sum(g) ==> s == g)
  {
    if s != [] {
      var n := |s| - 1;
      Squeeze(s[..n], g[..n]);
      assert s == s[..n] + [s[n]] && g == g[..n] + [g[n]];
    }
  }

  lemma TilesInside(offsets: seq<nat>, found: seq<nat>, region: nat, i: nat)
    requires Tiles(offsets, found, region) && i < |offsets|
    ensures |found| == |offsets| && offsets[i] + found[i] <= region
  {
    hide Sum, IsMin;
  }

  lemma TilesApart(offsets: seq<nat>, found: seq<nat>, region: nat, i: nat, j: nat)
    requires Tiles(offsets, found, region) && i < j < |offsets|
    ensures |found| == |offsets| && (offsets[i] + found[i] <= offsets[j] || offsets[j] + found[j] <= offsets[i])
  {
    hide Sum, IsMin;
  }

  lemma AtMostGap(sizes: seq<nat>, offsets: seq<nat>, found: seq<nat>, i: nat)
    requires i < |sizes| && forall k :: 0 <= k < |sizes| ==> sizes[k] > 0
    requires |offsets| == |sizes| && forall k :: 0 <= k < |sizes| ==> offsets[k] == Start(sizes, k)
    requires Tiles(offsets, found, End(sizes, |sizes|))
    ensures |found| == |sizes| && found[i] <= Gaps(sizes)[i]
  {
    hide End, AlignUp, Start, Sum, Tiles, Gaps;
    TilesInside(offsets, found, End(sizes, |sizes|), i);
    if i + 1 < |sizes| {
      Increasing(sizes, i, i + 1);
      TilesApart(offsets, found, End(sizes, |sizes|), i, i + 1);
    }
  }

  /** The only sizes that tile a written layout are the distances between tensors. */
  lemma TilesAreGaps(sizes: seq<nat>, offsets: seq<nat>, found: seq<nat>)
    requires sizes != [] && forall k :: 0 <= k < |sizes| ==> sizes[k] > 0
    requires |offsets| == |sizes| && forall i :: 0 <= i < |sizes| ==> offsets[i] == Start(sizes, i)
    requires Tiles(offsets, found, End(sizes, |sizes|))
    ensures found == Gaps(sizes)
  {
    hide End, AlignUp, Start, Sum;
    var n := |sizes|;
    forall i | 0 <= i < n ensures found[i] <= Gaps(sizes)[i] { AtMostGap(sizes, offsets, found, i); }
    hide Stop;
    StartsAtZero(sizes);
    assert IsMin(offsets, 0) by { assert offsets[0] == 0; }
    SumGaps(sizes, n);
    assert Gaps(sizes)[..n] == Gaps(sizes);
    Squeeze(found, Gaps(sizes));
  }

  // ----- the loader on a written file -----

  lemma {:induction false} InfosAt(ts: seq<Tensor>, n: nat, i: nat)
    requires i < n <= |ts|
    ensures InfosOf(ts, n)[i] == InfoOf(ts[i])
  {
    if i < n - 1 { InfosAt(ts, n - 1, i); }
  }

  lemma TableOfWritten(ms: seq<Meta>, ts: seq<Tensor>, data: seq<Byte>)
    requires |Written(ms, ts, data)| < I64_LIMIT && Ranked(ts, MAX_DIMS)
    ensures var file := Written(ms, ts, data); Inspect(file).Ok? && TableOf(file) == InfosOf(ts, |ts|)
  {
    hide Inspect, Records, InfosOf, Described, AlignUp, Written, EncMetas, EncTensors, Ranked, AfterPairs, AfterTensors;
    var file := Written(ms, ts, data);
    InspectWritten(ms, ts, data);
    WrittenSplits(ms, ts, data);
    PrefixIsAt(file, ms, ts);
    RecordsAt(file, 24 + Size(EncMetas(ms, |ms|)), ts, |ts|);
  }

  /** `ts` are laid out for tensors of these byte counts, none empty. */
  ghost predicate LaidOut(ts: seq<Tensor>, sizes: seq<nat>) {
    |ts| == |sizes| && sizes != [] && forall i :: 0 <= i < |sizes| ==> sizes[i] > 0 && ts[i].offset == Start(sizes, i)
  }

  lemma {:induction false} InsideData(sizes: seq<nat>, i: nat)
    requires i < |sizes| && forall k :: 0 <= k < |sizes| ==> sizes[k] > 0
    ensures Start(sizes, i) <= End(sizes, |sizes|)
  {
    var last := |sizes| - 1;
    StopBounds(sizes, last);
    if i < last { Increasing(sizes, i, last); }
  }

  /** Writing a file and loading its tensor table returns every record, and for
      each tensor the bytes the layout gave it: its own, rounded up to the next
      tensor's start by less than 32. */
  lemma LoadsWhatWasLaidOut(ms: seq<Meta>, ts: seq<Tensor>, data: seq<Byte>, sizes: seq<nat>, r: Result<seq<Entry>>)
    requires |Written(ms, ts, data)| < I64_LIMIT && Ranked(ts, MAX_DIMS)
    requires Described(ms, |ms|).alignment == 0 || Described(ms, |ms|).alignment == 32
    requires LaidOut(ts, sizes) && |data| == End(sizes, |sizes|)
    requires Loads(Written(ms, ts, data), true, r)
    ensures r.Ok? && |r.value| == |ts|
    ensures forall i :: 0 <= i < |ts| ==> r.value[i].info == InfoOf(ts[i])
    ensures forall i :: 0 <= i < |ts| ==> sizes[i] <= r.value[i].byteSize < sizes[i] + 32
    ensures r.value[|ts| - 1].byteSize == sizes[|ts| - 1]
  {
    hide Inspect, InfosOf, InfoOf, Described, Written, TableOf, End, Start, Stop, AlignUp, Ranked, Tiles;
    var file := Written(ms, ts, data);
    TableOfWritten(ms, ts, data);
    DataOffsetWritten(ms, ts, data);
    var offsets := Offsets(TableOf(file));
    forall i | 0 <= i < |ts|
      ensures TableOf(file)[i] == InfoOf(ts[i]) && offsets[i] == Start(sizes, i) <= |data|
    {
      InfosAt(ts, |ts|, i);
      InfoOffset(ts[i]);
      InsideData(sizes, i);
    }
    AcceptedExactlyInside(file, true, r);
    TilesAreGaps(sizes, offsets, Sizes(r.value));
    forall i | 0 <= i < |ts| ensures sizes[i] <= r.value[i].byteSize < sizes[i] + 32 {
      assert Sizes(r.value)[i] == r.value[i].byteSize;
      StopBounds(sizes, i);
    }
    StopBounds(sizes, |ts| - 1);
    assert Sizes(r.value)[|ts| - 1] == r.value[|ts| - 1].byteSize;
  }

  lemma InfoOffset(t: Tensor)
    ensures InfoOf(t).offset == t.offset
  {
  }
}
