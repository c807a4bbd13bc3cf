/** qx_gguf_load_tensor_table (src/qx_gguf.c:287-347): tensor sizes from sorted offsets. */
module GgufTable {
  import opened Words
  import opened Reorderings
  import opened LittleEndian
  import opened GgufWalk
  import opened GgufSummary
  import opened GgufReader

  datatype Slot = Slot(offset: nat, index: nat)

  function Slots(offsets: seq<nat>, n: nat): (s: seq<Slot>)
    requires n <= |offsets|
    ensures |s| == n && forall i :: 0 <= i < n ==> s[i] == Slot(offsets[i], i)
  {
    seq(n, i requires 0 <= i < n => Slot(offsets[i], i))
  }

  predicate Sorted(order: seq<Slot>) {
    forall j, k :: 0 <= j < k < |order| ==> order[j].offset <= order[k].offset
  }

  /** `order` lists every tensor once, by offset. */
  ghost predicate Ordering(offsets: seq<nat>, order: seq<Slot>) {
    |order| == |offsets| && Sorted(order) &&
    (forall k :: 0 <= k < |order| ==> order[k].index < |offsets| && order[k].offset == offsets[order[k].index]) &&
    (forall j, k :: 0 <= j < k < |order| ==> order[j].index != order[k].index) &&
    (forall i :: 0 <= i < |offsets| ==> Slot(offsets[i], i) in order)
  }

  function Sum(s: seq<nat>): nat {
    if s == [] then 0 else Sum(s[..|s| - 1]) + s[|s| - 1]
  }

  lemma {:induction false} SumUpdate(s: seq<nat>, i: nat, v: nat)
    requires i < |s|
    ensures Sum(s[i := v]) == Sum(s) - s[i] + v
  {
    var n := |s| - 1;
    if i == n {
      assert s[i := v][..n] == s[..n];
    } else {
      assert s[i := v][..n] == s[..n][i := v];
      SumUpdate(s[..n], i, v);
    }
  }

  lemma {:induction false} SumZeros(s: seq<nat>)
    requires forall i :: 0 <= i < |s| ==> s[i] == 0
    ensures Sum(s) == 0
  {
    if s != [] { SumZeros(s[..|s| - 1]); }
  }

  // ----- a sorted permutation of the slots is an ordering -----

  lemma SlotsOnce(offsets: seq<nat>, i: nat)
    requires i < |offsets|
    ensures var s := Slots(offsets, |offsets|); multiset(s)[s[i]] == 1
  {
    CountOnce(Slots(offsets, |offsets|), i);
  }

  lemma SortedOrders(offsets: seq<nat>, order: seq<Slot>)
    requires Sorted(order) && multiset(order) == multiset(Slots(offsets, |offsets|))
    ensures Ordering(offsets, order)
  {
    var s := Slots(offsets, |offsets|);
    assert |order| == |multiset(order)| == |multiset(s)| == |s|;
    forall k | 0 <= k < |order|
      ensures order[k].index < |offsets| && order[k].offset == offsets[order[k].index]
    {
      assert order[k] in multiset(order);
      assert order[k] in s;
    }
    forall j, k | 0 <= j < k < |order| ensures order[j].index != order[k].index {
      if order[j].index == order[k].index {
        assert order[j] == order[k] == s[order[j].index];
        Repeats(order, j, k);
        SlotsOnce(offsets, order[j].index);
      }
    }
    forall i | 0 <= i < |offsets| ensures Slot(offsets[i], i) in order {
      assert s[i] in multiset(s);
      assert s[i] in multiset(order);
    }
  }

  // ----- sizes -----

  /** Where the k-th interval ends: the next offset, or the end of the data. */
  function Next(order: seq<Slot>, region: nat, k: nat): nat
    requires k < |order|
  {
    if k + 1 < |order| then order[k + 1].offset else region
  }

  predicate Within(offsets: seq<nat>, region: nat) {
    forall i :: 0 <= i < |offsets| ==> offsets[i] <= region
  }

  ghost predicate IsMin(offsets: seq<nat>, m: nat) {
    m in offsets && forall i :: 0 <= i < |offsets| ==> m <= offsets[i]
  }

  /** The intervals lie inside the region, are pairwise disjoint, and leave none of
      it out from the lowest offset on. */
  ghost predicate Tiles(offsets: seq<nat>, sizes: seq<nat>, region: nat) {
    |sizes| == |offsets| &&
    (forall i :: 0 <= i < |sizes| ==> offsets[i] + sizes[i] <= region) &&
    (forall i, j :: 0 <= i < j < |sizes| ==>
       offsets[i] + sizes[i] <= offsets[j] || offsets[j] + sizes[j] <= offsets[i]) &&
    (forall m :: IsMin(offsets, m) ==> Sum(sizes) == region - m)
  }

  /** The first `n` intervals have their sizes; the rest are still 0, as calloc left them. */
  ghost predicate Filled(order: seq<Slot>, region: nat, sizes: seq<nat>, n: nat) {
    n <= |order| && (forall k :: 0 <= k < |order| ==> order[k].index < |sizes|) &&
    (forall k :: 0 <= k < n ==> order[k].offset <= Next(order, region, k) &&
                                sizes[order[k].index] == Next(order, region, k) - order[k].offset) &&
    (forall k :: n <= k < |order| ==> sizes[order[k].index] == 0)
  }

  ghost predicate Assigned(order: seq<Slot>, region: nat, sizes: seq<nat>, n: nat) {
    Filled(order, region, sizes, n) &&
    Sum(sizes) == (if n == 0 then 0 else Next(order, region, n - 1) - order[0].offset)
  }

  lemma FillStep(order: seq<Slot>, region: nat, sizes: seq<nat>, k: nat)
    requires k < |order| && Filled(order, region, sizes, k) && order[k].offset <= Next(order, region, k)
    requires forall j :: 0 <= j < |order| && j != k ==> order[j].index != order[k].index
    ensures Filled(order, region, sizes[order[k].index := Next(order, region, k) - order[k].offset], k + 1)
  {
    hide Next;
  }

  lemma AssignStep(offsets: seq<nat>, order: seq<Slot>, region: nat, sizes: seq<nat>, k: nat)
    requires Ordering(offsets, order) && |sizes| == |order| && k < |order| && Assigned(order, region, sizes, k)
    requires order[k].offset <= Next(order, region, k)
    ensures Assigned(order, region, sizes[order[k].index := Next(order, region, k) - order[k].offset], k + 1)
  {
    assert sizes[order[k].index] == 0;
    FillStep(order, region, sizes, k);
    hide Filled, Sum, Ordering;
    SumUpdate(sizes, order[k].index, Next(order, region, k) - order[k].offset);
  }

  /** Where tensor `i` is in the order, and where its interval ends. */
  lemma Placed(offsets: seq<nat>, order: seq<Slot>, region: nat, sizes: seq<nat>, i: nat) returns (k: nat)
    requires Ordering(offsets, order) && |sizes| == |order| && Assigned(order, region, sizes, |order|) && i < |offsets|
    ensures k < |order| && order[k] == Slot(offsets[i], i) && offsets[i] + sizes[i] == Next(order, region, k)
  {
    hide Sum, Sorted;
    assert Slot(offsets[i], i) in order;
    k :| 0 <= k < |order| && order[k] == Slot(offsets[i], i);
  }

  lemma NextBelow(order: seq<Slot>, region: nat, k: nat, l: nat)
    requires Sorted(order) && k < l < |order|
    ensures Next(order, region, k) <= order[l].offset
  {
  }

  lemma NextInside(order: seq<Slot>, region: nat, k: nat)
    requires Sorted(order) && k < |order| && order[|order| - 1].offset <= region
    ensures order[k].offset <= Next(order, region, k) <= region
  {
  }

  lemma LowestFirst(offsets: seq<nat>, order: seq<Slot>, m: nat)
    requires Ordering(offsets, order) && IsMin(offsets, m)
    ensures order != [] && order[0].offset == m
  {
    var i :| 0 <= i < |offsets| && offsets[i] == m;
    assert Slot(offsets[i], i) in order;
    assert order[0].index < |offsets| && offsets[order[0].index] == order[0].offset;
  }

  lemma Inside(offsets: seq<nat>, order: seq<Slot>, region: nat, sizes: seq<nat>, i: nat)
    requires Ordering(offsets, order) && |sizes| == |order| && Assigned(order, region, sizes, |order|) && i < |offsets|
    ensures offsets[i] + sizes[i] <= region
  {
    assert order[|order| - 1].offset <= region;
    hide Sum, Next, Assigned;
    var k := Placed(offsets, order, region, sizes, i);
    NextInside(order, region, k);
  }

  lemma Apart(offsets: seq<nat>, order: seq<Slot>, region: nat, sizes: seq<nat>, i: nat, j: nat)
    requires Ordering(offsets, order) && |sizes| == |order| && Assigned(order, region, sizes, |order|)
    requires i < j < |offsets|
    ensures offsets[i] + sizes[i] <= offsets[j] || offsets[j] + sizes[j] <= offsets[i]
  {
    assert Sorted(order);
    hide Next, Ordering, Assigned, Sorted;
    var k := Placed(offsets, order, region, sizes, i);
    var l := Placed(offsets, order, region, sizes, j);
    if k < l { NextBelow(order, region, k, l); } else { NextBelow(order, region, l, k); }
  }

  lemma AllAssigned(offsets: seq<nat>, order: seq<Slot>, region: nat, sizes: seq<nat>)
    requires Ordering(offsets, order) && |sizes| == |order| && Assigned(order, region, sizes, |order|)
    ensures Within(offsets, region) && Tiles(offsets, sizes, region)
  {
    assert |order| == |offsets|;
    assert order != [] ==> Sum(sizes) == region - order[0].offset;
    hide Sum, Next, Ordering, Assigned, IsMin;
    forall i | 0 <= i < |offsets| ensures offsets[i] + sizes[i] <= region { Inside(offsets, order, region, sizes, i); }
    forall i, j | 0 <= i < j < |offsets|
      ensures offsets[i] + sizes[i] <= offsets[j] || offsets[j] + sizes[j] <= offsets[i]
    {
      Apart(offsets, order, region, sizes, i, j);
    }
    forall m | IsMin(offsets, m) ensures Sum(sizes) == region - m { LowestFirst(offsets, order, m); }
  }

  lemma NoneAssigned(offsets: seq<nat>, order: seq<Slot>, region: nat, sizes: seq<nat>)
    requires Ordering(offsets, order) && |sizes| == |offsets| && forall i :: 0 <= i < |sizes| ==> sizes[i] == 0
    ensures |order| == |offsets| && Assigned(order, region, sizes, 0)
  {
    SumZeros(sizes);
  }

  /** Line 341 fires only on an offset past the end of the data. */
  lemma StuckIsOutside(offsets: seq<nat>, order: seq<Slot>, region: nat, k: nat)
    requires Ordering(offsets, order) && k < |order| && Next(order, region, k) < order[k].offset
    ensures !Within(offsets, region)
  {
    assert offsets[order[k].index] > region;
  }

  lemma InOrder(offsets: seq<nat>, order: seq<Slot>, k: nat)
    requires Ordering(offsets, order) && k < |order|
    ensures |order| == |offsets| && order[k].index < |offsets| && offsets[order[k].index] == order[k].offset
  {
  }

  /** The loop at line 337. It succeeds exactly when every offset is inside the
      region, whatever order qsort gives equal offsets. */
  method AssignSizes(offsets: seq<nat>, order: seq<Slot>, region: nat, sizes: array<nat>) returns (ok: bool)
    requires Ordering(offsets, order) && sizes.Length == |offsets|
    requires forall i :: 0 <= i < sizes.Length ==> sizes[i] == 0
    modifies sizes
    ensures ok <==> Within(offsets, region)
    ensures ok ==> Tiles(offsets, sizes[..], region)
  {
    hide Tiles, Within, Assigned, Ordering;
    NoneAssigned(offsets, order, region, sizes[..]);
    for i := 0 to |order|
      invariant Assigned(order, region, sizes[..], i)
    {
      InOrder(offsets, order, i);
      var idx := order[i].index;
      var cur := offsets[idx];
      var next := Next(order, region, i);
      if next < cur {
        StuckIsOutside(offsets, order, region, i);
        return false;
      }
      AssignStep(offsets, order, region, sizes[..], i);
      ghost var before := sizes[..];
      sizes[idx] := next - cur;
      assert sizes[..] == before[idx := next - cur];
    }
    AllAssigned(offsets, order, region, sizes[..]);
    ok := true;
  }

  // ----- the whole table -----

  datatype Entry = Entry(info: TensorInfo, byteSize: nat)

  function Offsets(ts: seq<TensorInfo>): (s: seq<nat>)
    ensures |s| == |ts| && forall i :: 0 <= i < |ts| ==> s[i] == ts[i].offset
  {
    seq(|ts|, i requires 0 <= i < |ts| => ts[i].offset)
  }

  function Sizes(table: seq<Entry>): (s: seq<nat>)
    ensures |s| == |table| && forall i :: 0 <= i < |table| ==> s[i] == table[i].byteSize
  {
    seq(|table|, i requires 0 <= i < |table| => table[i].byteSize)
  }

  /** Line 330: the sum is taken modulo 2^64. */
  predicate PassesBoundCheck(dataOffset: nat, offset: nat, fileSize: nat) {
    (dataOffset + offset) % U64_LIMIT <= fileSize
  }

  predicate AllPass(ts: seq<TensorInfo>, n: nat, dataOffset: nat, fileSize: nat)
    requires n <= |ts|
  {
    forall i :: 0 <= i < n ==> PassesBoundCheck(dataOffset, ts[i].offset, fileSize)
  }

  lemma PassStep(ts: seq<TensorInfo>, n: nat, dataOffset: nat, fileSize: nat)
    requires n <= |ts|
    ensures n == 0 ==> AllPass(ts, 0, dataOffset, fileSize)
    ensures n > 0 ==> (AllPass(ts, n, dataOffset, fileSize) <==>
      AllPass(ts, n - 1, dataOffset, fileSize) && PassesBoundCheck(dataOffset, ts[n - 1].offset, fileSize))
    ensures n < |ts| && !PassesBoundCheck(dataOffset, ts[n].offset, fileSize) ==>
      !AllPass(ts, |ts|, dataOffset, fileSize)
  {
    hide PassesBoundCheck;
  }

  /** An inspected file has a readable tensor table. */
  lemma InspectedTable(file: seq<Byte>)
    requires Inspect(file).Ok?
    ensures var s := Inspect(file).value;
            AfterPairs(file, 24, s.kvCount) == Pos(s.tensorInfoOffset) &&
            AfterTensors(file, s.tensorInfoOffset, s.tensorCount).Pos?
  {
    hide LeAt, Summarise, Records, AfterPairs, AfterTensors;
  }

  /** The records of an inspected file. */
  function TableOf(file: seq<Byte>): (ts: seq<TensorInfo>)
    requires Inspect(file).Ok?
    ensures |ts| == Inspect(file).value.tensorCount
  {
    InspectedTable(file);
    var s := Inspect(file).value;
    Records(file, s.tensorInfoOffset, s.tensorCount)
  }

  /** What loading the table returns: on success the records, with sizes that tile
      the data region; on failure, why. `memory` says whether both callocs return a
      block, which for a table of no tensors is up to the C library. */
  ghost predicate Loads(file: seq<Byte>, memory: bool, r: Result<seq<Entry>>) {
    match Inspect(file)
    case Err(e) => r == Err(e)
    case Ok(s) =>
      var ts := TableOf(file);
      if |file| < s.dataOffset then r == Err(DataPastEof)
      else if !memory then r == Err(OutOfMemory)
      else if !AllPass(ts, |ts|, s.dataOffset, |file|) then r == Err(OffsetPastEof)
      else if !Within(Offsets(ts), |file| - s.dataOffset) then r == Err(NotMonotonic)
      else
        r.Ok? && |r.value| == |ts| && (forall i :: 0 <= i < |ts| ==> r.value[i].info == ts[i]) &&
        Tiles(Offsets(ts), Sizes(r.value), |file| - s.dataOffset)
  }

  lemma {:induction false} RecordAt(file: seq<Byte>, pos: nat, i: nat, n: nat)
    requires i < n && AfterTensors(file, pos, n).Pos?
    ensures AfterTensors(file, pos, i).Pos? && AfterTensor(file, AfterTensors(file, pos, i).at).Pos?
    ensures Records(file, pos, n)[i] == TensorAt(file, AfterTensors(file, pos, i).at)
  {
    hide AfterTensor, TensorAt;
    if i < n - 1 { RecordAt(file, pos, i, n - 1); }
  }

  /** qsort as the C standard describes it: a sorted permutation, in any order of
      equal offsets. */
  ghost predicate Sorts(qsort: seq<Slot> -> seq<Slot>) {
    forall s :: Sorted(qsort(s)) && multiset(qsort(s)) == multiset(s)
  }

  /** Where the cursor is before record `i`. */
  function RecordPos(file: seq<Byte>, i: nat): Walk
    requires Inspect(file).Ok?
  {
    AfterTensors(file, Inspect(file).value.tensorInfoOffset, i)
  }

  lemma TableAt(file: seq<Byte>, i: nat)
    requires Inspect(file).Ok? && i < |TableOf(file)|
    ensures RecordPos(file, i).Pos? && AfterTensor(file, RecordPos(file, i).at).Pos?
    ensures TableOf(file)[i] == TensorAt(file, RecordPos(file, i).at)
    ensures RecordPos(file, i + 1) == AfterTensor(file, RecordPos(file, i).at)
  {
    InspectedTable(file);
    var s := Inspect(file).value;
    hide Inspect, AfterTensor, TensorAt;
    RecordAt(file, s.tensorInfoOffset, i, s.tensorCount);
  }

  method ReadChecked(f: File, dataOffset: nat) returns (r: Result<TensorInfo>)
    requires AfterTensor(f.bytes, f.pos).Pos?
    modifies f
    ensures var t := TensorAt(f.bytes, old(f.pos));
            r == if PassesBoundCheck(dataOffset, t.offset, |f.bytes|) then Ok(t) else Err(OffsetPastEof)
    ensures r.Ok? ==> Pos(f.pos) == AfterTensor(f.bytes, old(f.pos))
  {
    hide AfterTensor, TensorAt, PassesBoundCheck;
    var t := f.ReadTensor();
    if !PassesBoundCheck(dataOffset, t.value.offset, |f.bytes|) { return Err(OffsetPastEof); }
    r := t;
  }

  /** Records read so far: they passed the check, and the cursor is after them. */
  ghost predicate SoFar(file: seq<Byte>, dataOffset: nat, read: seq<TensorInfo>, pos: nat) {
    Inspect(file).Ok? && |read| <= |TableOf(file)| && read == TableOf(file)[..|read|] &&
    AllPass(TableOf(file), |read|, dataOffset, |file|) && RecordPos(file, |read|) == Pos(pos)
  }

  lemma NextRecord(file: seq<Byte>, dataOffset: nat, read: seq<TensorInfo>, pos: nat)
    requires SoFar(file, dataOffset, read, pos) && |read| < |TableOf(file)|
    ensures AfterTensor(file, pos).Pos?
    ensures var t := TensorAt(file, pos);
            if PassesBoundCheck(dataOffset, t.offset, |file|)
            then SoFar(file, dataOffset, read + [t], AfterTensor(file, pos).at)
            else !AllPass(TableOf(file), |TableOf(file)|, dataOffset, |file|)
  {
    hide Inspect, TableOf, AfterTensor, TensorAt, RecordPos, PassesBoundCheck, AllPass;
    var ts := TableOf(file);
    TableAt(file, |read|);
    PassStep(ts, |read|, dataOffset, |file|);
    PassStep(ts, |read| + 1, dataOffset, |file|);
    assert ts[..|read| + 1] == ts[..|read|] + [ts[|read|]];
  }

  /** The loop at line 316: the records again, with their offsets checked. */
  method ReadTable(f: File, dataOffset: nat, tensors: array<TensorInfo>) returns (ok: bool)
    requires Inspect(f.bytes).Ok? && tensors.Length == |TableOf(f.bytes)| && Pos(f.pos) == RecordPos(f.bytes, 0)
    modifies f, tensors
    ensures ok ==> tensors[..] == TableOf(f.bytes)
    ensures ok <==> AllPass(TableOf(f.bytes), |TableOf(f.bytes)|, dataOffset, |f.bytes|)
  {
    hide Inspect, TableOf, AfterTensor, TensorAt, RecordPos, PassesBoundCheck, AllPass;
    PassStep(TableOf(f.bytes), 0, dataOffset, |f.bytes|);
    assert SoFar(f.bytes, dataOffset, tensors[..0], f.pos);
    for i := 0 to tensors.Length
      invariant SoFar(f.bytes, dataOffset, tensors[..i], f.pos)
    {
      hide SoFar;
      ghost var read := tensors[..i];
      NextRecord(f.bytes, dataOffset, read, f.pos);
      var t := ReadChecked(f, dataOffset);
      if t.Err? { return false; }
      tensors[i] := t.value;
      assert tensors[..i + 1] == read + [t.value];
    }
    assert tensors[..] == tensors[..tensors.Length];
    ok := true;
  }

  /** qx_gguf_load_tensor_table on a file that opens. */
  method LoadTensorTable(bytes: seq<Byte>, memory: bool, qsort: seq<Slot> -> seq<Slot>) returns (r: Result<seq<Entry>>)
    requires Sorts(qsort)
    ensures Loads(bytes, memory, r)
  {
    hide Inspect, TableOf, PassesBoundCheck, Tiles, Within, Ordering, RecordPos;
    var inspected := InspectFile(bytes);
    if inspected.Err? { return Err(inspected.error); }
    var s := inspected.value;
    if |bytes| < s.dataOffset { return Err(DataPastEof); }
    if !memory { return Err(OutOfMemory); }
    var f := new File(bytes);
    f.pos := s.tensorInfoOffset;
    TableStart(bytes);
    var tensors := new TensorInfo[s.tensorCount];
    var ok := ReadTable(f, s.dataOffset, tensors);
    if !ok { return Err(OffsetPastEof); }
    var offsets := Offsets(tensors[..]);
    var order := qsort(Slots(offsets, |offsets|));
    SortedOrders(offsets, order);
    var sizes := new nat[s.tensorCount](_ => 0);
    ok := AssignSizes(offsets, order, |bytes| - s.dataOffset, sizes);
    if !ok { return Err(NotMonotonic); }
    var table := seq(s.tensorCount,
                     i requires 0 <= i < s.tensorCount reads tensors, sizes => Entry(tensors[i], sizes[i]));
    assert Sizes(table) == sizes[..];
    r := Ok(table);
  }

  lemma TableStart(file: seq<Byte>)
    requires Inspect(file).Ok?
    ensures RecordPos(file, 0) == Pos(Inspect(file).value.tensorInfoOffset)
    ensures |TableOf(file)| == Inspect(file).value.tensorCount
  {
    hide Inspect, TableOf;
  }

  /** Although the sum at line 330 can wrap, a table is accepted exactly when there is
      memory and every offset lies inside the data region. */
  lemma AcceptedExactlyInside(file: seq<Byte>, memory: bool, r: Result<seq<Entry>>)
    requires Loads(file, memory, r) && |file| < U64_LIMIT
    ensures r.Ok? <==>
      memory && Inspect(file).Ok? && Inspect(file).value.dataOffset <= |file| &&
      Within(Offsets(TableOf(file)), |file| - Inspect(file).value.dataOffset)
  {
    hide Inspect, TableOf, Tiles;
    if Inspect(file).Ok? && Inspect(file).value.dataOffset <= |file| {
      var s, ts := Inspect(file).value, TableOf(file);
      if Within(Offsets(ts), |file| - s.dataOffset) {
        forall i | 0 <= i < |ts| ensures PassesBoundCheck(s.dataOffset, ts[i].offset, |file|) {
          assert Offsets(ts)[i] <= |file| - s.dataOffset;
        }
      }
    }
  }
}
