/** Why the derived budget makes the cache hit: the keys the matrix product of
    src/qx_format.c:4835-4863 asks for, and what happens to them in the cache. */
module WorkingSetTraces {
  import opened Words
  import opened ExpertCacheSpec
  import opened ExpertCacheInvariant
  import opened ExpertCacheTraces
  import opened WorkingSetBudget

  // ----- requests -----

  /** One read of an expert's slice. */
  datatype Use = Use(layer: nat, expert: nat, kind: Kind)

  /** A packed tensor as the matrix product reads it: for each of `experts`
      (its dims[2]) `rows` rows (its dims[1]) of `rowBytes` bytes. */
  datatype Shape = Shape(rowBytes: U64, rows: U64, experts: U64)

  function ExpertBytes(s: Shape): nat { s.rowBytes * s.rows }

  /** The guards of lines 4838 and 4846-4853 for every expert of the model. The
      experts need not fill the tensor: its bytes may be padded. */
  predicate Packed(t: Tensor, s: Shape, experts: U32) {
    ExpertBytes(s) > 0 && experts <= s.experts && s.experts * ExpertBytes(s) <= t.byteSize
  }

  ghost predicate AllPacked(m: Metadata, shapes: map<(nat, Kind), Shape>) {
    forall layer: nat, kind {:trigger (layer, kind) in shapes} :: layer < m.layers ==>
      (layer, kind) in m.tensors && (layer, kind) in shapes &&
      Packed(m.tensors[(layer, kind)], shapes[(layer, kind)], m.experts)
  }

  /** parse_qxf rejects a tensor outside its file (scripts/expert_cache_acceptance.py:213-214). */
  ghost predicate InFile(m: Metadata) {
    forall layer: nat, kind :: (layer, kind) in m.tensors ==>
      m.tensors[(layer, kind)].offset + m.tensors[(layer, kind)].byteSize <= U64_MAX
  }

  lemma SliceInside(experts: nat, all: nat, slice: nat, bytes: nat, expert: nat)
    requires 0 < experts <= all && all * slice <= bytes && expert < experts
    ensures slice <= bytes / experts && expert * slice + slice <= bytes
  {
    Products(experts, all, slice);
    Products(expert + 1, experts, slice);
    assert (expert + 1) * slice == expert * slice + slice;
    if slice > bytes / experts { Products(bytes / experts + 1, slice, experts); }
  }

  lemma Products(a: nat, b: nat, c: nat)
    requires a <= b
    ensures a * c <= b * c && a * c == c * a && b * c == c * b
  {
    assert (b - a) * c >= 0;
  }

  ghost predicate InModel(m: Metadata, u: Use) { u.layer < m.layers && u.expert < m.experts }

  lemma KeyFits(m: Metadata, shapes: map<(nat, Kind), Shape>, u: Use)
    requires m.experts > 0 && AllPacked(m, shapes) && InModel(m, u)
    ensures (u.layer, u.kind) in m.tensors && (u.layer, u.kind) in shapes
    ensures var slice := ExpertBytes(shapes[(u.layer, u.kind)]); var bytes := m.tensors[(u.layer, u.kind)].byteSize;
            0 < slice <= SliceBytes(m, u.layer, u.kind) && u.expert * slice + slice <= bytes && u.expert * slice >= 0
  {
    var s := shapes[(u.layer, u.kind)];
    SliceInside(m.experts, s.experts, ExpertBytes(s), m.tensors[(u.layer, u.kind)].byteSize, u.expert);
  }

  /** The key of line 4862. */
  ghost function KeyOf(m: Metadata, shapes: map<(nat, Kind), Shape>, u: Use): Key
    requires m.experts > 0 && AllPacked(m, shapes) && InModel(m, u)
  {
    KeyFits(m, shapes, u);
    var slice := ExpertBytes(shapes[(u.layer, u.kind)]);
    Key(m.tensors[(u.layer, u.kind)].offset, u.expert * slice, slice, u.expert, 0)
  }

  /** The slice the cache reads is no larger than the slice the budget counts. */
  lemma KeyWithin(m: Metadata, shapes: map<(nat, Kind), Shape>, u: Use)
    requires m.experts > 0 && AllPacked(m, shapes) && InModel(m, u)
    ensures 0 < KeyOf(m, shapes, u).sliceBytes <= SliceBytes(m, u.layer, u.kind)
  {
    KeyFits(m, shapes, u);
  }

  // ----- the keys of a working set -----

  function ExpertsUsed(uses: seq<Use>, layer: nat): set<nat> {
    set u | u in uses && u.layer == layer :: u.expert
  }

  ghost function Listed(s: set<nat>): (l: seq<nat>)
    ensures |l| == |s| && forall x :: x in l <==> x in s
  {
    if s == {} then [] else
      var x :| x in s;
      [x] + Listed(s - {x})
  }

  lemma {:induction false} BytesAppend(a: seq<Key>, b: seq<Key>)
    ensures Bytes(a + b) == Bytes(a) + Bytes(b)
  {
    if a == [] {
      assert a + b == b;
    } else {
      assert (a + b)[1..] == a[1..] + b;
      BytesAppend(a[1..], b);
    }
  }

  ghost function ExpertKeys(m: Metadata, shapes: map<(nat, Kind), Shape>, layer: nat, e: nat): seq<Key>
    requires m.experts > 0 && AllPacked(m, shapes) && layer < m.layers && e < m.experts
  {
    [KeyOf(m, shapes, Use(layer, e, Gate)), KeyOf(m, shapes, Use(layer, e, Up)), KeyOf(m, shapes, Use(layer, e, Down))]
  }

  lemma ExpertKeysBytes(m: Metadata, shapes: map<(nat, Kind), Shape>, layer: nat, e: nat)
    requires m.experts > 0 && AllPacked(m, shapes) && layer < m.layers && e < m.experts
    ensures Bytes(ExpertKeys(m, shapes, layer, e)) <= OneExpert(m, layer)
  {
    hide KeyOf, AllPacked, SliceBytes;
    KeyWithin(m, shapes, Use(layer, e, Gate));
    KeyWithin(m, shapes, Use(layer, e, Up));
    KeyWithin(m, shapes, Use(layer, e, Down));
    ThreeKeys(KeyOf(m, shapes, Use(layer, e, Gate)), KeyOf(m, shapes, Use(layer, e, Up)),
              KeyOf(m, shapes, Use(layer, e, Down)));
  }

  lemma ThreeKeys(a: Key, b: Key, c: Key)
    ensures Bytes([a, b, c]) == a.sliceBytes + b.sliceBytes + c.sliceBytes
  {
    assert [a, b, c][1..] == [b, c] && [b, c][1..] == [c] && [c][1..] == [];
    assert Bytes([c]) == c.sliceBytes;
    assert Bytes([b, c]) == b.sliceBytes + c.sliceBytes;
  }

  ghost function LayerKeys(m: Metadata, shapes: map<(nat, Kind), Shape>, layer: nat, experts: seq<nat>): seq<Key>
    requires m.experts > 0 && AllPacked(m, shapes) && layer < m.layers && forall e <- experts :: e < m.experts
  {
    if experts == [] then [] else
      assert experts[0] in experts && forall e <- experts[1..] :: e in experts;
      ExpertKeys(m, shapes, layer, experts[0]) + LayerKeys(m, shapes, layer, experts[1..])
  }

  lemma {:induction false} LayerKeysCover(m: Metadata, shapes: map<(nat, Kind), Shape>, layer: nat, experts: seq<nat>,
                                          e: nat, kind: Kind)
    requires m.experts > 0 && AllPacked(m, shapes) && layer < m.layers && forall e <- experts :: e < m.experts
    requires e in experts
    ensures KeyOf(m, shapes, Use(layer, e, kind)) in LayerKeys(m, shapes, layer, experts)
    decreases |experts|
  {
    hide KeyOf, AllPacked;
    assert experts[0] in experts && forall e <- experts[1..] :: e in experts;
    if e == experts[0] {
      assert kind == Gate || kind == Up || kind == Down;
      assert KeyOf(m, shapes, Use(layer, e, kind)) in ExpertKeys(m, shapes, layer, e);
    } else {
      LayerKeysCover(m, shapes, layer, experts[1..], e, kind);
    }
  }

  lemma {:induction false} LayerKeysBytes(m: Metadata, shapes: map<(nat, Kind), Shape>, layer: nat, experts: seq<nat>)
    requires m.experts > 0 && AllPacked(m, shapes) && layer < m.layers && forall e <- experts :: e < m.experts
    ensures Bytes(LayerKeys(m, shapes, layer, experts)) <= |experts| * OneExpert(m, layer)
    decreases |experts|
  {
    hide ExpertKeys, AllPacked, OneExpert, Bytes;
    if experts != [] {
      assert experts[0] in experts && forall e <- experts[1..] :: e in experts;
      ExpertKeysBytes(m, shapes, layer, experts[0]);
      BytesAppend(ExpertKeys(m, shapes, layer, experts[0]), LayerKeys(m, shapes, layer, experts[1..]));
      LayerKeysBytes(m, shapes, layer, experts[1..]);
      OneMore(|experts[1..]|, OneExpert(m, layer));
    } else {
      NoBytes();
    }
  }

  lemma NoBytes()
    ensures Bytes([]) == 0
  {
  }

  lemma OneMore(n: nat, x: nat)
    ensures (n + 1) * x == x + n * x
  {
  }

  /** At most top-k distinct experts in every layer. */
  ghost predicate TopK(m: Metadata, uses: seq<Use>) {
    (forall u <- uses :: InModel(m, u)) &&
    forall layer: nat {:trigger ExpertsUsed(uses, layer)} :: layer < m.layers ==>
      |ExpertsUsed(uses, layer)| <= m.expertsPerToken
  }

  /** Every key of such uses lies in a list of at most the derived budget's bytes. */
  lemma {:induction false} WorkingSetKeys(m: Metadata, shapes: map<(nat, Kind), Shape>, uses: seq<Use>, layers: nat)
    returns (ws: seq<Key>)
    requires m.experts > 0 && AllPacked(m, shapes) && TopK(m, uses) && layers <= m.layers
    ensures Bytes(ws) <= WorkingSet(m, layers)
    ensures forall u <- uses :: u.layer < layers ==> KeyOf(m, shapes, u) in ws
  {
    hide KeyOf, AllPacked, LayerKeys, OneExpert, Bytes;
    if layers == 0 {
      ws := [];
      NoBytes();
    } else {
      var front := WorkingSetKeys(m, shapes, uses, layers - 1);
      var used := ExpertsUsed(uses, layers - 1);
      var experts := Listed(used);
      var keys := LayerKeys(m, shapes, layers - 1, experts);
      LayerKeysBytes(m, shapes, layers - 1, experts);
      LessTimes(|used|, m.expertsPerToken, OneExpert(m, layers - 1));
      BytesAppend(front, keys);
      ws := front + keys;
      forall u | u in uses && u.layer < layers ensures KeyOf(m, shapes, u) in ws {
        if u.layer == layers - 1 {
          assert u.expert in used && u == Use(layers - 1, u.expert, u.kind);
          LayerKeysCover(m, shapes, layers - 1, experts, u.expert, u.kind);
        }
      }
    }
  }

  lemma LessTimes(a: nat, b: nat, c: nat)
    requires a <= b
    ensures a * c <= c * b
  {
    assert (b - a) * c >= 0;
  }

  /** With the derived budget no key of the model is ever refused. */
  lemma KeyAccepted(m: Metadata, shapes: map<(nat, Kind), Shape>, u: Use, st: State)
    requires m.experts > 0 && m.expertsPerToken > 0 && AllPacked(m, shapes) && InFile(m) && InModel(m, u)
    requires st.initialized && st.budget == WorkingSet(m, m.layers) && st.budget <= st.sizeMax
    ensures var key := KeyOf(m, shapes, u); Refusal(st, key) == None && key.sliceBytes <= st.budget
  {
    hide WorkingSet, MaximumSlice, AllPacked, ExpertBytes;
    KeyFits(m, shapes, u);
    EverySliceFits(m, m.layers);
    assert SliceBytes(m, u.layer, u.kind) <= MaximumSlice(m, m.layers);
  }

  // ----- callbacks that work are all that is needed -----

  /** Every acquire that gets that far finds working callbacks. */
  ghost predicate Answered(st: State, trace: seq<Request>)
    requires Idle(st) && HasRoom(st.counters, |trace|, TraceBytes(trace))
    decreases |trace|
  {
    trace == [] ||
    (Serves(st, trace[0]) &&
     (Admissible(st, trace[0]) ==> (TouchRefinesLru(st, trace[0]); Answered(Touch(st, trace[0]).0, trace[1..]))))
  }

  lemma TouchKeepsSizeMax(st: State, r: Request)
    requires Accounted(st)
    ensures Touch(st, r).0.sizeMax == st.sizeMax
  {
    hide Total;
    if r.key.sliceBytes <= st.budget { MakeRoomFrame(CountMiss(st), r.key.sliceBytes); }
  }

  lemma {:induction false} AnsweredIsSmooth(st: State, trace: seq<Request>)
    requires Idle(st) && HasRoom(st.counters, |trace|, TraceBytes(trace)) && Answered(st, trace)
    requires forall r <- trace :: Refusal(st, r.key) == None && r.key.sliceBytes <= st.budget
    ensures Smooth(st, trace)
    decreases |trace|
  {
    hide Inv, Serves, Touch, Accounted, Keys, LruStep;
    ResidentBytes(st);
    if trace != [] {
      assert trace[0] in trace && forall r <- trace[1..] :: r in trace;
      TouchRefinesLru(st, trace[0]);
      TouchKeepsSizeMax(st, trace[0]);
      AnsweredIsSmooth(Touch(st, trace[0]).0, trace[1..]);
    }
  }

  /** With the derived budget, every trace that uses at most top-k experts in each
      layer and finds working callbacks is served: no request is refused, nothing
      is evicted, and each distinct slice is read once. */
  lemma DerivedBudgetFits(m: Metadata, shapes: map<(nat, Kind), Shape>, uses: seq<Use>, st: State, trace: seq<Request>)
    requires m.experts > 0 && AllPacked(m, shapes) && InFile(m) && TopK(m, uses)
    requires Idle(st) && st.entries == [] && st.budget == WorkingSet(m, m.layers) && st.budget <= st.sizeMax
    requires HasRoom(st.counters, |trace|, TraceBytes(trace)) && Answered(st, trace)
    requires |trace| == |uses| && forall i :: 0 <= i < |uses| ==> trace[i].key == KeyOf(m, shapes, uses[i])
    ensures Smooth(st, trace)
    ensures var after := Play(st, trace).counters; var distinct := |KeysIn(TraceKeys(trace))|;
            after.evictions == st.counters.evictions &&
            after.loads - st.counters.loads == distinct && after.misses - st.counters.misses == distinct
  {
    hide KeyOf, AllPacked, InFile, WorkingSet, Refusal, Play, Inv;
    var ws := WorkingSetKeys(m, shapes, uses, m.layers);
    forall i | 0 <= i < |trace|
      ensures trace[i].key in ws && Refusal(st, trace[i].key) == None && trace[i].key.sliceBytes <= st.budget
    {
      assert uses[i] in uses && uses[i].expert in ExpertsUsed(uses, uses[i].layer);
      KeyAccepted(m, shapes, uses[i], st);
    }
    AnsweredIsSmooth(st, trace);
    WorkingSetIsReadOnce(st, trace, ws);
  }
}
