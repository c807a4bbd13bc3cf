/** The cache budget that scripts/expert_cache_acceptance.py:224-269 derives. */
module WorkingSetBudget {
  import opened Words
  import opened ExpertCacheSpec

  datatype Kind = Gate | Up | Down

  /** A directory entry; the name blk.<layer>.ffn_<kind>_exps.weight is the pair (layer, kind). */
  datatype Tensor = Tensor(offset: U64, byteSize: U64)

  datatype Metadata = Metadata(layers: nat, experts: U32, expertsPerToken: nat, tensors: map<(nat, Kind), Tensor>)

  /** The error names the tensor. */
  datatype BudgetError =
    | MissingTensor(layer: nat, kind: Kind) | NotDivisible(layer: nat, kind: Kind) | EmptySlice(layer: nat, kind: Kind)

  /** One line of the per-layer breakdown. */
  datatype LayerReport = LayerReport(layer: nat, gate: nat, up: nat, down: nat, oneExpert: nat, topK: nat)

  datatype Budget =
    | Derived(budget: nat, maximumSlice: nat, available: nat, safeLimit: nat, withinAvailable: bool, withinSafe: bool,
              admissionFits: bool, feasible: bool, perLayer: seq<LayerReport>)
    | Rejected(error: BudgetError)

  const MAX_REASONABLE_CACHE_BYTES: nat := 2 * 1024 * 1024 * 1024

  const KINDS: seq<Kind> := [Gate, Up, Down]

  predicate Usable(m: Metadata, layer: nat, kind: Kind)
    requires m.experts > 0
  {
    (layer, kind) in m.tensors && m.tensors[(layer, kind)].byteSize % m.experts == 0 &&
    m.tensors[(layer, kind)].byteSize / m.experts > 0
  }

  predicate LayerUsable(m: Metadata, layer: nat)
    requires m.experts > 0
  {
    Usable(m, layer, Gate) && Usable(m, layer, Up) && Usable(m, layer, Down)
  }

  predicate Complete(m: Metadata, layers: nat)
    requires m.experts > 0
  {
    forall layer: nat :: layer < layers ==> LayerUsable(m, layer)
  }

  /** Bytes of one expert's slice; 0 for a tensor that is not there. */
  function SliceBytes(m: Metadata, layer: nat, kind: Kind): nat
    requires m.experts > 0
  {
    if (layer, kind) in m.tensors then m.tensors[(layer, kind)].byteSize / m.experts else 0
  }

  function OneExpert(m: Metadata, layer: nat): nat
    requires m.experts > 0
  {
    SliceBytes(m, layer, Gate) + SliceBytes(m, layer, Up) + SliceBytes(m, layer, Down)
  }

  /** Packed bytes of top-k experts in each of the first `layers` layers. */
  function WorkingSet(m: Metadata, layers: nat): nat
    requires m.experts > 0
  {
    if layers == 0 then 0 else WorkingSet(m, layers - 1) + OneExpert(m, layers - 1) * m.expertsPerToken
  }

  lemma BoundsAllKinds(m: Metadata, layer: nat, most: nat)
    requires m.experts > 0
    requires SliceBytes(m, layer, Gate) <= most && SliceBytes(m, layer, Up) <= most
    requires SliceBytes(m, layer, Down) <= most
    ensures forall kind :: SliceBytes(m, layer, kind) <= most
  {
    forall kind: Kind ensures SliceBytes(m, layer, kind) <= most {
      match kind { case Gate => case Up => case Down => }
    }
  }

  /** The largest of `least` and the layer's slices. */
  function LayerMaximum(m: Metadata, layer: nat, least: nat): (most: nat)
    requires m.experts > 0
    ensures least <= most && forall kind :: SliceBytes(m, layer, kind) <= most
    ensures most == least || exists kind :: SliceBytes(m, layer, kind) == most
  {
    var most := Max(Max(Max(least, SliceBytes(m, layer, Gate)), SliceBytes(m, layer, Up)), SliceBytes(m, layer, Down));
    BoundsAllKinds(m, layer, most);
    most
  }

  /** The largest slice of the first `layers` layers. */
  function MaximumSlice(m: Metadata, layers: nat): (most: nat)
    requires m.experts > 0
    ensures forall layer: nat, kind :: layer < layers ==> SliceBytes(m, layer, kind) <= most
  {
    if layers == 0 then 0 else LayerMaximum(m, layers - 1, MaximumSlice(m, layers - 1))
  }

  /** Why a tensor is not usable. */
  function Fault(m: Metadata, layer: nat, kind: Kind): BudgetError
    requires m.experts > 0
  {
    if (layer, kind) !in m.tensors then MissingTensor(layer, kind)
    else if m.tensors[(layer, kind)].byteSize % m.experts != 0 then NotDivisible(layer, kind)
    else EmptySlice(layer, kind)
  }

  /** The first fault of a layer, in the order gate, up, down. */
  function LayerFault(m: Metadata, layer: nat): Option<BudgetError>
    requires m.experts > 0
  {
    if !Usable(m, layer, Gate) then Some(Fault(m, layer, Gate))
    else if !Usable(m, layer, Up) then Some(Fault(m, layer, Up))
    else if !Usable(m, layer, Down) then Some(Fault(m, layer, Down)) else None
  }

  /** Lines 230-242: the slice sizes of one layer; the first bad tensor decides the error. */
  method ReadLayer(m: Metadata, layer: nat, least: nat)
    returns (sizes: map<Kind, nat>, most: nat, error: Option<BudgetError>)
    requires m.experts > 0
    ensures error == LayerFault(m, layer)
    ensures error.None? ==>
      sizes == map[Gate := SliceBytes(m, layer, Gate), Up := SliceBytes(m, layer, Up),
        Down := SliceBytes(m, layer, Down)] &&
      most == LayerMaximum(m, layer, least)
  {
    sizes, most, error := map[], least, None;
    for k := 0 to 3
      invariant (k > 0 ==> Usable(m, layer, Gate)) && (k > 1 ==> Usable(m, layer, Up)) && error == None
      invariant k == 0 ==> sizes == map[] && most == least
      invariant k == 1 ==>
        sizes == map[Gate := SliceBytes(m, layer, Gate)] && most == Max(least, SliceBytes(m, layer, Gate))
      invariant k == 2 ==>
        sizes == map[Gate := SliceBytes(m, layer, Gate), Up := SliceBytes(m, layer, Up)] &&
        most == Max(Max(least, SliceBytes(m, layer, Gate)), SliceBytes(m, layer, Up))
      invariant k == 3 ==>
        LayerUsable(m, layer) && most == LayerMaximum(m, layer, least) &&
        sizes == map[Gate := SliceBytes(m, layer, Gate), Up := SliceBytes(m, layer, Up),
          Down := SliceBytes(m, layer, Down)]
    {
      var kind := KINDS[k];
      assert kind == if k == 0 then Gate else if k == 1 then Up else Down;
      if (layer, kind) !in m.tensors { return sizes, most, Some(MissingTensor(layer, kind)); }
      var tensor := m.tensors[(layer, kind)];
      if tensor.byteSize % m.experts != 0 { return sizes, most, Some(NotDivisible(layer, kind)); }
      var size := tensor.byteSize / m.experts;
      if size <= 0 { return sizes, most, Some(EmptySlice(layer, kind)); }
      assert Usable(m, layer, kind);
      sizes := sizes[kind := size];
      most := Max(most, size);
    }
  }

  /** `e` is the fault of the first layer that has one. */
  predicate FirstFault(m: Metadata, layer: nat, e: BudgetError)
    requires m.experts > 0
  {
    layer < m.layers && Complete(m, layer) && LayerFault(m, layer) == Some(e)
  }

  lemma FaultyLayer(m: Metadata, layer: nat)
    requires m.experts > 0 && layer < m.layers
    ensures Complete(m, layer) && LayerFault(m, layer).Some? ==>
      !Complete(m, m.layers) && FirstFault(m, layer, LayerFault(m, layer).value)
    ensures Complete(m, layer) && LayerFault(m, layer).None? ==> Complete(m, layer + 1)
  {
    assert Complete(m, m.layers) ==> LayerUsable(m, layer);
    assert Complete(m, layer + 1) <==> Complete(m, layer) && LayerUsable(m, layer);
  }

  lemma NoLayers(m: Metadata)
    requires m.experts > 0
    ensures Complete(m, 0) && WorkingSet(m, 0) == MaximumSlice(m, 0) == 0
  {
  }

  lemma OneMoreLayer(m: Metadata, layer: nat)
    requires m.experts > 0
    ensures WorkingSet(m, layer + 1) == WorkingSet(m, layer) + OneExpert(m, layer) * m.expertsPerToken
    ensures MaximumSlice(m, layer + 1) == LayerMaximum(m, layer, MaximumSlice(m, layer))
  {
  }

  function ReportOf(m: Metadata, layer: nat): LayerReport
    requires m.experts > 0
  {
    LayerReport(layer, SliceBytes(m, layer, Gate), SliceBytes(m, layer, Up), SliceBytes(m, layer, Down),
                OneExpert(m, layer), OneExpert(m, layer) * m.expertsPerToken)
  }

  lemma Reported(m: Metadata, layer: nat, gate: nat, up: nat, down: nat, oneExpert: nat, topK: nat)
    requires m.experts > 0 && gate == SliceBytes(m, layer, Gate) && up == SliceBytes(m, layer, Up)
    requires down == SliceBytes(m, layer, Down) && oneExpert == gate + up + down
    requires topK == oneExpert * m.expertsPerToken
    ensures LayerReport(layer, gate, up, down, oneExpert, topK) == ReportOf(m, layer)
    ensures topK == OneExpert(m, layer) * m.expertsPerToken
  {
    hide SliceBytes;
  }

  /** derive_budget. */
  method DeriveBudget(m: Metadata, available: nat) returns (r: Budget)
    requires m.experts > 0
    ensures r.Derived? <==> Complete(m, m.layers)
    ensures r.Rejected? ==>
      exists layer: nat :: FirstFault(m, layer, r.error)
    ensures r.Derived? ==>
      r.budget == WorkingSet(m, m.layers) && r.maximumSlice == MaximumSlice(m, m.layers) &&
      |r.perLayer| == m.layers && (forall l :: 0 <= l < m.layers ==> r.perLayer[l] == ReportOf(m, l)) &&
      r.available == available && r.safeLimit == Min(available / 4, MAX_REASONABLE_CACHE_BYTES) &&
      r.withinAvailable == (r.budget <= available) && r.withinSafe == (r.budget <= r.safeLimit) &&
      r.admissionFits == (r.maximumSlice <= r.budget) && r.feasible == (r.admissionFits && r.withinSafe)
  {
    hide Complete, LayerFault, LayerMaximum, SliceBytes, WorkingSet, MaximumSlice, FirstFault, OneExpert, ReportOf;
    var perLayer, workingSet, maximumSlice := [], 0, 0;
    NoLayers(m);
    for layer := 0 to m.layers
      invariant Complete(m, layer)
      invariant workingSet == WorkingSet(m, layer) && maximumSlice == MaximumSlice(m, layer)
      invariant |perLayer| == layer && forall l :: 0 <= l < layer ==> perLayer[l] == ReportOf(m, l)
    {
      var sizes, most, error := ReadLayer(m, layer, maximumSlice);
      FaultyLayer(m, layer);
      if error.Some? {
        return Rejected(error.value);
      }
      OneMoreLayer(m, layer);
      maximumSlice := most;
      var oneExpert := sizes[Gate] + sizes[Up] + sizes[Down];
      var layerWorking := oneExpert * m.expertsPerToken;
      Reported(m, layer, sizes[Gate], sizes[Up], sizes[Down], oneExpert, layerWorking);
      workingSet := workingSet + layerWorking;
      perLayer := perLayer + [LayerReport(layer, sizes[Gate], sizes[Up], sizes[Down], oneExpert, layerWorking)];
    }
    var safe := Min(available / 4, MAX_REASONABLE_CACHE_BYTES);
    r := Derived(workingSet, maximumSlice, available, safe, workingSet <= available, workingSet <= safe,
                 maximumSlice <= workingSet, maximumSlice <= workingSet && workingSet <= safe, perLayer);
  }

  lemma AtLeastOnce(a: nat, b: nat)
    requires b > 0
    ensures a <= a * b
  {
    assert a * b == a + a * (b - 1);
    assert a * (b - 1) >= 0;
  }

  /** With at least one expert per token every single slice fits the derived budget. */
  lemma {:induction false} EverySliceFits(m: Metadata, layers: nat)
    requires m.experts > 0 && m.expertsPerToken > 0
    ensures MaximumSlice(m, layers) <= WorkingSet(m, layers)
  {
    if layers > 0 {
      EverySliceFits(m, layers - 1);
      AtLeastOnce(OneExpert(m, layers - 1), m.expertsPerToken);
    }
  }
}
