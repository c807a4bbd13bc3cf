/** The snapshot manifest's entries: built from a payload, and validated against it
    (scripts/kv_snapshot_replay.py:168-226 and 293-312). */
module KvEntries {
  import opened Words
  import opened Reorderings
  import opened LittleEndian
  import opened Floats
  import opened KvSnapshot

  // ----- entries as they come out of a JSON manifest -----

  /** A field that must be an integer. */
  datatype IntField = NotInt | Int(n: int)

  /** A field that must be a number; the value is what float() makes of it. */
  datatype NumberField = NotNumber | NonFinite | Number(value: real)

  /** A field that must be a lowercase SHA-256; the bytes are the digest it spells. */
  datatype HashField = NotHash | Hash(digest: seq<Byte>)

  datatype KindField = NotKind | K | V

  datatype Entry = Entry(layer: IntField, position: IntField, kind: KindField, offset: IntField, bytes: IntField,
                         sha256: HashField, scale: NumberField)

  /** _validate_scale. */
  predicate ScalePasses(s: NumberField, format: Format) {
    s.Number? && if format == Int8 then s.value > 0.0 else s.value == 1.0
  }

  // ----- what the payload says -----

  datatype Key = Key(layer: nat, position: nat, kind: KindField)

  predicate Valid(g: Geometry, k: Key) { k.layer < g.layers && k.position < g.positions && k.kind != NotKind }

  function VectorPlace(k: Key): Place { Place(k.layer, k.position, if k.kind == K then KVector else VVector) }

  function ScalePlace(k: Key): Place { Place(k.layer, k.position, if k.kind == K then KScale else VScale) }

  ghost predicate Fitting(g: Geometry, payload: seq<Byte>) { Sound(g) && |payload| == PayloadBytes(g) }

  /** The float32 scale stored for a vector. */
  function StoredScale(g: Geometry, payload: seq<Byte>, k: Key): NumberField
    requires Fitting(g, payload) && Valid(g, k)
  {
    PlaceBounds(g, ScalePlace(k));
    LeBound(payload, Start(g, ScalePlace(k)), 4);
    Limits();
    match Single(LeAt(payload, Start(g, ScalePlace(k)), 4))
    case None => NonFinite
    case Some(v) => Number(v)
  }

  function Vector(g: Geometry, payload: seq<Byte>, k: Key): seq<Byte>
    requires Fitting(g, payload) && Valid(g, k)
  {
    PlaceBounds(g, VectorPlace(k));
    payload[Start(g, VectorPlace(k))..Start(g, VectorPlace(k)) + g.vectorBytes]
  }

  /** The entry the builder makes for a vector. */
  function EntryOf(g: Geometry, payload: seq<Byte>, sha: seq<Byte> -> seq<Byte>, k: Key): Entry
    requires Fitting(g, payload) && Valid(g, k)
  {
    Entry(Int(k.layer), Int(k.position), k.kind, Int(Start(g, VectorPlace(k))), Int(g.vectorBytes),
          Hash(sha(Vector(g, payload, k))), StoredScale(g, payload, k))
  }

  /** The keys of the first `n` positions of a layer, in the builder's order. */
  function LayerKeys(layer: nat, n: nat): (ks: seq<Key>)
    ensures |ks| == 2 * n
  {
    if n == 0 then [] else LayerKeys(layer, n - 1) + [Key(layer, n - 1, K), Key(layer, n - 1, V)]
  }

  /** The keys of the first `m` layers. */
  function Keys(g: Geometry, m: nat): seq<Key> {
    if m == 0 then [] else Keys(g, m - 1) + LayerKeys(m - 1, g.positions)
  }

  lemma {:induction false} LayerKeysAre(layer: nat, n: nat, k: Key)
    ensures k in LayerKeys(layer, n) <==> k.layer == layer && k.position < n && k.kind != NotKind
  {
    if n > 0 { LayerKeysAre(layer, n - 1, k); }
  }

  lemma {:induction false} KeysAre(g: Geometry, m: nat, k: Key)
    ensures k in Keys(g, m) <==> k.layer < m && k.position < g.positions && k.kind != NotKind
  {
    if m > 0 {
      KeysAre(g, m - 1, k);
      LayerKeysAre(m - 1, g.positions, k);
    }
  }

  lemma {:induction false} LayerKeysOnce(layer: nat, n: nat)
    ensures NoRepeat(LayerKeys(layer, n))
  {
    if n > 0 {
      LayerKeysOnce(layer, n - 1);
      LayerKeysAre(layer, n - 1, Key(layer, n - 1, K));
      LayerKeysAre(layer, n - 1, Key(layer, n - 1, V));
    }
  }

  lemma {:induction false} KeysOnce(g: Geometry, m: nat)
    ensures NoRepeat(Keys(g, m))
  {
    if m > 0 {
      KeysOnce(g, m - 1);
      LayerKeysOnce(m - 1, g.positions);
      var a, b := Keys(g, m - 1), LayerKeys(m - 1, g.positions);
      forall i, j | 0 <= i < |a| && 0 <= j < |b| ensures a[i] != b[j] {
        KeysAre(g, m - 1, a[i]);
        LayerKeysAre(m - 1, g.positions, b[j]);
      }
      JoinOnce(a, b);
    }
  }

  predicate AllValid(g: Geometry, ks: seq<Key>) { forall i :: 0 <= i < |ks| ==> Valid(g, ks[i]) }

  function EntriesOf(g: Geometry, payload: seq<Byte>, sha: seq<Byte> -> seq<Byte>, ks: seq<Key>): (es: seq<Entry>)
    requires Fitting(g, payload) && AllValid(g, ks)
    ensures |es| == |ks| && forall i :: 0 <= i < |ks| ==> es[i] == EntryOf(g, payload, sha, ks[i])
  {
    seq(|ks|, i requires 0 <= i < |ks| => EntryOf(g, payload, sha, ks[i]))
  }

  lemma KeysValid(g: Geometry, m: nat)
    requires m <= g.layers
    ensures AllValid(g, Keys(g, m))
  {
    forall i | 0 <= i < |Keys(g, m)| ensures Valid(g, Keys(g, m)[i]) { KeysAre(g, m, Keys(g, m)[i]); }
  }

  /** The entries build_snapshot_manifest lists. */
  function Built(g: Geometry, payload: seq<Byte>, sha: seq<Byte> -> seq<Byte>): seq<Entry>
    requires Fitting(g, payload)
  {
    KeysValid(g, g.layers);
    EntriesOf(g, payload, sha, Keys(g, g.layers))
  }

  // ----- the validator -----

  /** Lines 199-224 for one entry, apart from the keys seen before: its key, if the
      entry passes. */
  function Check(g: Geometry, payload: seq<Byte>, sha: seq<Byte> -> seq<Byte>, e: Entry): (r: Option<Key>)
    requires Fitting(g, payload)
    ensures r.Some? ==> Valid(g, r.value)
  {
    if !e.layer.Int? || e.layer.n < 0 || !e.position.Int? || e.position.n < 0 then None
    else if !e.offset.Int? || e.offset.n < 0 || !e.bytes.Int? || e.bytes.n < 1 || e.kind == NotKind then None
    else
      var k := Key(e.layer.n, e.position.n, e.kind);
      if !Valid(g, k) then None
      else if e.bytes.n != g.vectorBytes || e.offset.n != Start(g, VectorPlace(k)) then None
      else if e.offset.n > |payload| - e.bytes.n then None
      else if !ScalePasses(e.scale, g.format) then None
      else if StoredScale(g, payload, k) != e.scale then None
      else if e.sha256 != Hash(sha(Vector(g, payload, k))) then None
      else Some(k)
  }

  /** An entry passes exactly when it is the builder's entry for its key, compared
      field by field, and the stored scale is acceptable. */
  lemma CheckIsEquality(g: Geometry, payload: seq<Byte>, sha: seq<Byte> -> seq<Byte>, e: Entry, k: Key)
    requires Fitting(g, payload)
    ensures Check(g, payload, sha, e) == Some(k) <==>
      Valid(g, k) && e == EntryOf(g, payload, sha, k) && ScalePasses(StoredScale(g, payload, k), g.format)
  {
    hide PayloadBytes, Start, StoredScale, Vector;
    if Valid(g, k) {
      PlaceBounds(g, VectorPlace(k));
    }
  }

  predicate ScalesPass(g: Geometry, payload: seq<Byte>)
    requires Fitting(g, payload)
  {
    forall i :: 0 <= i < |Keys(g, g.layers)| ==>
      Valid(g, Keys(g, g.layers)[i]) && ScalePasses(StoredScale(g, payload, Keys(g, g.layers)[i]), g.format)
  }

  function Checks(g: Geometry, payload: seq<Byte>, sha: seq<Byte> -> seq<Byte>, es: seq<Entry>): (cs: seq<Option<Key>>)
    requires Fitting(g, payload)
    ensures |cs| == |es| && forall i :: 0 <= i < |es| ==> cs[i] == Check(g, payload, sha, es[i])
  {
    seq(|es|, i requires 0 <= i < |es| => Check(g, payload, sha, es[i]))
  }

  /** The set `seen` after `n` entries; None once an entry failed or repeated a key. */
  function Seen(cs: seq<Option<Key>>, n: nat): Option<set<Key>>
    requires n <= |cs|
  {
    if n == 0 then Some({}) else
      match Seen(cs, n - 1)
      case None => None
      case Some(s) =>
        match cs[n - 1]
        case None => None
        case Some(k) => if k in s then None else Some(s + {k})
  }

  function ExpectedKeys(g: Geometry): (s: set<Key>)
    ensures forall k :: k in s <==> Valid(g, k)
  {
    set layer: nat, position: nat, kind
      | layer < g.layers && position < g.positions && kind in {K, V} :: Key(layer, position, kind)
  }

  /** What _validate_entries accepts. */
  predicate Accepts(g: Geometry, payload: seq<Byte>, sha: seq<Byte> -> seq<Byte>, es: seq<Entry>)
    requires Fitting(g, payload)
  {
    Seen(Checks(g, payload, sha, es), |es|) == Some(ExpectedKeys(g))
  }

  lemma {:induction false} SeenStops(cs: seq<Option<Key>>, i: nat, n: nat)
    requires i <= n <= |cs| && Seen(cs, i) == None
    ensures Seen(cs, n) == None
  {
    if i < n { SeenStops(cs, i, n - 1); }
  }

  method ValidateEntries(g: Geometry, payload: seq<Byte>, sha: seq<Byte> -> seq<Byte>, es: seq<Entry>)
    returns (ok: bool)
    requires Fitting(g, payload)
    ensures ok <==> Accepts(g, payload, sha, es)
  {
    hide Check, Fitting;
    ghost var cs := Checks(g, payload, sha, es);
    var seen: set<Key> := {};
    for i := 0 to |es|
      invariant Seen(cs, i) == Some(seen)
    {
      var key := Check(g, payload, sha, es[i]);
      if key == None || key.value in seen {
        SeenStops(cs, i + 1, |es|);
        return false;
      }
      seen := seen + {key.value};
    }
    ok := seen == ExpectedKeys(g);
  }

  /** The nested loops at line 295. */
  method BuildEntries(g: Geometry, payload: seq<Byte>, sha: seq<Byte> -> seq<Byte>) returns (es: seq<Entry>)
    requires Fitting(g, payload)
    ensures es == Built(g, payload, sha)
  {
    hide EntryOf, Fitting;
    ghost var keys: seq<Key> := [];
    es := [];
    for layer := 0 to g.layers
      invariant keys == Keys(g, layer) && AllValid(g, keys) && es == EntriesOf(g, payload, sha, keys)
    {
      ghost var before := keys;
      assert keys == before + LayerKeys(layer, 0);
      for position := 0 to g.positions
        invariant keys == before + LayerKeys(layer, position) && AllValid(g, keys)
        invariant es == EntriesOf(g, payload, sha, keys)
      {
        var k, v := Key(layer, position, K), Key(layer, position, V);
        es := es + [EntryOf(g, payload, sha, k)];
        es := es + [EntryOf(g, payload, sha, v)];
        keys := keys + [k, v];
      }
    }
    KeysValid(g, g.layers);
  }
}
