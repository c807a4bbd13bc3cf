/** The layout of a runtime KV snapshot (scripts/kv_snapshot_replay.py:212-218 and
    229-266): a 48-byte header, one record per layer and position, a 32-byte digest. */
module KvSnapshot {
  import opened Words
  import opened LittleEndian
  import Division

  const HEADER: nat := 48
  const TRAILER: nat := 32

  /** "QXKVSNP1". */
  const MAGIC: seq<Byte> := [0x51, 0x58, 0x4B, 0x56, 0x53, 0x4E, 0x50, 0x31]

  datatype Format = Int8 | F16 | F32

  datatype Geometry = Geometry(format: Format, layers: nat, positions: nat, ctxTokens: nat, kvHeads: nat, headDim: nat,
                               vectorBytes: nat, nextToken: nat, seed: nat)

  function FormatOf(id: nat): Option<Format> {
    if id == 1 then Some(Int8) else if id == 2 then Some(F16) else if id == 3 then Some(F32) else None
  }

  /** A record: two vectors and two float32 scales. */
  function Stride(g: Geometry): nat { 2 * g.vectorBytes + 8 }

  function Times(a: nat, b: nat): nat { a * b }

  function Records(g: Geometry): nat { Times(g.layers, g.positions) }

  function PayloadBytes(g: Geometry): nat { HEADER + Times(Records(g), Stride(g)) + TRAILER }

  /** The header's fields, all unsigned 32-bit. */
  function Field(payload: seq<Byte>, i: nat): nat
    requires HEADER <= |payload| && i < 10
  {
    LeAt(payload, 8 + 4 * i, 4)
  }

  function GeometryAt(payload: seq<Byte>, format: Format): Geometry
    requires HEADER <= |payload|
  {
    Geometry(format, Field(payload, 1), Field(payload, 2), Field(payload, 3), Field(payload, 4), Field(payload, 5),
             Field(payload, 7), Field(payload, 8), Field(payload, 9))
  }

  predicate Sound(g: Geometry) {
    g.layers > 0 && g.positions > 0 && g.ctxTokens > 0 && g.kvHeads > 0 && g.headDim > 0 && g.vectorBytes > 0 &&
    g.positions <= g.ctxTokens
  }

  /** _parse_runtime_payload; None stands for its ValueErrors. `sha` is SHA-256. */
  function Parse(payload: seq<Byte>, sha: seq<Byte> -> seq<Byte>): Option<Geometry> {
    if |payload| < HEADER then None else
      match FormatOf(Field(payload, 6))
      case None => None
      case Some(format) =>
        var g := GeometryAt(payload, format);
        if payload[..8] != MAGIC || Field(payload, 0) != 2 || !Sound(g) || |payload| != PayloadBytes(g) then None
        else if sha(payload[..|payload| - TRAILER]) != payload[|payload| - TRAILER..] then None
        else Some(g)
  }

  // ----- where things are -----

  datatype Piece = KVector | VVector | KScale | VScale

  datatype Place = Place(layer: nat, position: nat, piece: Piece)

  predicate InGeometry(g: Geometry, p: Place) { p.layer < g.layers && p.position < g.positions }

  function RecordIndex(g: Geometry, layer: nat, position: nat): nat { Times(layer, g.positions) + position }

  function RecordStart(g: Geometry, layer: nat, position: nat): nat {
    HEADER + Times(RecordIndex(g, layer, position), Stride(g))
  }

  function Within(g: Geometry, piece: Piece): nat {
    match piece
    case KVector => 0
    case VVector => g.vectorBytes
    case KScale => 2 * g.vectorBytes
    case VScale => 2 * g.vectorBytes + 4
  }

  function Length(g: Geometry, piece: Piece): nat {
    match piece
    case KVector => g.vectorBytes
    case VVector => g.vectorBytes
    case KScale => 4
    case VScale => 4
  }

  function Start(g: Geometry, p: Place): nat { RecordStart(g, p.layer, p.position) + Within(g, p.piece) }

  /** Byte `x` of the payload is in this place. */
  predicate Contains(g: Geometry, p: Place, x: nat) { Start(g, p) <= x < Start(g, p) + Length(g, p.piece) }

  // ----- multiplication -----

  lemma Apart(a: nat, b: nat, r: nat)
    requires a < b
    ensures Times(a, r) + r <= Times(b, r)
  {
    Division.Less(a, b, r);
  }

  lemma Larger(q: nat, a: nat, b: nat)
    ensures q >= a ==> q * b >= a * b
  {
    Division.Less(a, q, b);
  }

  lemma ByZero(a: nat)
    ensures Times(a, 0) == 0
  {
  }

  lemma Divide(i: nat, a: nat, b: nat)
    requires i < Times(a, b)
    ensures b > 0 && i / b < a && i % b < b && i == Times(i / b, b) + i % b
  {
    ByZero(a);
    Larger(i / b, a, b);
    assert i == i / b * b + i % b;
  }

  lemma IndexBound(g: Geometry, layer: nat, position: nat)
    requires layer < g.layers && position < g.positions
    ensures RecordIndex(g, layer, position) < Records(g)
  {
    hide Times;
    Apart(layer, g.layers, g.positions);
  }

  lemma IndexOnce(g: Geometry, layer: nat, position: nat, layer2: nat, position2: nat)
    requires position < g.positions && position2 < g.positions
    requires RecordIndex(g, layer, position) == RecordIndex(g, layer2, position2)
    ensures layer == layer2 && position == position2
  {
    hide Times;
    if layer < layer2 { Apart(layer, layer2, g.positions); }
    if layer2 < layer { Apart(layer2, layer, g.positions); }
  }

  /** Every place lies inside its record, and every record between header and trailer. */
  lemma PlaceBounds(g: Geometry, p: Place)
    requires InGeometry(g, p)
    ensures HEADER <= RecordStart(g, p.layer, p.position) <= Start(g, p)
    ensures Start(g, p) + Length(g, p.piece) <= RecordStart(g, p.layer, p.position) + Stride(g) <=
      PayloadBytes(g) - TRAILER
  {
    hide Times;
    IndexBound(g, p.layer, p.position);
    Apart(RecordIndex(g, p.layer, p.position), Records(g), Stride(g));
  }

  /** The place of a byte between header and trailer. */
  function Owner(g: Geometry, x: nat): Place
    requires HEADER <= x < PayloadBytes(g) - TRAILER
  {
    Divide(x - HEADER, Records(g), Stride(g));
    var index, rest := (x - HEADER) / Stride(g), (x - HEADER) % Stride(g);
    Divide(index, g.layers, g.positions);
    Place(index / g.positions, index % g.positions,
          if rest < g.vectorBytes then KVector
          else if rest < 2 * g.vectorBytes then VVector
          else if rest < 2 * g.vectorBytes + 4 then KScale
          else VScale)
  }

  /** Vectors and scales cover every byte between header and trailer... */
  lemma EveryByteOwned(g: Geometry, x: nat)
    requires HEADER <= x < PayloadBytes(g) - TRAILER
    ensures InGeometry(g, Owner(g, x)) && Contains(g, Owner(g, x), x)
  {
    Divide(x - HEADER, Records(g), Stride(g));
    Divide((x - HEADER) / Stride(g), g.layers, g.positions);
    hide Times;
  }

  lemma SameRecord(g: Geometry, a: Place, b: Place, x: nat)
    requires InGeometry(g, a) && InGeometry(g, b) && Contains(g, a, x) && Contains(g, b, x)
    ensures a.layer == b.layer && a.position == b.position
  {
    hide Times;
    var i, j := RecordIndex(g, a.layer, a.position), RecordIndex(g, b.layer, b.position);
    if i < j { Apart(i, j, Stride(g)); }
    if j < i { Apart(j, i, Stride(g)); }
    IndexOnce(g, a.layer, a.position, b.layer, b.position);
  }

  /** ... and no byte twice. */
  lemma NoByteShared(g: Geometry, a: Place, b: Place, x: nat)
    requires InGeometry(g, a) && InGeometry(g, b) && Contains(g, a, x) && Contains(g, b, x)
    ensures a == b
  {
    hide RecordStart;
    SameRecord(g, a, b, x);
  }

  /** So the offset of a vector or scale determines which it is. */
  lemma OffsetsAreInjective(g: Geometry, a: Place, b: Place)
    requires InGeometry(g, a) && InGeometry(g, b) && g.vectorBytes > 0 && Start(g, a) == Start(g, b)
    ensures a == b
  {
    hide Start;
    NoByteShared(g, a, b, Start(g, a));
  }

  lemma ParsedGeometry(payload: seq<Byte>, sha: seq<Byte> -> seq<Byte>)
    requires Parse(payload, sha).Some?
    ensures var g := Parse(payload, sha).value; Sound(g) && |payload| == PayloadBytes(g)
  {
    hide LeAt;
  }
}
