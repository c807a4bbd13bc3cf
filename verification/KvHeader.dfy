/** The snapshot header as struct "<8s10I" lays it out, and what parsing returns. */
module KvHeader {
  import opened Words
  import opened LittleEndian
  import opened Layouts
  import opened KvSnapshot

  function FormatId(f: Format): nat {
    match f
    case Int8 => 1
    case F16 => 2
    case F32 => 3
  }

  /** The ten numbers after the magic. */
  function Numbers(g: Geometry): (n: seq<nat>)
    ensures |n| == 10
  {
    [2, g.layers, g.positions, g.ctxTokens, g.kvHeads, g.headDim, FormatId(g.format), g.vectorBytes, g.nextToken,
     g.seed]
  }

  /** The first `n` of them. */
  function EncNumbers(g: Geometry, n: nat): Layout
    requires n <= 10
  {
    if n == 0 then Nothing else Then(EncNumbers(g, n - 1), Num(Numbers(g)[n - 1], 4))
  }

  function EncHeader(g: Geometry): Layout { Then(Raw(MAGIC), EncNumbers(g, 10)) }

  predicate Words32(g: Geometry) { forall i :: 0 <= i < 10 ==> Numbers(g)[i] < U32_LIMIT }

  /** A snapshot: header, records, digest. */
  function Snapshot(g: Geometry, records: Str, sha: seq<Byte> -> seq<Byte>): Str {
    var body := Flat(EncHeader(g)) + records;
    body + sha(body)
  }

  lemma {:induction false} NumbersFit(g: Geometry, n: nat)
    requires n <= 10 && Words32(g)
    ensures Size(EncNumbers(g, n)) == 4 * n && Fits(EncNumbers(g, n))
  {
    hide Numbers;
    Limits();
    if n > 0 { NumbersFit(g, n - 1); }
  }

  lemma {:induction false} NumbersAre(payload: seq<Byte>, g: Geometry, n: nat, i: nat)
    requires HEADER <= |payload| && i < n <= 10 && Words32(g) && At(payload, 8, EncNumbers(g, n))
    ensures Field(payload, i) == Numbers(g)[i]
  {
    hide LeAt, Numbers;
    NumbersFit(g, n - 1);
    if i == n - 1 {
      assert At(payload, 8 + 4 * i, Num(Numbers(g)[i], 4));
    } else {
      NumbersAre(payload, g, n - 1, i);
    }
  }

  lemma HeaderFits(g: Geometry)
    requires Words32(g)
    ensures Size(EncHeader(g)) == HEADER && Fits(EncHeader(g))
  {
    hide Numbers;
    NumbersFit(g, 10);
    assert |MAGIC| == 8;
  }

  lemma FieldsAre(payload: seq<Byte>, g: Geometry)
    requires HEADER <= |payload| && Words32(g) && At(payload, 0, EncHeader(g))
    ensures payload[..8] == MAGIC && Field(payload, 0) == 2 && Field(payload, 6) == FormatId(g.format)
    ensures GeometryAt(payload, g.format) == g
  {
    assert |MAGIC| == 8;
    assert At(payload, 0, Raw(MAGIC));
    assert Size(Raw(MAGIC)) == 8;
    hide LeAt, EncNumbers, Words32, Field;
    forall i | 0 <= i < 10 ensures Field(payload, i) == Numbers(g)[i] { NumbersAre(payload, g, 10, i); }
    assert payload[..8] == MAGIC;
  }

  lemma FormatBack(f: Format)
    ensures FormatOf(FormatId(f)) == Some(f)
  {
  }

  /** _parse_runtime_payload on a snapshot of any sound geometry: it returns that
      geometry exactly when the records have the length the geometry implies. */
  lemma ParsesWhatWasWritten(g: Geometry, records: Str, sha: seq<Byte> -> seq<Byte>)
    requires Words32(g) && Sound(g) && forall b :: |sha(b)| == TRAILER
    ensures Parse(Snapshot(g, records, sha), sha) ==
      if HEADER + |records| + TRAILER == PayloadBytes(g) then Some(g) else None
  {
    hide LeAt, Numbers, EncHeader, GeometryAt, Field, Words32, PayloadBytes;
    HeaderFits(g);
    var body := Flat(EncHeader(g)) + records;
    var payload := Snapshot(g, records, sha);
    assert payload == Flat(EncHeader(g)) + (records + sha(body));
    StartsWith(EncHeader(g), records + sha(body));
    FieldsAre(payload, g);
    FormatBack(g.format);
    assert payload[..|payload| - TRAILER] == body && payload[|payload| - TRAILER..] == sha(body);
  }
}
