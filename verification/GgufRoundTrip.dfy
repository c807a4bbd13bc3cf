/** What the C reader makes of a file the writer wrote. */
module GgufRoundTrip {
  import opened Words
  import opened Layouts
  import opened GgufFormat
  import opened GgufWalk
  import opened GgufSummary
  import opened GgufWriter

  lemma WrittenSplits(ms: seq<Meta>, ts: seq<Tensor>, data: seq<Byte>)
    requires |Written(ms, ts, data)| < I64_LIMIT && Ranked(ts, MAX_DIMS)
    ensures At(Written(ms, ts, data), 0, Prefix(ms, ts))
  {
    var prefix := Flat(Prefix(ms, ts));
    var tail := Zeros(Padding(|prefix|)) + data;
    assert Written(ms, ts, data) == prefix + tail;
    PrefixStarts(ms, ts, tail);
  }

  /** The header of a written file, as the reader tests it. */
  lemma InspectHeader(file: seq<Byte>, tensors: nat, metas: nat)
    requires At(file, 0, EncHeader(tensors, metas))
    ensures Inspect(file) == InspectTables(file, 3, tensors, metas)
  {
    hide InspectTables;
    HeaderIsAt(file, tensors, metas);
    forall i | 0 <= i < 4 ensures file[..4][i] == MAGIC[i] {}
  }

  /** qx_gguf_inspect on any file the writer produces: it accepts, its tensor
      table starts at the byte after the last pair, and it returns the summary the
      pairs describe and the first eight records. */
  lemma InspectWritten(ms: seq<Meta>, ts: seq<Tensor>, data: seq<Byte>)
    requires |Written(ms, ts, data)| < I64_LIMIT && Ranked(ts, MAX_DIMS)
    ensures var s := Described(ms, |ms|);
            var dataOffset := AlignUp(Size(Prefix(ms, ts)), if s.alignment > 0 then s.alignment else 32);
            Inspect(Written(ms, ts, data)) ==
              Ok(Inspection(3, |ts|, |ms|, s, 24 + Size(EncMetas(ms, |ms|)), dataOffset,
                            InfosOf(ts, |ts|)[..if |ts| < 8 then |ts| else 8]))
  {
    hide Inspect, AfterPairs, AfterTensors, Summarise, Records, Described, InfosOf, AlignUp, Written;
    hide EncMetas, EncTensors, EncHeader, Ranked;
    hide Size, Flat, Fits, At, Prefix;
    var file := Written(ms, ts, data);
    WrittenSplits(ms, ts, data);
    PrefixShape(ms, ts);
    PrefixIsAt(file, ms, ts);
    InspectHeader(file, |ts|, |ms|);
    PairsAt(file, 24, ms, |ms|);
    SummariseAt(file, 24, ms, |ms|);
    TensorsAt(file, 24 + Size(EncMetas(ms, |ms|)), ts, |ts|);
    RecordsAt(file, 24 + Size(EncMetas(ms, |ms|)), ts, |ts|);
  }

  lemma AlignIsPadding(n: nat)
    ensures AlignUp(n, 32) == n + Padding(n)
  {
  }

  lemma DataStart(ms: seq<Meta>, ts: seq<Tensor>, data: seq<Byte>)
    ensures var start := AlignUp(Size(Prefix(ms, ts)), 32);
            start <= |Written(ms, ts, data)| && Written(ms, ts, data)[start..] == data
  {
    AlignIsPadding(Size(Prefix(ms, ts)));
  }

  /** The reader's data offset is where the writer began the data whenever the
      metadata leave the alignment at 32, or set it to 0 (which the reader takes
      for 32). */
  lemma DataOffsetWritten(ms: seq<Meta>, ts: seq<Tensor>, data: seq<Byte>)
    requires |Written(ms, ts, data)| < I64_LIMIT && Ranked(ts, MAX_DIMS)
    requires Described(ms, |ms|).alignment == 0 || Described(ms, |ms|).alignment == 32
    ensures var file := Written(ms, ts, data); var r := Inspect(file);
            r.Ok? && r.value.dataOffset <= |file| && file[r.value.dataOffset..] == data
  {
    hide Inspect, Described, Written;
    InspectWritten(ms, ts, data);
    DataStart(ms, ts, data);
  }
}
