/** Which sidecars the exporter (scripts/export_qwen3_tokenizer.py:140-226) can write,
    among those the program loads: it splits a merge at its first space, so the ones
    without a space in a merge's left symbol. */
module TokenizerImage {
  import opened Words
  import opened Layouts
  import opened Utf8
  import opened TokenizerRead
  import opened TokenizerRoundTrip
  import opened TokenizerPayload
  import opened TokenizerLoad
  import opened TokenizerSidecar
  import opened TokenizerExact
  import opened TokenizerExport

  /** No left symbol holds a space. */
  predicate Splittable(ms: seq<Merge>) { forall i :: 0 <= i < |ms| ==> 32 !in ms[i].left }

  /** The exporter accepts some metadata as this vocabulary. */
  ghost predicate Exportable(v: Vocabulary) { exists m: Metadata :: Validate(m) == Accepted(v) }

  // ----- what the exporter accepts -----

  lemma {:induction false} CheckedSplits(texts: seq<Text>, n: nat)
    requires n <= |texts| && CheckMerges(texts, n).Accepted?
    ensures Splittable(CheckMerges(texts, n).value)
  {
    hide CheckMerge;
    if n > 0 {
      CheckedSplits(texts, n - 1);
      MergeSplits(texts[n - 1], CheckMerge(texts[n - 1]).value);
    }
  }

  lemma ExportSplits(m: Metadata)
    requires Validate(m).Accepted?
    ensures Admissible(Validate(m).value) && Splittable(Validate(m).value.merges)
  {
    ValidIsAdmissible(m);
    hide CheckFields, CheckTokens, CheckMerges, TokenTexts, TokenTypes, MergeTexts, PayloadOf, Admissible, Splittable;
    CheckedSplits(MergeTexts(m), |MergeTexts(m)|);
  }

  // ----- metadata for any such vocabulary -----

  function GivenId(name: string, id: int): seq<Given> {
    if 0 <= id < U32_LIMIT then [GivenU32(Chars(name), id)] else []
  }

  /** The pairs that hold a vocabulary; an id of -1 is left out. */
  function Pairs(v: Vocabulary): seq<Given>
    requires Admissible(v)
  {
    AdmissibleParts(v);
    [GivenStr(Chars("tokenizer.ggml.model"), v.model), GivenStr(Chars("tokenizer.ggml.pre"), v.pre),
     GivenStrArray(Chars("tokenizer.ggml.tokens"), Texts(v.tokens)),
     GivenI32Array(Chars("tokenizer.ggml.token_type"), Types(v.tokens)),
     GivenStrArray(Chars("tokenizer.ggml.merges"), Joined(v.merges)),
     GivenBool(Chars("tokenizer.ggml.add_bos_token"), v.addBos),
     GivenBool(Chars("tokenizer.ggml.add_eos_token"), v.addEos)] +
    GivenId("tokenizer.ggml.bos_token_id", v.bos) + GivenId("tokenizer.ggml.eos_token_id", v.eos)
  }

  lemma MergeAccepted(m: Merge)
    requires MergeFits(m) && 32 !in m.left
    ensures CheckMerge(m.left + [32] + m.right) == Accepted(m)
  {
    hide Encode;
    MergeSplits(m.left + [32] + m.right, m);
  }

  lemma Passes(v: Vocabulary)
    requires Admissible(v) && Splittable(v.merges)
    ensures Wellformed(v)
  {
    hide CheckMerge, Encode, PayloadOf, Chars, MergeFits;
    forall i | 0 <= i < |v.tokens|
      ensures CheckToken(v.tokens[i].text, Int(v.tokens[i].typ)) == Accepted(v.tokens[i])
    {
      assert TokenFits(v.tokens[i]);
    }
    forall i | 0 <= i < |v.merges|
      ensures CheckMerge(v.merges[i].left + [32] + v.merges[i].right) == Accepted(v.merges[i])
    {
      assert MergeFits(v.merges[i]);
      MergeAccepted(v.merges[i]);
    }
  }

  // ----- one pair a key -----

  /** The place of a key among the nine. */
  function Place(key: Text): nat {
    if |key| == 20 then 0
    else if |key| == 18 then 1
    else if |key| == 21 && key[15] == 116 then 2
    else if |key| == 25 then 3
    else if |key| == 21 then 4
    else if |key| == 28 && key[19] == 98 then 5
    else if |key| == 28 then 6
    else if |key| == 27 && key[15] == 98 then 7
    else 8
  }

  lemma RequiredPlaces()
    ensures Place(Chars("tokenizer.ggml.model")) == 0 && Place(Chars("tokenizer.ggml.pre")) == 1
    ensures Place(Chars("tokenizer.ggml.tokens")) == 2 && Place(Chars("tokenizer.ggml.token_type")) == 3
    ensures Place(Chars("tokenizer.ggml.merges")) == 4
  {
  }

  lemma OptionalPlaces()
    ensures Place(Chars("tokenizer.ggml.add_bos_token")) == 5 && Place(Chars("tokenizer.ggml.add_eos_token")) == 6
    ensures Place(Chars("tokenizer.ggml.bos_token_id")) == 7 && Place(Chars("tokenizer.ggml.eos_token_id")) == 8
  {
  }

  /** The pairs' keys come in the order of their places. */
  predicate Ordered(gs: seq<Given>) {
    forall i, j :: 0 <= i < j < |gs| ==> Place(gs[i].key) < Place(gs[j].key)
  }

  lemma OrderedAppend(gs: seq<Given>, hs: seq<Given>, place: nat)
    requires Ordered(gs) && (forall i :: 0 <= i < |gs| ==> Place(gs[i].key) < place)
    requires |hs| <= 1 && (hs != [] ==> Place(hs[0].key) == place)
    ensures Ordered(gs + hs) && forall i :: 0 <= i < |gs + hs| ==> Place((gs + hs)[i].key) <= place
  {
    hide Place;
  }

  lemma FirstSeven(v: Vocabulary)
    requires Admissible(v)
    ensures 7 <= |Pairs(v)| && Ordered(Pairs(v)[..7]) && forall i :: 0 <= i < 7 ==> Place(Pairs(v)[i].key) < 7
  {
    hide Place, Chars, Admissible, Texts, Types, Joined;
    RequiredPlaces();
    OptionalPlaces();
  }

  lemma PairsOrdered(v: Vocabulary)
    requires Admissible(v)
    ensures Ordered(Pairs(v))
    ensures v.bos == -1 ==> Absent(Pairs(v), Chars("tokenizer.ggml.bos_token_id"))
    ensures v.eos == -1 ==> Absent(Pairs(v), Chars("tokenizer.ggml.eos_token_id"))
  {
    hide Place, Chars, Admissible, Texts, Types, Joined, Ordered;
    var front := Pairs(v)[..7];
    var bos, eos := GivenId("tokenizer.ggml.bos_token_id", v.bos), GivenId("tokenizer.ggml.eos_token_id", v.eos);
    FirstSeven(v);
    OptionalPlaces();
    OrderedAppend(front, bos, 7);
    OrderedAppend(front + bos, eos, 8);
    assert Pairs(v) == front + bos + eos;
  }

  lemma RequiredPairs(v: Vocabulary)
    requires Admissible(v)
    ensures (forall i :: 0 <= i < |v.tokens| ==> v.tokens[i].typ <= 6) && |Pairs(v)| >= 7
    ensures GivenStr(Chars("tokenizer.ggml.model"), v.model) in Pairs(v)
    ensures GivenStr(Chars("tokenizer.ggml.pre"), v.pre) in Pairs(v)
    ensures GivenStrArray(Chars("tokenizer.ggml.tokens"), Texts(v.tokens)) in Pairs(v)
    ensures GivenI32Array(Chars("tokenizer.ggml.token_type"), Types(v.tokens)) in Pairs(v)
    ensures GivenStrArray(Chars("tokenizer.ggml.merges"), Joined(v.merges)) in Pairs(v)
    ensures GivenBool(Chars("tokenizer.ggml.add_bos_token"), v.addBos) in Pairs(v)
    ensures GivenBool(Chars("tokenizer.ggml.add_eos_token"), v.addEos) in Pairs(v)
  {
    hide Chars, Admissible, Texts, Types, Joined;
    AdmissibleParts(v);
    var gs := Pairs(v);
    assert gs[0] in gs && gs[1] in gs && gs[2] in gs && gs[3] in gs && gs[4] in gs && gs[5] in gs && gs[6] in gs;
  }

  lemma IdPairs(v: Vocabulary)
    requires Admissible(v)
    ensures HoldsId(Pairs(v), "tokenizer.ggml.bos_token_id", v.bos)
    ensures HoldsId(Pairs(v), "tokenizer.ggml.eos_token_id", v.eos)
  {
    PairsOrdered(v);
    hide Chars, Texts, Types, Joined, Absent, Admissible;
    AdmissibleParts(v);
    var gs := Pairs(v);
    var bos, eos := GivenId("tokenizer.ggml.bos_token_id", v.bos), GivenId("tokenizer.ggml.eos_token_id", v.eos);
    if v.bos != -1 { assert bos[0] in bos && bos[0] in gs; }
    if v.eos != -1 { assert eos[0] in eos && eos[0] in gs; }
  }

  lemma PairsDescribe(v: Vocabulary)
    requires Admissible(v)
    ensures Describes(Pairs(v), v)
  {
    hide Chars, Admissible, Texts, Types, Joined, Pairs, Place, HoldsId;
    RequiredPairs(v);
    IdPairs(v);
    PairsOrdered(v);
    var gs := Pairs(v);
    forall j, k | 0 <= j < k < |gs| ensures gs[j].key != gs[k].key {
      assert Place(gs[j].key) < Place(gs[k].key);
    }
  }

  /** The vocabularies the exporter accepts are the admissible ones with no space in
      a left symbol. */
  lemma ExportableExactly(v: Vocabulary)
    ensures Exportable(v) <==> Admissible(v) && Splittable(v.merges)
  {
    hide Admissible, Splittable, Validate, Describes, Wellformed, Pairs, Expected;
    if Exportable(v) {
      var m: Metadata :| Validate(m) == Accepted(v);
      ExportSplits(m);
    }
    if Admissible(v) && Splittable(v.merges) {
      PairsDescribe(v);
      Passes(v);
      Validates(Pairs(v), v);
    }
  }

  // ----- what the program loads of that -----

  /** No merge the program holds has a space in its left symbol. */
  predicate NoSpaceInLeft(t: Tokenizer) { forall i :: 0 <= i < |t.merges| ==> 32 !in t.merges[i].left }

  lemma SplittableBytes(v: Vocabulary)
    ensures NoSpaceInLeft(TokenizerOf(v)) <==> Splittable(v.merges)
  {
    hide Encode, PayloadOf;
    forall i | 0 <= i < |v.merges|
      ensures TokenizerOf(v).merges[i].left == Encode(v.merges[i].left)
      ensures 32 in v.merges[i].left <==> 32 in Encode(v.merges[i].left)
    {
      AsciiByte(v.merges[i].left, 32);
    }
  }

  /** The exporter, given some metadata, writes this file. */
  ghost predicate Writes(file: seq<Byte>, m: Metadata) {
    Validate(m).Accepted? && Admissible(Validate(m).value) && file == Sidecar(Validate(m).value)
  }

  lemma ExportLoads(file: seq<Byte>, m: Metadata)
    requires Writes(file, m)
    ensures Load(file, true).Loaded? && NoSpaceInLeft(Load(file, true).tokenizer)
  {
    var v := Validate(m).value;
    ExportSplits(m);
    ExportReadsBack(m);
    SplittableBytes(v);
  }

  lemma LoadedIsExport(file: seq<Byte>) returns (m: Metadata)
    requires Load(file, true).Loaded? && NoSpaceInLeft(Load(file, true).tokenizer)
    ensures Writes(file, m)
  {
    hide Load, Admissible, Splittable, NoSpaceInLeft, Validate, Sidecar, VocabularyIn, TokenizerOf;
    LoadedIsSidecar(file);
    var v := VocabularyIn(file);
    SidecarReadsBack(v);
    SplittableBytes(v);
    ExportableExactly(v);
    m :| Validate(m) == Accepted(v);
  }

  /** A file is an output of the exporter exactly when the program loads it and no left
      symbol in it holds a space. */
  lemma LoadsExactlyExports(file: seq<Byte>)
    ensures (exists m: Metadata :: Writes(file, m)) <==>
      Load(file, true).Loaded? && NoSpaceInLeft(Load(file, true).tokenizer)
  {
    hide Load, Writes, NoSpaceInLeft;
    if m: Metadata :| Writes(file, m) { ExportLoads(file, m); }
    if Load(file, true).Loaded? && NoSpaceInLeft(Load(file, true).tokenizer) {
      var m := LoadedIsExport(file);
    }
  }

  // ----- a file the program loads and the exporter never writes -----

  /** One token "a", and the merge of "a b" with "c". */
  function Spaced(): Vocabulary {
    Vocabulary(Chars("gpt2"), Chars("qwen2"), [Token([97], 1)], [Merge([97, 32, 98], [99])], -1, -1, false, false)
  }

  lemma SpacedTables()
    ensures TablesFit(Spaced().tokens, Spaced().merges)
    ensures Size(EncTokens(Spaced().tokens, 1)) == 9 && Size(EncMerges(Spaced().merges, 1)) == 12
  {
    hide Encode, EncToken, EncMerge, Chars;
    EncodeAscii([97]);
    EncodeAscii([97, 32, 98]);
    EncodeAscii([99]);
    TokenShape(Spaced().tokens[0]);
    MergeShape(Spaced().merges[0]);
  }

  lemma SpacedIsAdmissible()
    ensures Admissible(Spaced())
  {
    hide Encode, EncTokens, EncMerges, Chars, TablesFit, PayloadOf;
    SpacedTables();
    NameBytes();
    PayloadShape(Spaced());
  }

  /** The program loads its sidecar, and no metadata make the exporter write that. */
  lemma SpacedIsLoadedOnly()
    ensures Admissible(Spaced()) && Load(Sidecar(Spaced()), true).Loaded?
    ensures forall m: Metadata :: !Writes(Sidecar(Spaced()), m)
  {
    hide Admissible, Sidecar, Load, Validate, TokenizerOf, NoSpaceInLeft, Splittable, Writes;
    SpacedIsAdmissible();
    SidecarReadsBack(Spaced());
    SplittableBytes(Spaced());
    SpacedDoesNotSplit();
    if m: Metadata :| Writes(Sidecar(Spaced()), m) { ExportLoads(Sidecar(Spaced()), m); }
  }

  lemma SpacedDoesNotSplit()
    ensures !Splittable(Spaced().merges)
  {
    assert Spaced().merges[0].left[1] == 32;
  }
}
