/** From a vocabulary through the GGUF writer, the Python reader, the exporter and
    the sidecar: what comes out is what went in. */
module TokenizerExport {
  import opened Words
  import opened Layouts
  import opened Utf8
  import opened GgufFormat
  import opened GgufWriter
  import opened TokenizerRead
  import opened TokenizerRoundTrip
  import opened TokenizerPayload
  import opened TokenizerLoad
  import opened TokenizerSidecar

  function Texts(ts: seq<Token>): (r: seq<Text>)
    ensures |r| == |ts| && forall i :: 0 <= i < |ts| ==> r[i] == ts[i].text
  {
    seq(|ts|, i requires 0 <= i < |ts| => ts[i].text)
  }

  /** Token types as the INT32 array stores them. */
  function Types(ts: seq<Token>): (r: seq<I32>)
    requires forall i :: 0 <= i < |ts| ==> ts[i].typ <= 6
    ensures |r| == |ts| && forall i :: 0 <= i < |ts| ==> r[i] == ts[i].typ
  {
    seq(|ts|, i requires 0 <= i < |ts| => ts[i].typ)
  }

  /** A merge as one string, its symbols separated by a space. */
  function Joined(ms: seq<Merge>): (r: seq<Text>)
    ensures |r| == |ms| && forall i :: 0 <= i < |ms| ==> r[i] == ms[i].left + [32] + ms[i].right
  {
    seq(|ms|, i requires 0 <= i < |ms| => ms[i].left + [32] + ms[i].right)
  }

  /** What the exporter asks of the tokens and merges. */
  predicate Wellformed(v: Vocabulary) {
    (forall i :: 0 <= i < |v.tokens| ==> CheckToken(v.tokens[i].text, Int(v.tokens[i].typ)) == Accepted(v.tokens[i])) &&
    forall i :: 0 <= i < |v.merges| ==> CheckMerge(v.merges[i].left + [32] + v.merges[i].right) == Accepted(v.merges[i])
  }

  predicate Absent(gs: seq<Given>, key: Text) { forall i :: 0 <= i < |gs| ==> gs[i].key != key }

  /** An id that is given, or left to its default of -1. */
  predicate HoldsId(gs: seq<Given>, name: string, id: int) {
    if id == -1 then Absent(gs, Chars(name)) else 0 <= id < U32_LIMIT && GivenU32(Chars(name), id) in gs
  }

  /** A flag that is given, or left to its default of false. */
  predicate HoldsFlag(gs: seq<Given>, name: string, flag: bool) {
    GivenBool(Chars(name), flag) in gs || (!flag && Absent(gs, Chars(name)))
  }

  /** The pairs hold the vocabulary, one pair a key, ids and flags possibly left to
      their defaults; other pairs may be among them. */
  predicate Describes(gs: seq<Given>, v: Vocabulary) {
    (forall j, k :: 0 <= j < k < |gs| ==> gs[j].key != gs[k].key) &&
    (forall i :: 0 <= i < |v.tokens| ==> v.tokens[i].typ <= 6) &&
    GivenStr(Chars("tokenizer.ggml.model"), v.model) in gs &&
    GivenStr(Chars("tokenizer.ggml.pre"), v.pre) in gs &&
    GivenStrArray(Chars("tokenizer.ggml.tokens"), Texts(v.tokens)) in gs &&
    GivenI32Array(Chars("tokenizer.ggml.token_type"), Types(v.tokens)) in gs &&
    GivenStrArray(Chars("tokenizer.ggml.merges"), Joined(v.merges)) in gs &&
    HoldsId(gs, "tokenizer.ggml.bos_token_id", v.bos) &&
    HoldsId(gs, "tokenizer.ggml.eos_token_id", v.eos) &&
    HoldsFlag(gs, "tokenizer.ggml.add_bos_token", v.addBos) &&
    HoldsFlag(gs, "tokenizer.ggml.add_eos_token", v.addEos)
  }

  lemma Holds(gs: seq<Given>, g: Given)
    requires g in gs && g.key in WANTED && forall j, k :: 0 <= j < k < |gs| ==> gs[j].key != gs[k].key
    ensures g.key in Expected(gs, |gs|) && Expected(gs, |gs|)[g.key] == ItemOf(g)
  {
    var i :| 0 <= i < |gs| && gs[i] == g;
    EveryWantedValue(gs, |gs|, i);
  }

  lemma FieldsHeld(gs: seq<Given>, v: Vocabulary)
    requires Describes(gs, v)
    ensures var m := Expected(gs, |gs|);
            RequiredText(m, "tokenizer.ggml.model") == Some(v.model) &&
            RequiredText(m, "tokenizer.ggml.pre") == Some(v.pre) &&
            RequiredTexts(m, "tokenizer.ggml.tokens") == Some(Texts(v.tokens)) &&
            RequiredInts(m, "tokenizer.ggml.token_type") == Some(IntAtoms(Types(v.tokens))) &&
            RequiredTexts(m, "tokenizer.ggml.merges") == Some(Joined(v.merges))
  {
    hide Expected, Chars;
    Holds(gs, GivenStr(Chars("tokenizer.ggml.model"), v.model));
    Holds(gs, GivenStr(Chars("tokenizer.ggml.pre"), v.pre));
    Holds(gs, GivenStrArray(Chars("tokenizer.ggml.tokens"), Texts(v.tokens)));
    Holds(gs, GivenI32Array(Chars("tokenizer.ggml.token_type"), Types(v.tokens)));
    Holds(gs, GivenStrArray(Chars("tokenizer.ggml.merges"), Joined(v.merges)));
  }

  lemma LeftOut(gs: seq<Given>, key: Text)
    requires Absent(gs, key)
    ensures key !in Expected(gs, |gs|)
  {
    if key in Expected(gs, |gs|) { NothingElse(gs, |gs|, key); }
  }

  lemma IdHeld(gs: seq<Given>, name: string, id: int)
    requires HoldsId(gs, name, id) && Chars(name) in WANTED
    requires forall j, k :: 0 <= j < k < |gs| ==> gs[j].key != gs[k].key
    ensures OptionalInteger(Expected(gs, |gs|), name, -1) == Some(id)
  {
    hide Expected, Chars;
    if id == -1 { LeftOut(gs, Chars(name)); } else { Holds(gs, GivenU32(Chars(name), id)); }
  }

  lemma FlagHeld(gs: seq<Given>, name: string, flag: bool)
    requires HoldsFlag(gs, name, flag) && Chars(name) in WANTED
    requires forall j, k :: 0 <= j < k < |gs| ==> gs[j].key != gs[k].key
    ensures OptionalBool(Expected(gs, |gs|), name) == Some(flag)
  {
    hide Expected, Chars;
    var g := GivenBool(Chars(name), flag);
    if g in gs { Holds(gs, g); } else { LeftOut(gs, Chars(name)); }
  }

  lemma OptionsHeld(gs: seq<Given>, v: Vocabulary)
    requires Describes(gs, v)
    ensures var m := Expected(gs, |gs|);
            OptionalInteger(m, "tokenizer.ggml.bos_token_id", -1) == Some(v.bos) &&
            OptionalInteger(m, "tokenizer.ggml.eos_token_id", -1) == Some(v.eos) &&
            OptionalBool(m, "tokenizer.ggml.add_bos_token") == Some(v.addBos) &&
            OptionalBool(m, "tokenizer.ggml.add_eos_token") == Some(v.addEos)
  {
    hide Expected, Chars, HoldsId, HoldsFlag, OptionalInteger, OptionalBool;
    IdHeld(gs, "tokenizer.ggml.bos_token_id", v.bos);
    IdHeld(gs, "tokenizer.ggml.eos_token_id", v.eos);
    FlagHeld(gs, "tokenizer.ggml.add_bos_token", v.addBos);
    FlagHeld(gs, "tokenizer.ggml.add_eos_token", v.addEos);
  }

  lemma {:induction false} TokensPass(v: Vocabulary, n: nat)
    requires Wellformed(v) && (forall i :: 0 <= i < |v.tokens| ==> v.tokens[i].typ <= 6) && n <= |v.tokens|
    ensures CheckTokens(Texts(v.tokens), IntAtoms(Types(v.tokens)), n) == Accepted(v.tokens[..n])
  {
    hide CheckToken, CheckMerge;
    if n > 0 {
      TokensPass(v, n - 1);
      assert CheckToken(v.tokens[n - 1].text, Int(v.tokens[n - 1].typ)) == Accepted(v.tokens[n - 1]);
      assert v.tokens[..n] == v.tokens[..n - 1] + [v.tokens[n - 1]];
    }
  }

  lemma {:induction false} MergesPass(v: Vocabulary, n: nat)
    requires Wellformed(v) && n <= |v.merges|
    ensures CheckMerges(Joined(v.merges), n) == Accepted(v.merges[..n])
  {
    hide CheckToken, CheckMerge;
    if n > 0 {
      MergesPass(v, n - 1);
      assert CheckMerge(Joined(v.merges)[n - 1]) == Accepted(v.merges[n - 1]);
      assert v.merges[..n] == v.merges[..n - 1] + [v.merges[n - 1]];
    }
  }

  lemma FieldsFrom(m: Metadata, v: Vocabulary, tokens: seq<Text>, types: seq<Atom>, merges: seq<Text>)
    requires RequiredText(m, "tokenizer.ggml.model") == Some(v.model)
    requires RequiredText(m, "tokenizer.ggml.pre") == Some(v.pre)
    requires RequiredTexts(m, "tokenizer.ggml.tokens") == Some(tokens)
    requires RequiredInts(m, "tokenizer.ggml.token_type") == Some(types)
    requires RequiredTexts(m, "tokenizer.ggml.merges") == Some(merges)
    requires OptionalInteger(m, "tokenizer.ggml.bos_token_id", -1) == Some(v.bos)
    requires OptionalInteger(m, "tokenizer.ggml.eos_token_id", -1) == Some(v.eos)
    requires OptionalBool(m, "tokenizer.ggml.add_bos_token") == Some(v.addBos)
    requires OptionalBool(m, "tokenizer.ggml.add_eos_token") == Some(v.addEos)
    requires v.model == Chars("gpt2") && v.pre == Chars("qwen2") && 0 < |tokens| == |types| <= MAX_ARRAY_ITEMS
    requires |merges| <= MAX_ARRAY_ITEMS && IdInRange(v.bos, |tokens|) && IdInRange(v.eos, |tokens|)
    ensures CheckFields(m) == Accepted(v.(tokens := [], merges := []))
    ensures TokenTexts(m) == tokens && TokenTypes(m) == types && MergeTexts(m) == merges
  {
    hide RequiredText, RequiredTexts, RequiredInts, OptionalInteger, OptionalBool, Chars;
  }

  lemma AdmissibleParts(v: Vocabulary)
    requires Admissible(v)
    ensures v.model == Chars("gpt2") && v.pre == Chars("qwen2") && 0 < |v.tokens| <= MAX_ARRAY_ITEMS
    ensures |v.merges| <= MAX_ARRAY_ITEMS && IdInRange(v.bos, |v.tokens|) && IdInRange(v.eos, |v.tokens|)
    ensures |Flat(PayloadOf(v))| <= MAX_SIDECAR_BYTES && Fits32(v.bos) && Fits32(v.eos)
    ensures forall i :: 0 <= i < |v.tokens| ==> v.tokens[i].typ <= 6
  {
    hide Chars, PayloadOf, MergeFits;
    forall i | 0 <= i < |v.tokens| ensures v.tokens[i].typ <= 6 { assert TokenFits(v.tokens[i]); }
  }

  lemma FieldsPass(gs: seq<Given>, v: Vocabulary)
    requires Describes(gs, v) && Admissible(v)
    ensures var m := Expected(gs, |gs|);
            CheckFields(m) == Accepted(v.(tokens := [], merges := [])) && TokenTexts(m) == Texts(v.tokens) &&
            TokenTypes(m) == IntAtoms(Types(v.tokens)) && MergeTexts(m) == Joined(v.merges)
  {
    hide Describes, Admissible, RequiredText, RequiredTexts, RequiredInts, OptionalInteger, OptionalBool;
    hide Chars, Expected, CheckFields;
    AdmissibleParts(v);
    FieldsHeld(gs, v);
    OptionsHeld(gs, v);
    FieldsFrom(Expected(gs, |gs|), v, Texts(v.tokens), IntAtoms(Types(v.tokens)), Joined(v.merges));
  }

  /** The exporter makes of the dictionary the vocabulary it describes. */
  lemma Validates(gs: seq<Given>, v: Vocabulary)
    requires Describes(gs, v) && Admissible(v) && Wellformed(v)
    ensures Validate(Expected(gs, |gs|)) == Accepted(v)
  {
    hide CheckFields, TokenTexts, TokenTypes, MergeTexts, CheckTokens, CheckMerges, Expected, PayloadOf;
    hide Describes, Wellformed, Admissible;
    AdmissibleParts(v);
    FieldsPass(gs, v);
    TokensPass(v, |v.tokens|);
    MergesPass(v, |v.merges|);
    assert v.tokens[..|v.tokens|] == v.tokens && v.merges[..|v.merges|] == v.merges;
  }

  /** Pairs the writer may be given that hold an acceptable vocabulary. */
  ghost predicate Exports(gs: seq<Given>, v: Vocabulary) {
    Describes(gs, v) && Admissible(v) && Wellformed(v) && |gs| <= MAX_ARRAY_ITEMS && forall g <- gs :: Readable(g)
  }

  /** Reading the file, exporting, and loading the sidecar into the program gives the
      vocabulary's own tokenizer. */
  ghost predicate ComesBack(file: seq<Byte>, v: Vocabulary) {
    var read := ReadMetadata(file);
    read.Ok? && Validate(read.value) == Accepted(v) && Admissible(v) && Load(Sidecar(v), true) == Loaded(TokenizerOf(v))
  }

  /** End to end: a vocabulary written into a GGUF file among any other pairs and
      tensors, read by the Python reader, exported, and loaded by the program. */
  lemma VocabularySurvives(v: Vocabulary, gs: seq<Given>, ts: seq<Tensor>, data: seq<Byte>)
    requires Exports(gs, v)
    requires |Written(StoredAll(gs), ts, data)| < U64_LIMIT && Ranked(ts, U32_LIMIT - 1)
    ensures ComesBack(Written(StoredAll(gs), ts, data), v)
  {
    hide ReadMetadata, Written, Validate, Load, Sidecar, TokenizerOf, Describes, Wellformed, Admissible;
    hide Readable, Ranked;
    ReadsWhatWasGiven(gs, ts, data);
    Validates(gs, v);
    SidecarReadsBack(v);
  }
}
