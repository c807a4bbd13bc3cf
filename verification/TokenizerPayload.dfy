/** The QXT2 sidecar: validated_payload (scripts/export_qwen3_tokenizer.py:140-216)
    as functions of the metadata, and the sidecar's layout. */
module TokenizerPayload {
  import opened Words
  import opened Layouts
  import opened Utf8
  import opened GgufFormat
  import opened TokenizerRead
  import Fnv

  // ----- what a sidecar holds -----

  datatype Token = Token(text: Text, typ: nat)

  datatype Merge = Merge(left: Text, right: Text)

  datatype Vocabulary = Vocabulary(model: Text, pre: Text, tokens: seq<Token>, merges: seq<Merge>, bos: int, eos: int,
                                   addBos: bool, addEos: bool)

  function EncToken(t: Token): Layout {
    Then(Then(Num(|Encode(t.text)|, 4), Num(t.typ, 4)), Raw(Encode(t.text)))
  }

  function EncTokens(ts: seq<Token>, n: nat): Layout
    requires n <= |ts|
  {
    if n == 0 then Nothing else Then(EncTokens(ts, n - 1), EncToken(ts[n - 1]))
  }

  function EncMerge(m: Merge): Layout {
    Then(Then(Num(|Encode(m.left)|, 4), Num(|Encode(m.right)|, 4)), Then(Raw(Encode(m.left)), Raw(Encode(m.right))))
  }

  function EncMerges(ms: seq<Merge>, n: nat): Layout
    requires n <= |ms|
  {
    if n == 0 then Nothing else Then(EncMerges(ms, n - 1), EncMerge(ms[n - 1]))
  }

  function Names(v: Vocabulary): Layout { Then(Raw(Encode(v.model)), Raw(Encode(v.pre))) }

  function PayloadOf(v: Vocabulary): Layout {
    Then(Then(Names(v), EncTokens(v.tokens, |v.tokens|)), EncMerges(v.merges, |v.merges|))
  }

  /** "QXT2". */
  const QXT2: Str := [0x51, 0x58, 0x54, 0x32]

  predicate Fits32(n: int) { -0x8000_0000 <= n < 0x8000_0000 }

  function Bits(n: int): nat
    requires Fits32(n)
  {
    if n < 0 then n + U32_LIMIT else n
  }

  function Flags(v: Vocabulary): nat { (if v.addBos then 1 else 0) + (if v.addEos then 2 else 0) }

  function Counts(v: Vocabulary): Layout {
    Then(Then(Num(|v.tokens|, 4), Num(|v.merges|, 4)), Then(Num(|Encode(v.model)|, 4), Num(|Encode(v.pre)|, 4)))
  }

  function Ids(v: Vocabulary): Layout
    requires Fits32(v.bos) && Fits32(v.eos)
  {
    Then(Num(Bits(v.bos), 4), Num(Bits(v.eos), 4))
  }

  /** QXT_HEADER: 48 bytes, the checksum of the payload last. */
  function HeaderOf(v: Vocabulary, length: nat, checksum: U64): Layout
    requires Fits32(v.bos) && Fits32(v.eos)
  {
    Then(Then(Then(Raw(QXT2), Num(2, 4)), Then(Counts(v), Ids(v))),
         Then(Then(Num(Flags(v), 4), Num(length, 4)), Num(checksum, 8)))
  }

  function Sidecar(v: Vocabulary): Str
    requires Fits32(v.bos) && Fits32(v.eos)
  {
    var payload := Flat(PayloadOf(v));
    Flat(HeaderOf(v, |payload|, Fnv.Hash(payload))) + payload
  }

  // ----- validation -----

  datatype Refusal =
    | WrongType(name: string) | UnexpectedModel | BadTokens | BadTypeCount | BadMerges | IdOutOfRange
    | NulInToken | TokenTooLong | BadTokenType | NulInMerge | NoSpaceInMerge | EmptyMergeSymbol | MergeTooLong
    | PayloadTooLarge

  datatype Outcome<+T> = Accepted(value: T) | Refused(why: Refusal)

  /** required(name, STRING), required(name, ARRAY, STRING) and required(name, ARRAY, INT32). */
  function RequiredText(m: Metadata, name: string): Option<Text> {
    var key := Chars(name);
    if key in m && m[key].typ == GGUF_STRING && m[key].element == None && m[key].value.Words?
    then Some(m[key].value.text) else None
  }

  function RequiredTexts(m: Metadata, name: string): Option<seq<Text>> {
    var key := Chars(name);
    if key in m && m[key].typ == GGUF_ARRAY && m[key].element == Some(GGUF_STRING) && m[key].value.WordList?
    then Some(m[key].value.texts) else None
  }

  function RequiredInts(m: Metadata, name: string): Option<seq<Atom>> {
    var key := Chars(name);
    if key in m && m[key].typ == GGUF_ARRAY && m[key].element == Some(GGUF_INT32) && m[key].value.Atoms?
    then Some(m[key].value.atoms) else None
  }

  predicate IntegerType(typ: nat) { typ <= 5 || typ == GGUF_UINT64 || typ == GGUF_INT64 }

  function OptionalInteger(m: Metadata, name: string, default: int): Option<int> {
    var key := Chars(name);
    if key !in m then Some(default)
    else if !IntegerType(m[key].typ) || m[key].element != None then None
    else if m[key].value.One? && m[key].value.atom.Int? then Some(m[key].value.atom.n)
    else None
  }

  function OptionalBool(m: Metadata, name: string): Option<bool> {
    var key := Chars(name);
    if key !in m then Some(false)
    else if m[key].typ != GGUF_BOOL || m[key].element != None then None
    else if m[key].value == One(Int(0)) then Some(false)
    else if m[key].value == One(Int(1)) then Some(true)
    else None
  }

  /** Lines 188-194 for one token. */
  function CheckToken(text: Text, typ: Atom): Outcome<Token> {
    if 0 in text then Refused(NulInToken)
    else if |Encode(text)| > MAX_STRING_BYTES then Refused(TokenTooLong)
    else if !typ.Int? || typ.n < 1 || typ.n > 6 then Refused(BadTokenType)
    else Accepted(Token(text, typ.n))
  }

  /** Index of the first space from the i-th character on, or the length. */
  function FirstSpace(t: Text, i: nat): (k: nat)
    requires i <= |t|
    ensures i <= k <= |t| && (k < |t| ==> t[k] == 32) && forall j :: i <= j < k ==> t[j] != 32
    decreases |t| - i
  {
    if i == |t| || t[i] == 32 then i else FirstSpace(t, i + 1)
  }

  /** Lines 198-207 for one merge. */
  function CheckMerge(text: Text): Outcome<Merge> {
    var k := FirstSpace(text, 0);
    if 0 in text then Refused(NulInMerge)
    else if k == |text| then Refused(NoSpaceInMerge)
    else if k == 0 || k + 1 == |text| then Refused(EmptyMergeSymbol)
    else if |Encode(text[..k])| > MAX_STRING_BYTES || |Encode(text[k + 1..])| > MAX_STRING_BYTES then
      Refused(MergeTooLong)
    else Accepted(Merge(text[..k], text[k + 1..]))
  }

  /** A merge splits at its first space, into parts that put it back together. */
  lemma MergeSplits(text: Text, m: Merge)
    ensures CheckMerge(text) == Accepted(m) <==>
      text == m.left + [32] + m.right && 32 !in m.left && 0 !in text && m.left != [] && m.right != [] &&
      |Encode(m.left)| <= MAX_STRING_BYTES && |Encode(m.right)| <= MAX_STRING_BYTES
  {
    hide Encode;
    var k := FirstSpace(text, 0);
    if k < |text| { assert text == text[..k] + [32] + text[k + 1..]; }
    if text == m.left + [32] + m.right && 32 !in m.left {
      assert text[|m.left|] == 32;
      assert forall j :: 0 <= j < |m.left| ==> text[j] == m.left[j];
      assert k == |m.left|;
      assert text[..k] == m.left && text[k + 1..] == m.right;
    }
  }

  function CheckTokens(texts: seq<Text>, types: seq<Atom>, n: nat): (r: Outcome<seq<Token>>)
    requires n <= |texts| == |types|
    ensures r.Accepted? ==> |r.value| == n
  {
    if n == 0 then Accepted([]) else
      match CheckTokens(texts, types, n - 1)
      case Refused(e) => Refused(e)
      case Accepted(ts) =>
        match CheckToken(texts[n - 1], types[n - 1])
        case Refused(e) => Refused(e)
        case Accepted(t) => Accepted(ts + [t])
  }

  function CheckMerges(texts: seq<Text>, n: nat): (r: Outcome<seq<Merge>>)
    requires n <= |texts|
    ensures r.Accepted? ==> |r.value| == n
  {
    if n == 0 then Accepted([]) else
      match CheckMerges(texts, n - 1)
      case Refused(e) => Refused(e)
      case Accepted(ms) =>
        match CheckMerge(texts[n - 1])
        case Refused(e) => Refused(e)
        case Accepted(m) => Accepted(ms + [m])
  }

  predicate IdInRange(id: int, tokens: nat) { -1 <= id < tokens }

  /** Lines 164-187: everything before the two loops. */
  function CheckFields(m: Metadata): Outcome<Vocabulary> {
    var model, pre := RequiredText(m, "tokenizer.ggml.model"), RequiredText(m, "tokenizer.ggml.pre");
    var tokens, merges := RequiredTexts(m, "tokenizer.ggml.tokens"), RequiredTexts(m, "tokenizer.ggml.merges");
    var types := RequiredInts(m, "tokenizer.ggml.token_type");
    if model == None then Refused(WrongType("tokenizer.ggml.model"))
    else if pre == None then Refused(WrongType("tokenizer.ggml.pre"))
    else if tokens == None then Refused(WrongType("tokenizer.ggml.tokens"))
    else if types == None then Refused(WrongType("tokenizer.ggml.token_type"))
    else if merges == None then Refused(WrongType("tokenizer.ggml.merges"))
    else if model.value != Chars("gpt2") || pre.value != Chars("qwen2") then Refused(UnexpectedModel)
    else if tokens.value == [] || |tokens.value| > MAX_ARRAY_ITEMS then Refused(BadTokens)
    else if |types.value| != |tokens.value| then Refused(BadTypeCount)
    else if |merges.value| > MAX_ARRAY_ITEMS then Refused(BadMerges)
    else
      var bos := OptionalInteger(m, "tokenizer.ggml.bos_token_id", -1);
      var eos := OptionalInteger(m, "tokenizer.ggml.eos_token_id", -1);
      if bos == None then Refused(WrongType("tokenizer.ggml.bos_token_id"))
      else if eos == None then Refused(WrongType("tokenizer.ggml.eos_token_id"))
      else if !IdInRange(bos.value, |tokens.value|) || !IdInRange(eos.value, |tokens.value|) then Refused(IdOutOfRange)
      else
        var addBos := OptionalBool(m, "tokenizer.ggml.add_bos_token");
        var addEos := OptionalBool(m, "tokenizer.ggml.add_eos_token");
        if addBos == None then Refused(WrongType("tokenizer.ggml.add_bos_token"))
        else if addEos == None then Refused(WrongType("tokenizer.ggml.add_eos_token"))
        else Accepted(Vocabulary(model.value, pre.value, [], [], bos.value, eos.value, addBos.value, addEos.value))
  }

  function TokenTexts(m: Metadata): (ts: seq<Text>)
    requires CheckFields(m).Accepted?
    ensures 0 < |ts| <= MAX_ARRAY_ITEMS
  {
    RequiredTexts(m, "tokenizer.ggml.tokens").value
  }

  function TokenTypes(m: Metadata): (ts: seq<Atom>)
    requires CheckFields(m).Accepted?
    ensures |ts| == |TokenTexts(m)|
  {
    RequiredInts(m, "tokenizer.ggml.token_type").value
  }

  function MergeTexts(m: Metadata): (ts: seq<Text>)
    requires CheckFields(m).Accepted?
    ensures |ts| <= MAX_ARRAY_ITEMS
  {
    RequiredTexts(m, "tokenizer.ggml.merges").value
  }

  /** The vocabulary the metadata describe, or the first thing wrong with them. */
  function Validate(m: Metadata): Outcome<Vocabulary> {
    match CheckFields(m)
    case Refused(e) => Refused(e)
    case Accepted(fields) =>
      match CheckTokens(TokenTexts(m), TokenTypes(m), |TokenTexts(m)|)
      case Refused(e) => Refused(e)
      case Accepted(tokens) =>
        match CheckMerges(MergeTexts(m), |MergeTexts(m)|)
        case Refused(e) => Refused(e)
        case Accepted(merges) =>
          var v := fields.(tokens := tokens, merges := merges);
          if |Flat(PayloadOf(v))| > MAX_SIDECAR_BYTES then Refused(PayloadTooLarge) else Accepted(v)
  }

  predicate TokenFits(t: Token) { 1 <= t.typ <= 6 && 0 !in t.text && |Encode(t.text)| <= MAX_STRING_BYTES }

  predicate SymbolFits(t: Text) { t != [] && 0 !in t && |Encode(t)| <= MAX_STRING_BYTES }

  predicate MergeFits(m: Merge) { SymbolFits(m.left) && SymbolFits(m.right) }

  predicate TablesFit(ts: seq<Token>, ms: seq<Merge>) {
    (forall t <- ts :: TokenFits(t)) && forall m <- ms :: MergeFits(m)
  }

  /** What a validated vocabulary satisfies. */
  predicate Admissible(v: Vocabulary) {
    v.model == Chars("gpt2") && v.pre == Chars("qwen2") && 0 < |v.tokens| <= MAX_ARRAY_ITEMS &&
    |v.merges| <= MAX_ARRAY_ITEMS &&
    IdInRange(v.bos, |v.tokens|) && IdInRange(v.eos, |v.tokens|) && |Flat(PayloadOf(v))| <= MAX_SIDECAR_BYTES &&
    TablesFit(v.tokens, v.merges)
  }

  lemma {:induction false} CheckedTokens(texts: seq<Text>, types: seq<Atom>, n: nat)
    requires n <= |texts| == |types| && CheckTokens(texts, types, n).Accepted?
    ensures forall t <- CheckTokens(texts, types, n).value :: TokenFits(t)
  {
    hide Encode;
    if n > 0 { CheckedTokens(texts, types, n - 1); }
  }

  lemma CheckedMerge(text: Text)
    requires CheckMerge(text).Accepted?
    ensures MergeFits(CheckMerge(text).value)
  {
    hide Encode;
    var k := FirstSpace(text, 0);
    forall c | c in text[..k] || c in text[k + 1..] ensures c in text {}
  }

  lemma {:induction false} CheckedMerges(texts: seq<Text>, n: nat)
    requires n <= |texts| && CheckMerges(texts, n).Accepted?
    ensures forall m <- CheckMerges(texts, n).value :: MergeFits(m)
  {
    hide CheckMerge, MergeFits;
    if n > 0 {
      CheckedMerges(texts, n - 1);
      CheckedMerge(texts[n - 1]);
    }
  }

  lemma FieldsAdmissible(m: Metadata)
    requires CheckFields(m).Accepted?
    ensures var v := CheckFields(m).value;
            v.model == Chars("gpt2") && v.pre == Chars("qwen2") && IdInRange(v.bos, |TokenTexts(m)|) &&
            IdInRange(v.eos, |TokenTexts(m)|)
  {
    hide RequiredText, RequiredTexts, RequiredInts, OptionalInteger, OptionalBool, Chars;
  }

  lemma ValidIsAdmissible(m: Metadata)
    requires Validate(m).Accepted?
    ensures Admissible(Validate(m).value)
  {
    hide CheckFields, CheckTokens, CheckMerges, TokenTexts, TokenTypes, MergeTexts, PayloadOf, TokenFits;
    hide MergeFits, Chars;
    FieldsAdmissible(m);
    CheckedTokens(TokenTexts(m), TokenTypes(m), |TokenTexts(m)|);
    CheckedMerges(MergeTexts(m), |MergeTexts(m)|);
  }

  // ----- the export -----

  lemma {:induction false} TokensStop(texts: seq<Text>, types: seq<Atom>, i: nat, n: nat)
    requires i <= n <= |texts| == |types| && CheckTokens(texts, types, i).Refused?
    ensures CheckTokens(texts, types, n) == CheckTokens(texts, types, i)
  {
    if i < n { TokensStop(texts, types, i, n - 1); }
  }

  lemma {:induction false} MergesStop(texts: seq<Text>, i: nat, n: nat)
    requires i <= n <= |texts| && CheckMerges(texts, i).Refused?
    ensures CheckMerges(texts, n) == CheckMerges(texts, i)
  {
    if i < n { MergesStop(texts, i, n - 1); }
  }

  lemma {:induction false} TokensPrefix(ts: seq<Token>, t: Token, n: nat)
    requires n <= |ts|
    ensures EncTokens(ts + [t], n) == EncTokens(ts, n)
  {
    hide EncToken;
    if n > 0 { TokensPrefix(ts, t, n - 1); }
  }

  lemma {:induction false} MergesPrefix(ms: seq<Merge>, m: Merge, n: nat)
    requires n <= |ms|
    ensures EncMerges(ms + [m], n) == EncMerges(ms, n)
  {
    hide EncMerge;
    if n > 0 { MergesPrefix(ms, m, n - 1); }
  }

  lemma OneMoreToken(out: Str, ts: seq<Token>, t: Token)
    ensures out + Flat(EncTokens(ts, |ts|)) + Flat(EncToken(t)) == out + Flat(EncTokens(ts + [t], |ts| + 1))
  {
    hide EncToken;
    TokensPrefix(ts, t, |ts|);
  }

  lemma OneMoreMerge(out: Str, ms: seq<Merge>, m: Merge)
    ensures out + Flat(EncMerges(ms, |ms|)) + Flat(EncMerge(m)) == out + Flat(EncMerges(ms + [m], |ms| + 1))
  {
    hide EncMerge;
    MergesPrefix(ms, m, |ms|);
  }

  /** The loop at line 188: the payload grows token by token. */
  method AddTokens(payload: Str, texts: seq<Text>, types: seq<Atom>) returns (r: Outcome<seq<Token>>, grown: Str)
    requires |texts| == |types|
    ensures r == CheckTokens(texts, types, |texts|)
    ensures r.Accepted? ==> grown == payload + Flat(EncTokens(r.value, |r.value|))
  {
    hide CheckToken, EncToken;
    var ts: seq<Token> := [];
    grown := payload;
    for i := 0 to |texts|
      invariant CheckTokens(texts, types, i) == Accepted(ts) && |ts| == i
      invariant grown == payload + Flat(EncTokens(ts, |ts|))
    {
      var t := CheckToken(texts[i], types[i]);
      if t.Refused? {
        TokensStop(texts, types, i + 1, |texts|);
        return Refused(t.why), grown;
      }
      OneMoreToken(payload, ts, t.value);
      grown := grown + Flat(EncToken(t.value));
      ts := ts + [t.value];
    }
    r := Accepted(ts);
  }

  /** The loop at line 198. */
  method AddMerges(payload: Str, texts: seq<Text>) returns (r: Outcome<seq<Merge>>, grown: Str)
    ensures r == CheckMerges(texts, |texts|)
    ensures r.Accepted? ==> grown == payload + Flat(EncMerges(r.value, |r.value|))
  {
    hide CheckMerge, EncMerge;
    var ms: seq<Merge> := [];
    grown := payload;
    for i := 0 to |texts|
      invariant CheckMerges(texts, i) == Accepted(ms) && |ms| == i
      invariant grown == payload + Flat(EncMerges(ms, |ms|))
    {
      var m := CheckMerge(texts[i]);
      if m.Refused? {
        MergesStop(texts, i + 1, |texts|);
        return Refused(m.why), grown;
      }
      OneMoreMerge(payload, ms, m.value);
      grown := grown + Flat(EncMerge(m.value));
      ms := ms + [m.value];
    }
    r := Accepted(ms);
  }

  lemma PayloadParts(v: Vocabulary)
    ensures Flat(PayloadOf(v)) ==
      Encode(v.model) + Encode(v.pre) + Flat(EncTokens(v.tokens, |v.tokens|)) + Flat(EncMerges(v.merges, |v.merges|))
  {
    hide EncTokens, EncMerges, Encode;
    assert Flat(Names(v)) == Encode(v.model) + Encode(v.pre);
    var front := Then(Names(v), EncTokens(v.tokens, |v.tokens|));
    assert Flat(front) == Flat(Names(v)) + Flat(EncTokens(v.tokens, |v.tokens|));
  }

  /** Lines 164-208: the vocabulary and the payload built along the way. */
  method BuildPayload(m: Metadata) returns (r: Outcome<Vocabulary>, payload: Str)
    ensures r == Validate(m)
    ensures r.Accepted? ==> payload == Flat(PayloadOf(r.value))
  {
    hide CheckFields, CheckTokens, CheckMerges, PayloadOf;
    payload := [];
    var fields := CheckFields(m);
    if fields.Refused? { return Refused(fields.why), payload; }
    payload := Encode(fields.value.model) + Encode(fields.value.pre);
    var tokens, merges;
    tokens, payload := AddTokens(payload, TokenTexts(m), TokenTypes(m));
    if tokens.Refused? { return Refused(tokens.why), payload; }
    merges, payload := AddMerges(payload, MergeTexts(m));
    if merges.Refused? { return Refused(merges.why), payload; }
    var v := fields.value.(tokens := tokens.value, merges := merges.value);
    PayloadParts(v);
    if |payload| > MAX_SIDECAR_BYTES { return Refused(PayloadTooLarge), payload; }
    r := Accepted(v);
  }

  /** What the exporter returns: the sidecar, and the counts and flags it reports. */
  datatype Export = Export(sidecar: Str, tokens: nat, merges: nat, flags: nat)

  /** validated_payload: the sidecar of the vocabulary the metadata describe. */
  method ValidatedPayload(m: Metadata) returns (r: Outcome<Export>)
    ensures match Validate(m)
            case Refused(e) => r == Refused(e)
            case Accepted(v) => Admissible(v) && r == Accepted(Export(Sidecar(v), |v.tokens|, |v.merges|, Flags(v)))
  {
    hide Validate, PayloadOf, HeaderOf, TablesFit;
    var checked, payload := BuildPayload(m);
    if checked.Refused? { return Refused(checked.why); }
    ValidIsAdmissible(m);
    var checksum := Fnv.Fnv1a64(payload);
    var v := checked.value;
    r := Accepted(Export(Flat(HeaderOf(v, |payload|, checksum)) + payload, |v.tokens|, |v.merges|, Flags(v)));
  }
}
