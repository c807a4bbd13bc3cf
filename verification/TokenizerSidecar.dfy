/** What the program loads from a QXT2 sidecar (src/qx_tokenizer.c:69-184) is what
    the exporter (scripts/export_qwen3_tokenizer.py:186-216) put into it. */
module TokenizerSidecar {
  import opened Words
  import opened LittleEndian
  import opened Layouts
  import opened Utf8
  import opened TokenizerPayload
  import opened TokenizerLoad
  import Fnv
  import TokenizerRead

  // ----- the tokenizer of a vocabulary -----

  function EntryOf(t: Token): TokenEntry { TokenEntry(Encode(t.text), t.typ) }

  function PairOf(m: Merge, rank: nat): MergeEntry { MergeEntry(Encode(m.left), Encode(m.right), rank) }

  function Entries(ts: seq<Token>, n: nat): (es: seq<TokenEntry>)
    requires n <= |ts|
    ensures |es| == n && forall i :: 0 <= i < n ==> es[i] == EntryOf(ts[i])
  {
    seq(n, i requires 0 <= i < n => EntryOf(ts[i]))
  }

  function Pairs(ms: seq<Merge>, n: nat): (es: seq<MergeEntry>)
    requires n <= |ms|
    ensures |es| == n && forall i :: 0 <= i < n ==> es[i] == PairOf(ms[i], i)
  {
    seq(n, i requires 0 <= i < n => PairOf(ms[i], i))
  }

  /** What the program holds in memory for a vocabulary. */
  function TokenizerOf(v: Vocabulary): Tokenizer {
    var payload := Flat(PayloadOf(v));
    Tokenizer(MODEL, PRE, Entries(v.tokens, |v.tokens|), Pairs(v.merges, |v.merges|), v.bos, v.eos, Flags(v), payload,
              Fnv.Hash(payload))
  }

  lemma SameText(a: Text, b: Text)
    requires Encode(a) == Encode(b)
    ensures a == b
  {
    hide Encode, Decode;
    DecodeEncode(a);
    DecodeEncode(b);
  }

  lemma SameToken(a: Token, b: Token)
    requires EntryOf(a) == EntryOf(b)
    ensures a == b
  {
    hide Encode;
    SameText(a.text, b.text);
  }

  lemma SameMerge(a: Merge, b: Merge, i: nat)
    requires PairOf(a, i) == PairOf(b, i)
    ensures a == b
  {
    hide Encode;
    SameText(a.left, b.left);
    SameText(a.right, b.right);
  }

  /** No two admissible vocabularies are the same tokenizer. */
  lemma TokenizerDetermines(v: Vocabulary, w: Vocabulary)
    requires Admissible(v) && Admissible(w) && TokenizerOf(v) == TokenizerOf(w)
    ensures v == w
  {
    hide EntryOf, PairOf, PayloadOf, TablesFit, Fnv.Hash;
    forall i | 0 <= i < |v.tokens| && i < |w.tokens| ensures v.tokens[i] == w.tokens[i] {
      assert Entries(v.tokens, |v.tokens|)[i] == Entries(w.tokens, |w.tokens|)[i];
      SameToken(v.tokens[i], w.tokens[i]);
    }
    forall i | 0 <= i < |v.merges| && i < |w.merges| ensures v.merges[i] == w.merges[i] {
      assert Pairs(v.merges, |v.merges|)[i] == Pairs(w.merges, |w.merges|)[i];
      SameMerge(v.merges[i], w.merges[i], i);
    }
    assert |Entries(v.tokens, |v.tokens|)| == |Entries(w.tokens, |w.tokens|)|;
    assert |Pairs(v.merges, |v.merges|)| == |Pairs(w.merges, |w.merges|)|;
  }

  // ----- the encoded parts read back -----

  /** A text in the file: its bytes are there, NUL-free and valid UTF-8. */
  lemma TextRead(file: seq<Byte>, pos: nat, t: Text)
    requires At(file, pos, Raw(Encode(t))) && 0 !in t
    ensures pos + |Encode(t)| <= |file| && file[pos..pos + |Encode(t)|] == Encode(t)
    ensures 0 !in Encode(t) && Decode(Encode(t)) != None
  {
    hide Encode, Decode;
    assert file[pos..pos + |Encode(t)|] == Encode(t);
    AsciiByte(t, 0);
    DecodeEncode(t);
  }

  lemma SymbolBytes(t: Text)
    requires t != []
    ensures |Encode(t)| > 0
  {
  }

  lemma PairIsAt(file: seq<Byte>, pos: nat, a: nat, b: nat)
    requires At(file, pos, Then(Num(a, 4), Num(b, 4)))
    ensures pos + 8 <= |file| && LeAt(file, pos, 4) == a && LeAt(file, pos + 4, 4) == b
  {
    assert At(file, pos, Num(a, 4)) && At(file, pos + 4, Num(b, 4));
  }

  lemma TokenRead(file: seq<Byte>, pos: nat, t: Token)
    requires At(file, pos, EncToken(t)) && TokenFits(t)
    ensures AfterToken(file, pos) == Next(pos + Size(EncToken(t))) && TokenAt(file, pos) == EntryOf(t)
  {
    hide LeAt, Encode, Decode;
    var head := Then(Num(|Encode(t.text)|, 4), Num(t.typ, 4));
    assert At(file, pos, head) && Size(head) == 8;
    PairIsAt(file, pos, |Encode(t.text)|, t.typ);
    TextRead(file, pos + 8, t.text);
  }

  lemma MergeRead(file: seq<Byte>, pos: nat, m: Merge, rank: nat)
    requires At(file, pos, EncMerge(m)) && MergeFits(m)
    ensures AfterMerge(file, pos) == Next(pos + Size(EncMerge(m))) && MergeAt(file, pos, rank) == PairOf(m, rank)
  {
    hide LeAt, Encode, Decode;
    var head := Then(Num(|Encode(m.left)|, 4), Num(|Encode(m.right)|, 4));
    var body := Then(Raw(Encode(m.left)), Raw(Encode(m.right)));
    assert Size(head) == 8;
    assert At(file, pos, Then(head, body));
    assert At(file, pos, head) && At(file, pos + 8, body);
    PairIsAt(file, pos, |Encode(m.left)|, |Encode(m.right)|);
    TextRead(file, pos + 8, m.left);
    TextRead(file, pos + 8 + |Encode(m.left)|, m.right);
    SymbolBytes(m.left);
    SymbolBytes(m.right);
    RawShape(Encode(m.left), Encode(m.right));
  }

  lemma LastToken(file: seq<Byte>, pos: nat, ts: seq<Token>, n: nat)
    requires 0 < n <= |ts| && At(file, pos, EncTokens(ts, n))
    ensures At(file, pos, EncTokens(ts, n - 1)) && At(file, pos + Size(EncTokens(ts, n - 1)), EncToken(ts[n - 1]))
    ensures Size(EncTokens(ts, n)) == Size(EncTokens(ts, n - 1)) + Size(EncToken(ts[n - 1]))
    ensures Entries(ts, n) == Entries(ts, n - 1) + [EntryOf(ts[n - 1])]
  {
    hide EncToken, EntryOf;
    assert EncTokens(ts, n) == Then(EncTokens(ts, n - 1), EncToken(ts[n - 1]));
  }

  lemma NextToken(file: seq<Byte>, pos: nat, n: nat)
    requires n > 0 && AfterTokens(file, pos, n - 1).Next?
    requires AfterToken(file, AfterTokens(file, pos, n - 1).pos).Next?
    ensures AfterTokens(file, pos, n) == AfterToken(file, AfterTokens(file, pos, n - 1).pos)
    ensures TokensAt(file, pos, n) ==
      TokensAt(file, pos, n - 1) + [TokenAt(file, AfterTokens(file, pos, n - 1).pos)]
  {
    hide AfterToken, TokenAt;
  }

  lemma {:induction false} TokensRead(file: seq<Byte>, pos: nat, ts: seq<Token>, n: nat)
    requires n <= |ts| && At(file, pos, EncTokens(ts, n)) && forall t <- ts :: TokenFits(t)
    ensures AfterTokens(file, pos, n) == Next(pos + Size(EncTokens(ts, n))) && TokensAt(file, pos, n) == Entries(ts, n)
  {
    hide EncToken, AfterToken, TokenAt, TokenFits, EntryOf, At;
    if n > 0 {
      hide EncTokens, Size, Entries, AfterTokens, TokensAt;
      LastToken(file, pos, ts, n);
      TokensRead(file, pos, ts, n - 1);
      assert TokenFits(ts[n - 1]);
      TokenRead(file, pos + Size(EncTokens(ts, n - 1)), ts[n - 1]);
      NextToken(file, pos, n);
    }
  }

  lemma LastMerge(file: seq<Byte>, pos: nat, ms: seq<Merge>, n: nat)
    requires 0 < n <= |ms| && At(file, pos, EncMerges(ms, n))
    ensures At(file, pos, EncMerges(ms, n - 1)) && At(file, pos + Size(EncMerges(ms, n - 1)), EncMerge(ms[n - 1]))
    ensures Size(EncMerges(ms, n)) == Size(EncMerges(ms, n - 1)) + Size(EncMerge(ms[n - 1]))
    ensures Pairs(ms, n) == Pairs(ms, n - 1) + [PairOf(ms[n - 1], n - 1)]
  {
    hide EncMerge, PairOf;
    assert EncMerges(ms, n) == Then(EncMerges(ms, n - 1), EncMerge(ms[n - 1]));
  }

  lemma NextMerge(file: seq<Byte>, pos: nat, n: nat)
    requires n > 0 && AfterMerges(file, pos, n - 1).Next?
    requires AfterMerge(file, AfterMerges(file, pos, n - 1).pos).Next?
    ensures AfterMerges(file, pos, n) == AfterMerge(file, AfterMerges(file, pos, n - 1).pos)
    ensures MergesAt(file, pos, n) ==
      MergesAt(file, pos, n - 1) + [MergeAt(file, AfterMerges(file, pos, n - 1).pos, n - 1)]
  {
    hide AfterMerge, MergeAt;
  }

  lemma {:induction false} MergesRead(file: seq<Byte>, pos: nat, ms: seq<Merge>, n: nat)
    requires n <= |ms| && At(file, pos, EncMerges(ms, n)) && forall m <- ms :: MergeFits(m)
    ensures AfterMerges(file, pos, n) == Next(pos + Size(EncMerges(ms, n))) && MergesAt(file, pos, n) == Pairs(ms, n)
  {
    hide EncMerge, AfterMerge, MergeAt, MergeFits, PairOf, At;
    if n > 0 {
      hide EncMerges, Size, Pairs, AfterMerges, MergesAt;
      LastMerge(file, pos, ms, n);
      MergesRead(file, pos, ms, n - 1);
      assert MergeFits(ms[n - 1]);
      MergeRead(file, pos + Size(EncMerges(ms, n - 1)), ms[n - 1], n - 1);
      NextMerge(file, pos, n);
    }
  }

  // ----- every length of an admissible vocabulary fits its field -----

  lemma {:induction false} TokensFit(ts: seq<Token>, n: nat)
    requires n <= |ts| && Size(EncTokens(ts, n)) < U32_LIMIT && forall t <- ts :: TokenFits(t)
    ensures Fits(EncTokens(ts, n))
  {
    hide Encode;
    if n > 0 {
      Limits();
      assert TokenFits(ts[n - 1]);
      TokenShape(ts[n - 1]);
      TokensFit(ts, n - 1);
    }
  }

  lemma TokenShape(t: Token)
    ensures Size(EncToken(t)) == 8 + |Encode(t.text)|
    ensures Fits(EncToken(t)) <==> |Encode(t.text)| < Limit(4) && t.typ < Limit(4)
  {
    hide Encode, Limit;
    PairShape(|Encode(t.text)|, 4, t.typ, 4);
  }

  lemma MergeShape(m: Merge)
    ensures Size(EncMerge(m)) == 8 + |Encode(m.left)| + |Encode(m.right)|
    ensures Fits(EncMerge(m)) <==> |Encode(m.left)| < Limit(4) && |Encode(m.right)| < Limit(4)
  {
    hide Encode, Limit;
    PairShape(|Encode(m.left)|, 4, |Encode(m.right)|, 4);
    RawShape(Encode(m.left), Encode(m.right));
  }

  lemma {:induction false} MergesFit(ms: seq<Merge>, n: nat)
    requires n <= |ms| && Size(EncMerges(ms, n)) < U32_LIMIT
    ensures Fits(EncMerges(ms, n))
  {
    hide Encode;
    if n > 0 {
      Limits();
      MergeShape(ms[n - 1]);
      MergesFit(ms, n - 1);
    }
  }

  // ----- the payload -----

  lemma PayloadShape(v: Vocabulary)
    ensures Size(PayloadOf(v)) ==
      |Encode(v.model)| + |Encode(v.pre)| + Size(EncTokens(v.tokens, |v.tokens|)) +
      Size(EncMerges(v.merges, |v.merges|))
    ensures Fits(PayloadOf(v)) <==> Fits(EncTokens(v.tokens, |v.tokens|)) && Fits(EncMerges(v.merges, |v.merges|))
  {
    hide EncTokens, EncMerges, Encode;
    RawShape(Encode(v.model), Encode(v.pre));
    var front := Then(Names(v), EncTokens(v.tokens, |v.tokens|));
    assert Size(front) == Size(Names(v)) + Size(EncTokens(v.tokens, |v.tokens|));
    assert Fits(front) <==> Fits(EncTokens(v.tokens, |v.tokens|));
  }

  lemma PayloadFits(v: Vocabulary)
    requires Admissible(v)
    ensures Fits(PayloadOf(v)) && Size(PayloadOf(v)) < U32_LIMIT
  {
    hide EncTokens, EncMerges, Encode, PayloadOf;
    PayloadShape(v);
    TokensFit(v.tokens, |v.tokens|);
    MergesFit(v.merges, |v.merges|);
  }

  lemma PayloadIsAt(file: seq<Byte>, pos: nat, v: Vocabulary)
    requires At(file, pos, PayloadOf(v))
    ensures var preAt := pos + |Encode(v.model)|;
            var tokensAt := preAt + |Encode(v.pre)|;
            var mergesAt := tokensAt + Size(EncTokens(v.tokens, |v.tokens|));
            At(file, pos, Raw(Encode(v.model))) && At(file, preAt, Raw(Encode(v.pre))) &&
            At(file, tokensAt, EncTokens(v.tokens, |v.tokens|)) && At(file, mergesAt, EncMerges(v.merges, |v.merges|))
  {
    hide EncTokens, EncMerges, Encode;
    var front := Then(Names(v), EncTokens(v.tokens, |v.tokens|));
    RawShape(Encode(v.model), Encode(v.pre));
    assert At(file, pos, front) && At(file, pos, Names(v));
    assert Size(front) == Size(Names(v)) + Size(EncTokens(v.tokens, |v.tokens|));
    assert At(file, pos + Size(front), EncMerges(v.merges, |v.merges|));
  }

  // ----- the header -----

  lemma BitsBack(n: int)
    requires Fits32(n)
    ensures Bits(n) < U32_LIMIT && Signed(Bits(n)) == n
  {
  }

  lemma FlagsBack(v: Vocabulary)
    ensures Flags(v) < 4 && (Flags(v) % 2 == 1 <==> v.addBos) && (Flags(v) / 2 % 2 == 1 <==> v.addEos)
  {
  }

  /** The header's first 24 bytes: magic, version, counts. */
  lemma StartFields(file: seq<Byte>, v: Vocabulary)
    requires At(file, 0, Then(Raw(QXT2), Num(2, 4))) && At(file, 8, Counts(v))
    ensures 24 <= |file| && file[..4] == MAGIC && LeAt(file, 4, 4) == 2
    ensures LeAt(file, 8, 4) == |v.tokens| && LeAt(file, 12, 4) == |v.merges|
    ensures LeAt(file, 16, 4) == |Encode(v.model)| && LeAt(file, 20, 4) == |Encode(v.pre)|
  {
    hide LeAt, Encode;
    assert At(file, 0, Raw(QXT2)) && |QXT2| == 4 && At(file, 4, Num(2, 4));
    var a, b := Then(Num(|v.tokens|, 4), Num(|v.merges|, 4)), Then(Num(|Encode(v.model)|, 4), Num(|Encode(v.pre)|, 4));
    assert Counts(v) == Then(a, b) && Size(a) == 8;
    assert At(file, 8, a) && At(file, 16, b);
    PairIsAt(file, 8, |v.tokens|, |v.merges|);
    PairIsAt(file, 16, |Encode(v.model)|, |Encode(v.pre)|);
    assert file[..4] == MAGIC;
  }

  lemma EndFields(file: seq<Byte>, v: Vocabulary, length: nat, checksum: U64)
    requires Fits32(v.bos) && Fits32(v.eos) && At(file, 24, Ids(v))
    requires At(file, 32, Then(Then(Num(Flags(v), 4), Num(length, 4)), Num(checksum, 8)))
    ensures 48 <= |file| && LeAt(file, 24, 4) == Bits(v.bos) && LeAt(file, 28, 4) == Bits(v.eos)
    ensures LeAt(file, 32, 4) == Flags(v) && LeAt(file, 36, 4) == length && LeAt(file, 40, 8) == checksum
  {
    hide LeAt, Bits, Flags;
    PairIsAt(file, 24, Bits(v.bos), Bits(v.eos));
    var a := Then(Num(Flags(v), 4), Num(length, 4));
    assert Size(a) == 8;
    assert At(file, 32, Then(a, Num(checksum, 8)));
    assert At(file, 32, a) && At(file, 32 + Size(a), Num(checksum, 8));
    PairIsAt(file, 32, Flags(v), length);
  }

  /** Sizes of the header's three parts. */
  lemma PartSizes(v: Vocabulary, length: nat, checksum: U64)
    requires Fits32(v.bos) && Fits32(v.eos)
    ensures Size(Then(Raw(QXT2), Num(2, 4))) == 8 && Size(Counts(v)) == 16 && Size(Ids(v)) == 8
    ensures Size(Then(Counts(v), Ids(v))) == 24
    ensures Size(Then(Then(Num(Flags(v), 4), Num(length, 4)), Num(checksum, 8))) == 16
  {
    hide Encode, Bits, Flags;
    assert |QXT2| == 4;
    assert Size(Raw(QXT2)) == 4;
    var a, b := Then(Num(|v.tokens|, 4), Num(|v.merges|, 4)), Then(Num(|Encode(v.model)|, 4), Num(|Encode(v.pre)|, 4));
    assert Size(a) == 8 && Size(b) == 8;
    assert Size(Counts(v)) == Size(a) + Size(b);
    var c := Then(Num(Flags(v), 4), Num(length, 4));
    assert Size(c) == 8;
    assert Size(Then(c, Num(checksum, 8))) == Size(c) + 8;
  }

  lemma CountsFit(v: Vocabulary)
    requires |v.tokens| < U32_LIMIT && |v.merges| < U32_LIMIT && |Encode(v.model)| < U32_LIMIT
    requires |Encode(v.pre)| < U32_LIMIT
    ensures Fits(Counts(v))
  {
    hide Encode, Limit;
    Limits();
    PairShape(|v.tokens|, 4, |v.merges|, 4);
    PairShape(|Encode(v.model)|, 4, |Encode(v.pre)|, 4);
  }

  lemma EndFits(v: Vocabulary, length: U32, checksum: U64)
    requires Fits32(v.bos) && Fits32(v.eos)
    ensures Fits(Ids(v)) && Fits(Then(Then(Num(Flags(v), 4), Num(length, 4)), Num(checksum, 8)))
  {
    hide Bits, Flags, Limit;
    Limits();
    BitsBack(v.bos);
    BitsBack(v.eos);
    FlagsBack(v);
    PairShape(Bits(v.bos), 4, Bits(v.eos), 4);
    PairShape(Flags(v), 4, length, 4);
    assert Fits(Num(checksum, 8)) <==> checksum < Limit(8);
  }

  lemma HeaderFits(v: Vocabulary, length: U32, checksum: U64)
    requires |v.tokens| < U32_LIMIT && |v.merges| < U32_LIMIT && |Encode(v.model)| < U32_LIMIT
    requires |Encode(v.pre)| < U32_LIMIT
    requires Fits32(v.bos) && Fits32(v.eos)
    ensures Size(HeaderOf(v, length, checksum)) == HEADER && Fits(HeaderOf(v, length, checksum))
  {
    PartSizes(v, length, checksum);
    CountsFit(v);
    EndFits(v, length, checksum);
    Limits();
    hide Encode, Bits, Flags, Counts, Ids;
    var start, middle := Then(Raw(QXT2), Num(2, 4)), Then(Counts(v), Ids(v));
    assert Fits(start) && Fits(middle);
    assert Size(Then(start, middle)) == 32 && Fits(Then(start, middle));
  }

  lemma HeaderIsAt(file: seq<Byte>, v: Vocabulary, length: nat, checksum: U64)
    requires Fits32(v.bos) && Fits32(v.eos) && At(file, 0, HeaderOf(v, length, checksum))
    ensures At(file, 0, Then(Raw(QXT2), Num(2, 4))) && At(file, 8, Counts(v)) && At(file, 24, Ids(v))
    ensures At(file, 32, Then(Then(Num(Flags(v), 4), Num(length, 4)), Num(checksum, 8)))
  {
    PartSizes(v, length, checksum);
    hide Encode, Bits, Flags, Counts, Ids;
    var start, middle := Then(Raw(QXT2), Num(2, 4)), Then(Counts(v), Ids(v));
    assert Size(Then(start, middle)) == 32;
    assert At(file, 0, Then(start, middle));
    assert At(file, 0, start) && At(file, 8, middle);
  }

  // ----- the whole sidecar -----

  lemma PayloadAt(front: Str, payload: Layout)
    requires Fits(payload)
    ensures At(front + Flat(payload), |front|, payload)
  {
    var file, p := front + Flat(payload), Flat(payload);
    forall i {:trigger p[i]} | 0 <= i < |p| ensures file[|front| + i] == p[i] {}
    FlatIsAt(file, |front|, payload);
  }

  lemma SidecarIsAt(v: Vocabulary)
    requires Admissible(v)
    ensures var file, payload := Sidecar(v), Flat(PayloadOf(v));
            |file| == HEADER + |payload| && file[HEADER..] == payload && |payload| < U32_LIMIT &&
            At(file, 0, HeaderOf(v, |payload|, Fnv.Hash(payload))) && At(file, HEADER, PayloadOf(v))
  {
    PayloadFits(v);
    PayloadShape(v);
    assert |v.tokens| < U32_LIMIT && |v.merges| < U32_LIMIT && Fits32(v.bos) && Fits32(v.eos);
    hide PayloadOf, HeaderOf, Encode, EncTokens, EncMerges, Fnv.Hash;
    var payload := Flat(PayloadOf(v));
    var header := HeaderOf(v, |payload|, Fnv.Hash(payload));
    HeaderFits(v, |payload|, Fnv.Hash(payload));
    StartsWith(header, payload);
    PayloadAt(Flat(header), PayloadOf(v));
  }

  lemma NameBytes()
    ensures Encode(TokenizerRead.Chars("gpt2")) == MODEL && Encode(TokenizerRead.Chars("qwen2")) == PRE
  {
    hide Encode;
    var model, pre := TokenizerRead.Chars("gpt2"), TokenizerRead.Chars("qwen2");
    assert |model| == 4 && model[0] == 0x67 && model[1] == 0x70 && model[2] == 0x74 && model[3] == 0x32;
    assert |pre| == 5 && pre[0] == 0x71 && pre[1] == 0x77 && pre[2] == 0x65 && pre[3] == 0x6E && pre[4] == 0x32;
    EncodeAscii(model);
    EncodeAscii(pre);
    assert model == MODEL && pre == PRE;
  }

  lemma NamesRead(file: seq<Byte>, v: Vocabulary)
    requires Admissible(v) && At(file, HEADER, PayloadOf(v))
    ensures |Encode(v.model)| == 4 && |Encode(v.pre)| == 5 && HEADER + 9 <= |file|
    ensures file[HEADER..HEADER + 4] == MODEL && file[HEADER + 4..HEADER + 9] == PRE
  {
    hide Encode, PayloadOf, EncTokens, EncMerges, TokenizerRead.Chars, TablesFit;
    NameBytes();
    PayloadIsAt(file, HEADER, v);
  }

  lemma TablesRead(file: seq<Byte>, v: Vocabulary)
    requires Admissible(v) && |file| == HEADER + Size(PayloadOf(v)) && At(file, HEADER, PayloadOf(v))
    requires LeAt(file, 8, 4) == |v.tokens| && LeAt(file, 12, 4) == |v.merges|
    requires LeAt(file, 16, 4) == 4 && LeAt(file, 20, 4) == 5 && LeAt(file, 32, 4) == Flags(v)
    requires Signed(LeAt(file, 24, 4)) == v.bos && Signed(LeAt(file, 28, 4)) == v.eos
    requires file[HEADER..] == Flat(PayloadOf(v)) && LeAt(file, 40, 8) == Fnv.Hash(Flat(PayloadOf(v)))
    ensures LoadTables(file) == Loaded(TokenizerOf(v))
  {
    hide LeAt, Encode, PayloadOf, EncTokens, EncMerges, AfterTokens, TokensAt, AfterMerges, MergesAt, Flags;
    hide Signed, Fnv.Hash;
    hide TokenFits, MergeFits, Entries, Pairs;
    NamesRead(file, v);
    PayloadShape(v);
    PayloadIsAt(file, HEADER, v);
    var tokensAt := HEADER + 9;
    TokensRead(file, tokensAt, v.tokens, |v.tokens|);
    MergesRead(file, tokensAt + Size(EncTokens(v.tokens, |v.tokens|)), v.merges, |v.merges|);
  }

  /** The header of an admissible vocabulary's sidecar passes every check. */
  lemma HeaderPasses(file: seq<Byte>, v: Vocabulary)
    requires Admissible(v) && |file| == HEADER + Size(PayloadOf(v)) && file[..4] == MAGIC && LeAt(file, 4, 4) == 2
    requires LeAt(file, 8, 4) == |v.tokens| && LeAt(file, 12, 4) == |v.merges| && LeAt(file, 16, 4) == 4
    requires LeAt(file, 20, 4) == 5 && Signed(LeAt(file, 24, 4)) == v.bos && Signed(LeAt(file, 28, 4)) == v.eos
    requires LeAt(file, 32, 4) == Flags(v) && LeAt(file, 36, 4) == Size(PayloadOf(v))
    ensures HeaderFault(file) == None && |file| <= HEADER + MAX_PAYLOAD
  {
    hide LeAt, PayloadOf, Signed, Encode, TablesFit, TokenizerRead.Chars;
    FlagsBack(v);
  }

  /** The program loads from a sidecar exactly the vocabulary it was built from. */
  lemma SidecarReadsBack(v: Vocabulary)
    requires Admissible(v)
    ensures Load(Sidecar(v), true) == Loaded(TokenizerOf(v))
  {
    SidecarIsAt(v);
    assert Fits32(v.bos) && Fits32(v.eos);
    hide LeAt, Encode, PayloadOf, HeaderOf, Admissible, LoadTables, HeaderFault, Bits, Flags, Sidecar;
    hide Fnv.Hash, Signed, TokenizerOf;
    var file, payload := Sidecar(v), Flat(PayloadOf(v));
    HeaderIsAt(file, v, |payload|, Fnv.Hash(payload));
    StartFields(file, v);
    EndFields(file, v, |payload|, Fnv.Hash(payload));
    BitsBack(v.bos);
    BitsBack(v.eos);
    NamesRead(file, v);
    HeaderPasses(file, v);
    TablesRead(file, v);
  }

  /** Whatever the exporter accepts the program loads, and it is what the metadata say. */
  lemma ExportReadsBack(m: TokenizerRead.Metadata)
    requires Validate(m).Accepted?
    ensures Admissible(Validate(m).value)
    ensures Load(Sidecar(Validate(m).value), true) == Loaded(TokenizerOf(Validate(m).value))
  {
    hide Validate, Admissible, Sidecar, Load, TokenizerOf;
    ValidIsAdmissible(m);
    SidecarReadsBack(Validate(m).value);
  }

  lemma {:induction false} SameBytes(a: seq<Byte>, b: seq<Byte>, pos: nat, width: nat)
    requires pos + width <= |a| && |a| == |b| && a[pos..pos + width] == b[pos..pos + width]
    ensures LeAt(a, pos, width) == LeAt(b, pos, width)
    decreases width
  {
    if width > 0 {
      assert a[pos] == a[pos..pos + width][0] == b[pos..pos + width][0] == b[pos];
      assert a[pos + 1..pos + width] == a[pos..pos + width][1..] == b[pos..pos + width][1..] == b[pos + 1..pos + width];
      SameBytes(a, b, pos + 1, width - 1);
    }
  }

  lemma SliceOfHeader(a: seq<Byte>, pos: nat, width: nat)
    requires HEADER <= |a| && pos + width <= HEADER
    ensures a[pos..pos + width] == a[..HEADER][pos..pos + width]
  {
  }

  lemma SameField(a: seq<Byte>, b: seq<Byte>, pos: nat, width: nat)
    requires HEADER <= |a| == |b| && a[..HEADER] == b[..HEADER] && pos + width <= HEADER
    ensures LeAt(a, pos, width) == LeAt(b, pos, width)
  {
    hide LeAt;
    SliceOfHeader(a, pos, width);
    SliceOfHeader(b, pos, width);
    SameBytes(a, b, pos, width);
  }

  lemma SameHeader(a: seq<Byte>, b: seq<Byte>)
    requires HEADER <= |a| == |b| && a[..HEADER] == b[..HEADER]
    ensures HeaderFault(a) == HeaderFault(b) && LeAt(a, 40, 8) == LeAt(b, 40, 8)
  {
    hide LeAt, Signed;
    SameField(a, b, 4, 4);
    SameField(a, b, 8, 4);
    SameField(a, b, 12, 4);
    SameField(a, b, 16, 4);
    SameField(a, b, 20, 4);
    SameField(a, b, 24, 4);
    SameField(a, b, 28, 4);
    SameField(a, b, 32, 4);
    SameField(a, b, 36, 4);
    SameField(a, b, 40, 8);
    SliceOfHeader(a, 0, 4);
    SliceOfHeader(b, 0, 4);
    assert a[..4] == a[0..4] && b[..4] == b[0..4];
  }

  /** A loadable file with exactly one payload byte changed, anywhere, is refused for
      its checksum. */
  lemma CorruptionIsNoticed(file: seq<Byte>, i: nat, x: Byte)
    requires Load(file, true).Loaded? && HEADER <= i < |file| && x != file[i]
    ensures Load(file[i := x], true) == NotLoaded(ChecksumMismatch)
  {
    hide LoadTables, HeaderFault, LeAt, Fnv.Hash;
    var bad := file[i := x];
    var front, back := file[HEADER..i], file[i + 1..];
    assert file[HEADER..] == front + [file[i]] + back;
    assert bad[HEADER..] == front + [x] + back;
    Fnv.DetectsOneByte(front, file[i], x, back);
    assert bad[..HEADER] == file[..HEADER];
    SameHeader(bad, file);
  }
}
