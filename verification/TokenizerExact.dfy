/** The converse of TokenizerSidecar: the program loads no file but the sidecars of
    admissible vocabularies. TokenizerImage says which of those the exporter writes. */
module TokenizerExact {
  import opened Words
  import opened LittleEndian
  import opened Layouts
  import opened Utf8
  import opened TokenizerPayload
  import opened TokenizerLoad
  import opened TokenizerSidecar
  import Fnv
  import TokenizerRead

  // ----- texts and numbers have one encoding -----

  lemma {:induction false} LeBytes(file: seq<Byte>, pos: nat, width: nat)
    requires pos + width <= |file|
    ensures Le(LeAt(file, pos, width), width) == file[pos..pos + width]
    decreases width
  {
    if width > 0 {
      LeBytes(file, pos + 1, width - 1);
      LeStep(file[pos], LeAt(file, pos + 1, width - 1), width);
      hide Le;
      assert file[pos..pos + width] == [file[pos]] + file[pos + 1..pos + width];
    }
  }

  lemma LeStep(low: Byte, high: nat, width: nat)
    requires width > 0
    ensures Le(low + 256 * high, width) == [low] + Le(high, width - 1)
  {
    assert (low + 256 * high) % 256 == low && (low + 256 * high) / 256 == high;
  }

  lemma NotEmpty(t: Text)
    requires Encode(t) != []
    ensures t != []
  {
  }

  function TextOf(bytes: Str): Text
    requires Decode(bytes).Some?
  {
    Decode(bytes).value
  }

  lemma TextOfIs(bytes: Str)
    requires Decode(bytes).Some? && 0 !in bytes
    ensures Encode(TextOf(bytes)) == bytes && 0 !in TextOf(bytes) && (bytes != [] ==> TextOf(bytes) != [])
  {
    hide Encode, Decode;
    EncodeDecode(bytes);
    AsciiByte(TextOf(bytes), 0);
    if bytes != [] { NotEmpty(TextOf(bytes)); }
  }

  // ----- entries -----

  lemma PairBytes(file: seq<Byte>, pos: nat)
    requires pos + 8 <= |file|
    ensures Flat(Then(Num(LeAt(file, pos, 4), 4), Num(LeAt(file, pos + 4, 4), 4))) == file[pos..pos + 8]
  {
    hide LeAt, Le;
    LeBytes(file, pos, 4);
    LeBytes(file, pos + 4, 4);
    assert file[pos..pos + 8] == file[pos..pos + 4] + file[pos + 4..pos + 8];
  }

  function TokenIn(file: seq<Byte>, pos: nat): Token
    requires AfterToken(file, pos).Next?
  {
    Token(TextOf(file[pos + 8..pos + 8 + LeAt(file, pos, 4)]), LeAt(file, pos + 4, 4))
  }

  lemma TokenExact(file: seq<Byte>, pos: nat)
    requires AfterToken(file, pos).Next?
    ensures var end := AfterToken(file, pos).pos;
            pos <= end <= |file| &&
            TokenFits(TokenIn(file, pos)) && Flat(EncToken(TokenIn(file, pos))) == file[pos..end] &&
            EntryOf(TokenIn(file, pos)) == TokenizerLoad.TokenAt(file, pos)
  {
    hide LeAt, Le, Encode, Decode, TextOf;
    var length := LeAt(file, pos, 4);
    var bytes := file[pos + 8..pos + 8 + length];
    TextOfIs(bytes);
    PairBytes(file, pos);
    assert file[pos..pos + 8 + length] == file[pos..pos + 8] + bytes;
  }

  function MergeIn(file: seq<Byte>, pos: nat): Merge
    requires AfterMerge(file, pos).Next?
  {
    var a, b := LeAt(file, pos, 4), LeAt(file, pos + 4, 4);
    Merge(TextOf(file[pos + 8..pos + 8 + a]), TextOf(file[pos + 8 + a..pos + 8 + a + b]))
  }

  lemma MergeBytes(m: Merge, left: Str, right: Str, head: Str)
    requires Encode(m.left) == left && Encode(m.right) == right
    requires Flat(Then(Num(|left|, 4), Num(|right|, 4))) == head
    ensures Flat(EncMerge(m)) == head + (left + right)
  {
    hide Encode, Le;
    assert Flat(Then(Raw(left), Raw(right))) == left + right;
  }

  lemma MergeExact(file: seq<Byte>, pos: nat)
    requires AfterMerge(file, pos).Next?
    ensures var end := AfterMerge(file, pos).pos;
            pos <= end <= |file| &&
            MergeFits(MergeIn(file, pos)) && Flat(EncMerge(MergeIn(file, pos))) == file[pos..end]
  {
    hide LeAt, Le, Encode, Decode, TextOf;
    var a, b := LeAt(file, pos, 4), LeAt(file, pos + 4, 4);
    var left, right := file[pos + 8..pos + 8 + a], file[pos + 8 + a..pos + 8 + a + b];
    TextOfIs(left);
    TextOfIs(right);
    PairBytes(file, pos);
    MergeBytes(MergeIn(file, pos), left, right, file[pos..pos + 8]);
    assert file[pos..pos + 8 + a + b] == file[pos..pos + 8] + (left + right);
  }

  function TokensIn(file: seq<Byte>, pos: nat, n: nat): (ts: seq<Token>)
    requires AfterTokens(file, pos, n).Next?
    ensures |ts| == n
  {
    if n == 0 then [] else TokensIn(file, pos, n - 1) + [TokenIn(file, AfterTokens(file, pos, n - 1).pos)]
  }

  function MergesIn(file: seq<Byte>, pos: nat, n: nat): (ms: seq<Merge>)
    requires AfterMerges(file, pos, n).Next?
    ensures |ms| == n
  {
    if n == 0 then [] else MergesIn(file, pos, n - 1) + [MergeIn(file, AfterMerges(file, pos, n - 1).pos)]
  }

  lemma {:induction false} TokensExact(file: seq<Byte>, pos: nat, n: nat)
    requires AfterTokens(file, pos, n).Next? && pos <= |file|
    ensures var end, ts := AfterTokens(file, pos, n).pos, TokensIn(file, pos, n);
            pos <= end <= |file| &&
            (forall t <- ts :: TokenFits(t)) && Flat(EncTokens(ts, n)) == file[pos..end]
  {
    hide AfterToken, TokenIn, TokenFits, EncToken;
    if n > 0 {
      TokensExact(file, pos, n - 1);
      var at, front := AfterTokens(file, pos, n - 1).pos, TokensIn(file, pos, n - 1);
      TokenExact(file, at);
      TokensPrefix(front, TokenIn(file, at), n - 1);
      assert file[pos..AfterTokens(file, pos, n).pos] == file[pos..at] + file[at..AfterTokens(file, pos, n).pos];
    }
  }

  lemma {:induction false} MergesExact(file: seq<Byte>, pos: nat, n: nat)
    requires AfterMerges(file, pos, n).Next? && pos <= |file|
    ensures var end, ms := AfterMerges(file, pos, n).pos, MergesIn(file, pos, n);
            pos <= end <= |file| &&
            (forall m <- ms :: MergeFits(m)) && Flat(EncMerges(ms, n)) == file[pos..end]
  {
    hide AfterMerge, MergeIn, MergeFits, EncMerge;
    if n > 0 {
      MergesExact(file, pos, n - 1);
      var at, front := AfterMerges(file, pos, n - 1).pos, MergesIn(file, pos, n - 1);
      MergeExact(file, at);
      MergesPrefix(front, MergeIn(file, at), n - 1);
      assert file[pos..AfterMerges(file, pos, n).pos] == file[pos..at] + file[at..AfterMerges(file, pos, n).pos];
    }
  }

  // ----- the whole file -----

  /** The end of the names, where the tables start. */
  function TablesAt(file: seq<Byte>): nat
    requires HEADER <= |file|
  {
    HEADER + LeAt(file, 16, 4) + LeAt(file, 20, 4)
  }

  /** A file both of whose tables can be walked. */
  predicate Readable(file: seq<Byte>) {
    HEADER <= |file| && AfterTokens(file, TablesAt(file), LeAt(file, 8, 4)).Next? &&
    AfterMerges(file, AfterTokens(file, TablesAt(file), LeAt(file, 8, 4)).pos, LeAt(file, 12, 4)).Next?
  }

  /** The vocabulary in such a file. */
  function VocabularyIn(file: seq<Byte>): Vocabulary
    requires Readable(file)
  {
    var start, flags := TablesAt(file), LeAt(file, 32, 4);
    Vocabulary(TokenizerRead.Chars("gpt2"), TokenizerRead.Chars("qwen2"), TokensIn(file, start, LeAt(file, 8, 4)),
               MergesIn(file, AfterTokens(file, start, LeAt(file, 8, 4)).pos, LeAt(file, 12, 4)),
               Signed(LeAt(file, 24, 4)), Signed(LeAt(file, 28, 4)), flags % 2 == 1, flags / 2 % 2 == 1)
  }

  lemma LoadedNames(file: seq<Byte>)
    requires HEADER <= |file| && LoadTables(file).Loaded?
    ensures HEADER + LeAt(file, 16, 4) + LeAt(file, 20, 4) <= |file|
    ensures file[HEADER..HEADER + LeAt(file, 16, 4)] == MODEL && file[HEADER + LeAt(file, 16, 4)..TablesAt(file)] == PRE
  {
    hide LeAt, AfterTokens, AfterMerges, TokensAt, MergesAt, Signed, MODEL, PRE;
  }

  lemma LoadedTables(file: seq<Byte>)
    requires HEADER <= |file| && LoadTables(file).Loaded?
    ensures Readable(file)
    ensures AfterMerges(file, AfterTokens(file, TablesAt(file), LeAt(file, 8, 4)).pos, LeAt(file, 12, 4)) ==
      Next(|file|)
  {
    hide LeAt, AfterTokens, AfterMerges, TokensAt, MergesAt, Signed, MODEL, PRE;
  }

  lemma FourSlices(file: seq<Byte>, a: nat, b: nat, c: nat, d: nat, w: Str, x: Str, y: Str, z: Str)
    requires a <= b <= c <= d <= |file|
    requires w == file[a..b] && x == file[b..c] && y == file[c..d] && z == file[d..|file|]
    ensures w + x + y + z == file[a..]
  {
  }

  lemma SliceLength(file: seq<Byte>, a: nat, b: nat, s: Str)
    requires a <= b <= |file| && file[a..b] == s
    ensures |s| == b - a
  {
  }

  lemma PayloadExact(file: seq<Byte>)
    requires HEADER <= |file| && LoadTables(file).Loaded?
    ensures Readable(file)
    ensures var v := VocabularyIn(file);
            Flat(PayloadOf(v)) == file[HEADER..] && TablesFit(v.tokens, v.merges) && |v.tokens| == LeAt(file, 8, 4) &&
            |v.merges| == LeAt(file, 12, 4) && LeAt(file, 16, 4) == |Encode(v.model)| &&
            LeAt(file, 20, 4) == |Encode(v.pre)|
  {
    hide LeAt, AfterTokens, AfterMerges, TokensIn, MergesIn, EncTokens, EncMerges, Encode, LoadTables, PayloadOf;
    hide TokenFits, MergeFits, TokenizerRead.Chars, Signed, Flat;
    LoadedNames(file);
    LoadedTables(file);
    var v := VocabularyIn(file);
    var modelEnd, start := HEADER + LeAt(file, 16, 4), TablesAt(file);
    var middle := AfterTokens(file, start, LeAt(file, 8, 4)).pos;
    TokensExact(file, start, LeAt(file, 8, 4));
    MergesExact(file, middle, LeAt(file, 12, 4));
    NameBytes();
    PayloadParts(v);
    SliceLength(file, HEADER, modelEnd, MODEL);
    SliceLength(file, modelEnd, start, PRE);
    FourSlices(file, HEADER, modelEnd, start, middle, MODEL, PRE, Flat(EncTokens(v.tokens, |v.tokens|)),
               Flat(EncMerges(v.merges, |v.merges|)));
  }

  lemma BitsOf(n: nat)
    requires n < U32_LIMIT
    ensures Fits32(Signed(n)) && Bits(Signed(n)) == n
  {
  }

  lemma FlagsOf(flags: nat, v: Vocabulary)
    requires flags <= 3 && v.addBos == (flags % 2 == 1) && v.addEos == (flags / 2 % 2 == 1)
    ensures Flags(v) == flags
  {
  }

  lemma FieldBound(file: seq<Byte>, pos: nat)
    requires pos + 4 <= |file|
    ensures LeAt(file, pos, 4) < U32_LIMIT
  {
    hide LeAt;
    Limits();
    LeBound(file, pos, 4);
  }

  lemma StartBytes(file: seq<Byte>, v: Vocabulary)
    requires HEADER <= |file| && file[..4] == MAGIC && LeAt(file, 4, 4) == 2
    requires |v.tokens| == LeAt(file, 8, 4) && |v.merges| == LeAt(file, 12, 4)
    requires |Encode(v.model)| == LeAt(file, 16, 4) && |Encode(v.pre)| == LeAt(file, 20, 4)
    ensures Flat(Then(Raw(QXT2), Num(2, 4))) == file[..8] && Flat(Counts(v)) == file[8..24]
  {
    hide LeAt, Le, Encode;
    LeBytes(file, 4, 4);
    assert file[..8] == file[..4] + file[4..8];
    PairBytes(file, 8);
    PairBytes(file, 16);
    assert file[8..24] == file[8..16] + file[16..24];
  }

  lemma EndBytes(file: seq<Byte>, v: Vocabulary, length: nat, checksum: U64)
    requires HEADER <= |file| && Fits32(v.bos) && Fits32(v.eos)
    requires Bits(v.bos) == LeAt(file, 24, 4) && Bits(v.eos) == LeAt(file, 28, 4)
    requires Flags(v) == LeAt(file, 32, 4) && length == LeAt(file, 36, 4) && checksum == LeAt(file, 40, 8)
    ensures Flat(Ids(v)) == file[24..32]
    ensures Flat(Then(Then(Num(Flags(v), 4), Num(length, 4)), Num(checksum, 8))) == file[32..48]
  {
    hide LeAt, Le, Bits, Flags;
    PairBytes(file, 24);
    PairBytes(file, 32);
    LeBytes(file, 40, 8);
    assert file[32..48] == file[32..40] + file[40..48];
  }

  lemma HeaderExact(file: seq<Byte>, v: Vocabulary, length: nat, checksum: U64)
    requires HEADER <= |file| && file[..4] == MAGIC && LeAt(file, 4, 4) == 2
    requires |v.tokens| == LeAt(file, 8, 4) && |v.merges| == LeAt(file, 12, 4)
    requires |Encode(v.model)| == LeAt(file, 16, 4) && |Encode(v.pre)| == LeAt(file, 20, 4)
    requires Fits32(v.bos) && Fits32(v.eos) && Bits(v.bos) == LeAt(file, 24, 4) && Bits(v.eos) == LeAt(file, 28, 4)
    requires Flags(v) == LeAt(file, 32, 4) && length == LeAt(file, 36, 4) && checksum == LeAt(file, 40, 8)
    ensures Flat(HeaderOf(v, length, checksum)) == file[..HEADER]
  {
    hide LeAt, Le, Bits, Flags, Encode, Counts, Ids, Flat;
    StartBytes(file, v);
    EndBytes(file, v, length, checksum);
    HeaderParts(v, length, checksum);
    assert file[..8] + (file[8..24] + file[24..32]) + file[32..48] == file[..48];
  }

  lemma HeaderParts(v: Vocabulary, length: nat, checksum: U64)
    requires Fits32(v.bos) && Fits32(v.eos)
    ensures Flat(HeaderOf(v, length, checksum)) == Flat(Then(Raw(QXT2), Num(2, 4))) + (Flat(Counts(v)) + Flat(Ids(v))) +
                                                   Flat(Then(Then(Num(Flags(v), 4), Num(length, 4)), Num(checksum, 8)))
  {
    hide Bits, Flags, Encode, Counts, Ids, Le;
    var start, middle := Then(Raw(QXT2), Num(2, 4)), Then(Counts(v), Ids(v));
    assert Flat(middle) == Flat(Counts(v)) + Flat(Ids(v));
    assert Flat(Then(start, middle)) == Flat(start) + Flat(middle);
  }

  /** The vocabulary's other fields are the header's. */
  lemma FieldsIn(file: seq<Byte>)
    requires Readable(file) && LeAt(file, 32, 4) <= 3
    ensures var v := VocabularyIn(file);
            v.model == TokenizerRead.Chars("gpt2") && v.pre == TokenizerRead.Chars("qwen2") &&
            v.bos == Signed(LeAt(file, 24, 4)) && v.eos == Signed(LeAt(file, 28, 4)) &&
            Fits32(v.bos) && Fits32(v.eos) && Bits(v.bos) == LeAt(file, 24, 4) && Bits(v.eos) == LeAt(file, 28, 4) &&
            Flags(v) == LeAt(file, 32, 4)
  {
    hide LeAt, AfterTokens, AfterMerges, TokensIn, MergesIn, Signed, Bits, Flags, TokenizerRead.Chars;
    FieldBound(file, 24);
    FieldBound(file, 28);
    BitsOf(LeAt(file, 24, 4));
    BitsOf(LeAt(file, 28, 4));
    FlagsOf(LeAt(file, 32, 4), VocabularyIn(file));
  }

  /** Any file the program loads is the sidecar of an admissible vocabulary, byte for byte. */
  lemma LoadedIsSidecar(file: seq<Byte>)
    requires Load(file, true).Loaded?
    ensures Readable(file) && Admissible(VocabularyIn(file)) && file == Sidecar(VocabularyIn(file))
  {
    hide LeAt, LoadTables, PayloadOf, HeaderOf, TablesFit, Bits, Flags, Signed, Fnv.Hash, Encode, TokenizerRead.Chars;
    hide Readable, VocabularyIn;
    PayloadExact(file);
    var v := VocabularyIn(file);
    FieldsIn(file);
    HeaderExact(file, v, |file| - HEADER, Fnv.Hash(file[HEADER..]));
    assert file == file[..HEADER] + file[HEADER..];
  }

  predicate IsSidecarOf(file: seq<Byte>, v: Vocabulary) { Admissible(v) && file == Sidecar(v) }

  /** The program loads exactly the sidecars of admissible vocabularies. */
  lemma LoadsExactlySidecars(file: seq<Byte>)
    ensures Load(file, true).Loaded? <==> exists v: Vocabulary :: IsSidecarOf(file, v)
  {
    hide Load, Sidecar, VocabularyIn, Readable, TokenizerOf, PayloadOf, TablesFit;
    if Load(file, true).Loaded? {
      LoadedIsSidecar(file);
      assert IsSidecarOf(file, VocabularyIn(file));
    }
    if v: Vocabulary :| IsSidecarOf(file, v) {
      SidecarReadsBack(v);
    }
  }
}
