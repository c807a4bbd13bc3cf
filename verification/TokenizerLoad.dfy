/** The program's own reader of a QXT2 sidecar: qx_tokenizer_load (src/qx_tokenizer.c:69-184). */
module TokenizerLoad {
  import opened Words
  import opened LittleEndian
  import opened Layouts
  import opened Utf8
  import Fnv

  const HEADER: nat := 48

  const MAX_ITEMS: nat := 1_000_000
  const MAX_PAYLOAD: nat := 0x1000_0000
  const MAX_TEXT: nat := 0x10_0000

  /** "QXT2", "gpt2" and "qwen2". */
  const MAGIC: Str := [0x51, 0x58, 0x54, 0x32]
  const MODEL: Str := [0x67, 0x70, 0x74, 0x32]
  const PRE: Str := [0x71, 0x77, 0x65, 0x6E, 0x32]

  /** Texts stay the bytes they are in the file. */
  datatype TokenEntry = TokenEntry(text: Str, typ: nat)

  datatype MergeEntry = MergeEntry(left: Str, right: Str, rank: nat)

  datatype Tokenizer = Tokenizer(model: Str, pre: Str, tokens: seq<TokenEntry>, merges: seq<MergeEntry>,
                                 bos: int, eos: int, flags: nat, storage: Str, checksum: nat)

  datatype LoadError =
    | SizeOutsideLimits | BadMagic | UnsupportedVersion | ItemCountOutsideLimits | InvalidMetadata | SizeMismatch
    | SpecialIdOutOfRange | OutOfMemory | ChecksumMismatch | MetadataExceedsPayload | UnsupportedModel
    | TruncatedTokens | InvalidToken | NulInToken | TokenNotUtf8
    | TruncatedMerges | InvalidMerge | NulInMerge | MergeNotUtf8 | TrailingBytes

  datatype Loaded = Loaded(tokenizer: Tokenizer) | NotLoaded(why: LoadError)

  datatype Walk = Next(pos: nat) | Stop(why: LoadError)

  // ----- UTF-8 as the program checks it -----

  function Low6(text: Str, i: nat): nat
    requires i < |text|
  {
    text[i] % 64
  }

  /** qx_tok_utf8_next (lines 333-353): code point and width at `offset`. */
  function Utf8Next(text: Str, offset: nat): Option<(nat, nat)> {
    if offset >= |text| then None else
      var a: nat := text[offset];
      var left := |text| - offset;
      if a < 0x80 then Some((a, 1))
      else if a >= 0xC2 && a <= 0xDF && left >= 2 && Continuation(text[offset + 1]) then
        Some((a % 32 * 64 + Low6(text, offset + 1), 2))
      else if a >= 0xE0 && a <= 0xEF && left >= 3 && Continuation(text[offset + 1]) &&
              Continuation(text[offset + 2]) then
        var c := a % 16 * 4096 + Low6(text, offset + 1) * 64 + Low6(text, offset + 2);
        if c < 0x800 || (c >= 0xD800 && c <= 0xDFFF) then None else Some((c, 3))
      else if a >= 0xF0 && a <= 0xF4 && left >= 4 && Continuation(text[offset + 1]) && Continuation(text[offset + 2]) &&
              Continuation(text[offset + 3]) then
        var c := a % 8 * 262144 + Low6(text, offset + 1) * 4096 + Low6(text, offset + 2) * 64 + Low6(text, offset + 3);
        if c < 0x10000 || c > 0x10FFFF then None else Some((c, 4))
      else None
  }

  /** It is the strict decoder, at any offset. */
  lemma Utf8NextIs(text: Str, offset: nat)
    requires offset <= |text|
    ensures match DecodeOne(text[offset..])
            case None => Utf8Next(text, offset) == None
            case Some((c, n)) => Utf8Next(text, offset) == Some((c, n))
  {
    var b := text[offset..];
    assert forall i :: 0 <= i < |b| ==> b[i] == text[offset + i];
  }

  lemma DecodeFrom(text: Str, offset: nat)
    requires offset < |text|
    ensures match DecodeOne(text[offset..])
            case None => Decode(text[offset..]) == None
            case Some((_, n)) =>
              offset + n <= |text| && (Decode(text[offset..]).Some? <==> Decode(text[offset + n..]).Some?)
  {
    hide DecodeOne;
    var b := text[offset..];
    if DecodeOne(b).Some? {
      var n := DecodeOne(b).value.1;
      assert b[n..] == text[offset + n..];
    }
  }

  /** qx_tok_valid_utf8 (lines 355-363). */
  method ValidUtf8(text: Str) returns (valid: bool)
    ensures valid <==> Decode(text).Some?
  {
    hide Utf8Next, DecodeOne, Decode;
    var offset := 0;
    assert text[0..] == text;
    while offset < |text|
      invariant offset <= |text| && (Decode(text).Some? <==> Decode(text[offset..]).Some?)
    {
      Utf8NextIs(text, offset);
      DecodeFrom(text, offset);
      var next := Utf8Next(text, offset);
      if next.None? { return false; }
      offset := offset + next.value.1;
    }
    DecodeNothing(text[offset..]);
    valid := true;
  }

  lemma DecodeNothing(b: Str)
    requires b == []
    ensures Decode(b).Some?
  {
  }

  // ----- entries -----

  function AfterToken(file: seq<Byte>, pos: nat): Walk {
    if pos + 8 > |file| then Stop(TruncatedTokens) else
      var length, typ := LeAt(file, pos, 4), LeAt(file, pos + 4, 4);
      if length > MAX_TEXT || typ < 1 || typ > 6 || pos + 8 + length > |file| then Stop(InvalidToken)
      else if 0 in file[pos + 8..pos + 8 + length] then Stop(NulInToken)
      else if Decode(file[pos + 8..pos + 8 + length]) == None then Stop(TokenNotUtf8)
      else Next(pos + 8 + length)
  }

  function TokenAt(file: seq<Byte>, pos: nat): TokenEntry
    requires AfterToken(file, pos).Next?
  {
    TokenEntry(file[pos + 8..pos + 8 + LeAt(file, pos, 4)], LeAt(file, pos + 4, 4))
  }

  function AfterMerge(file: seq<Byte>, pos: nat): Walk {
    if pos + 8 > |file| then Stop(TruncatedMerges) else
      var a, b := LeAt(file, pos, 4), LeAt(file, pos + 4, 4);
      if a == 0 || b == 0 || a > MAX_TEXT || b > MAX_TEXT || pos + 8 + a > |file| || pos + 8 + a + b > |file| then
        Stop(InvalidMerge)
      else
        var left, right := file[pos + 8..pos + 8 + a], file[pos + 8 + a..pos + 8 + a + b];
        if 0 in left || 0 in right then Stop(NulInMerge)
        else if Decode(left) == None || Decode(right) == None then Stop(MergeNotUtf8)
        else Next(pos + 8 + a + b)
  }

  function MergeAt(file: seq<Byte>, pos: nat, rank: nat): MergeEntry
    requires AfterMerge(file, pos).Next?
  {
    var a, b := LeAt(file, pos, 4), LeAt(file, pos + 4, 4);
    MergeEntry(file[pos + 8..pos + 8 + a], file[pos + 8 + a..pos + 8 + a + b], rank)
  }

  function AfterTokens(file: seq<Byte>, pos: nat, n: nat): Walk {
    if n == 0 then Next(pos) else
      match AfterTokens(file, pos, n - 1)
      case Stop(e) => Stop(e)
      case Next(at) => AfterToken(file, at)
  }

  function TokensAt(file: seq<Byte>, pos: nat, n: nat): seq<TokenEntry>
    requires AfterTokens(file, pos, n).Next?
  {
    if n == 0 then [] else TokensAt(file, pos, n - 1) + [TokenAt(file, AfterTokens(file, pos, n - 1).pos)]
  }

  function AfterMerges(file: seq<Byte>, pos: nat, n: nat): Walk {
    if n == 0 then Next(pos) else
      match AfterMerges(file, pos, n - 1)
      case Stop(e) => Stop(e)
      case Next(at) => AfterMerge(file, at)
  }

  function MergesAt(file: seq<Byte>, pos: nat, n: nat): seq<MergeEntry>
    requires AfterMerges(file, pos, n).Next?
  {
    if n == 0 then [] else MergesAt(file, pos, n - 1) + [MergeAt(file, AfterMerges(file, pos, n - 1).pos, n - 1)]
  }

  // ----- the file -----

  /** The 32-bit word as int32_t. */
  function Signed(n: nat): int { if n >= 0x8000_0000 then n - U32_LIMIT else n }

  /** The header's faults, in the order of lines 89-112. */
  function HeaderFault(file: seq<Byte>): Option<LoadError>
    requires HEADER <= |file|
  {
    var vocab, merges, model, pre := LeAt(file, 8, 4), LeAt(file, 12, 4), LeAt(file, 16, 4), LeAt(file, 20, 4);
    var bos, eos := Signed(LeAt(file, 24, 4)), Signed(LeAt(file, 28, 4));
    var flags, length := LeAt(file, 32, 4), LeAt(file, 36, 4);
    if file[..4] != MAGIC then Some(BadMagic)
    else if LeAt(file, 4, 4) != 2 then Some(UnsupportedVersion)
    else if vocab == 0 || vocab > MAX_ITEMS || merges > MAX_ITEMS then Some(ItemCountOutsideLimits)
    else if model == 0 || model > 64 || pre == 0 || pre > 64 || flags > 3 then Some(InvalidMetadata)
    else if length != |file| - HEADER then Some(SizeMismatch)
    else if bos < -1 || eos < -1 || bos >= vocab || eos >= vocab then Some(SpecialIdOutOfRange)
    else None
  }

  /** The names and the tables (lines 126-183). */
  function LoadTables(file: seq<Byte>): Loaded
    requires HEADER <= |file|
  {
    var model, pre := LeAt(file, 16, 4), LeAt(file, 20, 4);
    if HEADER + model > |file| || HEADER + model + pre > |file| then NotLoaded(MetadataExceedsPayload)
    else if file[HEADER..HEADER + model] != MODEL || file[HEADER + model..HEADER + model + pre] != PRE then
      NotLoaded(UnsupportedModel)
    else
      var start := HEADER + model + pre;
      match AfterTokens(file, start, LeAt(file, 8, 4))
      case Stop(e) => NotLoaded(e)
      case Next(middle) =>
        match AfterMerges(file, middle, LeAt(file, 12, 4))
        case Stop(e) => NotLoaded(e)
        case Next(end) =>
          if end != |file| then NotLoaded(TrailingBytes) else
            Loaded(Tokenizer(MODEL, PRE, TokensAt(file, start, LeAt(file, 8, 4)),
                             MergesAt(file, middle, LeAt(file, 12, 4)),
                             Signed(LeAt(file, 24, 4)), Signed(LeAt(file, 28, 4)), LeAt(file, 32, 4), file[HEADER..],
                             LeAt(file, 40, 8)))
  }

  /** What loading a file comes to; `memory` says whether the allocations succeed. */
  function Load(file: seq<Byte>, memory: bool): Loaded {
    if |file| < HEADER || |file| > HEADER + MAX_PAYLOAD then NotLoaded(SizeOutsideLimits) else
      match HeaderFault(file)
      case Some(e) => NotLoaded(e)
      case None =>
        if !memory then NotLoaded(OutOfMemory)
        else if Fnv.Hash(file[HEADER..]) != LeAt(file, 40, 8) then NotLoaded(ChecksumMismatch)
        else LoadTables(file)
  }

  // ----- the loader with its cursor -----

  lemma {:induction false} TokensStop(file: seq<Byte>, pos: nat, i: nat, n: nat)
    requires i <= n && AfterTokens(file, pos, i).Stop?
    ensures AfterTokens(file, pos, n) == AfterTokens(file, pos, i)
  {
    hide AfterToken;
    if i < n { TokensStop(file, pos, i, n - 1); }
  }

  lemma {:induction false} MergesStop(file: seq<Byte>, pos: nat, i: nat, n: nat)
    requires i <= n && AfterMerges(file, pos, i).Stop?
    ensures AfterMerges(file, pos, n) == AfterMerges(file, pos, i)
  {
    hide AfterMerge;
    if i < n { MergesStop(file, pos, i, n - 1); }
  }

  /** memchr(text, 0, length). */
  method HasNul(text: Str) returns (found: bool)
    ensures found <==> 0 in text
  {
    for i := 0 to |text|
      invariant 0 !in text[..i]
    {
      if text[i] == 0 { return true; }
    }
    found := false;
  }

  /** One pass of the loop at line 136. */
  method ReadToken(file: seq<Byte>, cursor: nat) returns (walk: Walk, token: TokenEntry)
    ensures walk == AfterToken(file, cursor)
    ensures walk.Next? ==> token == TokenAt(file, cursor)
  {
    hide LeAt, Decode;
    token := TokenEntry([], 0);
    if cursor + 8 > |file| { return Stop(TruncatedTokens), token; }
    var length, typ := LeAt(file, cursor, 4), LeAt(file, cursor + 4, 4);
    if length > MAX_TEXT || typ < 1 || typ > 6 || cursor + 8 + length > |file| { return Stop(InvalidToken), token; }
    var text := file[cursor + 8..cursor + 8 + length];
    var nul := HasNul(text);
    if nul { return Stop(NulInToken), token; }
    var valid := ValidUtf8(text);
    if !valid { return Stop(TokenNotUtf8), token; }
    return Next(cursor + 8 + length), TokenEntry(text, typ);
  }

  /** One pass of the loop at line 149. */
  method ReadMerge(file: seq<Byte>, cursor: nat, rank: nat) returns (walk: Walk, merge: MergeEntry)
    ensures walk == AfterMerge(file, cursor)
    ensures walk.Next? ==> merge == MergeAt(file, cursor, rank)
  {
    hide LeAt, Decode;
    merge := MergeEntry([], [], 0);
    if cursor + 8 > |file| { return Stop(TruncatedMerges), merge; }
    var a, b := LeAt(file, cursor, 4), LeAt(file, cursor + 4, 4);
    if a == 0 || b == 0 || a > MAX_TEXT || b > MAX_TEXT || cursor + 8 + a > |file| || cursor + 8 + a + b > |file| {
      return Stop(InvalidMerge), merge;
    }
    var left, right := file[cursor + 8..cursor + 8 + a], file[cursor + 8 + a..cursor + 8 + a + b];
    var nul := HasNul(left);
    if !nul { nul := HasNul(right); }
    if nul { return Stop(NulInMerge), merge; }
    var valid := ValidUtf8(left);
    if valid { valid := ValidUtf8(right); }
    if !valid { return Stop(MergeNotUtf8), merge; }
    return Next(cursor + 8 + a + b), MergeEntry(left, right, rank);
  }

  method ReadTokens(file: seq<Byte>, start: nat, count: nat) returns (walk: Walk, tokens: seq<TokenEntry>)
    ensures walk == AfterTokens(file, start, count)
    ensures walk.Next? ==> tokens == TokensAt(file, start, count)
  {
    hide AfterToken, TokenAt;
    var cursor := start;
    tokens := [];
    for i := 0 to count
      invariant AfterTokens(file, start, i) == Next(cursor) && tokens == TokensAt(file, start, i)
    {
      var next, token := ReadToken(file, cursor);
      if next.Stop? {
        TokensStop(file, start, i + 1, count);
        return next, tokens;
      }
      cursor := next.pos;
      tokens := tokens + [token];
    }
    walk := Next(cursor);
  }

  method ReadMerges(file: seq<Byte>, start: nat, count: nat) returns (walk: Walk, merges: seq<MergeEntry>)
    ensures walk == AfterMerges(file, start, count)
    ensures walk.Next? ==> merges == MergesAt(file, start, count)
  {
    hide AfterMerge, MergeAt;
    var cursor := start;
    merges := [];
    for i := 0 to count
      invariant AfterMerges(file, start, i) == Next(cursor) && merges == MergesAt(file, start, i)
    {
      var next, merge := ReadMerge(file, cursor, i);
      if next.Stop? {
        MergesStop(file, start, i + 1, count);
        return next, merges;
      }
      cursor := next.pos;
      merges := merges + [merge];
    }
    walk := Next(cursor);
  }

  /** qx_tokenizer_load on a file of these bytes. */
  method LoadFile(file: seq<Byte>, memory: bool) returns (r: Loaded)
    ensures r == Load(file, memory)
  {
    hide LeAt, AfterTokens, AfterMerges, TokensAt, MergesAt, Fnv.Hash;
    if |file| < HEADER || |file| > HEADER + MAX_PAYLOAD { return NotLoaded(SizeOutsideLimits); }
    var fault := HeaderFault(file);
    if fault.Some? { return NotLoaded(fault.value); }
    if !memory { return NotLoaded(OutOfMemory); }
    var checksum := Fnv.Fnv1a64(file[HEADER..]);
    if checksum != LeAt(file, 40, 8) { return NotLoaded(ChecksumMismatch); }
    var model, pre := LeAt(file, 16, 4), LeAt(file, 20, 4);
    if HEADER + model > |file| || HEADER + model + pre > |file| { return NotLoaded(MetadataExceedsPayload); }
    var start := HEADER + model + pre;
    if file[HEADER..HEADER + model] != MODEL || file[HEADER + model..start] != PRE {
      return NotLoaded(UnsupportedModel);
    }
    var walk, tokens := ReadTokens(file, start, LeAt(file, 8, 4));
    if walk.Stop? { return NotLoaded(walk.why); }
    var merges;
    walk, merges := ReadMerges(file, walk.pos, LeAt(file, 12, 4));
    if walk.Stop? { return NotLoaded(walk.why); }
    if walk.pos != |file| { return NotLoaded(TrailingBytes); }
    r := Loaded(Tokenizer(MODEL, PRE, tokens, merges, Signed(LeAt(file, 24, 4)), Signed(LeAt(file, 28, 4)),
                          LeAt(file, 32, 4),
                          file[HEADER..], checksum));
  }
}
