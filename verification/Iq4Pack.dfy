/** The IQ4_XS block layout: what the bytes of a block must be to hold given local
    scales and table indices, and that scripts/q8k_activation_spike.py:92-101 reads
    exactly those back. */
module Iq4Pack {
  import opened Words
  import opened Q8kQuantize
  import opened Iq4Dot

  predicate Locals(ls: seq<int>) { |ls| == 8 && forall g :: 0 <= g < 8 ==> -32 <= ls[g] < 32 }

  predicate Indices(idx: seq<nat>) { |idx| == QK && forall k :: 0 <= k < QK ==> idx[k] < 16 }

  function TopBits(ls: seq<int>, g: nat): (n: nat)
    requires Locals(ls) && g < 8
    ensures n < 4
  {
    (ls[g] + 32) / 16
  }

  function LowBits(ls: seq<int>, g: nat): (n: nat)
    requires Locals(ls) && g < 8
    ensures n < 16 && 16 * TopBits(ls, g) + n == ls[g] + 32
  {
    (ls[g] + 32) % 16
  }

  /** The high two bits of the scales from group `g` on, two bits a group. */
  function High(ls: seq<int>, g: nat): nat
    requires Locals(ls) && g <= 8
    decreases 8 - g
  {
    if g == 8 then 0 else TopBits(ls, g) + 4 * High(ls, g + 1)
  }

  function ByteAt(row: seq<Byte>, i: nat): nat
    requires i < |row|
  {
    row[i]
  }

  /** The i-th byte of a group's indices. */
  function QuantAt(row: seq<Byte>, at: nat, g: nat, i: nat): nat
    requires at + BYTES <= |row| && g < 8 && i < 16
  {
    row[at + 8 + g * 16 + i]
  }

  /** The block at `at` holds these scales and indices: a 16-bit word of high bits,
      four bytes of low bits, two groups a byte, and 16 bytes of indices a group. */
  ghost predicate Packs(row: seq<Byte>, at: nat, ls: seq<int>, idx: seq<nat>) {
    Locals(ls) && Indices(idx) && at + BYTES <= |row| &&
    ByteAt(row, at + 2) + 256 * ByteAt(row, at + 3) == High(ls, 0) &&
    (forall j :: 0 <= j < 4 ==> ByteAt(row, at + 4 + j) == LowBits(ls, 2 * j) + 16 * LowBits(ls, 2 * j + 1)) &&
    (forall g: nat, i: nat :: g < 8 && i < 16 ==> QuantAt(row, at, g, i) == idx[32 * g + i] + 16 * idx[32 * g + 16 + i])
  }

  lemma {:induction false} HighShift(ls: seq<int>, g: nat, k: nat)
    requires Locals(ls) && g + k <= 8
    ensures Shift2(High(ls, g), k) == High(ls, g + k)
    decreases k
  {
    hide Locals, TopBits;
    if k > 0 {
      assert High(ls, g) / 4 == High(ls, g + 1);
      HighShift(ls, g + 1, k - 1);
    }
  }

  lemma TopDigit(ls: seq<int>, g: nat)
    requires Locals(ls) && g < 8
    ensures High(ls, g) % 4 == TopBits(ls, g)
  {
    hide Locals, TopBits;
  }

  /** LocalScale with its three parts named. */
  lemma ScaleParts(row: seq<Byte>, at: nat, group: nat, high: nat, low: nat)
    requires at + BYTES <= |row| && group < 8
    requires high == ByteAt(row, at + 2) + 256 * ByteAt(row, at + 3) && low == ByteAt(row, at + 4 + group / 2)
    ensures LocalScale(row, at, group) == (if group % 2 == 0 then low else low / 16) % 16 +
      Shift2(high, group) % 4 * 16 - 32
  {
    hide Shift2;
  }

  lemma Nibbles(a: nat, b: nat)
    requires a < 16 && b < 16
    ensures (a + 16 * b) % 16 == a && (a + 16 * b) / 16 == b
  {
  }

  lemma PackedScale(row: seq<Byte>, at: nat, ls: seq<int>, idx: seq<nat>, j: nat)
    requires Packs(row, at, ls, idx) && j < 4
    ensures Locals(ls) && at + BYTES <= |row| && ByteAt(row, at + 2) + 256 * ByteAt(row, at + 3) == High(ls, 0)
    ensures ByteAt(row, at + 4 + j) == LowBits(ls, 2 * j) + 16 * LowBits(ls, 2 * j + 1)
  {
    hide High, LowBits;
  }

  /** Every local scale is read back. */
  lemma ScalesUnpack(row: seq<Byte>, at: nat, ls: seq<int>, idx: seq<nat>, g: nat)
    requires Packs(row, at, ls, idx) && g < 8
    ensures LocalScale(row, at, g) == ls[g]
  {
    hide Packs, LocalScale, Shift2, High, Indices, ByteAt, TopBits, LowBits;
    var j := g / 2;
    PackedScale(row, at, ls, idx, j);
    var a, b := LowBits(ls, 2 * j), LowBits(ls, 2 * j + 1);
    ScaleParts(row, at, g, High(ls, 0), a + 16 * b);
    HighShift(ls, 0, g);
    TopDigit(ls, g);
    Nibbles(a, b);
    assert g == 2 * j || g == 2 * j + 1;
  }

  /** Every weight is the table entry of its own index. */
  lemma IndicesUnpack(row: seq<Byte>, at: nat, ls: seq<int>, idx: seq<nat>, g: nat, i: nat)
    requires Packs(row, at, ls, idx) && g < 8 && i < 16
    ensures Entry(row, at, 32 * g + i) == Iq4(idx[32 * g + i])
    ensures Entry(row, at, 32 * g + 16 + i) == Iq4(idx[32 * g + 16 + i])
  {
    assert QuantAt(row, at, g, i) == idx[32 * g + i] + 16 * idx[32 * g + 16 + i];
    hide Packs, Iq4, Entry, High, LowBits;
    LowEntry(row, at, g, i);
    HighEntry(row, at, g, i);
    Nibbles(idx[32 * g + i], idx[32 * g + 16 + i]);
  }

  // ----- packing -----

  lemma FourShifts(x: nat, k: nat)
    ensures Shift2(x, k + 4) == Shift2(x / 256, k)
  {
    assert Shift2(x, k + 4) == Shift2(x / 4, k + 3) && Shift2(x / 4, k + 3) == Shift2(x / 4 / 4, k + 2);
    assert Shift2(x / 4 / 4, k + 2) == Shift2(x / 4 / 4 / 4, k + 1);
    assert x / 4 / 4 / 4 / 4 == x / 256;
  }

  lemma ShiftedAway(x: nat)
    requires Shift2(x, 8) == 0
    ensures x < 65536
  {
    FourShifts(x, 4);
    FourShifts(x / 256, 0);
  }

  lemma HighFits(ls: seq<int>)
    requires Locals(ls)
    ensures High(ls, 0) < 65536
  {
    hide Locals, Shift2;
    HighShift(ls, 0, 8);
    ShiftedAway(High(ls, 0));
  }

  function LowByte(ls: seq<int>, j: nat): (n: nat)
    requires Locals(ls) && j < 4
    ensures n < 256
  {
    LowBits(ls, 2 * j) + 16 * LowBits(ls, 2 * j + 1)
  }

  function IndexByte(idx: seq<nat>, g: nat, i: nat): (n: nat)
    requires Indices(idx) && g < 8 && i < 16
    ensures n < 256
  {
    idx[32 * g + i] + 16 * idx[32 * g + 16 + i]
  }

  /** Byte `k` of the block with the half-precision scale `scale`. */
  function PackedByte(scale: seq<Byte>, ls: seq<int>, idx: seq<nat>, k: nat): (n: nat)
    requires |scale| == 2 && Locals(ls) && Indices(idx) && k < BYTES
    ensures n < 256
  {
    HighFits(ls);
    if k < 2 then scale[k]
    else if k == 2 then High(ls, 0) % 256
    else if k == 3 then High(ls, 0) / 256
    else if k < 8 then LowByte(ls, k - 4)
    else IndexByte(idx, (k - 8) / 16, (k - 8) % 16)
  }

  function Pack(scale: seq<Byte>, ls: seq<int>, idx: seq<nat>): (row: seq<Byte>)
    requires |scale| == 2 && Locals(ls) && Indices(idx)
    ensures |row| == BYTES
  {
    seq(BYTES, k requires 0 <= k < BYTES => PackedByte(scale, ls, idx, k))
  }

  lemma PackAt(scale: seq<Byte>, ls: seq<int>, idx: seq<nat>, k: nat)
    requires |scale| == 2 && Locals(ls) && Indices(idx) && k < BYTES
    ensures Pack(scale, ls, idx)[k] == PackedByte(scale, ls, idx, k)
  {
    hide PackedByte, Locals, Indices;
  }

  lemma PackIndex(scale: seq<Byte>, ls: seq<int>, idx: seq<nat>, g: nat, i: nat)
    requires |scale| == 2 && Locals(ls) && Indices(idx) && g < 8 && i < 16
    ensures QuantAt(Pack(scale, ls, idx), 0, g, i) == idx[32 * g + i] + 16 * idx[32 * g + 16 + i]
  {
    hide Pack, Locals, Indices, LowByte, High;
    PackAt(scale, ls, idx, 8 + g * 16 + i);
    assert (g * 16 + i) / 16 == g && (g * 16 + i) % 16 == i;
  }

  lemma PackScale(scale: seq<Byte>, ls: seq<int>, idx: seq<nat>, j: nat)
    requires |scale| == 2 && Locals(ls) && Indices(idx) && j < 4
    ensures ByteAt(Pack(scale, ls, idx), 4 + j) == LowBits(ls, 2 * j) + 16 * LowBits(ls, 2 * j + 1)
  {
    hide Pack, Locals, Indices, High, IndexByte, LowBits;
    PackAt(scale, ls, idx, 4 + j);
  }

  lemma PackHigh(scale: seq<Byte>, ls: seq<int>, idx: seq<nat>)
    requires |scale| == 2 && Locals(ls) && Indices(idx)
    ensures ByteAt(Pack(scale, ls, idx), 2) + 256 * ByteAt(Pack(scale, ls, idx), 3) == High(ls, 0)
  {
    hide Pack, Locals, Indices, High, IndexByte, LowByte;
    PackAt(scale, ls, idx, 2);
    PackAt(scale, ls, idx, 3);
  }

  /** Every eight local scales and 256 indices have a block. */
  lemma PackHolds(scale: seq<Byte>, ls: seq<int>, idx: seq<nat>)
    requires |scale| == 2 && Locals(ls) && Indices(idx)
    ensures Packs(Pack(scale, ls, idx), 0, ls, idx)
  {
    hide Pack, High, LowBits, QuantAt, ByteAt;
    PackHigh(scale, ls, idx);
    forall j | 0 <= j < 4
      ensures ByteAt(Pack(scale, ls, idx), 0 + 4 + j) == LowBits(ls, 2 * j) + 16 * LowBits(ls, 2 * j + 1)
    {
      PackScale(scale, ls, idx, j);
    }
    forall g: nat, i: nat | g < 8 && i < 16
      ensures QuantAt(Pack(scale, ls, idx), 0, g, i) == idx[32 * g + i] + 16 * idx[32 * g + 16 + i]
    {
      PackIndex(scale, ls, idx, g, i);
    }
  }
}
