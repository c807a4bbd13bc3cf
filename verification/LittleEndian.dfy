/** Little-endian integers in byte strings. */
module LittleEndian {
  import opened Words

  function Limit(width: nat): nat {
    if width == 0 then 1 else 256 * Limit(width - 1)
  }

  lemma Limits()
    ensures Limit(1) == 256 && Limit(4) == U32_LIMIT && Limit(8) == U64_LIMIT
  {
    assert Limit(2) == 256 * Limit(1) && Limit(3) == 256 * Limit(2) && Limit(4) == 256 * Limit(3);
    assert Limit(5) == 256 * Limit(4) && Limit(6) == 256 * Limit(5);
    assert Limit(7) == 256 * Limit(6) && Limit(8) == 256 * Limit(7);
  }

  function Le(n: nat, width: nat): (b: seq<Byte>)
    ensures |b| == width
    decreases n, width
  {
    if width == 0 then [] else [n % 256] + Le(n / 256, width - 1)
  }

  /** The little-endian number in `width` bytes at `pos`. */
  function LeAt(file: seq<Byte>, pos: nat, width: nat): nat
    requires pos + width <= |file|
    decreases |file| - pos, width
  {
    if width == 0 then 0 else file[pos] + 256 * LeAt(file, pos + 1, width - 1)
  }

  /** `file` has `bytes` at `pos`. */
  ghost predicate Holds(file: seq<Byte>, pos: nat, bytes: seq<Byte>) {
    pos + |bytes| <= |file| && forall i {:trigger bytes[i]} :: 0 <= i < |bytes| ==> file[pos + i] == bytes[i]
  }

  /** A little-endian number reads back. */
  lemma {:induction false} LeRoundTrip(file: seq<Byte>, pos: nat, n: nat, width: nat)
    requires Holds(file, pos, Le(n, width)) && n < Limit(width)
    ensures LeAt(file, pos, width) == n
    decreases width
  {
    if width > 0 {
      var b, high := Le(n, width), Le(n / 256, width - 1);
      assert b[0] == n % 256;
      forall i {:trigger high[i]} | 0 <= i < width - 1
        ensures file[pos + 1 + i] == high[i]
      {
        assert b[i + 1] == high[i];
      }
      LeRoundTrip(file, pos + 1, n / 256, width - 1);
    }
  }

  /** A number that fits is read back wherever its bytes are. */
  lemma {:induction false} LeBound(file: seq<Byte>, pos: nat, width: nat)
    requires pos + width <= |file|
    ensures LeAt(file, pos, width) < Limit(width)
    decreases width
  {
    if width > 0 {
      LeBound(file, pos + 1, width - 1);
    }
  }
}
