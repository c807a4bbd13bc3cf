/** The token-id list of the command line (src/qx_qxf_main.c:186-204). */
module CliIds {
  import opened Words

  const COMMA: Byte := 44

  /** isspace in the C locale. */
  predicate Space(c: Byte) { c == 32 || 9 <= c <= 13 }

  predicate Digit(c: Byte) { 48 <= c <= 57 }

  function DigitValue(c: Byte): nat
    requires Digit(c)
  {
    c - 48
  }

  function AfterSpaces(text: seq<Byte>, i: nat): (j: nat)
    requires i <= |text|
    ensures i <= j <= |text|
    decreases |text| - i
  {
    if i < |text| && Space(text[i]) then AfterSpaces(text, i + 1) else i
  }

  function AfterDigits(text: seq<Byte>, i: nat): (j: nat)
    requires i <= |text|
    ensures i <= j <= |text| && forall k :: i <= k < j ==> Digit(text[k])
    decreases |text| - i
  {
    if i < |text| && Digit(text[i]) then AfterDigits(text, i + 1) else i
  }

  /** The decimal number in text[i..j]. */
  function ValueOf(text: seq<Byte>, i: nat, j: nat): nat
    requires i <= j <= |text| && forall k :: i <= k < j ==> Digit(text[k])
    decreases j
  {
    if i == j then 0 else 10 * ValueOf(text, i, j - 1) + DigitValue(text[j - 1])
  }

  datatype Number = Number(value: nat, end: nat, overflow: bool)

  /** strtoul in base 10 from position `i` of a NUL-terminated text; `max` is
      ULONG_MAX. Without digits the end is `i` itself. */
  function Strtoul(text: seq<Byte>, i: nat, max: nat): (r: Number)
    requires i <= |text|
    ensures i <= r.end <= |text|
  {
    var sign := AfterSpaces(text, i);
    var start := if sign < |text| && (text[sign] == 43 || text[sign] == 45) then sign + 1 else sign;
    var end := AfterDigits(text, start);
    if end == start then Number(0, i, false) else
      var n := ValueOf(text, start, end);
      if n > max then Number(max, end, true)
      else if text[sign] == 45 && n > 0 then Number(max + 1 - n, end, false)
      else Number(n, end, false)
  }

  /** The loop at line 190 from `cursor`, with `ids` parsed; None stands for the errors. */
  function ParseFrom(text: seq<Byte>, cursor: nat, ids: seq<U32>, capacity: nat, max: nat): (r: Option<seq<U32>>)
    requires cursor <= |text|
    decreases |text| - cursor
  {
    if cursor == |text| then Some(ids)
    else if |ids| >= capacity then None
    else
      var n := Strtoul(text, cursor, max);
      if n.overflow || n.end == cursor || n.value >= U32_LIMIT || (n.end < |text| && text[n.end] != COMMA) then None
      else if n.end == |text| then Some(ids + [n.value])
      else if n.end + 1 == |text| then None
      else ParseFrom(text, n.end + 1, ids + [n.value], capacity, max)
  }

  /** qx_cli_parse_ids on a text that is not NULL. */
  function ParseIds(text: seq<Byte>, capacity: nat, max: nat): Option<seq<U32>> {
    if text == [] then None else ParseFrom(text, 0, [], capacity, max)
  }

  /** The function as it runs: a cursor, and an array filled from the front. */
  method ParseInto(text: seq<Byte>, ids: array<U32>, max: nat) returns (ok: bool, count: nat)
    modifies ids
    ensures count <= ids.Length
    ensures ok <==> ParseIds(text, ids.Length, max).Some?
    ensures ok ==> ids[..count] == ParseIds(text, ids.Length, max).value
    ensures forall k :: count <= k < ids.Length ==> ids[k] == old(ids[k])
  {
    hide Strtoul;
    count := 0;
    if text == [] { return false, 0; }
    var cursor := 0;
    while cursor < |text|
      invariant cursor <= |text| && count <= ids.Length
      invariant ParseIds(text, ids.Length, max) == ParseFrom(text, cursor, ids[..count], ids.Length, max)
      invariant forall k :: count <= k < ids.Length ==> ids[k] == old(ids[k])
      decreases |text| - cursor
    {
      if count >= ids.Length { return false, count; }
      var n := Strtoul(text, cursor, max);
      if n.overflow || n.end == cursor || n.value >= U32_LIMIT || (n.end < |text| && text[n.end] != COMMA) {
        return false, count;
      }
      ghost var before := ids[..count];
      ids[count] := n.value;
      count := count + 1;
      assert ids[..count] == before + [n.value];
      if n.end == |text| { return true, count; }
      cursor := n.end + 1;
      if cursor == |text| { return false, count; }
    }
    ok := true;
  }

  // ----- printing -----

  function Decimal(n: nat): (d: seq<Byte>)
    ensures |d| > 0 && forall i :: 0 <= i < |d| ==> Digit(d[i])
  {
    if n < 10 then [48 + n] else Decimal(n / 10) + [48 + n % 10]
  }

  /** The first `n` ids, joined with commas. */
  function Join(ids: seq<U32>, n: nat): seq<Byte>
    requires n <= |ids|
  {
    if n == 0 then [] else if n == 1 then Decimal(ids[0]) else Join(ids, n - 1) + [COMMA] + Decimal(ids[n - 1])
  }

  // ----- reading back -----

  lemma {:induction false} DigitsRead(text: seq<Byte>, i: nat, k: nat)
    requires i <= k <= |text| && (forall j :: i <= j < k ==> Digit(text[j])) && (k < |text| ==> !Digit(text[k]))
    ensures AfterDigits(text, i) == k
    decreases k - i
  {
    if i < k { DigitsRead(text, i + 1, k); }
  }

  lemma DropLast(text: seq<Byte>, i: nat, d: seq<Byte>, last: Byte)
    requires i + |d| + 1 <= |text| && text[i..i + |d| + 1] == d + [last]
    ensures text[i..i + |d|] == d && text[i + |d|] == last
  {
    var slice := text[i..i + |d| + 1];
    assert text[i..i + |d|] == slice[..|d|];
    assert text[i + |d|] == slice[|d|];
  }

  lemma DecimalStep(n: nat)
    requires n >= 10
    ensures Decimal(n) == Decimal(n / 10) + [48 + n % 10]
  {
  }

  lemma {:induction false} ValueRead(text: seq<Byte>, i: nat, n: nat)
    requires i + |Decimal(n)| <= |text| && text[i..i + |Decimal(n)|] == Decimal(n)
    ensures forall k :: i <= k < i + |Decimal(n)| ==> Digit(text[k])
    ensures ValueOf(text, i, i + |Decimal(n)|) == n
    decreases n
  {
    if n < 10 {
      DropLast(text, i, [], 48 + n);
    } else {
      DecimalStep(n);
      hide Decimal;
      DropLast(text, i, Decimal(n / 10), 48 + n % 10);
      ValueRead(text, i, n / 10);
    }
  }

  /** strtoul reads back a printed number that is followed by a comma or nothing. */
  lemma NumberRead(text: seq<Byte>, i: nat, n: nat, max: nat)
    requires n <= max
    requires i + |Decimal(n)| <= |text| && text[i..i + |Decimal(n)|] == Decimal(n)
    requires i + |Decimal(n)| < |text| ==> text[i + |Decimal(n)|] == COMMA
    ensures Strtoul(text, i, max) == Number(n, i + |Decimal(n)|, false)
  {
    var end := i + |Decimal(n)|;
    ValueRead(text, i, n);
    DigitsRead(text, i, end);
    assert Digit(text[i]);
  }

  lemma {:induction false} JoinGrows(ids: seq<U32>, m: nat, n: nat)
    requires 0 < m <= n <= |ids|
    ensures |Join(ids, m)| <= |Join(ids, n)| && Join(ids, n)[..|Join(ids, m)|] == Join(ids, m)
    ensures m < n ==> |Join(ids, m)| < |Join(ids, n)| && Join(ids, n)[|Join(ids, m)|] == COMMA
    decreases n
  {
    hide Decimal;
    if m < n {
      JoinGrows(ids, m, n - 1);
      var j, p := Join(ids, m), Join(ids, n - 1);
      assert Join(ids, n)[..|p|] == p;
      assert Join(ids, n)[..|j|] == p[..|j|];
      if m < n - 1 { assert Join(ids, n)[|j|] == p[|j|]; }
    }
  }

  /** Where the i-th printed id starts. */
  function StartOf(ids: seq<U32>, i: nat): nat
    requires i <= |ids|
  {
    if i == 0 then 0 else |Join(ids, i)| + 1
  }

  lemma IdAt(ids: seq<U32>, i: nat)
    requires i < |ids|
    ensures var text := Join(ids, |ids|); var at := StartOf(ids, i); var end := at + |Decimal(ids[i])|;
            end <= |text| && end == |Join(ids, i + 1)| && text[at..end] == Decimal(ids[i]) &&
            (if i + 1 < |ids| then end < |text| && text[end] == COMMA else end == |text|)
  {
    hide Decimal;
    JoinGrows(ids, i + 1, |ids|);
    var text, part := Join(ids, |ids|), Join(ids, i + 1);
    var at := StartOf(ids, i);
    assert part[at..] == Decimal(ids[i]);
    assert text[at..|part|] == text[..|part|][at..];
  }

  lemma {:induction false} RestRead(ids: seq<U32>, i: nat, capacity: nat, max: nat)
    requires i < |ids| <= capacity && max >= U32_LIMIT - 1
    ensures var text := Join(ids, |ids|);
            StartOf(ids, i) <= |text| && ParseFrom(text, StartOf(ids, i), ids[..i], capacity, max) == Some(ids)
    decreases |ids| - i
  {
    hide Decimal, Strtoul, Join;
    var text, at := Join(ids, |ids|), StartOf(ids, i);
    IdAt(ids, i);
    NumberRead(text, at, ids[i], max);
    assert ids[..i] + [ids[i]] == ids[..i + 1];
    if i + 1 < |ids| {
      IdAt(ids, i + 1);
      RestRead(ids, i + 1, capacity, max);
    } else {
      assert ids[..i + 1] == ids;
    }
  }

  /** Parsing the comma-joined decimal form of a non-empty list within capacity
      returns the list, whatever the width of unsigned long. */
  lemma ParsesWhatWasJoined(ids: seq<U32>, capacity: nat, max: nat)
    requires 0 < |ids| <= capacity && max >= U32_LIMIT - 1
    ensures ParseIds(Join(ids, |ids|), capacity, max) == Some(ids)
  {
    hide Decimal, Join, Strtoul;
    IdAt(ids, 0);
    RestRead(ids, 0, capacity, max);
    assert ids[..0] == [];
  }

  // ----- a sign -----

  lemma SignedRead(text: seq<Byte>, n: nat, max: nat)
    requires text == [45] + Decimal(n) && 0 < n <= max
    ensures Strtoul(text, 0, max) == Number(max + 1 - n, |text|, false)
  {
    hide Decimal;
    assert text[0] == 45 && |text| == 1 + |Decimal(n)|;
    assert text[1..1 + |Decimal(n)|] == Decimal(n);
    ValueRead(text, 1, n);
    DigitsRead(text, 1, |text|);
    assert AfterSpaces(text, 0) == 0;
  }

  /** strtoul accepts a minus sign: a negative id is refused where unsigned long has
      64 bits, and taken modulo 2^32 where it has 32. */
  lemma NegativeIds(n: nat, capacity: nat, wide: bool)
    requires 0 < n < U32_LIMIT && capacity > 0
    ensures ParseIds([45] + Decimal(n), capacity, if wide then U64_MAX else U32_LIMIT - 1) ==
      if wide then None else Some([U32_LIMIT - n])
  {
    hide Decimal, Strtoul;
    var text, max := [45] + Decimal(n), if wide then U64_MAX else U32_LIMIT - 1;
    SignedRead(text, n, max);
    assert ParseIds(text, capacity, max) == ParseFrom(text, 0, [], capacity, max);
    if !wide {
      var id: U32 := U32_LIMIT - n;
      assert Strtoul(text, 0, max).value == id;
      assert [] + [id] == [id];
    }
  }
}
