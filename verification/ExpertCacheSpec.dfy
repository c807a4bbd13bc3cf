/** The resident packed-expert cache of src/qx_expert_cache.c as a function on values.

    The recency list is a sequence from least to most recently used. Every
    callback of the C code (alloc, free, read_exact) is visible: blocks the
    allocator handed out and did not get back are the keys of `blocks`, with
    their contents, and the answers of one acquire's callbacks are a parameter. */
module ExpertCacheSpec {
  import opened Words

  /** An address; 0 is NULL. */
  type Addr = nat

  datatype Key = Key(tensorOffset: U64, sliceOffset: U64, sliceBytes: U64, expert: U32, reserved: U32)

  datatype Entry = Entry(addr: Addr, key: Key, data: Addr, pins: nat)

  datatype Counters = Counters(requests: nat, hits: nat, misses: nat, loads: nat, evictions: nat,
                               resident: nat, peak: nat, bytesRead: nat, bytesAvoided: nat)

  const ZERO_COUNTERS := Counters(0, 0, 0, 0, 0, 0, 0, 0, 0)

  datatype State = State(initialized: bool, budget: nat, sizeMax: nat, entries: seq<Entry>, counters: Counters,
                         blocks: map<Addr, seq<Byte>>, allocs: nat, frees: nat)

  /** What the callbacks of one acquire answer: the two allocations (0 when they
      fail) and the read (its verdict, the count it reports, the bytes it leaves). */
  datatype Callbacks = Callbacks(meta: Addr, packed: Addr, readOk: bool, actual: nat, bytes: seq<Byte>)

  /** `owned` is `owner == cache`. */
  datatype Borrow = Borrow(data: Addr, size: nat, entry: Addr, owned: bool)

  const NO_BORROW := Borrow(0, 0, 0, false)

  datatype Error =
    | NotInitialized | InvalidKey | OffsetOverflow | ExceedsAddressSpace | CounterOverflow | PinOverflow
    | ExceedsBudget | BlockedByPins | MetadataAllocFailed | PackedAllocFailed | ReadFailed | TruncatedRead

  datatype Outcome = Borrowed(borrow: Borrow) | Failed(error: Error)

  // ----- the recency list -----

  predicate KeyEqual(a: Key, b: Key) {
    a.tensorOffset == b.tensorOffset && a.sliceOffset == b.sliceOffset &&
    a.sliceBytes == b.sliceBytes && a.expert == b.expert
  }

  /** Index of the least recently used entry holding `key`, or the length. */
  function Find(es: seq<Entry>, key: Key): (i: nat)
    ensures i <= |es|
    ensures i < |es| ==> KeyEqual(es[i].key, key)
    ensures forall j :: 0 <= j < i ==> !KeyEqual(es[j].key, key)
  {
    if es == [] then 0 else if KeyEqual(es[0].key, key) then 0 else
      var j := Find(es[1..], key);
      assert forall m :: 0 < m < 1 + j ==> es[m] == es[1..][m - 1];
      1 + j
  }

  /** Index of the least recently used unpinned entry, or the length. */
  function FirstUnpinned(es: seq<Entry>): (i: nat)
    ensures i <= |es|
    ensures i < |es| ==> es[i].pins == 0
    ensures forall j :: 0 <= j < i ==> es[j].pins != 0
  {
    if es == [] then 0 else if es[0].pins == 0 then 0 else
      var j := FirstUnpinned(es[1..]);
      assert forall m :: 0 < m < 1 + j ==> es[m] == es[1..][m - 1];
      1 + j
  }

  /** Index of the entry at address `a`, or the length. */
  function FindAddr(es: seq<Entry>, a: Addr): (i: nat)
    ensures i <= |es|
    ensures i < |es| ==> es[i].addr == a
    ensures forall j :: 0 <= j < i ==> es[j].addr != a
  {
    if es == [] then 0 else if es[0].addr == a then 0 else
      var j := FindAddr(es[1..], a);
      assert forall m :: 0 < m < 1 + j ==> es[m] == es[1..][m - 1];
      1 + j
  }

  function RemoveAt<T>(s: seq<T>, i: nat): (r: seq<T>)
    requires i < |s|
    ensures |r| == |s| - 1
  {
    s[..i] + s[i + 1..]
  }

  /** Resident packed bytes of a list of entries. */
  function Total(es: seq<Entry>): nat {
    if es == [] then 0 else es[0].key.sliceBytes + Total(es[1..])
  }

  // ----- the operations -----

  /** A fresh cache (`qx_expert_cache_init`): refuses a zero budget. */
  function Init(budget: nat, sizeMax: nat): State {
    State(budget != 0, budget, sizeMax, [], ZERO_COUNTERS, map[], 0, 0)
  }

  /** Line 70: unlink, settle the counters, free the data and the entry. */
  function EvictAt(st: State, i: nat): State
    requires i < |st.entries| && st.counters.resident >= st.entries[i].key.sliceBytes
  {
    var e := st.entries[i];
    st.(entries := RemoveAt(st.entries, i),
        counters := st.counters.(resident := st.counters.resident - e.key.sliceBytes,
                                 evictions := st.counters.evictions + 1),
        blocks := st.blocks - {e.data} - {e.addr},
        frees := st.frees + 2)
  }

  ghost predicate Accounted(st: State) { st.counters.resident == Total(st.entries) }

  /** Lines 144-152: evict until `size` more bytes fit. */
  function MakeRoom(st: State, size: nat): (State, Option<Error>)
    requires size <= st.budget && Accounted(st)
    decreases |st.entries|
  {
    if st.counters.resident <= st.budget - size then (st, None) else
      var v := FirstUnpinned(st.entries);
      if v == |st.entries| then (st, Some(BlockedByPins))
      else if st.counters.evictions == U64_MAX then (st, Some(CounterOverflow))
      else
        TotalRemoveAt(st.entries, v);
        MakeRoom(EvictAt(st, v), size)
  }

  lemma {:induction false} TotalAppend(a: seq<Entry>, b: seq<Entry>)
    ensures Total(a + b) == Total(a) + Total(b)
  {
    if a == [] {
      assert a + b == b;
    } else {
      assert (a + b)[1..] == a[1..] + b;
      TotalAppend(a[1..], b);
    }
  }

  lemma {:induction false} TotalRemoveAt(es: seq<Entry>, i: nat)
    requires i < |es|
    ensures Total(es) == Total(RemoveAt(es, i)) + es[i].key.sliceBytes
    decreases i
  {
    if i == 0 {
      assert RemoveAt(es, 0) == es[1..];
    } else {
      TotalRemoveAt(es[1..], i - 1);
      assert RemoveAt(es, i)[0] == es[0];
      assert RemoveAt(es, i)[1..] == RemoveAt(es[1..], i - 1);
    }
  }

  /** Lines 116-133: a resident key. */
  function Hit(st: State, i: nat): (State, Outcome)
    requires i < |st.entries|
  {
    var e := st.entries[i];
    var c := st.counters;
    if c.requests == U64_MAX || c.hits == U64_MAX || c.bytesAvoided + e.key.sliceBytes > U64_MAX then
      (st, Failed(CounterOverflow))
    else
      var counted := st.(counters := c.(requests := c.requests + 1, hits := c.hits + 1,
                                        bytesAvoided := c.bytesAvoided + e.key.sliceBytes));
      if e.pins == U64_MAX then (counted, Failed(PinOverflow)) else
        var pinned := e.(pins := e.pins + 1);
        (counted.(entries := RemoveAt(st.entries, i) + [pinned]),
         Borrowed(Borrow(e.data, e.key.sliceBytes, e.addr, true)))
  }

  function CountMiss(st: State): State {
    st.(counters := st.counters.(requests := st.counters.requests + 1, misses := st.counters.misses + 1))
  }

  function Min(a: nat, b: nat): nat { if a <= b then a else b }

  function Max(a: nat, b: nat): nat { if a <= b then b else a }

  /** Lines 165-183: count what the read reports and judge it. */
  function Judge(c: Counters, key: Key, cb: Callbacks): (Counters, Option<Error>) {
    var actual := Min(cb.actual, key.sliceBytes);
    if c.bytesRead + actual > U64_MAX then (c, Some(CounterOverflow))
    else
      var read := c.(bytesRead := c.bytesRead + actual);
      if !cb.readOk then (read, Some(ReadFailed))
      else if actual != key.sliceBytes then (read, Some(TruncatedRead))
      else if c.loads == U64_MAX then (read, Some(CounterOverflow))
      else (read, None)
  }

  /** Lines 187-190: the counters after a slice of `size` bytes is linked. */
  function CountLoad(c: Counters, size: nat): Counters {
    c.(loads := c.loads + 1, resident := c.resident + size, peak := Max(c.peak, c.resident + size))
  }

  /** Lines 154-195: allocate, read, and either link the entry or give both blocks back. */
  function Admit(st: State, key: Key, cb: Callbacks): (State, Outcome) {
    if cb.meta == 0 then (st, Failed(MetadataAllocFailed))
    else if cb.packed == 0 then (st.(allocs := st.allocs + 1, frees := st.frees + 1), Failed(PackedAllocFailed))
    else
      var (read, error) := Judge(st.counters, key, cb);
      match error
      case Some(e) => (st.(counters := read, allocs := st.allocs + 2, frees := st.frees + 2), Failed(e))
      case None =>
        (st.(entries := st.entries + [Entry(cb.meta, key, cb.packed, 1)],
             counters := CountLoad(read, key.sliceBytes),
             blocks := st.blocks[cb.meta := []][cb.packed := cb.bytes],
             allocs := st.allocs + 2),
         Borrowed(Borrow(cb.packed, key.sliceBytes, cb.meta, true)))
  }

  function Miss(st: State, key: Key, cb: Callbacks): (State, Outcome)
    requires Accounted(st)
  {
    if st.counters.requests == U64_MAX || st.counters.misses == U64_MAX then (st, Failed(CounterOverflow))
    else if key.sliceBytes > st.budget then (CountMiss(st), Failed(ExceedsBudget))
    else
      var (room, error) := MakeRoom(CountMiss(st), key.sliceBytes);
      match error
      case Some(e) => (room, Failed(e))
      case None => Admit(room, key, cb)
  }

  /** Lines 103-113: the checks before any counter moves. */
  function Refusal(st: State, key: Key): Option<Error> {
    if !st.initialized then Some(NotInitialized)
    else if key.reserved != 0 || key.sliceBytes == 0 then Some(InvalidKey)
    else if key.tensorOffset + key.sliceOffset > U64_MAX ||
            key.tensorOffset + key.sliceOffset + key.sliceBytes > U64_MAX then Some(OffsetOverflow)
    else if key.sliceBytes > st.sizeMax then Some(ExceedsAddressSpace)
    else None
  }

  function Acquire(st: State, key: Key, cb: Callbacks): (State, Outcome)
    requires Accounted(st)
  {
    match Refusal(st, key)
    case Some(e) => (st, Failed(e))
    case None =>
      var i := Find(st.entries, key);
      if i < |st.entries| then Hit(st, i) else Miss(st, key, cb)
  }

  /** Lines 198-211; the borrow itself is cleared unless it belongs to another cache. */
  function Release(st: State, b: Borrow): State {
    if !b.owned || !st.initialized || b.entry == 0 then st else
      var i := FindAddr(st.entries, b.entry);
      if i < |st.entries| && st.entries[i].pins != 0 then
        st.(entries := st.entries[i := st.entries[i].(pins := st.entries[i].pins - 1)])
      else st
  }

  function FreeAll(blocks: map<Addr, seq<Byte>>, es: seq<Entry>): map<Addr, seq<Byte>> {
    if es == [] then blocks else FreeAll(blocks - {es[0].data} - {es[0].addr}, es[1..])
  }

  /** Lines 220-230. */
  function Destroy(st: State): State {
    if !st.initialized then st else
      State(false, 0, st.sizeMax, [], ZERO_COUNTERS, FreeAll(st.blocks, st.entries), st.allocs,
            st.frees + 2 * |st.entries|)
  }
}
