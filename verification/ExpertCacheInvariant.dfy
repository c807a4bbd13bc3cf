/** What every call of the cache keeps: one acyclic list of distinct keys, a
    budget that is never exceeded, a heap holding exactly two blocks per entry,
    and counters that balance and never wrap. */
module ExpertCacheInvariant {
  import opened Words
  import opened ExpertCacheSpec

  ghost predicate Separate(e: Entry, f: Entry) {
    !KeyEqual(e.key, f.key) && e.addr != f.addr && e.data != f.data && e.addr != f.data && f.addr != e.data
  }

  ghost predicate Sound(e: Entry) {
    e.addr != 0 && e.data != 0 && e.addr != e.data && e.key.reserved == 0 && 0 < e.key.sliceBytes && e.pins <= U64_MAX
  }

  /** The entries are pairwise distinct in key and in both blocks. */
  ghost predicate Distinct(es: seq<Entry>) {
    (forall e <- es :: Sound(e)) && forall i, j :: 0 <= i < j < |es| ==> Separate(es[i], es[j])
  }

  function Addresses(es: seq<Entry>): set<Addr> {
    if es == [] then {} else {es[0].addr, es[0].data} + Addresses(es[1..])
  }

  ghost predicate Sized(e: Entry, blocks: map<Addr, seq<Byte>>) {
    e.data in blocks && |blocks[e.data]| == e.key.sliceBytes
  }

  /** The live blocks are exactly the entries' own, and the data blocks have the slices' sizes. */
  ghost predicate Owns(es: seq<Entry>, blocks: map<Addr, seq<Byte>>) {
    blocks.Keys == Addresses(es) && forall e <- es :: Sized(e, blocks)
  }

  ghost predicate Ledger(st: State) {
    var c := st.counters;
    c.requests == c.hits + c.misses && c.loads <= c.misses && c.loads == c.evictions + |st.entries| &&
    c.requests <= U64_MAX && c.bytesRead <= U64_MAX && c.bytesAvoided <= U64_MAX &&
    c.resident == Total(st.entries) && c.resident <= c.peak <= st.budget <= U64_MAX
  }

  ghost predicate Inv(st: State) {
    Distinct(st.entries) && Owns(st.entries, st.blocks) && Ledger(st) &&
    st.allocs == st.frees + 2 * |st.entries| &&
    (!st.initialized ==> st.entries == [])
  }

  lemma InvDistinct(st: State)
    requires Inv(st)
    ensures Distinct(st.entries) && Accounted(st)
  {
  }

  /** The allocator's contract: a block it hands out is not NULL's and not live,
      and a read leaves `size` bytes in the block it was given. */
  ghost predicate FreshBlocks(blocks: map<Addr, seq<Byte>>, key: Key, cb: Callbacks) {
    (cb.meta != 0 ==> cb.meta !in blocks) &&
    (cb.packed != 0 ==> cb.packed !in blocks && cb.packed != cb.meta) &&
    |cb.bytes| == key.sliceBytes
  }

  predicate Misses(st: State, key: Key) {
    Refusal(st, key) == None && Find(st.entries, key) == |st.entries| &&
    st.counters.requests < U64_MAX && st.counters.misses < U64_MAX && key.sliceBytes <= st.budget
  }

  /** The state in which an acquire asks the allocator. */
  function AtAllocation(st: State, key: Key): State
    requires Accounted(st)
  {
    if Misses(st, key) then MakeRoom(CountMiss(st), key.sliceBytes).0 else st
  }

  ghost predicate CallbacksSound(st: State, key: Key, cb: Callbacks)
    requires Accounted(st)
  {
    Misses(st, key) ==> FreshBlocks(AtAllocation(st, key).blocks, key, cb)
  }

  lemma RemoveAtMember<T>(s: seq<T>, i: nat, x: T)
    requires i < |s|
    ensures x in RemoveAt(s, i) ==> x in s
    ensures x in s && x != s[i] ==> x in RemoveAt(s, i)
  {
    if x in s && x != s[i] {
      var j :| 0 <= j < |s| && s[j] == x;
      assert RemoveAt(s, i)[if j < i then j else j - 1] == x;
    }
  }

  lemma RemoveAtDistinct(es: seq<Entry>, i: nat)
    requires i < |es| && Distinct(es)
    ensures Distinct(RemoveAt(es, i))
    ensures forall e <- RemoveAt(es, i) :: e in es && Separate(e, es[i])
    ensures es[i] !in RemoveAt(es, i)
  {
    var r := RemoveAt(es, i);
    forall j | 0 <= j < |r|
      ensures r[j] == es[if j < i then j else j + 1] && Separate(r[j], es[i])
    {
      assert Separate(es[j], es[i]) || j >= i;
      assert Separate(es[i], es[j + 1]) || j < i;
    }
  }

  lemma {:induction false} AddressesAppend(a: seq<Entry>, b: seq<Entry>)
    ensures Addresses(a + b) == Addresses(a) + Addresses(b)
  {
    if a == [] {
      assert a + b == b;
    } else {
      assert (a + b)[1..] == a[1..] + b;
      AddressesAppend(a[1..], b);
    }
  }

  lemma {:induction false} AddressesRemoveAt(es: seq<Entry>, i: nat)
    requires i < |es|
    ensures Addresses(es) == Addresses(RemoveAt(es, i)) + {es[i].addr, es[i].data}
    decreases i
  {
    if i == 0 {
      assert RemoveAt(es, 0) == es[1..];
    } else {
      AddressesRemoveAt(es[1..], i - 1);
      assert RemoveAt(es, i)[0] == es[0];
      assert RemoveAt(es, i)[1..] == RemoveAt(es[1..], i - 1);
    }
  }

  lemma {:induction false} AddressOwner(es: seq<Entry>, a: Addr) returns (e: Entry)
    requires a in Addresses(es)
    ensures e in es && (a == e.addr || a == e.data)
  {
    if a == es[0].addr || a == es[0].data { e := es[0]; } else { e := AddressOwner(es[1..], a); }
  }

  lemma {:induction false} AddressesApart(es: seq<Entry>, f: Entry)
    requires forall e <- es :: Separate(e, f)
    ensures f.addr !in Addresses(es) && f.data !in Addresses(es)
  {
    if f.addr in Addresses(es) { var e := AddressOwner(es, f.addr); }
    if f.data in Addresses(es) { var e := AddressOwner(es, f.data); }
  }

  /** The live allocations are exactly two per resident entry. */
  lemma {:induction false} TwoBlocksPerEntry(es: seq<Entry>)
    requires Distinct(es)
    ensures |Addresses(es)| == 2 * |es|
  {
    if es != [] {
      assert forall e <- es[1..] :: e in es;
      forall e | e in es[1..] ensures Separate(e, es[0]) { assert Separate(es[0], e); }
      AddressesApart(es[1..], es[0]);
      TwoBlocksPerEntry(es[1..]);
      assert es[0] in es;
      assert |{es[0].addr, es[0].data}| == 2;
    }
  }

  lemma EvictOwns(es: seq<Entry>, i: nat, blocks: map<Addr, seq<Byte>>)
    requires i < |es| && Distinct(es) && Owns(es, blocks)
    ensures es[i].addr in blocks && es[i].data in blocks - {es[i].addr}
    ensures Owns(RemoveAt(es, i), blocks - {es[i].data} - {es[i].addr})
  {
    var e := es[i];
    RemoveAtDistinct(es, i);
    AddressesRemoveAt(es, i);
    AddressesApart(RemoveAt(es, i), e);
    assert e in es;
    forall f | f in RemoveAt(es, i) ensures Sized(f, blocks - {e.data} - {e.addr}) {
      assert f in es && Separate(f, e);
    }
  }

  lemma EvictKeeps(st: State, i: nat)
    requires i < |st.entries| && Inv(st)
    ensures st.counters.resident >= st.entries[i].key.sliceBytes
    ensures Inv(EvictAt(st, i))
  {
    TotalRemoveAt(st.entries, i);
    RemoveAtDistinct(st.entries, i);
    EvictOwns(st.entries, i, st.blocks);
  }

  /** Under the invariant the eviction counter cannot be full: every eviction had a load. */
  lemma EvictionGuardIsDead(st: State)
    requires Inv(st) && st.entries != []
    ensures st.counters.evictions < U64_MAX
  {
  }

  lemma {:induction false} MakeRoomKeeps(st: State, size: nat)
    requires Inv(st) && size <= st.budget
    ensures Inv(MakeRoom(st, size).0)
    ensures MakeRoom(st, size).1 in {None, Some(BlockedByPins)}
    ensures MakeRoom(st, size).1 == None ==> MakeRoom(st, size).0.counters.resident + size <= st.budget
    decreases |st.entries|
  {
    var v := FirstUnpinned(st.entries);
    if st.counters.resident > st.budget - size && v < |st.entries| {
      EvictKeeps(st, v);
      MakeRoomKeeps(EvictAt(st, v), size);
    }
  }

  /** What MakeRoom leaves alone. */
  lemma {:induction false} MakeRoomFrame(st: State, size: nat)
    requires Accounted(st) && size <= st.budget
    ensures var r := MakeRoom(st, size).0;
            r.initialized == st.initialized && r.budget == st.budget && r.sizeMax == st.sizeMax &&
            r.allocs == st.allocs && |r.entries| <= |st.entries| &&
            r.counters == st.counters.(resident := r.counters.resident, evictions := r.counters.evictions)
    ensures forall e <- MakeRoom(st, size).0.entries :: e in st.entries
    decreases |st.entries|
  {
    var v := FirstUnpinned(st.entries);
    if st.counters.resident > st.budget - size && v < |st.entries| && st.counters.evictions != U64_MAX {
      TotalRemoveAt(st.entries, v);
      MakeRoomFrame(EvictAt(st, v), size);
      forall e | e in RemoveAt(st.entries, v) ensures e in st.entries { RemoveAtMember(st.entries, v, e); }
    }
  }

  lemma DistinctAppend(es: seq<Entry>, f: Entry)
    requires Distinct(es) && Sound(f) && forall e <- es :: Separate(e, f)
    ensures Distinct(es + [f])
  {
    forall i | 0 <= i < |es| ensures Separate(es[i], f) { assert es[i] in es; }
  }

  lemma OwnsMoved(es: seq<Entry>, i: nat, f: Entry, blocks: map<Addr, seq<Byte>>)
    requires i < |es| && Owns(es, blocks)
    requires f.addr == es[i].addr && f.data == es[i].data && f.key == es[i].key
    ensures Owns(RemoveAt(es, i) + [f], blocks)
  {
    var rest := RemoveAt(es, i);
    AddressesRemoveAt(es, i);
    AddressesAppend(rest, [f]);
    assert es[i] in es;
    forall e | e in rest + [f] ensures Sized(e, blocks) {
      if e in rest { RemoveAtMember(es, i, e); }
    }
  }

  lemma OwnsAppend(es: seq<Entry>, f: Entry, blocks: map<Addr, seq<Byte>>, bytes: seq<Byte>)
    requires Owns(es, blocks) && f.addr !in blocks && f.data !in blocks && f.addr != f.data
    requires |bytes| == f.key.sliceBytes
    ensures Owns(es + [f], blocks[f.addr := []][f.data := bytes])
  {
    AddressesAppend(es, [f]);
    assert Addresses([f]) == {f.addr, f.data};
    var grown := blocks[f.addr := []][f.data := bytes];
    forall e | e in es + [f] ensures Sized(e, grown) {
      assert e == f || e in es;
    }
  }

  lemma OwnsEntry(es: seq<Entry>, blocks: map<Addr, seq<Byte>>, e: Entry)
    requires Owns(es, blocks) && e in es
    ensures e.addr in blocks && e.data in blocks
  {
    var i :| 0 <= i < |es| && es[i] == e;
    AddressesRemoveAt(es, i);
  }

  lemma HitKeeps(st: State, i: nat)
    requires i < |st.entries| && Inv(st)
    ensures Inv(Hit(st, i).0)
  {
    var e := st.entries[i];
    var pinned := e.(pins := e.pins + 1);
    if Hit(st, i).1.Borrowed? {
      var rest := RemoveAt(st.entries, i);
      TotalRemoveAt(st.entries, i);
      TotalAppend(rest, [pinned]);
      RemoveAtDistinct(st.entries, i);
      assert e in st.entries;
      forall f | f in rest ensures Separate(f, pinned) { assert Separate(f, e); }
      DistinctAppend(rest, pinned);
      OwnsMoved(st.entries, i, pinned, st.blocks);
    }
  }

  lemma AdmitKeeps(st: State, key: Key, cb: Callbacks)
    requires Inv(st) && st.initialized && Find(st.entries, key) == |st.entries|
    requires key.reserved == 0 && 0 < key.sliceBytes && st.counters.resident + key.sliceBytes <= st.budget
    requires st.counters.loads < st.counters.misses
    requires FreshBlocks(st.blocks, key, cb)
    ensures Inv(Admit(st, key, cb).0)
  {
    if Admit(st, key, cb).1.Borrowed? {
      var e := Entry(cb.meta, key, cb.packed, 1);
      TotalAppend(st.entries, [e]);
      forall f | f in st.entries ensures Separate(f, e) { OwnsEntry(st.entries, st.blocks, f); }
      DistinctAppend(st.entries, e);
      OwnsAppend(st.entries, e, st.blocks, cb.bytes);
    }
  }

  lemma {:induction false} FindMissing(es: seq<Entry>, key: Key)
    requires forall e <- es :: !KeyEqual(e.key, key)
    ensures Find(es, key) == |es|
  {
  }

  lemma MakeRoomStillMisses(st: State, key: Key)
    requires Accounted(st) && key.sliceBytes <= st.budget && Find(st.entries, key) == |st.entries|
    ensures var r := MakeRoom(st, key.sliceBytes).0; Find(r.entries, key) == |r.entries|
  {
    var r := MakeRoom(st, key.sliceBytes).0;
    MakeRoomFrame(st, key.sliceBytes);
    forall e | e in r.entries ensures !KeyEqual(e.key, key) {
      var j :| 0 <= j < |st.entries| && st.entries[j] == e;
    }
    FindMissing(r.entries, key);
  }

  /** Every acquire, failed or not, keeps the invariant. */
  lemma AcquireKeeps(st: State, key: Key, cb: Callbacks)
    requires Inv(st) && CallbacksSound(st, key, cb)
    ensures Inv(Acquire(st, key, cb).0)
  {
    if Refusal(st, key) == None {
      var i := Find(st.entries, key);
      if i < |st.entries| {
        HitKeeps(st, i);
      } else if Misses(st, key) {
        var counted := CountMiss(st);
        MakeRoomKeeps(counted, key.sliceBytes);
        MakeRoomFrame(counted, key.sliceBytes);
        MakeRoomStillMisses(counted, key);
        var (room, error) := MakeRoom(counted, key.sliceBytes);
        if error == None { AdmitKeeps(room, key, cb); }
      }
    }
  }

  lemma {:induction false} TotalUpdate(es: seq<Entry>, i: nat, e: Entry)
    requires i < |es| && e.key == es[i].key
    ensures Total(es[i := e]) == Total(es)
  {
    TotalRemoveAt(es, i);
    TotalRemoveAt(es[i := e], i);
    assert RemoveAt(es[i := e], i) == RemoveAt(es, i);
  }

  lemma ReleaseKeeps(st: State, b: Borrow)
    requires Inv(st)
    ensures Inv(Release(st, b))
  {
    var r := Release(st, b);
    if r != st {
      var i := FindAddr(st.entries, b.entry);
      var e := st.entries[i];
      var f := e.(pins := e.pins - 1);
      TotalUpdate(st.entries, i, f);
      AddressesRemoveAt(st.entries, i);
      AddressesRemoveAt(r.entries, i);
      assert RemoveAt(r.entries, i) == RemoveAt(st.entries, i);
      assert e in st.entries;
      forall g | g in r.entries ensures Sound(g) && Sized(g, st.blocks) {
        assert g == f || g in st.entries;
      }
      forall j, k | 0 <= j < k < |r.entries| ensures Separate(r.entries[j], r.entries[k]) {
        assert Separate(st.entries[j], st.entries[k]);
      }
    }
  }

  lemma {:induction false} FreeAllKeys(blocks: map<Addr, seq<Byte>>, es: seq<Entry>)
    ensures FreeAll(blocks, es).Keys == blocks.Keys - Addresses(es)
    decreases |es|
  {
    if es != [] { FreeAllKeys(blocks - {es[0].data} - {es[0].addr}, es[1..]); }
  }

  /** After destroy, whatever borrows are outstanding, every block ever allocated
      has been freed; later releases and a second destroy change nothing. */
  lemma DestroyFreesAll(st: State, b: Borrow)
    requires Inv(st) && st.initialized
    ensures var d := Destroy(st);
            d.blocks == map[] && d.frees == d.allocs == st.allocs && d.entries == [] && Inv(d) &&
            Release(d, b) == d && Destroy(d) == d
  {
    FreeAllKeys(st.blocks, st.entries);
    assert FreeAll(st.blocks, st.entries).Keys == {};
    assert Addresses([]) == {};
  }
}
