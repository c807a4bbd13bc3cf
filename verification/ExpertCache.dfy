/** The cache as src/qx_expert_cache.c builds it: entries linked through
    `older` and `newer` pointers, updated in place, over an allocator that
    insists on every block being freed once. */
module ExpertCache {
  import opened Words
  import opened ExpertCacheSpec
  import opened ExpertCacheInvariant

  /** The caller's callbacks: the heap they manage. */
  class Host {
    var blocks: map<Addr, seq<Byte>>
    var allocs: nat
    var frees: nat

    constructor ()
      ensures blocks == map[] && allocs == frees == 0
    {
      blocks, allocs, frees := map[], 0, 0;
    }

    /** `answer` is the address the allocator decides on; 0 is a failure. */
    method Alloc(answer: Addr) returns (a: Addr)
      requires answer != 0 ==> answer !in blocks
      modifies this
      ensures a == answer
      ensures answer == 0 ==> unchanged(this)
      ensures answer != 0 ==> blocks == old(blocks)[answer := []] && allocs == old(allocs) + 1 && frees == old(frees)
    {
      if answer != 0 {
        blocks, allocs := blocks[answer := []], allocs + 1;
      }
      a := answer;
    }

    /** Freeing anything but a live block is an error the caller must rule out. */
    method Free(a: Addr)
      requires a in blocks
      modifies this
      ensures blocks == old(blocks) - {a} && frees == old(frees) + 1 && allocs == old(allocs)
    {
      blocks, frees := blocks - {a}, frees + 1;
    }

    method ReadExact(dst: Addr, bytes: seq<Byte>)
      requires dst in blocks
      modifies this`blocks
      ensures blocks == old(blocks)[dst := bytes]
    {
      blocks := blocks[dst := bytes];
    }
  }

  class Node {
    const addr: Addr
    var key: Key
    var data: Addr
    var pinCount: nat
    var older: Node?
    var newer: Node?

    constructor (addr: Addr)
      ensures this.addr == addr && data == 0 && pinCount == 0 && older == null && newer == null
    {
      this.addr := addr;
      key := Key(0, 0, 0, 0, 0);
      data, pinCount, older, newer := 0, 0, null, null;
    }
  }

  /** `es` is what the nodes hold, node by node. */
  ghost predicate Mirrors(es: seq<Entry>, nodes: seq<Node>, repr: set<Node>)
    requires forall i :: 0 <= i < |nodes| ==> nodes[i] in repr
    reads repr`key, repr`data, repr`pinCount
  {
    |es| == |nodes| &&
    forall i {:trigger es[i]} :: 0 <= i < |nodes| ==>
      es[i] == Entry(nodes[i].addr, nodes[i].key, nodes[i].data, nodes[i].pinCount)
  }

  lemma {:induction false} MirrorExists(nodes: seq<Node>, repr: set<Node>) returns (es: seq<Entry>)
    requires forall i :: 0 <= i < |nodes| ==> nodes[i] in repr
    ensures Mirrors(es, nodes, repr)
    decreases |nodes|
  {
    if nodes == [] {
      es := [];
    } else {
      var k := |nodes| - 1;
      var front := MirrorExists(nodes[..k], repr);
      es := front + [Entry(nodes[k].addr, nodes[k].key, nodes[k].data, nodes[k].pinCount)];
    }
  }

  /** The entries a list of nodes stands for. */
  ghost function View(nodes: seq<Node>, repr: set<Node>): (es: seq<Entry>)
    requires forall i :: 0 <= i < |nodes| ==> nodes[i] in repr
    reads repr`key, repr`data, repr`pinCount
    ensures Mirrors(es, nodes, repr)
  {
    assert exists es :: Mirrors(es, nodes, repr) by { var es := MirrorExists(nodes, repr); }
    var es :| Mirrors(es, nodes, repr);
    es
  }

  lemma ViewRemoveAt(nodes: seq<Node>, repr: set<Node>, i: nat)
    requires i < |nodes| && forall j :: 0 <= j < |nodes| ==> nodes[j] in repr
    ensures View(RemoveAt(nodes, i), repr) == RemoveAt(View(nodes, repr), i)
  {
  }

  lemma ViewAppend(nodes: seq<Node>, repr: set<Node>, n: Node)
    requires n in repr && forall j :: 0 <= j < |nodes| ==> nodes[j] in repr
    ensures View(nodes + [n], repr) == View(nodes, repr) + [Entry(n.addr, n.key, n.data, n.pinCount)]
  {
  }

  lemma ViewRepr(nodes: seq<Node>, repr: set<Node>, more: set<Node>)
    requires forall j :: 0 <= j < |nodes| ==> nodes[j] in repr && nodes[j] in more
    ensures View(nodes, repr) == View(nodes, more)
  {
  }

  /** One step of destroy's loop. */
  lemma FreeNext(es: seq<Entry>, i: nat, blocks: map<Addr, seq<Byte>>)
    requires i < |es| && Distinct(es[i..]) && Owns(es[i..], blocks)
    ensures es[i].data in blocks && es[i].addr in blocks && es[i].data != es[i].addr
    ensures var left := blocks - {es[i].data} - {es[i].addr};
            Distinct(es[i + 1..]) && Owns(es[i + 1..], left) && FreeAll(left, es[i + 1..]) == FreeAll(blocks, es[i..])
  {
    var rest := es[i..];
    EvictOwns(rest, 0, blocks);
    RemoveAtDistinct(rest, 0);
    assert RemoveAt(rest, 0) == rest[1..] == es[i + 1..];
    assert rest[0] == es[i] && rest[0] in rest && Sound(rest[0]);
  }

  ghost predicate NoRepeats(nodes: seq<Node>) {
    forall i, j :: 0 <= i < j < |nodes| ==> nodes[i] != nodes[j]
  }

  class Cache {
    var initialized: bool
    var budget: nat
    var sizeMax: nat
    var counters: Counters
    var lru: Node?
    var mru: Node?
    const host: Host
    /** The linked entries, least recently used first. */
    ghost var nodes: seq<Node>
    /** Every node this cache ever linked. */
    ghost var repr: set<Node>

    /** The pointers spell out `nodes`, forwards and backwards. */
    ghost predicate Linked()
      reads this`lru, this`mru, this`nodes, this`repr, repr`older, repr`newer
    {
      NoRepeats(nodes) && (forall i :: 0 <= i < |nodes| ==> nodes[i] in repr) &&
      (lru == if nodes == [] then null else nodes[0]) &&
      (mru == if nodes == [] then null else nodes[|nodes| - 1]) &&
      (forall i {:trigger nodes[i].older} :: 0 <= i < |nodes| ==>
        nodes[i].older == (if i == 0 then null else nodes[i - 1])) &&
      (forall i {:trigger nodes[i].newer} :: 0 <= i < |nodes| ==>
        nodes[i].newer == (if i == |nodes| - 1 then null else nodes[i + 1]))
    }

    ghost function Value(): State
      requires Linked()
      reads this, repr, host
    {
      State(initialized, budget, sizeMax, View(nodes, repr), counters, host.blocks, host.allocs, host.frees)
    }

    ghost predicate Valid()
      reads this, repr, host
    {
      Linked() && Inv(Value())
    }

    constructor (budget: U64, sizeMax: nat, host: Host)
      requires host.blocks == map[] && host.allocs == host.frees == 0
      ensures Valid() && nodes == [] && this.host == host && Value() == Init(budget, sizeMax)
    {
      initialized, this.budget, this.sizeMax, counters := budget != 0, budget, sizeMax, ZERO_COUNTERS;
      lru, mru, nodes, repr := null, null, [], {};
      this.host := host;
    }

    // ----- pointer surgery -----

    method Unlink(ghost i: nat, entry: Node)
      requires Linked() && i < |nodes| && nodes[i] == entry
      modifies this`lru, this`mru, this`nodes, repr`older, repr`newer
      ensures Linked() && nodes == RemoveAt(old(nodes), i)
      ensures entry.older == null && entry.newer == null
    {
      ghost var was := nodes;
      assert was[i].older == entry.older && was[i].newer == entry.newer;
      if entry.older != null { entry.older.newer := entry.newer; } else { lru := entry.newer; }
      if entry.newer != null { entry.newer.older := entry.older; } else { mru := entry.older; }
      entry.older, entry.newer := null, null;
      nodes := RemoveAt(nodes, i);
      forall j | 0 <= j < |nodes|
        ensures nodes[j] in repr
        ensures nodes[j].older == (if j == 0 then null else nodes[j - 1])
        ensures nodes[j].newer == (if j == |nodes| - 1 then null else nodes[j + 1])
      {
        var k := if j < i then j else j + 1;
        assert nodes[j] == was[k] && was[k] != entry;
        assert old(was[k].older) == if k == 0 then null else was[k - 1];
        assert old(was[k].newer) == if k == |was| - 1 then null else was[k + 1];
      }
    }

    method AppendMru(entry: Node)
      requires Linked() && entry !in nodes
      modifies this`lru, this`mru, this`nodes, this`repr, repr`newer, entry`older, entry`newer
      ensures Linked() && nodes == old(nodes) + [entry] && repr == old(repr) + {entry}
    {
      entry.older, entry.newer := mru, null;
      if mru != null { mru.newer := entry; } else { lru := entry; }
      mru := entry;
      nodes, repr := nodes + [entry], repr + {entry};
    }

    method Promote(ghost i: nat, entry: Node)
      requires Linked() && i < |nodes| && nodes[i] == entry
      modifies this`lru, this`mru, this`nodes, this`repr, repr`older, repr`newer
      ensures Linked() && nodes == RemoveAt(old(nodes), i) + [entry] && repr == old(repr)
    {
      if mru == entry {
        assert i == |nodes| - 1;
        return;
      }
      Unlink(i, entry);
      AppendMru(entry);
      assert repr == old(repr);
    }

    method FreeEntry(entry: Addr, data: Addr)
      requires data in host.blocks && entry in host.blocks && entry != data
      modifies host
      ensures host.blocks == old(host.blocks) - {data} - {entry}
      ensures host.frees == old(host.frees) + 2 && host.allocs == old(host.allocs)
    {
      host.Free(data);
      host.Free(entry);
    }

    method Evict(ghost i: nat, entry: Node)
      requires Linked() && i < |nodes| && nodes[i] == entry
      requires counters.resident >= entry.key.sliceBytes
      requires entry.data in host.blocks && entry.addr in host.blocks && entry.addr != entry.data
      modifies this, repr, host
      ensures repr == old(repr)
      ensures Linked() && Value() == EvictAt(old(Value()), i)
    {
      ghost var was, before := nodes, View(nodes, repr);
      Unlink(i, entry);
      assert View(was, repr) == before;
      ViewRemoveAt(was, repr, i);
      counters := counters.(resident := counters.resident - entry.key.sliceBytes, evictions := counters.evictions + 1);
      FreeEntry(entry.addr, entry.data);
    }

    /** Writes one pin count. */
    method SetPins(ghost i: nat, entry: Node, pins: nat)
      requires Linked() && i < |nodes| && nodes[i] == entry
      modifies entry`pinCount
      ensures entry.pinCount == pins
      ensures Linked() && View(nodes, repr) == old(View(nodes, repr)[i := View(nodes, repr)[i].(pins := pins)])
    {
      entry.pinCount := pins;
    }

    /** The first unpinned entry from the least recently used end. */
    method FindVictim() returns (victim: Node?, ghost v: nat)
      requires Linked()
      ensures v == FirstUnpinned(View(nodes, repr))
      ensures var first := FirstUnpinned(View(nodes, repr)); victim == if first == |nodes| then null else nodes[first]
    {
      ghost var es := View(nodes, repr);
      victim, v := lru, 0;
      while victim != null && victim.pinCount != 0
        invariant v <= |nodes| && victim == (if v == |nodes| then null else nodes[v])
        invariant v < |nodes| ==> es[v].pins == victim.pinCount
        invariant forall j :: 0 <= j < v ==> es[j].pins != 0
        decreases |nodes| - v
      {
        assert victim.newer == nodes[v].newer;
        victim, v := victim.newer, v + 1;
      }
    }

    method MakeRoom(size: nat) returns (error: Option<Error>)
      requires Valid() && size <= budget
      modifies this, repr, host
      ensures Valid() && (Value(), error) == ExpertCacheSpec.MakeRoom(old(Value()), size)
      ensures repr == old(repr)
    {
      ghost var start := Value();
      error := None;
      while counters.resident > budget - size
        invariant Valid() && budget == start.budget && error == None
        invariant ExpertCacheSpec.MakeRoom(Value(), size) == ExpertCacheSpec.MakeRoom(start, size)
        invariant repr == old(repr)
        decreases |nodes|
      {
        ghost var before := Value();
        var victim, v := FindVictim();
        if victim == null {
          error := Some(BlockedByPins);
          return;
        }
        if counters.evictions == U64_MAX {
          error := Some(CounterOverflow);
          return;
        }
        EvictKeeps(before, v);
        EvictOwns(before.entries, v, before.blocks);
        Evict(v, victim);
      }
    }

    /** Lines 115-116: the entry holding `key`, if any. */
    method FindKey(key: Key) returns (entry: Node?, ghost i: nat)
      requires Linked()
      ensures i == Find(View(nodes, repr), key)
      ensures var first := Find(View(nodes, repr), key); entry == if first == |nodes| then null else nodes[first]
    {
      ghost var es := View(nodes, repr);
      entry, i := lru, 0;
      while entry != null && !KeyEqual(entry.key, key)
        invariant i <= |nodes| && entry == (if i == |nodes| then null else nodes[i])
        invariant i < |nodes| ==> es[i].key == entry.key
        invariant forall j :: 0 <= j < i ==> !KeyEqual(es[j].key, key)
        decreases |nodes| - i
      {
        assert entry.newer == nodes[i].newer;
        entry, i := entry.newer, i + 1;
      }
    }

    method Hit(ghost i: nat, entry: Node) returns (outcome: Outcome)
      requires Linked() && i < |nodes| && nodes[i] == entry
      modifies this, repr
      ensures Linked() && repr == old(repr)
      ensures (Value(), outcome) == ExpertCacheSpec.Hit(old(Value()), i)
    {
      ghost var was, before := nodes, View(nodes, repr);
      assert before[i] == Entry(entry.addr, entry.key, entry.data, entry.pinCount);
      var size := entry.key.sliceBytes;
      if counters.requests == U64_MAX || counters.hits == U64_MAX || counters.bytesAvoided + size > U64_MAX {
        return Failed(CounterOverflow);
      }
      counters := counters.(requests := counters.requests + 1, hits := counters.hits + 1,
                            bytesAvoided := counters.bytesAvoided + size);
      if entry.pinCount == U64_MAX {
        return Failed(PinOverflow);
      }
      SetPins(i, entry, entry.pinCount + 1);
      ghost var pinned := View(nodes, repr);
      Promote(i, entry);
      assert View(was, repr) == pinned;
      ViewRemoveAt(was, repr, i);
      ViewAppend(RemoveAt(was, i), repr, entry);
      assert RemoveAt(pinned, i) == RemoveAt(before, i);
      assert View(nodes, repr) == RemoveAt(before, i) + [before[i].(pins := before[i].pins + 1)];
      outcome := Borrowed(Borrow(entry.data, entry.key.sliceBytes, entry.addr, true));
    }

    /** Lines 163-182: the read and the checks on it; a failure gives both blocks back. */
    method Read(key: Key, cb: Callbacks, meta: Addr, data: Addr) returns (error: Option<Error>)
      requires meta in host.blocks && data in host.blocks && meta != data
      modifies this`counters, host
      ensures host.allocs == old(host.allocs)
      ensures (counters, error) == Judge(old(counters), key, cb)
      ensures error == None ==> host.blocks == old(host.blocks)[data := cb.bytes] && host.frees == old(host.frees)
      ensures error.Some? ==> host.blocks == old(host.blocks) - {meta, data} && host.frees == old(host.frees) + 2
    {
      ghost var blocks := host.blocks;
      error := None;
      host.ReadExact(data, cb.bytes);
      var actual := if cb.actual > key.sliceBytes then key.sliceBytes else cb.actual;
      if counters.bytesRead + actual > U64_MAX {
        error := Some(CounterOverflow);
      } else {
        counters := counters.(bytesRead := counters.bytesRead + actual);
        if !cb.readOk { error := Some(ReadFailed); }
        else if actual != key.sliceBytes { error := Some(TruncatedRead); }
        else if counters.loads == U64_MAX { error := Some(CounterOverflow); }
      }
      if error.Some? {
        FreeEntry(meta, data);
        assert host.blocks == blocks - {meta, data};
      }
    }

    /** Lines 154-162: the entry and its data, or neither. */
    method Allocate(key: Key, cb: Callbacks) returns (entry: Node?, error: Option<Error>)
      requires FreshBlocks(host.blocks, key, cb)
      modifies host
      ensures error == if cb.meta == 0 then Some(MetadataAllocFailed)
                       else if cb.packed == 0 then Some(PackedAllocFailed) else None
      ensures error.None? ==> entry != null && fresh(entry) && entry.addr == cb.meta && entry.data == cb.packed
      ensures error.Some? ==> host.blocks == old(host.blocks)
      ensures error.None? ==> host.blocks == old(host.blocks)[cb.meta := []][cb.packed := []]
      ensures error == Some(MetadataAllocFailed) ==> host.allocs == old(host.allocs) && host.frees == old(host.frees)
      ensures error == Some(PackedAllocFailed) ==>
        host.allocs == old(host.allocs) + 1 && host.frees == old(host.frees) + 1
      ensures error.None? ==> host.allocs == old(host.allocs) + 2 && host.frees == old(host.frees)
    {
      ghost var blocks := host.blocks;
      var meta := host.Alloc(cb.meta);
      if meta == 0 { return null, Some(MetadataAllocFailed); }
      entry := new Node(meta);
      var data := host.Alloc(cb.packed);
      if data == 0 {
        host.Free(meta);
        assert host.blocks == blocks;
        return null, Some(PackedAllocFailed);
      }
      entry.data := data;
      error := None;
    }

    /** Lines 154-182: both allocations, then the read. */
    method Load(key: Key, cb: Callbacks) returns (entry: Node?, error: Option<Error>)
      requires Linked() && FreshBlocks(host.blocks, key, cb)
      modifies this`counters, host
      ensures Linked() && nodes == old(nodes) && repr == old(repr)
      ensures error.Some? ==> (Value(), Failed(error.value)) == ExpertCacheSpec.Admit(old(Value()), key, cb)
      ensures error.None? ==>
        entry != null && fresh(entry) && entry.addr == cb.meta && entry.data == cb.packed &&
        cb.meta != 0 && cb.packed != 0 && (counters, error) == Judge(old(counters), key, cb) &&
        host.blocks == old(host.blocks)[cb.meta := []][cb.packed := cb.bytes] &&
        host.allocs == old(host.allocs) + 2 && host.frees == old(host.frees)
    {
      ghost var blocks: map<Addr, seq<Byte>> := host.blocks;
      entry, error := Allocate(key, cb);
      if error.Some? { return; }
      error := Read(key, cb, cb.meta, cb.packed);
      if error.Some? {
        assert host.blocks == blocks;
      } else {
        assert host.blocks == blocks[cb.meta := []][cb.packed := cb.bytes];
      }
    }

    /** Lines 184-186: fill the entry in and link it. */
    method Link(entry: Node, key: Key)
      requires Linked() && entry !in repr
      modifies this`lru, this`mru, this`nodes, this`repr, repr`newer, entry
      ensures Linked() && repr == old(repr) + {entry} && entry.data == old(entry.data)
      ensures View(nodes, repr) == old(View(nodes, repr)) + [Entry(entry.addr, key, entry.data, 1)]
    {
      ghost var was, owned, before := nodes, repr, View(nodes, repr);
      entry.key := key;
      entry.pinCount := 1;
      AppendMru(entry);
      assert View(was, owned) == before;
      ViewRepr(was, owned, repr);
      ViewAppend(was, repr, entry);
    }

    method Admit(key: Key, cb: Callbacks) returns (outcome: Outcome)
      requires Linked() && FreshBlocks(host.blocks, key, cb)
      modifies this, repr, host
      ensures Linked() && repr >= old(repr) && fresh(repr - old(repr))
      ensures (Value(), outcome) == ExpertCacheSpec.Admit(old(Value()), key, cb)
    {
      var entry, error := Load(key, cb);
      if error.Some? { return Failed(error.value); }
      Link(entry, key);
      counters := counters.(loads := counters.loads + 1, resident := counters.resident + key.sliceBytes);
      if counters.resident > counters.peak {
        counters := counters.(peak := counters.resident);
      }
      outcome := Borrowed(Borrow(entry.data, key.sliceBytes, entry.addr, true));
    }

    /** Lines 137-195. */
    method Miss(key: Key, cb: Callbacks) returns (outcome: Outcome)
      requires Valid() && initialized && Find(Value().entries, key) == |nodes|
      requires Misses(Value(), key) ==>
        FreshBlocks(ExpertCacheSpec.MakeRoom(CountMiss(Value()), key.sliceBytes).0.blocks, key, cb)
      requires Refusal(Value(), key) == None
      modifies this, repr, host
      ensures Linked() && (Value(), outcome) == ExpertCacheSpec.Miss(old(Value()), key, cb)
      ensures repr >= old(repr) && fresh(repr - old(repr))
    {
      if counters.requests == U64_MAX || counters.misses == U64_MAX { return Failed(CounterOverflow); }
      ghost var counted := CountMiss(Value());
      counters := counters.(requests := counters.requests + 1, misses := counters.misses + 1);
      assert Value() == counted;
      if key.sliceBytes > budget { return Failed(ExceedsBudget); }
      assert Inv(counted);
      var error := MakeRoom(key.sliceBytes);
      match error {
        case Some(e) => outcome := Failed(e);
        case None => outcome := Admit(key, cb);
      }
    }

    /** qx_expert_cache_acquire. */
    method Acquire(key: Key, cb: Callbacks) returns (outcome: Outcome)
      requires Valid() && CallbacksSound(Value(), key, cb)
      modifies this, repr, host
      ensures Valid() && (Value(), outcome) == ExpertCacheSpec.Acquire(old(Value()), key, cb)
      ensures repr >= old(repr) && fresh(repr - old(repr))
    {
      hide Inv, FreshBlocks, ExpertCacheSpec.Hit, ExpertCacheSpec.Miss, ExpertCacheSpec.MakeRoom;
      ghost var start := Value();
      AcquireKeeps(start, key, cb);
      if !initialized { return Failed(NotInitialized); }
      if key.reserved != 0 || key.sliceBytes == 0 { return Failed(InvalidKey); }
      if key.tensorOffset + key.sliceOffset > U64_MAX ||
         key.tensorOffset + key.sliceOffset + key.sliceBytes > U64_MAX {
        return Failed(OffsetOverflow);
      }
      if key.sliceBytes > sizeMax { return Failed(ExceedsAddressSpace); }
      var entry, i := FindKey(key);
      if entry != null {
        outcome := Hit(i, entry);
      } else {
        outcome := Miss(key, cb);
      }
    }

    /** qx_expert_cache_release; the caller's borrow becomes `cleared`. */
    method Release(b: Borrow) returns (cleared: Borrow)
      requires Valid()
      modifies repr`pinCount
      ensures Valid() && Value() == ExpertCacheSpec.Release(old(Value()), b)
      ensures cleared == if b.owned then NO_BORROW else b
    {
      ghost var start := Value();
      ReleaseKeeps(start, b);
      if !b.owned { return b; }
      if initialized && b.entry != 0 {
        var entry := lru;
        ghost var i := 0;
        while entry != null && entry.addr != b.entry
          invariant i <= |nodes| && entry == (if i == |nodes| then null else nodes[i])
          invariant i < |nodes| ==> start.entries[i].addr == entry.addr && start.entries[i].pins == entry.pinCount
          invariant forall j :: 0 <= j < i ==> start.entries[j].addr != b.entry
          decreases |nodes| - i
        {
          assert entry.newer == nodes[i].newer;
          entry, i := entry.newer, i + 1;
        }
        assert i == FindAddr(start.entries, b.entry);
        if entry != null && entry.pinCount != 0 {
          SetPins(i, entry, entry.pinCount - 1);
        }
      }
      return NO_BORROW;
    }

    /** qx_expert_cache_snapshot. */
    method Snapshot() returns (c: Counters)
      ensures c == if initialized then counters else ZERO_COUNTERS
    {
      c := ZERO_COUNTERS;
      if initialized { c := counters; }
    }

    /** qx_expert_cache_destroy. */
    method Destroy()
      requires Valid()
      modifies this, host
      ensures Valid() && Value() == ExpertCacheSpec.Destroy(old(Value()))
    {
      if !initialized { return; }
      ghost var start := Value();
      ghost var was := nodes;
      var entry := lru;
      ghost var i := 0;
      while entry != null
        modifies host
        invariant i <= |was| == |start.entries| && entry == (if i == |was| then null else was[i])
        invariant Distinct(start.entries[i..]) && Owns(start.entries[i..], host.blocks)
        invariant FreeAll(host.blocks, start.entries[i..]) == FreeAll(start.blocks, start.entries)
        invariant host.frees == start.frees + 2 * i && host.allocs == start.allocs
        decreases |was| - i
      {
        var next := entry.newer;
        assert next == was[i].newer && start.entries[i] == Entry(entry.addr, entry.key, entry.data, entry.pinCount);
        FreeNext(start.entries, i, host.blocks);
        FreeEntry(entry.addr, entry.data);
        entry, i := next, i + 1;
      }
      DestroyFreesAll(start, NO_BORROW);
      initialized, budget, counters, lru, mru, nodes := false, 0, ZERO_COUNTERS, null, null, [];
    }
  }
}
