/** The sequential caller of src/qx_expert_cache.h:58-63, who releases each
    borrow before the next acquire: the recency list refines a plain LRU list of
    keys, a larger budget never does worse, and a working set that fits is read once. */
module ExpertCacheTraces {
  import opened Words
  import opened ExpertCacheSpec
  import opened ExpertCacheInvariant

  datatype Request = Request(key: Key, cb: Callbacks)

  // ----- the reference: LRU on keys alone -----

  function Bytes(keys: seq<Key>): nat {
    if keys == [] then 0 else keys[0].sliceBytes + Bytes(keys[1..])
  }

  /** The longest suffix (most recently used end) of at most `limit` bytes. */
  function Trim(keys: seq<Key>, limit: nat): seq<Key> {
    if Bytes(keys) <= limit then keys else Trim(keys[1..], limit)
  }

  function IndexOf(keys: seq<Key>, k: Key): (i: nat)
    requires k in keys
    ensures i < |keys| && keys[i] == k
  {
    if keys[0] == k then 0 else 1 + IndexOf(keys[1..], k)
  }

  function LruStep(keys: seq<Key>, budget: nat, k: Key): seq<Key>
    requires k.sliceBytes <= budget
  {
    (if k in keys then RemoveAt(keys, IndexOf(keys, k)) else Trim(keys, budget - k.sliceBytes)) + [k]
  }

  ghost predicate NoDup<T(!new)>(s: seq<T>) { forall i, j :: 0 <= i < j < |s| ==> s[i] != s[j] }

  ghost predicate SuffixOf<T(!new)>(a: seq<T>, b: seq<T>) { |a| <= |b| && b[|b| - |a|..] == a }

  // ----- inclusion on key lists -----

  lemma {:induction false} BytesSuffix(keys: seq<Key>, n: nat)
    requires n <= |keys|
    ensures Bytes(keys[n..]) <= Bytes(keys)
  {
    if n > 0 {
      assert keys[n..] == keys[1..][n - 1..];
      BytesSuffix(keys[1..], n - 1);
    }
  }

  /** Trim keeps a suffix that fits, and every suffix that fits is one of its own. */
  lemma {:induction false} TrimIsLongest(keys: seq<Key>, limit: nat, s: seq<Key>)
    ensures SuffixOf(Trim(keys, limit), keys) && Bytes(Trim(keys, limit)) <= limit
    ensures SuffixOf(s, keys) && Bytes(s) <= limit ==> SuffixOf(s, Trim(keys, limit))
    decreases |keys|
  {
    if Bytes(keys) > limit {
      TrimIsLongest(keys[1..], limit, s);
      var t := Trim(keys, limit);
      assert keys[|keys| - |t|..] == keys[1..][|keys[1..]| - |t|..];
      if SuffixOf(s, keys) && Bytes(s) <= limit {
        assert keys[0..] == keys;
        assert keys[|keys| - |s|..] == keys[1..][|keys[1..]| - |s|..];
      }
    }
  }

  lemma SuffixTransitive(a: seq<Key>, b: seq<Key>, c: seq<Key>)
    requires SuffixOf(a, b) && SuffixOf(b, c)
    ensures SuffixOf(a, c)
  {
    assert c[|c| - |a|..] == c[|c| - |b|..][|b| - |a|..];
  }

  lemma SuffixSnoc(a: seq<Key>, b: seq<Key>, k: Key)
    requires SuffixOf(a, b)
    ensures SuffixOf(a + [k], b + [k])
  {
    assert (b + [k])[|b| - |a|..] == b[|b| - |a|..] + [k];
  }

  lemma IndexOfUnique(keys: seq<Key>, k: Key, i: nat)
    requires NoDup(keys) && i < |keys| && keys[i] == k
    ensures k in keys && IndexOf(keys, k) == i
  {
  }

  lemma SuffixIndex(small: seq<Key>, large: seq<Key>, i: nat)
    requires SuffixOf(small, large) && i < |small|
    ensures large[|large| - |small| + i] == small[i]
  {
    assert large[|large| - |small|..][i] == large[|large| - |small| + i];
  }

  lemma RemoveLater(front: seq<Key>, s: seq<Key>, i: nat)
    requires i < |s|
    ensures SuffixOf(RemoveAt(s, i), RemoveAt(front + s, |front| + i))
  {
    assert RemoveAt(front + s, |front| + i) == front + RemoveAt(s, i);
  }

  lemma FrontOf(small: seq<Key>, large: seq<Key>)
    requires SuffixOf(small, large)
    ensures |small| <= |large| && large == large[..|large| - |small|] + small
  {
  }

  lemma InclusionBothHit(small: seq<Key>, large: seq<Key>, k: Key)
    requires NoDup(large) && SuffixOf(small, large) && k in small
    ensures k in large
    ensures SuffixOf(RemoveAt(small, IndexOf(small, k)), RemoveAt(large, IndexOf(large, k)))
  {
    hide NoDup, IndexOf, RemoveAt, SuffixOf;
    FrontOf(small, large);
    var p, i := |large| - |small|, IndexOf(small, k);
    SuffixIndex(small, large, i);
    IndexOfUnique(large, k, p + i);
    RemoveLater(large[..p], small, i);
  }

  lemma InclusionLargeHit(small: seq<Key>, large: seq<Key>, k: Key)
    requires SuffixOf(small, large) && k !in small && k in large
    ensures SuffixOf(small, RemoveAt(large, IndexOf(large, k)))
  {
    var p, i := |large| - |small|, IndexOf(large, k);
    forall j | p <= j < |large| ensures large[j] != k {
      SuffixIndex(small, large, j - p);
      assert small[j - p] in small;
    }
    assert RemoveAt(large, i)[p - 1..] == large[p..];
  }

  lemma InclusionMiss(small: seq<Key>, large: seq<Key>, b1: nat, b2: nat, k: Key)
    requires NoDup(large) && SuffixOf(small, large) && k.sliceBytes <= b1 <= b2 && k !in small
    ensures SuffixOf(LruStep(small, b1, k), LruStep(large, b2, k))
  {
    hide NoDup, IndexOf, RemoveAt, Bytes, Trim, SuffixOf;
    var s := Trim(small, b1 - k.sliceBytes);
    TrimIsLongest(small, b1 - k.sliceBytes, s);
    if k in large {
      InclusionLargeHit(small, large, k);
      var rest := RemoveAt(large, IndexOf(large, k));
      SuffixTransitive(s, small, rest);
      SuffixSnoc(s, rest, k);
    } else {
      SuffixTransitive(s, small, large);
      TrimIsLongest(large, b2 - k.sliceBytes, s);
      SuffixSnoc(s, Trim(large, b2 - k.sliceBytes), k);
    }
  }

  /** One request keeps the smaller budget's list a suffix of the larger one's. */
  lemma InclusionStep(small: seq<Key>, large: seq<Key>, b1: nat, b2: nat, k: Key)
    requires NoDup(large) && SuffixOf(small, large) && k.sliceBytes <= b1 <= b2
    ensures SuffixOf(LruStep(small, b1, k), LruStep(large, b2, k))
    ensures k in small ==> k in large
  {
    if k in small {
      InclusionBothHit(small, large, k);
      SuffixSnoc(RemoveAt(small, IndexOf(small, k)), RemoveAt(large, IndexOf(large, k)), k);
    } else {
      InclusionMiss(small, large, b1, b2, k);
    }
  }

  lemma LruStepNoDup(keys: seq<Key>, budget: nat, k: Key)
    requires NoDup(keys) && k.sliceBytes <= budget
    ensures NoDup(LruStep(keys, budget, k))
  {
    if k in keys {
      var i := IndexOf(keys, k);
      assert forall j :: 0 <= j < |keys| - 1 ==> RemoveAt(keys, i)[j] == keys[if j < i then j else j + 1];
    } else {
      var t := Trim(keys, budget - k.sliceBytes);
      TrimIsLongest(keys, budget - k.sliceBytes, t);
      var p := |keys| - |t|;
      forall j | 0 <= j < |t| ensures t[j] == keys[p + j] && t[j] != k {
        SuffixIndex(t, keys, j);
        assert keys[p + j] in keys;
      }
    }
  }

  /** A run of the reference: its list, and what it hit, loaded and read. */
  datatype Lru = Lru(keys: seq<Key>, hits: int, loads: int, bytesRead: int)

  function LruTouch(l: Lru, budget: nat, k: Key): Lru
    requires k.sliceBytes <= budget
  {
    var next := l.(keys := LruStep(l.keys, budget, k));
    if k in l.keys then next.(hits := l.hits + 1)
    else next.(loads := l.loads + 1, bytesRead := l.bytesRead + k.sliceBytes)
  }

  function LruRun(l: Lru, budget: nat, ks: seq<Key>): Lru
    requires forall k <- ks :: k.sliceBytes <= budget
    decreases |ks|
  {
    if ks == [] then l else LruRun(LruTouch(l, budget, ks[0]), budget, ks[1..])
  }

  lemma {:induction false} LruInclusion(l1: Lru, l2: Lru, b1: nat, b2: nat, ks: seq<Key>)
    requires (forall k <- ks :: k.sliceBytes <= b1) && b1 <= b2 && NoDup(l2.keys) && SuffixOf(l1.keys, l2.keys)
    ensures var e1 := LruRun(l1, b1, ks); var e2 := LruRun(l2, b2, ks);
            SuffixOf(e1.keys, e2.keys) && e2.hits - l2.hits >= e1.hits - l1.hits &&
            e2.loads - l2.loads <= e1.loads - l1.loads && e2.bytesRead - l2.bytesRead <= e1.bytesRead - l1.bytesRead
    decreases |ks|
  {
    if ks != [] {
      InclusionStep(l1.keys, l2.keys, b1, b2, ks[0]);
      LruStepNoDup(l2.keys, b2, ks[0]);
      LruInclusion(LruTouch(l1, b1, ks[0]), LruTouch(l2, b2, ks[0]), b1, b2, ks[1..]);
    }
  }

  // ----- the cache refines the reference -----

  function Keys(es: seq<Entry>): (ks: seq<Key>)
    ensures |ks| == |es| && forall i :: 0 <= i < |es| ==> ks[i] == es[i].key
  {
    seq(|es|, i requires 0 <= i < |es| => es[i].key)
  }

  /** Acquire, then release what was acquired. */
  function Touch(st: State, r: Request): (State, Outcome)
    requires Accounted(st)
  {
    var (after, outcome) := Acquire(st, r.key, r.cb);
    (if outcome.Borrowed? then Release(after, outcome.borrow) else after, outcome)
  }

  /** Between two operations of a sequential caller. */
  ghost predicate Idle(st: State) { Inv(st) && st.initialized && forall e <- st.entries :: e.pins == 0 }

  /** The callbacks behave: fresh blocks, and a complete read. */
  ghost predicate Serves(st: State, r: Request)
    requires Accounted(st)
  {
    CallbacksSound(st, r.key, r.cb) && r.cb.meta != 0 && r.cb.packed != 0 && r.cb.readOk &&
    r.cb.actual >= r.key.sliceBytes
  }

  /** A well-formed key no larger than the budget, answered by working callbacks. */
  ghost predicate Admissible(st: State, r: Request)
    requires Accounted(st)
  {
    Refusal(st, r.key) == None && r.key.sliceBytes <= st.budget && Serves(st, r)
  }

  /** The counters can take `n` more requests of `bytes` bytes altogether. */
  predicate HasRoom(c: Counters, n: nat, bytes: nat) {
    c.requests + n <= U64_MAX && c.bytesRead + bytes <= U64_MAX && c.bytesAvoided + bytes <= U64_MAX
  }

  lemma {:induction false} BytesIsTotal(es: seq<Entry>)
    ensures Bytes(Keys(es)) == Total(es)
  {
    if es != [] {
      assert Keys(es)[1..] == Keys(es[1..]);
      BytesIsTotal(es[1..]);
    }
  }

  /** With nothing pinned the victim is the least recently used entry. */
  lemma EvictFirst(st: State)
    requires Idle(st) && st.entries != []
    ensures FirstUnpinned(st.entries) == 0 && st.counters.evictions < U64_MAX
    ensures st.counters.resident >= st.entries[0].key.sliceBytes
    ensures var next := EvictAt(st, 0);
            Idle(next) && next.budget == st.budget && |next.entries| < |st.entries| &&
            Keys(next.entries) == Keys(st.entries)[1..]
  {
    EvictionGuardIsDead(st);
    EvictKeeps(st, 0);
    hide Inv, Total;
    assert st.entries[0] in st.entries;
    assert RemoveAt(st.entries, 0) == st.entries[1..];
  }

  lemma ResidentBytes(st: State)
    requires Idle(st)
    ensures Accounted(st) && st.counters.resident == Bytes(Keys(st.entries))
    ensures (st.entries == [] ==> st.counters.resident == 0)
  {
    InvDistinct(st);
    BytesIsTotal(st.entries);
  }

  lemma {:induction false} MakeRoomTrims(st: State, size: nat)
    requires Idle(st) && size <= st.budget
    ensures Accounted(st)
    ensures var (room, error) := MakeRoom(st, size);
            error == None && Idle(room) && Keys(room.entries) == Trim(Keys(st.entries), st.budget - size)
    decreases |st.entries|
  {
    hide Idle, Accounted, Keys, Bytes, EvictAt, FirstUnpinned;
    ResidentBytes(st);
    if st.counters.resident > st.budget - size {
      EvictFirst(st);
      MakeRoomTrims(EvictAt(st, 0), size);
    }
  }

  lemma ReleaseLast(st: State, rest: seq<Entry>, e: Entry, b: Borrow)
    requires st.entries == rest + [e] && st.initialized && b.owned && b.entry == e.addr != 0 && e.pins == 1
    requires forall f <- rest :: f.addr != e.addr
    ensures Release(st, b) == st.(entries := rest + [e.(pins := 0)])
  {
    assert st.entries[|rest|] == e;
    forall j | 0 <= j < |rest| ensures st.entries[j].addr != e.addr { assert rest[j] in rest; }
    assert FindAddr(st.entries, b.entry) == |rest|;
    assert st.entries[|rest| := e.(pins := 0)] == rest + [e.(pins := 0)];
  }

  lemma FindIsMembership(es: seq<Entry>, key: Key)
    requires Distinct(es) && key.reserved == 0
    ensures Find(es, key) < |es| <==> key in Keys(es)
    ensures Find(es, key) < |es| ==> es[Find(es, key)].key == key && IndexOf(Keys(es), key) == Find(es, key)
    ensures NoDup(Keys(es))
  {
    var i := Find(es, key);
    forall a, b | 0 <= a < b < |es| ensures Keys(es)[a] != Keys(es)[b] { assert Separate(es[a], es[b]); }
    if i < |es| {
      assert es[i] in es && Sound(es[i]);
      assert es[i].key == key;
      IndexOfUnique(Keys(es), key, i);
    } else {
      forall j | 0 <= j < |es| ensures Keys(es)[j] != key { assert !KeyEqual(es[j].key, key); }
    }
  }

  /** A resident entry that is found, pinned, released: it ends up last, as it was. */
  lemma HitAndRelease(st: State, r: Request, i: nat)
    requires Accounted(st) && Refusal(st, r.key) == None && HasRoom(st.counters, 1, r.key.sliceBytes)
    requires i == Find(st.entries, r.key) < |st.entries| && st.counters.hits <= st.counters.requests
    requires st.entries[i].key == r.key && st.entries[i].pins == 0 && st.entries[i].addr != 0
    requires forall f <- RemoveAt(st.entries, i) :: f.addr != st.entries[i].addr
    ensures var e := st.entries[i]; var c := st.counters; var (hit, outcome) := Hit(st, i);
            outcome == Borrowed(Borrow(e.data, e.key.sliceBytes, e.addr, true)) &&
            Touch(st, r) == (Release(hit, outcome.borrow), outcome) &&
            Release(hit, outcome.borrow) ==
              st.(entries := RemoveAt(st.entries, i) + [e],
                  counters := c.(requests := c.requests + 1, hits := c.hits + 1,
                                 bytesAvoided := c.bytesAvoided + r.key.sliceBytes))
  {
    hide RemoveAt, Find, Release, Total, Refusal;
    var e := st.entries[i];
    var (hit, outcome) := Hit(st, i);
    RefusedUninitialized(st, r.key);
    ReleaseLast(hit, RemoveAt(st.entries, i), e.(pins := 1), outcome.borrow);
    assert e.(pins := 1).(pins := 0) == e;
  }

  lemma RefusedUninitialized(st: State, key: Key)
    requires Refusal(st, key) == None
    ensures st.initialized && key.reserved == 0 && key.sliceBytes > 0
  {
  }

  lemma KeysMoved(es: seq<Entry>, i: nat)
    requires i < |es|
    ensures Keys(RemoveAt(es, i) + [es[i]]) == RemoveAt(Keys(es), i) + [es[i].key]
  {
  }

  /** Moving an entry to the end keeps every entry unpinned. */
  lemma MovedUnpinned(es: seq<Entry>, i: nat)
    requires i < |es| && forall e <- es :: e.pins == 0
    ensures forall e <- RemoveAt(es, i) + [es[i]] :: e.pins == 0
  {
    forall e | e in RemoveAt(es, i) ensures e.pins == 0 { RemoveAtMember(es, i, e); }
  }

  /** What the invariant says of one resident entry and the others. */
  lemma ResidentFacts(st: State, i: nat)
    requires Inv(st) && i < |st.entries|
    ensures Accounted(st) && st.counters.hits <= st.counters.requests && Distinct(st.entries) && st.entries[i].addr != 0
    ensures forall f <- RemoveAt(st.entries, i) :: f.addr != st.entries[i].addr
  {
    assert st.entries[i] in st.entries && Sound(st.entries[i]);
    RemoveAtDistinct(st.entries, i);
    forall f | f in RemoveAt(st.entries, i) ensures f.addr != st.entries[i].addr { assert Separate(f, st.entries[i]); }
  }

  lemma TouchHit(st: State, r: Request)
    requires Idle(st) && Refusal(st, r.key) == None && HasRoom(st.counters, 1, r.key.sliceBytes)
    requires r.key in Keys(st.entries)
    ensures var (after, outcome) := Touch(st, r); var c := st.counters;
            outcome.Borrowed? && Idle(after) && after.budget == st.budget &&
            Keys(after.entries) == RemoveAt(Keys(st.entries), IndexOf(Keys(st.entries), r.key)) + [r.key] &&
            after.counters == c.(requests := c.requests + 1, hits := c.hits + 1,
                                   bytesAvoided := c.bytesAvoided + r.key.sliceBytes)
  {
    hide Inv, Keys, RemoveAt, IndexOf, Find, Hit, Release, Touch, Refusal, Distinct, HasRoom, Total;
    RefusedUninitialized(st, r.key);
    InvDistinct(st);
    FindIsMembership(st.entries, r.key);
    var i := Find(st.entries, r.key);
    ResidentFacts(st, i);
    HitAndRelease(st, r, i);
    HitKeeps(st, i);
    ReleaseKeeps(Hit(st, i).0, Hit(st, i).1.borrow);
    KeysMoved(st.entries, i);
    MovedUnpinned(st.entries, i);
  }

  /** An undisturbed admission and its release append the key, unpinned. */
  lemma AdmitSucceeds(room: State, r: Request)
    requires Idle(room) && r.cb.meta != 0 && r.cb.packed != 0 && r.cb.readOk && r.cb.actual >= r.key.sliceBytes
    requires Find(room.entries, r.key) == |room.entries| && r.key.reserved == 0 && r.key.sliceBytes > 0
    requires room.counters.resident + r.key.sliceBytes <= room.budget && room.counters.loads < room.counters.misses
    requires FreshBlocks(room.blocks, r.key, r.cb)
    requires room.counters.bytesRead + r.key.sliceBytes <= U64_MAX && room.counters.loads < U64_MAX
    ensures var (after, outcome) := Admit(room, r.key, r.cb); var c := room.counters;
            outcome == Borrowed(Borrow(r.cb.packed, r.key.sliceBytes, r.cb.meta, true)) &&
            after.counters == CountLoad(c.(bytesRead := c.bytesRead + r.key.sliceBytes), r.key.sliceBytes) &&
            after.budget == room.budget &&
            Release(after, outcome.borrow) ==
              after.(entries := room.entries + [Entry(r.cb.meta, r.key, r.cb.packed, 0)]) &&
            Idle(Release(after, outcome.borrow))
  {
    var (after, outcome) := Admit(room, r.key, r.cb);
    var e := Entry(r.cb.meta, r.key, r.cb.packed, 1);
    forall f | f in room.entries ensures f.addr != e.addr { OwnsEntry(room.entries, room.blocks, f); }
    ReleaseLast(after, room.entries, e, outcome.borrow);
    AdmitKeeps(room, r.key, r.cb);
    ReleaseKeeps(after, outcome.borrow);
  }

  /** A missing key that working callbacks answer: one more request and miss are
      counted, room is made, and the loaded entry is appended. */
  lemma MissAndRelease(st: State, r: Request)
    requires Idle(st) && Admissible(st, r) && HasRoom(st.counters, 1, r.key.sliceBytes)
    requires Find(st.entries, r.key) == |st.entries|
    ensures var counted := CountMiss(st);
            Idle(counted) && r.key.sliceBytes <= st.budget && Accounted(counted) &&
            var (room, error) := MakeRoom(counted, r.key.sliceBytes);
            error == None && Idle(room) && room.budget == st.budget &&
            FreshBlocks(room.blocks, r.key, r.cb) && Find(room.entries, r.key) == |room.entries| &&
            room.counters.resident + r.key.sliceBytes <= room.budget && room.counters.loads < room.counters.misses &&
            room.counters == counted.counters.(resident := room.counters.resident,
                                               evictions := room.counters.evictions) &&
            Acquire(st, r.key, r.cb) == Admit(room, r.key, r.cb)
    ensures r.cb.meta != 0 && r.cb.packed != 0 && r.cb.readOk && r.cb.actual >= r.key.sliceBytes
    ensures st.counters.loads <= st.counters.misses < U64_MAX && st.counters.bytesRead + r.key.sliceBytes <= U64_MAX
  {
    hide MakeRoom, Admit, Trim, Keys, Total, Owns;
    var counted := CountMiss(st);
    MakeRoomTrims(counted, r.key.sliceBytes);
    MakeRoomKeeps(counted, r.key.sliceBytes);
    MakeRoomFrame(counted, r.key.sliceBytes);
    MakeRoomStillMisses(counted, r.key);
  }

  lemma KeysAppend(es: seq<Entry>, e: Entry)
    ensures Keys(es + [e]) == Keys(es) + [e.key]
  {
  }

  lemma TouchMiss(st: State, r: Request)
    requires Idle(st) && Admissible(st, r) && HasRoom(st.counters, 1, r.key.sliceBytes)
    requires r.key !in Keys(st.entries)
    ensures var (after, outcome) := Touch(st, r); var c := st.counters;
            outcome.Borrowed? && Idle(after) && after.budget == st.budget &&
            Keys(after.entries) == Trim(Keys(st.entries), st.budget - r.key.sliceBytes) + [r.key] &&
            after.counters.requests == c.requests + 1 && after.counters.misses == c.misses + 1 &&
            after.counters.loads == c.loads + 1 && after.counters.hits == c.hits &&
            after.counters.bytesRead == c.bytesRead + r.key.sliceBytes && after.counters.bytesAvoided == c.bytesAvoided
  {
    InvDistinct(st);
    RefusedUninitialized(st, r.key);
    FindIsMembership(st.entries, r.key);
    hide Idle, Inv, MakeRoom, Admit, Release, Trim, Keys, Refusal, Find, FreshBlocks, Admissible, Acquire;
    hide Accounted, HasRoom;
    MissAndRelease(st, r);
    var counted := CountMiss(st);
    MakeRoomTrims(counted, r.key.sliceBytes);
    var room := MakeRoom(counted, r.key.sliceBytes).0;
    AdmitSucceeds(room, r);
    KeysAppend(room.entries, Entry(r.cb.meta, r.key, r.cb.packed, 0));
  }

  /** What one undisturbed request does: the key list takes one LRU step, and
      exactly the counters of a hit or of a load move. */
  lemma TouchRefinesLru(st: State, r: Request)
    requires Idle(st) && Admissible(st, r) && HasRoom(st.counters, 1, r.key.sliceBytes)
    ensures var (after, outcome) := Touch(st, r); var c := st.counters; var hit := r.key in Keys(st.entries);
            outcome.Borrowed? && Idle(after) && after.budget == st.budget &&
            Keys(after.entries) == LruStep(Keys(st.entries), st.budget, r.key) &&
            after.counters.requests == c.requests + 1 &&
            after.counters.hits == c.hits + (if hit then 1 else 0) &&
            after.counters.misses == c.misses + (if hit then 0 else 1) &&
            after.counters.loads == c.loads + (if hit then 0 else 1) &&
            after.counters.bytesRead == c.bytesRead + (if hit then 0 else r.key.sliceBytes) &&
            after.counters.bytesAvoided == c.bytesAvoided + (if hit then r.key.sliceBytes else 0)
  {
    if r.key in Keys(st.entries) { TouchHit(st, r); } else { TouchMiss(st, r); }
  }

  // ----- traces -----

  function TraceBytes(trace: seq<Request>): nat {
    if trace == [] then 0 else trace[0].key.sliceBytes + TraceBytes(trace[1..])
  }

  /** Every request finds working callbacks. */
  ghost predicate Smooth(st: State, trace: seq<Request>)
    requires Idle(st) && HasRoom(st.counters, |trace|, TraceBytes(trace))
    decreases |trace|
  {
    trace == [] ||
    (Admissible(st, trace[0]) && (TouchRefinesLru(st, trace[0]); Smooth(Touch(st, trace[0]).0, trace[1..])))
  }

  ghost function Play(st: State, trace: seq<Request>): (after: State)
    requires Idle(st) && HasRoom(st.counters, |trace|, TraceBytes(trace)) && Smooth(st, trace)
    ensures Idle(after) && after.budget == st.budget
    decreases |trace|
  {
    if trace == [] then st else
      TouchRefinesLru(st, trace[0]);
      Play(Touch(st, trace[0]).0, trace[1..])
  }

  function TraceKeys(trace: seq<Request>): (ks: seq<Key>)
    ensures |ks| == |trace| && forall i :: 0 <= i < |trace| ==> ks[i] == trace[i].key
  {
    seq(|trace|, i requires 0 <= i < |trace| => trace[i].key)
  }

  function Summary(st: State): Lru {
    Lru(Keys(st.entries), st.counters.hits, st.counters.loads, st.counters.bytesRead)
  }

  lemma PlayStep(st: State, trace: seq<Request>)
    requires Idle(st) && HasRoom(st.counters, |trace|, TraceBytes(trace)) && Smooth(st, trace) && trace != []
    ensures Admissible(st, trace[0])
    ensures var next := Touch(st, trace[0]).0;
            Idle(next) && HasRoom(next.counters, |trace| - 1, TraceBytes(trace[1..])) && Smooth(next, trace[1..]) &&
            next.budget == st.budget && next.counters.requests == st.counters.requests + 1 &&
            Play(st, trace) == Play(next, trace[1..])
    ensures Summary(Touch(st, trace[0]).0) == LruTouch(Summary(st), st.budget, trace[0].key)
  {
    hide Inv, Admissible, Touch, Keys, LruStep, Accounted;
    TouchRefinesLru(st, trace[0]);
  }

  /** The whole cache refines the reference: after any undisturbed trace its list,
      hits, loads and bytes read are those of the plain LRU list of keys. */
  lemma {:induction false} PlayRefinesLru(st: State, trace: seq<Request>)
    requires Idle(st) && HasRoom(st.counters, |trace|, TraceBytes(trace)) && Smooth(st, trace)
    ensures forall k <- TraceKeys(trace) :: k.sliceBytes <= st.budget
    ensures Summary(Play(st, trace)) == LruRun(Summary(st), st.budget, TraceKeys(trace))
    ensures Play(st, trace).counters.requests == st.counters.requests + |trace|
    decreases |trace|
  {
    if trace != [] {
      PlayStep(st, trace);
      PlayRefinesLru(Touch(st, trace[0]).0, trace[1..]);
      var ks := TraceKeys(trace);
      assert ks[1..] == TraceKeys(trace[1..]);
      assert forall k <- ks :: k == ks[0] || k in ks[1..];
    }
  }

  /** LRU inclusion: run the same keys through two caches, the second with at
      least the budget of the first. If the first list starts as the recent end
      of the second it ends so, and over the trace the larger cache has at least
      as many hits, at most as many loads, and reads at most as many bytes. */
  lemma LargerBudgetIncludesSmaller(s1: State, s2: State, t1: seq<Request>, t2: seq<Request>)
    requires Idle(s1) && HasRoom(s1.counters, |t1|, TraceBytes(t1)) && Smooth(s1, t1)
    requires Idle(s2) && HasRoom(s2.counters, |t2|, TraceBytes(t2)) && Smooth(s2, t2)
    requires TraceKeys(t1) == TraceKeys(t2)
    requires s1.budget <= s2.budget && SuffixOf(Keys(s1.entries), Keys(s2.entries))
    ensures var e1 := Play(s1, t1); var e2 := Play(s2, t2);
            SuffixOf(Keys(e1.entries), Keys(e2.entries)) &&
            e2.counters.hits - s2.counters.hits >= e1.counters.hits - s1.counters.hits &&
            e2.counters.loads - s2.counters.loads <= e1.counters.loads - s1.counters.loads &&
            e2.counters.bytesRead - s2.counters.bytesRead <= e1.counters.bytesRead - s1.counters.bytesRead
  {
    PlayRefinesLru(s1, t1);
    PlayRefinesLru(s2, t2);
    FindIsMembership(s2.entries, Key(0, 0, 0, 0, 0));
    LruInclusion(Summary(s1), Summary(s2), s1.budget, s2.budget, TraceKeys(t1));
  }

  // ----- a working set that fits -----

  lemma {:induction false} BytesRemoveAt(keys: seq<Key>, i: nat)
    requires i < |keys|
    ensures Bytes(keys) == Bytes(RemoveAt(keys, i)) + keys[i].sliceBytes
    decreases i
  {
    if i == 0 {
      assert RemoveAt(keys, 0) == keys[1..];
    } else {
      BytesRemoveAt(keys[1..], i - 1);
      assert RemoveAt(keys, i)[0] == keys[0];
      assert RemoveAt(keys, i)[1..] == RemoveAt(keys[1..], i - 1);
    }
  }

  lemma {:induction false} BytesOfSubset(keys: seq<Key>, all: seq<Key>)
    requires NoDup(keys) && forall k <- keys :: k in all
    ensures Bytes(keys) <= Bytes(all)
    decreases |keys|
  {
    if keys != [] {
      var i := IndexOf(all, keys[0]);
      BytesRemoveAt(all, i);
      forall k | k in keys[1..] ensures k in RemoveAt(all, i) { RemoveAtMember(all, i, k); }
      BytesOfSubset(keys[1..], RemoveAt(all, i));
    }
  }

  /** A request inside the working set leaves every held key where it can be found. */
  lemma StepWithin(keys: seq<Key>, budget: nat, k: Key, ws: seq<Key>)
    requires NoDup(keys) && k.sliceBytes <= budget && Bytes(ws) <= budget && k in ws && forall x <- keys :: x in ws
    ensures var next := LruStep(keys, budget, k);
            |next| == |keys| + (if k in keys then 0 else 1) && forall x :: x in next <==> x in keys || x == k
  {
    if k in keys {
      forall x | x != k ensures x in RemoveAt(keys, IndexOf(keys, k)) <==> x in keys {
        RemoveAtMember(keys, IndexOf(keys, k), x);
      }
    } else {
      BytesOfSubset([k] + keys, ws);
      assert ([k] + keys)[1..] == keys;
    }
  }

  lemma {:induction false} LruWithin(l: Lru, budget: nat, ks: seq<Key>, ws: seq<Key>)
    requires NoDup(l.keys) && (forall k <- ks :: k.sliceBytes <= budget) && Bytes(ws) <= budget
    requires (forall k <- ks :: k in ws) && forall k <- l.keys :: k in ws
    ensures var e := LruRun(l, budget, ks);
            e.loads - l.loads == |e.keys| - |l.keys| && NoDup(e.keys) &&
            forall x :: x in e.keys <==> x in l.keys || x in ks
    decreases |ks|
  {
    if ks != [] {
      StepWithin(l.keys, budget, ks[0], ws);
      LruStepNoDup(l.keys, budget, ks[0]);
      LruWithin(LruTouch(l, budget, ks[0]), budget, ks[1..], ws);
      assert forall x :: x in ks <==> x == ks[0] || x in ks[1..];
    }
  }

  function KeysIn(keys: seq<Key>): set<Key> { set k <- keys }

  lemma {:induction false} NoDupSize(keys: seq<Key>)
    requires NoDup(keys)
    ensures |KeysIn(keys)| == |keys|
  {
    if keys != [] {
      NoDupSize(keys[1..]);
      assert KeysIn(keys) == {keys[0]} + KeysIn(keys[1..]);
    }
  }

  /** Working set fits: start empty; when every key of the trace lies in a list
      of at most `budget` bytes, nothing is ever evicted and misses and loads both
      number the distinct keys. */
  lemma WorkingSetIsReadOnce(st: State, trace: seq<Request>, ws: seq<Key>)
    requires Idle(st) && HasRoom(st.counters, |trace|, TraceBytes(trace)) && Smooth(st, trace)
    requires st.entries == [] && Bytes(ws) <= st.budget && forall k <- TraceKeys(trace) :: k in ws
    ensures var after := Play(st, trace).counters; var distinct := |KeysIn(TraceKeys(trace))|;
            after.evictions == st.counters.evictions &&
            after.loads - st.counters.loads == distinct && after.misses - st.counters.misses == distinct
  {
    var ks := TraceKeys(trace);
    var end := Play(st, trace);
    PlayRefinesLru(st, trace);
    LruWithin(Summary(st), st.budget, ks, ws);
    NoDupSize(Keys(end.entries));
    assert KeysIn(Keys(end.entries)) == KeysIn(ks);
    LruCountsRequests(Summary(st), st.budget, ks);
  }

  /** Every request of the reference is a hit or a load. */
  lemma {:induction false} LruCountsRequests(l: Lru, budget: nat, ks: seq<Key>)
    requires forall k <- ks :: k.sliceBytes <= budget
    ensures var e := LruRun(l, budget, ks); e.hits + e.loads == l.hits + l.loads + |ks|
    decreases |ks|
  {
    if ks != [] { LruCountsRequests(LruTouch(l, budget, ks[0]), budget, ks[1..]); }
  }
}
