/** Whole runs of one cache: callers acquire and release in any order, callbacks
    fail at will, several borrows may be outstanding. Every theorem here is about
    every reachable state. */
module ExpertCacheRuns {
  import opened Words
  import opened ExpertCacheSpec
  import opened ExpertCacheInvariant

  /** An outstanding borrow and the key it was acquired with. */
  datatype Held = Held(borrow: Borrow, key: Key)

  datatype World = World(st: State, held: seq<Held>)

  datatype Event = AcquireEvent(key: Key, cb: Callbacks) | ReleaseEvent(which: nat)

  // ----- the source file -----

  predicate InSource(source: seq<Byte>, key: Key) {
    key.tensorOffset + key.sliceOffset + key.sliceBytes <= |source|
  }

  function Slice(source: seq<Byte>, key: Key): seq<Byte>
    requires InSource(source, key)
  {
    var start := key.tensorOffset + key.sliceOffset;
    source[start..start + key.sliceBytes]
  }

  /** The reader's contract: a read it reports as complete delivered the file's bytes. */
  ghost predicate Honest(source: seq<Byte>, key: Key, cb: Callbacks) {
    cb.readOk && cb.actual >= key.sliceBytes ==> InSource(source, key) && cb.bytes == Slice(source, key)
  }

  ghost predicate Legal(source: seq<Byte>, w: World, ev: Event)
    requires Accounted(w.st)
  {
    match ev
    case AcquireEvent(key, cb) => CallbacksSound(w.st, key, cb) && Honest(source, key, cb)
    case ReleaseEvent(which) => which < |w.held|
  }

  ghost function Step(w: World, ev: Event): World
    requires Accounted(w.st)
  {
    match ev
    case AcquireEvent(key, cb) =>
      var (st, outcome) := Acquire(w.st, key, cb);
      World(st, if outcome.Borrowed? then w.held + [Held(outcome.borrow, key)] else w.held)
    case ReleaseEvent(which) =>
      if which < |w.held| then World(Release(w.st, w.held[which].borrow), RemoveAt(w.held, which)) else w
  }

  // ----- the invariant of a world -----

  function Pins(held: seq<Held>, a: Addr): nat {
    if held == [] then 0 else (if held[0].borrow.entry == a then 1 else 0) + Pins(held[1..], a)
  }

  function PinSum(es: seq<Entry>): nat {
    if es == [] then 0 else es[0].pins + PinSum(es[1..])
  }

  /** The borrow points into the resident entry of its key. */
  ghost predicate PointsAt(h: Held, e: Entry) {
    h.borrow == Borrow(e.data, e.key.sliceBytes, e.addr, true) && e.key == h.key
  }

  ghost predicate Resident(h: Held, es: seq<Entry>) { exists e :: e in es && PointsAt(h, e) }

  ghost predicate Faithful(source: seq<Byte>, e: Entry, blocks: map<Addr, seq<Byte>>) {
    e.data in blocks && InSource(source, e.key) && blocks[e.data] == Slice(source, e.key)
  }

  ghost predicate Matched(es: seq<Entry>, held: seq<Held>) {
    (forall e <- es :: e.pins == Pins(held, e.addr)) && (forall h <- held :: Resident(h, es)) && PinSum(es) == |held|
  }

  ghost predicate WorldInv(source: seq<Byte>, w: World) {
    Inv(w.st) && w.st.initialized && Matched(w.st.entries, w.held) &&
    forall e <- w.st.entries :: Faithful(source, e, w.st.blocks)
  }

  // ----- counting lemmas -----

  lemma {:induction false} PinsAppend(held: seq<Held>, h: Held, a: Addr)
    ensures Pins(held + [h], a) == Pins(held, a) + if h.borrow.entry == a then 1 else 0
  {
    if held == [] {
      assert held + [h] == [h];
    } else {
      assert (held + [h])[1..] == held[1..] + [h];
      PinsAppend(held[1..], h, a);
    }
  }

  lemma {:induction false} PinsRemoveAt(held: seq<Held>, i: nat, a: Addr)
    requires i < |held|
    ensures Pins(held, a) == Pins(RemoveAt(held, i), a) + if held[i].borrow.entry == a then 1 else 0
    decreases i
  {
    if i == 0 {
      assert RemoveAt(held, 0) == held[1..];
    } else {
      PinsRemoveAt(held[1..], i - 1, a);
      assert RemoveAt(held, i)[0] == held[0];
      assert RemoveAt(held, i)[1..] == RemoveAt(held[1..], i - 1);
    }
  }

  lemma {:induction false} PinSumAppend(a: seq<Entry>, b: seq<Entry>)
    ensures PinSum(a + b) == PinSum(a) + PinSum(b)
  {
    if a == [] {
      assert a + b == b;
    } else {
      assert (a + b)[1..] == a[1..] + b;
      PinSumAppend(a[1..], b);
    }
  }

  lemma {:induction false} PinSumRemoveAt(es: seq<Entry>, i: nat)
    requires i < |es|
    ensures PinSum(es) == PinSum(RemoveAt(es, i)) + es[i].pins
    decreases i
  {
    if i == 0 {
      assert RemoveAt(es, 0) == es[1..];
    } else {
      PinSumRemoveAt(es[1..], i - 1);
      assert RemoveAt(es, i)[0] == es[0];
      assert RemoveAt(es, i)[1..] == RemoveAt(es[1..], i - 1);
    }
  }

  /** An unpinned entry has no borrow pointing at it. */
  lemma {:induction false} UnpinnedIsFree(held: seq<Held>, h: Held)
    requires h in held
    ensures Pins(held, h.borrow.entry) > 0
  {
    if h != held[0] { UnpinnedIsFree(held[1..], h); }
  }

  lemma {:induction false} NotPinned(held: seq<Held>, es: seq<Entry>, a: Addr)
    requires (forall h <- held :: Resident(h, es)) && forall e <- es :: e.addr != a
    ensures Pins(held, a) == 0
  {
    if held != [] {
      assert held[0] in held;
      NotPinned(held[1..], es, a);
    }
  }

  // ----- steps -----

  lemma EvictStep(source: seq<Byte>, w: World, i: nat)
    requires WorldInv(source, w) && i < |w.st.entries| && w.st.entries[i].pins == 0
    ensures w.st.counters.resident >= w.st.entries[i].key.sliceBytes
    ensures WorldInv(source, World(EvictAt(w.st, i), w.held))
  {
    var es := w.st.entries;
    EvictKeeps(w.st, i);
    RemoveAtDistinct(es, i);
    PinSumRemoveAt(es, i);
    var r := EvictAt(w.st, i);
    assert es[i] in es;
    forall h | h in w.held ensures Resident(h, r.entries) {
      assert Resident(h, es);
      var e :| e in es && PointsAt(h, e);
      UnpinnedIsFree(w.held, h);
      RemoveAtMember(es, i, e);
    }
    forall e | e in r.entries ensures Faithful(source, e, r.blocks) {
      assert e in es && Separate(e, es[i]) && Faithful(source, e, w.st.blocks);
    }
  }

  lemma {:induction false} MakeRoomStep(source: seq<Byte>, w: World, size: nat)
    requires WorldInv(source, w) && size <= w.st.budget
    ensures WorldInv(source, World(MakeRoom(w.st, size).0, w.held))
    decreases |w.st.entries|
  {
    var v := FirstUnpinned(w.st.entries);
    if w.st.counters.resident > w.st.budget - size && v < |w.st.entries| {
      EvictStep(source, w, v);
      MakeRoomStep(source, World(EvictAt(w.st, v), w.held), size);
    }
  }

  lemma HitMatched(es: seq<Entry>, i: nat, held: seq<Held>, key: Key)
    requires Distinct(es) && Matched(es, held) && i < |es| && es[i].key == key
    ensures var e := es[i];
            Matched(RemoveAt(es, i) + [e.(pins := e.pins + 1)],
                    held + [Held(Borrow(e.data, key.sliceBytes, e.addr, true), key)])
  {
    var e := es[i];
    var pinned := e.(pins := e.pins + 1);
    var rest := RemoveAt(es, i);
    var h := Held(Borrow(e.data, key.sliceBytes, e.addr, true), key);
    RemoveAtDistinct(es, i);
    PinSumRemoveAt(es, i);
    PinSumAppend(rest, [pinned]);
    assert e in es && pinned in rest + [pinned];
    PinsAppend(held, h, e.addr);
    forall f | f in rest + [pinned] ensures f.pins == Pins(held + [h], f.addr) {
      if f in rest { PinsAppend(held, h, f.addr); }
    }
    forall g | g in held + [h] ensures Resident(g, rest + [pinned]) {
      if g == h {
        assert PointsAt(h, pinned);
      } else {
        assert Resident(g, es);
        var f :| f in es && PointsAt(g, f);
        RemoveAtMember(es, i, f);
        assert f in rest + [pinned];
      }
    }
  }

  lemma HitStep(source: seq<Byte>, w: World, i: nat, key: Key)
    requires WorldInv(source, w) && i < |w.st.entries| && w.st.entries[i].key == key
    ensures var (st, outcome) := Hit(w.st, i);
            WorldInv(source, World(st, if outcome.Borrowed? then w.held + [Held(outcome.borrow, key)] else w.held))
  {
    HitKeeps(w.st, i);
    HitMatched(w.st.entries, i, w.held, key);
    var (st, outcome) := Hit(w.st, i);
    assert w.st.entries[i] in w.st.entries;
    if outcome.Borrowed? {
      forall f | f in st.entries ensures Faithful(source, f, st.blocks) {
        if f in RemoveAt(w.st.entries, i) { RemoveAtMember(w.st.entries, i, f); }
      }
    }
  }

  lemma AdmitMatched(es: seq<Entry>, held: seq<Held>, e: Entry)
    requires Matched(es, held) && e.pins == 1 && forall f <- es :: f.addr != e.addr
    ensures Matched(es + [e], held + [Held(Borrow(e.data, e.key.sliceBytes, e.addr, true), e.key)])
  {
    var h := Held(Borrow(e.data, e.key.sliceBytes, e.addr, true), e.key);
    PinSumAppend(es, [e]);
    NotPinned(held, es, e.addr);
    assert e in es + [e];
    forall f | f in es + [e] ensures f.pins == Pins(held + [h], f.addr) { PinsAppend(held, h, f.addr); }
    forall g | g in held + [h] ensures Resident(g, es + [e]) {
      if g == h { assert PointsAt(h, e); } else {
        assert Resident(g, es);
        var f :| f in es && PointsAt(g, f);
        assert f in es + [e];
      }
    }
  }

  lemma AdmitStep(source: seq<Byte>, w: World, key: Key, cb: Callbacks)
    requires WorldInv(source, w) && Find(w.st.entries, key) == |w.st.entries|
    requires key.reserved == 0 && 0 < key.sliceBytes && w.st.counters.resident + key.sliceBytes <= w.st.budget
    requires w.st.counters.loads < w.st.counters.misses
    requires FreshBlocks(w.st.blocks, key, cb) && Honest(source, key, cb)
    ensures var (st, outcome) := Admit(w.st, key, cb);
            WorldInv(source, World(st, if outcome.Borrowed? then w.held + [Held(outcome.borrow, key)] else w.held))
  {
    AdmitKeeps(w.st, key, cb);
    var (st, outcome) := Admit(w.st, key, cb);
    if outcome.Borrowed? {
      var e := Entry(cb.meta, key, cb.packed, 1);
      forall f | f in w.st.entries ensures f.addr in w.st.blocks && f.data in w.st.blocks {
        OwnsEntry(w.st.entries, w.st.blocks, f);
      }
      AdmitMatched(w.st.entries, w.held, e);
      forall f | f in st.entries ensures Faithful(source, f, st.blocks) {
        assert f == e || Faithful(source, f, w.st.blocks);
      }
    }
  }

  lemma AcquireStep(source: seq<Byte>, w: World, key: Key, cb: Callbacks)
    requires WorldInv(source, w) && Legal(source, w, AcquireEvent(key, cb))
    ensures WorldInv(source, Step(w, AcquireEvent(key, cb)))
  {
    if Refusal(w.st, key) == None {
      var i := Find(w.st.entries, key);
      if i < |w.st.entries| {
        assert w.st.entries[i] in w.st.entries && Sound(w.st.entries[i]);
        HitStep(source, w, i, key);
      } else if Misses(w.st, key) {
        var counted := World(CountMiss(w.st), w.held);
        assert WorldInv(source, counted);
        MakeRoomKeeps(counted.st, key.sliceBytes);
        MakeRoomFrame(counted.st, key.sliceBytes);
        MakeRoomStillMisses(counted.st, key);
        MakeRoomStep(source, counted, key.sliceBytes);
        var (room, error) := MakeRoom(counted.st, key.sliceBytes);
        if error == None { AdmitStep(source, World(room, w.held), key, cb); }
      } else if w.st.counters.requests < U64_MAX && w.st.counters.misses < U64_MAX {
        assert WorldInv(source, World(CountMiss(w.st), w.held));
      }
    }
  }

  lemma ReleaseMatched(es: seq<Entry>, held: seq<Held>, which: nat, i: nat)
    requires Distinct(es) && Matched(es, held) && which < |held| && i < |es| && es[i].addr == held[which].borrow.entry
    requires es[i].pins > 0
    ensures Matched(es[i := es[i].(pins := es[i].pins - 1)], RemoveAt(held, which))
  {
    var e := es[i];
    var less := e.(pins := e.pins - 1);
    var after, left := es[i := less], RemoveAt(held, which);
    PinSumRemoveAt(es, i);
    PinSumRemoveAt(after, i);
    assert RemoveAt(after, i) == RemoveAt(es, i);
    assert e in es;
    forall f | f in after ensures f.pins == Pins(left, f.addr) {
      var j :| 0 <= j < |after| && after[j] == f;
      PinsRemoveAt(held, which, f.addr);
      assert es[j] in es;
      if j < i { assert Separate(es[j], es[i]); } else if i < j { assert Separate(es[i], es[j]); }
    }
    forall h | h in left ensures Resident(h, after) {
      RemoveAtMember(held, which, h);
      assert Resident(h, es);
      var f :| f in es && PointsAt(h, f);
      var j :| 0 <= j < |es| && es[j] == f;
      assert after[j] in after && PointsAt(h, after[j]);
    }
  }

  /** Where a borrow's entry is. */
  lemma HeldEntry(source: seq<Byte>, w: World, which: nat) returns (i: nat)
    requires WorldInv(source, w) && which < |w.held|
    ensures var b := w.held[which].borrow;
            b.owned && b.entry != 0 && i == FindAddr(w.st.entries, b.entry) < |w.st.entries| && w.st.entries[i].pins > 0
  {
    hide Faithful, Owns, Ledger;
    var h := w.held[which];
    var es := w.st.entries;
    assert h in w.held && Resident(h, es);
    var e :| e in es && PointsAt(h, e);
    assert Sound(e);
    i := FindAddr(es, h.borrow.entry);
    var k :| 0 <= k < |es| && es[k] == e;
    assert i < |es|;
    UnpinnedIsFree(w.held, h);
    assert es[i] in es;
  }

  lemma ReleaseStep(source: seq<Byte>, w: World, which: nat)
    requires WorldInv(source, w) && which < |w.held|
    ensures WorldInv(source, Step(w, ReleaseEvent(which)))
  {
    hide Matched, Inv;
    var h := w.held[which];
    var es := w.st.entries;
    var i := HeldEntry(source, w, which);
    ReleaseKeeps(w.st, h.borrow);
    InvDistinct(w.st);
    ReleaseMatched(es, w.held, which, i);
    var st := Release(w.st, h.borrow);
    forall f | f in st.entries ensures Faithful(source, f, st.blocks) {
      assert f in es || f == es[i].(pins := es[i].pins - 1);
      assert es[i] in es;
    }
  }

  lemma StepKeeps(source: seq<Byte>, w: World, ev: Event)
    requires WorldInv(source, w) && Legal(source, w, ev)
    ensures WorldInv(source, Step(w, ev))
  {
    match ev
    case AcquireEvent(key, cb) => AcquireStep(source, w, key, cb);
    case ReleaseEvent(which) => ReleaseStep(source, w, which);
  }

  // ----- runs -----

  ghost predicate LegalRun(source: seq<Byte>, w: World, events: seq<Event>)
    requires WorldInv(source, w)
    decreases |events|
  {
    events == [] ||
    (Legal(source, w, events[0]) &&
     (StepKeeps(source, w, events[0]); LegalRun(source, Step(w, events[0]), events[1..])))
  }

  ghost function Run(source: seq<Byte>, w: World, events: seq<Event>): (r: World)
    requires WorldInv(source, w) && LegalRun(source, w, events)
    ensures WorldInv(source, r)
    decreases |events|
  {
    if events == [] then w else
      StepKeeps(source, w, events[0]);
      Run(source, Step(w, events[0]), events[1..])
  }

  lemma StartIsSound(source: seq<Byte>, budget: U64, sizeMax: nat)
    requires budget > 0
    ensures WorldInv(source, World(Init(budget, sizeMax), []))
  {
    assert Addresses([]) == {};
  }

  /** Transparency and lifetime: at every point of every run, whatever failed
      before, each outstanding borrow still points at a live block holding exactly
      what a direct read of its slice gives, and pins count the borrows. */
  lemma BorrowsReadTheSource(source: seq<Byte>, budget: U64, sizeMax: nat, events: seq<Event>)
    requires budget > 0
    requires (StartIsSound(source, budget, sizeMax); LegalRun(source, World(Init(budget, sizeMax), []), events))
    ensures (StartIsSound(source, budget, sizeMax);
             var w := Run(source, World(Init(budget, sizeMax), []), events);
             PinSum(w.st.entries) == |w.held| &&
             forall h <- w.held ::
               InSource(source, h.key) && h.borrow.size == h.key.sliceBytes &&
               h.borrow.data in w.st.blocks && w.st.blocks[h.borrow.data] == Slice(source, h.key))
  {
    StartIsSound(source, budget, sizeMax);
    var w := Run(source, World(Init(budget, sizeMax), []), events);
    forall h | h in w.held
      ensures InSource(source, h.key) && h.borrow.size == h.key.sliceBytes &&
              h.borrow.data in w.st.blocks && w.st.blocks[h.borrow.data] == Slice(source, h.key)
    {
      assert Resident(h, w.st.entries);
      var e :| e in w.st.entries && PointsAt(h, e);
      assert Faithful(source, e, w.st.blocks);
    }
  }
}
