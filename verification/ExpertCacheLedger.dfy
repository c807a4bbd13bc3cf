/** The nine counters against the history that produced them. */
module ExpertCacheLedger {
  import opened Words
  import opened ExpertCacheSpec
  import opened ExpertCacheInvariant
  import opened ExpertCacheRuns

  // ----- what a history contains, read off the acquires and not off the counters -----

  /** The key is resident and the hit gets counted. */
  predicate CountedHit(st: State, key: Key) {
    Refusal(st, key) == None && Find(st.entries, key) < |st.entries| &&
    Hit(st, Find(st.entries, key)).1 != Failed(CounterOverflow)
  }

  predicate Loaded(st: State, key: Key, cb: Callbacks)
    requires Accounted(st)
  {
    Find(st.entries, key) == |st.entries| && Acquire(st, key, cb).1.Borrowed?
  }

  /** Bytes of the counted hits, bytes of the loads, number of loads, and the
      highest residency over a run. */
  datatype History = History(hitBytes: nat, loadBytes: nat, hits: nat, loads: nat, peak: nat)

  /** What one event adds, and the residency it starts from. */
  function Note(st: State, ev: Event): History
    requires Accounted(st)
  {
    match ev
    case AcquireEvent(key, cb) =>
      if CountedHit(st, key) then History(key.sliceBytes, 0, 1, 0, Total(st.entries))
      else if Loaded(st, key, cb) then History(0, key.sliceBytes, 0, 1, Total(st.entries))
      else History(0, 0, 0, 0, Total(st.entries))
    case ReleaseEvent(_) => History(0, 0, 0, 0, Total(st.entries))
  }

  function Plus(a: History, b: History): History {
    History(a.hitBytes + b.hitBytes, a.loadBytes + b.loadBytes, a.hits + b.hits, a.loads + b.loads, Max(a.peak, b.peak))
  }

  ghost function Recall(source: seq<Byte>, w: World, events: seq<Event>): History
    requires WorldInv(source, w) && LegalRun(source, w, events)
    decreases |events|
  {
    if events == [] then History(0, 0, 0, 0, Total(w.st.entries)) else
      StepKeeps(source, w, events[0]);
      Plus(Note(w.st, events[0]), Recall(source, Step(w, events[0]), events[1..]))
  }

  /** `after` is `before` with the history's hits, loads and bytes added. */
  predicate Adds(before: Counters, h: History, after: Counters) {
    after.hits == before.hits + h.hits && after.loads == before.loads + h.loads &&
    after.bytesAvoided == before.bytesAvoided + h.hitBytes && after.bytesRead >= before.bytesRead + h.loadBytes
  }

  // ----- one acquire -----

  lemma AdmitCounts(st: State, key: Key, cb: Callbacks)
    requires st.counters.resident <= st.counters.peak
    ensures var (after, outcome) := Admit(st, key, cb);
            after.counters.hits == st.counters.hits && after.counters.bytesAvoided == st.counters.bytesAvoided &&
            after.counters.loads == st.counters.loads + (if outcome.Borrowed? then 1 else 0) &&
            after.counters.bytesRead >= st.counters.bytesRead + (if outcome.Borrowed? then key.sliceBytes else 0) &&
            after.counters.peak == Max(st.counters.peak, after.counters.resident)
  {
  }

  lemma AcquireCounts(st: State, key: Key, cb: Callbacks)
    requires Inv(st)
    ensures var after := Acquire(st, key, cb).0.counters;
            Adds(st.counters, Note(st, AcquireEvent(key, cb)), after) &&
            after.peak == Max(st.counters.peak, after.resident)
  {
    hide Distinct, Owns, MakeRoom, Admit, Total;
    if Misses(st, key) {
      var counted := CountMiss(st);
      MakeRoomFrame(counted, key.sliceBytes);
      MakeRoomKeeps(counted, key.sliceBytes);
      AdmitCounts(MakeRoom(counted, key.sliceBytes).0, key, cb);
    }
  }

  lemma StepCounts(source: seq<Byte>, w: World, ev: Event)
    requires WorldInv(source, w) && Legal(source, w, ev)
    ensures var after := Step(w, ev).st.counters;
            Adds(w.st.counters, Note(w.st, ev), after) && after.peak == Max(w.st.counters.peak, after.resident)
  {
    hide Matched, Faithful, Acquire;
    match ev
    case AcquireEvent(key, cb) => AcquireCounts(w.st, key, cb);
    case ReleaseEvent(which) =>
      assert Release(w.st, w.held[which].borrow).counters == w.st.counters;
  }

  lemma AddsTwice(a: Counters, g: History, b: Counters, h: History, c: Counters)
    requires Adds(a, g, b) && Adds(b, h, c)
    ensures Adds(a, Plus(g, h), c)
  {
  }

  /** The counters after any run are the counters before it plus what the run's
      own history contains; the peak is the highest residency ever reached. */
  lemma {:induction false} CountersTellTheHistory(source: seq<Byte>, w: World, events: seq<Event>)
    requires WorldInv(source, w) && LegalRun(source, w, events)
    ensures Adds(w.st.counters, Recall(source, w, events), Run(source, w, events).st.counters)
    ensures Run(source, w, events).st.counters.peak == Max(w.st.counters.peak, Recall(source, w, events).peak)
    ensures Recall(source, w, events).peak >= Total(w.st.entries)
    decreases |events|
  {
    if events != [] {
      StepKeeps(source, w, events[0]);
      StepCounts(source, w, events[0]);
      var next := Step(w, events[0]);
      CountersTellTheHistory(source, next, events[1..]);
      AddsTwice(w.st.counters, Note(w.st, events[0]), next.st.counters,
                Recall(source, next, events[1..]), Run(source, next, events[1..]).st.counters);
    }
  }

  /** The balances every reachable state keeps. */
  lemma StateBalances(st: State)
    requires Inv(st)
    ensures var c := st.counters;
            c.requests == c.hits + c.misses && c.loads <= c.misses && c.loads - c.evictions == |st.entries| &&
            c.resident == Total(st.entries) <= c.peak <= st.budget &&
            c.requests <= U64_MAX && c.bytesRead <= U64_MAX && c.bytesAvoided <= U64_MAX
    ensures |st.blocks| == 2 * |st.entries| && st.allocs == st.frees + |st.blocks|
  {
    TwoBlocksPerEntry(st.entries);
    assert |st.blocks| == |st.blocks.Keys|;
  }
}
