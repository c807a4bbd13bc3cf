/** Exactly which entries an admission evicts, stated without the eviction loop. */
module ExpertCacheEviction {
  import opened Words
  import opened ExpertCacheSpec
  import opened ExpertCacheInvariant

  /** The unpinned entries, least recently used first. */
  function Unpinned(es: seq<Entry>): (us: seq<Entry>)
    ensures forall u <- us :: u in es && u.pins == 0
  {
    if es == [] then [] else if es[0].pins == 0 then [es[0]] + Unpinned(es[1..]) else Unpinned(es[1..])
  }

  /** The list without its `k` least recently used unpinned entries; everything
      else keeps its place. */
  function Survivors(es: seq<Entry>, k: nat): seq<Entry> {
    if es == [] || k == 0 then es
    else if es[0].pins == 0 then Survivors(es[1..], k - 1)
    else [es[0]] + Survivors(es[1..], k)
  }

  /** Survivors drops the first `k` unpinned entries... */
  lemma {:induction false} SurvivorsDrop(es: seq<Entry>, k: nat)
    requires k <= |Unpinned(es)|
    ensures Unpinned(Survivors(es, k)) == Unpinned(es)[k..] && |Survivors(es, k)| == |es| - k
  {
    if es != [] && k > 0 {
      if es[0].pins == 0 {
        SurvivorsDrop(es[1..], k - 1);
        assert Unpinned(es)[k..] == Unpinned(es[1..])[k - 1..];
      } else {
        SurvivorsDrop(es[1..], k);
        assert Survivors(es, k)[1..] == Survivors(es[1..], k);
      }
    }
  }

  lemma Headed(e: Entry, rest: seq<Entry>)
    ensures multiset([e] + rest) == multiset{e} + multiset(rest)
  {
  }

  /** ... and nothing else. */
  lemma {:induction false} SurvivorsKeepTheRest(es: seq<Entry>, k: nat)
    requires k <= |Unpinned(es)|
    ensures multiset(es) == multiset(Survivors(es, k)) + multiset(Unpinned(es)[..k])
  {
    if es == [] || k == 0 {
      assert Unpinned(es)[..0] == [];
    } else {
      assert es == [es[0]] + es[1..];
      Headed(es[0], es[1..]);
      if es[0].pins == 0 {
        SurvivorsKeepTheRest(es[1..], k - 1);
        assert Unpinned(es)[..k] == [es[0]] + Unpinned(es[1..])[..k - 1];
        Headed(es[0], Unpinned(es[1..])[..k - 1]);
      } else {
        SurvivorsKeepTheRest(es[1..], k);
        Headed(es[0], Survivors(es[1..], k));
      }
    }
  }

  lemma {:induction false} SurvivorsOfSurvivors(es: seq<Entry>, k: nat)
    requires FirstUnpinned(es) < |es|
    ensures Survivors(RemoveAt(es, FirstUnpinned(es)), k) == Survivors(es, k + 1)
  {
    var v := FirstUnpinned(es);
    if es[0].pins == 0 {
      assert RemoveAt(es, 0) == es[1..];
    } else {
      var w := FirstUnpinned(es[1..]);
      assert v == w + 1;
      SurvivorsOfSurvivors(es[1..], k);
      assert RemoveAt(es, v)[1..] == RemoveAt(es[1..], w);
      assert RemoveAt(es, v)[0] == es[0];
    }
  }

  lemma {:induction false} NoneUnpinned(es: seq<Entry>)
    ensures FirstUnpinned(es) == |es| <==> Unpinned(es) == []
  {
    if es != [] { NoneUnpinned(es[1..]); }
  }

  lemma {:induction false} UnpinnedAfterEvict(es: seq<Entry>)
    requires FirstUnpinned(es) < |es|
    ensures |Unpinned(es)| == |Unpinned(RemoveAt(es, FirstUnpinned(es)))| + 1
  {
    SurvivorsOfSurvivors(es, 0);
    NoneUnpinned(es);
    SurvivorsDrop(es, 1);
  }

  ghost predicate Fits(es: seq<Entry>, size: nat, budget: nat) { Total(es) + size <= budget }

  /** `k` evictions are exactly what the admission of `size` bytes does: the
      fewest that make room, or every unpinned entry when no number does. */
  ghost predicate EvictsExactly(es: seq<Entry>, size: nat, budget: nat, k: nat, admitted: bool) {
    k <= |Unpinned(es)| &&
    (forall j :: 0 <= j < k ==> !Fits(Survivors(es, j), size, budget)) &&
    (if admitted then Fits(Survivors(es, k), size, budget)
     else k == |Unpinned(es)| && !Fits(Survivors(es, k), size, budget))
  }

  lemma {:induction false} MakeRoomExact(st: State, size: nat) returns (k: nat)
    requires Inv(st) && size <= st.budget
    ensures var (room, error) := MakeRoom(st, size);
            EvictsExactly(st.entries, size, st.budget, k, error == None) &&
            room.entries == Survivors(st.entries, k) && room.counters.evictions == st.counters.evictions + k &&
            room.frees == st.frees + 2 * k
    decreases |st.entries|
  {
    var es := st.entries;
    var v := FirstUnpinned(es);
    NoneUnpinned(es);
    k := 0;
    if st.counters.resident > st.budget - size && v < |es| {
      EvictKeeps(st, v);
      var next := EvictAt(st, v);
      var n := MakeRoomExact(next, size);
      k := n + 1;
      UnpinnedAfterEvict(es);
      forall j: nat | j <= n ensures Survivors(next.entries, j) == Survivors(es, j + 1) { SurvivorsOfSurvivors(es, j); }
      forall j | 0 <= j < k ensures !Fits(Survivors(es, j), size, st.budget) {
        if j > 0 { assert Survivors(next.entries, j - 1) == Survivors(es, j); }
      }
    }
  }

  lemma CountingKeeps(st: State, key: Key)
    requires Inv(st) && Misses(st, key)
    ensures Inv(CountMiss(st)) && CountMiss(st).budget == st.budget && CountMiss(st).entries == st.entries
    ensures key.sliceBytes <= st.budget
  {
  }

  /** A missing acquire within budget that gets as far as making room: the list it
      leaves is the survivors of exactly the necessary evictions, plus the new
      entry when the load succeeds. Pinned entries are never among the evicted. */
  lemma MissEvictsExactly(st: State, key: Key, cb: Callbacks) returns (k: nat)
    requires Inv(st) && Misses(st, key)
    ensures var (after, outcome) := Acquire(st, key, cb);
            EvictsExactly(st.entries, key.sliceBytes, st.budget, k, outcome != Failed(BlockedByPins)) &&
            after.entries == Survivors(st.entries, k) +
              (if outcome.Borrowed? then [Entry(cb.meta, key, cb.packed, 1)] else [])
    ensures multiset(st.entries) == multiset(Survivors(st.entries, k)) + multiset(Unpinned(st.entries)[..k])
  {
    hide EvictsExactly, Survivors, Unpinned, Inv, MakeRoom;
    CountingKeeps(st, key);
    var counted := CountMiss(st);
    k := MakeRoomExact(counted, key.sliceBytes);
    MakeRoomKeeps(counted, key.sliceBytes);
    SurvivorsKeepTheRest(st.entries, k);
  }
}
