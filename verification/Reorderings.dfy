/** Sequences without repetition, and reorderings as equality of multisets. */
module Reorderings {
  predicate NoRepeat<T(==)>(s: seq<T>) { forall i, j :: 0 <= i < j < |s| ==> s[i] != s[j] }

  lemma JoinOnce<T>(a: seq<T>, b: seq<T>)
    requires NoRepeat(a) && NoRepeat(b) && forall i, j :: 0 <= i < |a| && 0 <= j < |b| ==> a[i] != b[j]
    ensures NoRepeat(a + b)
  {
    forall i, j | 0 <= i < j < |a + b| ensures (a + b)[i] != (a + b)[j] {
      if j < |a| {
      } else if i < |a| {
        assert (a + b)[j] == b[j - |a|];
      } else {
        assert (a + b)[i] == b[i - |a|] && (a + b)[j] == b[j - |a|];
      }
    }
  }

  lemma Repeats<T>(s: seq<T>, j: nat, k: nat)
    requires j < k < |s| && s[j] == s[k]
    ensures multiset(s)[s[j]] >= 2
  {
    assert s == s[..k] + s[k..];
    assert s[..k][j] == s[j] && s[k..][0] == s[k];
    assert s[j] in multiset(s[..k]) && s[j] in multiset(s[k..]);
  }

  lemma CountOnce<T>(s: seq<T>, i: nat)
    requires i < |s| && NoRepeat(s)
    ensures multiset(s)[s[i]] == 1
  {
    assert s == s[..i] + [s[i]] + s[i + 1..];
    assert s[i] !in s[..i] && s[i] !in s[i + 1..];
  }

  lemma Count<T>(s: seq<T>, x: T)
    requires NoRepeat(s)
    ensures multiset(s)[x] == if x in s then 1 else 0
  {
    if x in s {
      var i :| 0 <= i < |s| && s[i] == x;
      CountOnce(s, i);
    }
  }

  /** The same elements, none repeated: one is a reordering of the other. */
  lemma SameElements<T>(a: seq<T>, b: seq<T>)
    requires NoRepeat(a) && NoRepeat(b) && (forall i :: 0 <= i < |a| ==> a[i] in b)
    requires (forall i :: 0 <= i < |b| ==> b[i] in a)
    ensures multiset(a) == multiset(b)
  {
    forall x: T | true ensures multiset(a)[x] == multiset(b)[x] {
      Count(a, x);
      Count(b, x);
    }
  }

  /** A reordering of a sequence without repetition has none either, and the same elements. */
  lemma Reordering<T>(a: seq<T>, b: seq<T>)
    requires multiset(a) == multiset(b) && NoRepeat(b)
    ensures NoRepeat(a) && (forall i :: 0 <= i < |a| ==> a[i] in b) && (forall i :: 0 <= i < |b| ==> b[i] in a)
  {
    forall i | 0 <= i < |a| ensures a[i] in b { assert a[i] in multiset(a); }
    forall i | 0 <= i < |b| ensures b[i] in a { assert b[i] in multiset(b); }
    forall i, j | 0 <= i < j < |a| ensures a[i] != a[j] {
      if a[i] == a[j] {
        Repeats(a, i, j);
        Count(b, a[i]);
      }
    }
  }
}
