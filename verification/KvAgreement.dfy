/** The snapshot builder and validator agree: what one lists is what the other accepts. */
module KvAgreement {
  import opened Words
  import opened Reorderings
  import opened KvSnapshot
  import opened KvEntries

  // ----- the loop of the validator -----

  /** `seen` succeeds exactly when every entry passed and no key came twice, and it
      then holds the keys that came. */
  lemma {:induction false} SeenIs(cs: seq<Option<Key>>, n: nat)
    requires n <= |cs|
    ensures Seen(cs, n).Some? <==> (forall i :: 0 <= i < n ==> cs[i].Some?) && NoRepeat(cs[..n])
    ensures Seen(cs, n).Some? ==> forall k :: k in Seen(cs, n).value <==> Some(k) in cs[..n]
  {
    if n > 0 {
      SeenIs(cs, n - 1);
      assert cs[..n] == cs[..n - 1] + [cs[n - 1]];
      LastOnce(cs[..n - 1], cs[n - 1]);
    }
  }

  lemma LastOnce<T>(s: seq<T>, x: T)
    ensures NoRepeat(s + [x]) <==> NoRepeat(s) && x !in s
  {
    if NoRepeat(s + [x]) {
      forall i, j | 0 <= i < j < |s| ensures s[i] != s[j] { assert (s + [x])[i] != (s + [x])[j]; }
      forall i | 0 <= i < |s| ensures s[i] != x { assert (s + [x])[i] != (s + [x])[|s|]; }
    }
  }

  // ----- the built entries -----

  lemma EntryTells(g: Geometry, payload: seq<Byte>, sha: seq<Byte> -> seq<Byte>, a: Key, b: Key)
    requires Fitting(g, payload) && Valid(g, a) && Valid(g, b)
    requires EntryOf(g, payload, sha, a) == EntryOf(g, payload, sha, b)
    ensures a == b
  {
  }

  lemma BuiltAt(g: Geometry, payload: seq<Byte>, sha: seq<Byte> -> seq<Byte>, i: nat)
    requires Fitting(g, payload) && i < |Keys(g, g.layers)|
    ensures var k := Keys(g, g.layers)[i];
            Valid(g, k) && |Built(g, payload, sha)| == |Keys(g, g.layers)| &&
            Built(g, payload, sha)[i] == EntryOf(g, payload, sha, k)
  {
    hide EntryOf;
    KeysValid(g, g.layers);
  }

  lemma BuiltHas(g: Geometry, payload: seq<Byte>, sha: seq<Byte> -> seq<Byte>, k: Key)
    requires Fitting(g, payload) && Valid(g, k)
    ensures EntryOf(g, payload, sha, k) in Built(g, payload, sha)
  {
    hide EntryOf, Built, Fitting;
    KeysAre(g, g.layers, k);
    var i :| 0 <= i < |Keys(g, g.layers)| && Keys(g, g.layers)[i] == k;
    BuiltAt(g, payload, sha, i);
  }

  lemma BuiltLength(g: Geometry, payload: seq<Byte>, sha: seq<Byte> -> seq<Byte>)
    requires Fitting(g, payload)
    ensures |Built(g, payload, sha)| == |Keys(g, g.layers)|
  {
    hide EntryOf, Fitting;
  }

  lemma BuiltOnce(g: Geometry, payload: seq<Byte>, sha: seq<Byte> -> seq<Byte>)
    requires Fitting(g, payload)
    ensures NoRepeat(Built(g, payload, sha))
  {
    hide EntryOf, Fitting, Keys, Built, Valid;
    BuiltLength(g, payload, sha);
    KeysOnce(g, g.layers);
    var b := Built(g, payload, sha);
    forall i, j | 0 <= i < j < |b| ensures b[i] != b[j] {
      BuiltAt(g, payload, sha, i);
      BuiltAt(g, payload, sha, j);
      if b[i] == b[j] { EntryTells(g, payload, sha, Keys(g, g.layers)[i], Keys(g, g.layers)[j]); }
    }
  }

  // ----- acceptance -----

  /** What the loop's final state means, entry by entry and key by key. */
  lemma AcceptsMeans(g: Geometry, payload: seq<Byte>, sha: seq<Byte> -> seq<Byte>, es: seq<Entry>)
    requires Fitting(g, payload)
    ensures var cs := Checks(g, payload, sha, es);
            Accepts(g, payload, sha, es) <==>
              (forall i :: 0 <= i < |cs| ==> cs[i].Some?) && NoRepeat(cs) &&
              (forall k :: Some(k) in cs <==> Valid(g, k))
  {
    hide Fitting, Check, Seen, Valid, NoRepeat;
    var cs := Checks(g, payload, sha, es);
    SeenIs(cs, |cs|);
    assert cs[..|cs|] == cs;
    if Seen(cs, |cs|).Some? && forall k :: Some(k) in cs <==> Valid(g, k) {
      assert Seen(cs, |cs|).value == ExpectedKeys(g);
    }
  }

  lemma AcceptedEntries(g: Geometry, payload: seq<Byte>, sha: seq<Byte> -> seq<Byte>, es: seq<Entry>)
    requires Fitting(g, payload) && Accepts(g, payload, sha, es)
    ensures ScalesPass(g, payload) && multiset(es) == multiset(Built(g, payload, sha))
  {
    hide Fitting, Accepts, Check, EntryOf, Built, Keys, StoredScale, ScalePasses;
    AcceptsMeans(g, payload, sha, es);
    BuiltOnce(g, payload, sha);
    BuiltLength(g, payload, sha);
    var cs, b := Checks(g, payload, sha, es), Built(g, payload, sha);
    forall i, j | 0 <= i < j < |es| ensures es[i] != es[j] { assert cs[i] != cs[j]; }
    forall i | 0 <= i < |es| ensures es[i] in b {
      CheckIsEquality(g, payload, sha, es[i], cs[i].value);
      BuiltHas(g, payload, sha, cs[i].value);
    }
    forall i | 0 <= i < |b|
      ensures b[i] in es && Valid(g, Keys(g, g.layers)[i])
      ensures ScalePasses(StoredScale(g, payload, Keys(g, g.layers)[i]), g.format)
    {
      BuiltAt(g, payload, sha, i);
      var k := Keys(g, g.layers)[i];
      assert Some(k) in cs;
      var j :| 0 <= j < |cs| && cs[j] == Some(k);
      CheckIsEquality(g, payload, sha, es[j], k);
    }
    SameElements(es, b);
  }

  lemma ReorderedEntries(g: Geometry, payload: seq<Byte>, sha: seq<Byte> -> seq<Byte>, es: seq<Entry>)
    requires Fitting(g, payload) && ScalesPass(g, payload) && multiset(es) == multiset(Built(g, payload, sha))
    ensures Accepts(g, payload, sha, es)
  {
    hide Fitting, Accepts, Check, EntryOf, Built, Keys, StoredScale, ScalePasses;
    BuiltOnce(g, payload, sha);
    BuiltLength(g, payload, sha);
    var cs, b := Checks(g, payload, sha, es), Built(g, payload, sha);
    Reordering(es, b);
    forall i | 0 <= i < |es|
      ensures cs[i].Some? && es[i] == EntryOf(g, payload, sha, cs[i].value) && Valid(g, cs[i].value)
    {
      var j :| 0 <= j < |b| && b[j] == es[i];
      BuiltAt(g, payload, sha, j);
      CheckIsEquality(g, payload, sha, es[i], Keys(g, g.layers)[j]);
    }
    forall i, j | 0 <= i < j < |cs| ensures cs[i] != cs[j] { assert es[i] != es[j]; }
    forall k | Valid(g, k) ensures Some(k) in cs {
      BuiltHas(g, payload, sha, k);
      var i :| 0 <= i < |es| && es[i] == EntryOf(g, payload, sha, k);
      EntryTells(g, payload, sha, cs[i].value, k);
      assert cs[i] == Some(k);
    }
    AcceptsMeans(g, payload, sha, es);
  }

  /** For every payload that parses: an entry list is accepted exactly when every
      stored scale passes and the list is a reordering of the built one, field by
      field; so the built list is accepted exactly when every stored scale passes. */
  lemma AcceptedAreReorderings(payload: seq<Byte>, sha: seq<Byte> -> seq<Byte>, es: seq<Entry>)
    requires Parse(payload, sha).Some?
    ensures var g := Parse(payload, sha).value;
            Fitting(g, payload) &&
            (Accepts(g, payload, sha, es) <==>
             ScalesPass(g, payload) && multiset(es) == multiset(Built(g, payload, sha))) &&
            (Accepts(g, payload, sha, Built(g, payload, sha)) <==> ScalesPass(g, payload))
  {
    hide Parse, Accepts, ScalesPass, Built;
    ParsedGeometry(payload, sha);
    var g := Parse(payload, sha).value;
    if Accepts(g, payload, sha, es) { AcceptedEntries(g, payload, sha, es); }
    if ScalesPass(g, payload) && multiset(es) == multiset(Built(g, payload, sha)) {
      ReorderedEntries(g, payload, sha, es);
    }
    if Accepts(g, payload, sha, Built(g, payload, sha)) { AcceptedEntries(g, payload, sha, Built(g, payload, sha)); }
    if ScalesPass(g, payload) { ReorderedEntries(g, payload, sha, Built(g, payload, sha)); }
  }
}
