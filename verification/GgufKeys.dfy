/** What single pairs do to the summary of src/qx_gguf.c:144-177. */
module GgufKeys {
  import opened Words
  import opened GgufFormat
  import opened GgufWalk
  import opened GgufSummary

  lemma KeysDiffer()
    ensures ALIGNMENT[0] != QWEN3[0] && QWEN3[0] == QWEN3MOE[0] && |QWEN3| == 6 && |QWEN3MOE| == 9 && |ALIGNMENT| == 17
    ensures QWEN3[5] != QWEN3MOE[5] && !TextKey(ALIGNMENT)
  {
    assert ARCHITECTURE[8] != ALIGNMENT[9];
    assert |ARCHITECTURE| == 20 && |NAME| == 12;
  }

  /** A count under either prefix lands in the field its suffix names, and nothing
      else of the summary moves. */
  lemma CountLands(s: Summary, prefix: seq<Byte>, suffix: seq<Byte>, value: nat)
    requires (prefix == QWEN3 || prefix == QWEN3MOE) && suffix in COUNT_KEYS
    ensures ApplyNumber(s, prefix + suffix, value) == s.(counts := s.counts[suffix := value])
  {
    KeysDiffer();
    var key := prefix + suffix;
    hide COUNT_KEYS;
    assert key[0] == prefix[0] && key[5] == prefix[5];
    assert key != ALIGNMENT;
    assert key[..|prefix|] == prefix && key[|prefix|..] == suffix;
    if prefix == QWEN3MOE {
      assert key[..6][5] == key[5];
      assert !HasPrefix(key, QWEN3);
    }
  }

  /** A pair whose key is not general.alignment leaves the alignment alone. */
  lemma OthersKeepAlignment(s: Summary, m: Meta)
    requires KeyOf(m) != ALIGNMENT || !m.MetaU32?
    ensures ApplyMeta(s, m).alignment == s.alignment
  {
    hide KeyOf, COUNT_KEYS, CString, Cut;
    KeysDiffer();
  }

  lemma AlignmentSets(s: Summary, m: Meta)
    requires m.MetaU32? && KeyOf(m) == ALIGNMENT
    ensures ApplyMeta(s, m).alignment == m.value
  {
    hide KeyOf;
  }

  /** No pair sets the alignment after the first `i`. */
  predicate Unset(ms: seq<Meta>, i: nat) {
    forall j :: i <= j < |ms| ==> KeyOf(ms[j]) != ALIGNMENT || !ms[j].MetaU32?
  }

  lemma {:induction false} AlignmentFrom(ms: seq<Meta>, i: nat, n: nat)
    requires i <= n <= |ms| && Unset(ms, i)
    ensures Described(ms, n).alignment == Described(ms, i).alignment
  {
    hide KeyOf, ApplyMeta;
    if i < n {
      AlignmentFrom(ms, i, n - 1);
      OthersKeepAlignment(Described(ms, n - 1), ms[n - 1]);
    }
  }

  /** The summary's alignment is that of the last pair that sets it, or 32. */
  lemma LastAlignmentWins(ms: seq<Meta>, i: nat)
    requires i <= |ms| && Unset(ms, i) && (i > 0 ==> ms[i - 1].MetaU32? && KeyOf(ms[i - 1]) == ALIGNMENT)
    ensures Described(ms, |ms|).alignment == if i == 0 then 32 else ms[i - 1].value
  {
    hide KeyOf, ApplyMeta;
    AlignmentFrom(ms, i, |ms|);
    if i > 0 { AlignmentSets(Described(ms, i - 1), ms[i - 1]); }
  }
}
