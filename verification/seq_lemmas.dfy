/** Facts about sequences that the scans over DESCRIBE rows and form rows share. */
module SeqLemmas {
  /** A sequence is what comes before position i, the element at i, and what follows. */
  lemma {:induction false} SplitAround<T>(s: seq<T>, i: nat)
    requires i < |s|
    ensures s == s[..i] + [s[i]] + s[i + 1..]
  {
  }
}
