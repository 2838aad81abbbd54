/** General facts about sequences that the models share. */
module Seqs {

  /** Concatenation regroups freely; stated once so that proofs can name the
      regrouping they need instead of searching for it. */
  lemma AppendAssoc<T>(a: seq<T>, b: seq<T>, c: seq<T>)
    ensures (a + b) + c == a + (b + c)
  {
  }
}
