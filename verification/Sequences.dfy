/** Two facts about sequence slicing, stated once so that proofs about long
    sequences need not rediscover them. */
module Sequences {

  /** A non-empty sequence is its head followed by its tail. */
  lemma HeadTail<T>(s: seq<T>)
    requires s != []
    ensures [s[0]] + s[1..] == s
  {
  }

  /** Taking every element gives the sequence back. */
  lemma TakeAll<T>(s: seq<T>)
    ensures s[..|s|] == s
  {
  }
}
