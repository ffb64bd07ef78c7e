/** Optional values, and the one fact about joining sequences that the proofs keep needing. */
module Wrappers {
  datatype Option<+T> = None | Some(value: T)

  /** Joining sequences is associative. */
  lemma Associate<T>(a: seq<T>, b: seq<T>, c: seq<T>)
    ensures a + b + c == a + (b + c)
  {
  }
}
