/** Facts about sequences that several proofs use. */
module Sequences {
  /** Concatenation associates; stated once so that proofs can name it
      instead of rediscovering it element by element. */
  lemma ConcatAssociates<T>(x: seq<T>, y: seq<T>, z: seq<T>)
    ensures (x + y) + z == x + (y + z)
  {
  }
}
