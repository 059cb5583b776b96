/** Small shared vocabulary: an optional value, used for JavaScript's `undefined`/`null`. */
module Common {

  datatype Option<+T> = None | Some(value: T)

  /** Regrouping a concatenation; stated once so that proofs can name the step. */
  lemma Associative<T>(x: seq<T>, y: seq<T>, z: seq<T>)
    ensures x + (y + z) == (x + y) + z
  {
  }
}
