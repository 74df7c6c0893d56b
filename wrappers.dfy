/** Small generic pieces used throughout the model: Python's `None`, and sequence algebra. */
module Wrappers {

  datatype Option<+T> = None | Some(value: T)

  lemma AppendAssoc<T>(a: seq<T>, b: seq<T>, c: seq<T>)
    ensures (a + b) + c == a + (b + c)
  {
  }
}
