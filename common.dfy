/** Optional values and results shared by every module: a value that may be
    absent (a C# null) and the outcome of an operation that may throw. */
module Common {

  /** A reference that may be null. */
  datatype Option<+T> = None | Some(value: T)

  /** The result of an operation that either returns a value or throws. */
  datatype Result<+T, +E> = Success(value: T) | Failure(error: E)

  /** Concatenation regrouped. */
  lemma ConcatAssoc<T>(a: seq<T>, b: seq<T>, c: seq<T>)
    ensures (a + b) + c == a + (b + c)
  {
  }
}
