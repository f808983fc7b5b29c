/** Small failure-carrying datatypes shared by the models of File-Engine's components. */
module Common {

  /** A value that may be absent (Java's `null`). */
  datatype Option<+T> = None | Some(value: T)

  /** A Java exception, named by the class the modelled code would raise. */
  datatype JavaException =
    | NullPointerException
    | IndexOutOfBoundsException
    | RuntimeException(message: string)

  /** The result of an operation that may throw instead of returning. */
  datatype Result<+T> = Ok(value: T) | Throws(exception: JavaException)

  /** The result of a `void` operation that may throw. */
  datatype Outcome = Done | Raised(exception: JavaException)

  /** True when no element occurs twice in `s` (the sets and queues the source deduplicates). */
  predicate NoDuplicates<T(==)>(s: seq<T>)
  {
    forall i, j :: 0 <= i < j < |s| ==> s[i] != s[j]
  }
}
