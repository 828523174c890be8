/** Small failure-carrying datatypes shared by the other modules. */
module Common {

  /** The outcome of a lookup that may find nothing (JavaScript's `undefined`). */
  datatype Option<T> = None | Some(value: T)

  /** The outcome of an operation that either yields a value or rejects its input with a message. */
  datatype Result<T, E> = Success(value: T) | Failure(error: E)
}
