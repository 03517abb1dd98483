/** The `Option` and `Result` types shared by the models. */
module Wrappers {

  /** Python's `Optional[T]`: `None` or a value. */
  datatype Option<+T> = None | Some(value: T)

  /** A value or the error that the Python code would raise instead. */
  datatype Result<+T, +E> = Success(value: T) | Failure(error: E)

  /** Python truthiness of an optional string or list: `None`, `""` and `[]` are all falsy. */
  predicate Present<T>(o: Option<seq<T>>)
  {
    o.Some? && |o.value| > 0
  }
}
