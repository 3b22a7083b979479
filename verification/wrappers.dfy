/** `Option` stands for Python's `Optional[...]` values; `Result` for computations that
    either return a value or raise an error. */
module Wrappers {

  datatype Option<+T> = None | Some(value: T)

  datatype Result<+T, +E> = Success(value: T) | Failure(error: E)
}
