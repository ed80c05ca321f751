/** The wrappers used across the model: `Option` for the source's
    nullable values and `Result` for its exceptions. */
module Wrappers {

  datatype Option<+T> = None | Some(value: T)

  datatype Result<+R, +E> = Success(value: R) | Failure(error: E)
}
