/** Option and Result values standing for C#'s nullable references and thrown exceptions. */
module Wrappers {

  /** `None` is C#'s `null`. */
  datatype Option<+T> = None | Some(value: T)

  /** `Failure` is an exception the source lets escape. */
  datatype Result<+T, +E> = Success(value: T) | Failure(error: E)
}
