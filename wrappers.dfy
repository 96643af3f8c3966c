/** Option, Result and Outcome: the shapes of Swift's optionals and of
    functions that either return or throw. */
module Wrappers {

  datatype Option<+T> = None | Some(value: T)

  /** The result of a throwing Swift function that returns a value. */
  datatype Result<+R, +E> = Success(value: R) | Failure(error: E)

  /** The result of a throwing Swift function that returns nothing. */
  datatype Outcome<+E> = Pass | Fail(error: E)
}
