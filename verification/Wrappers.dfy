/** The failure-carrying types shared by every component: a value that may be absent (Python's
    `None`) and a value or the error that a check raised instead. */
module Wrappers {

  datatype Option<+T> = None | Some(value: T)

  datatype Result<+T, +E> = Success(value: T) | Failure(error: E)
}
