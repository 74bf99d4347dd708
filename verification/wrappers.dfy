/** Failure-carrying values shared by every module of the model: the Go code
    returns `(value, error)` pairs and nil-able pointers, which become
    `Result` and `Option` here. */
module Wrappers {

  datatype Option<+T> = None | Some(value: T)

  datatype Result<+R, +E> = Ok(value: R) | Err(error: E) {
    predicate IsFailure() {
      Err?
    }
  }
}
