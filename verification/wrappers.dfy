/** Failure-carrying datatypes shared by the model: the Go code's `(value, error)`
    pairs become a `Result`, and values that may be absent become an `Option`. */
module Wrappers {

  datatype Option<+T> = None | Some(value: T)

  datatype Result<+R, +E> = Ok(value: R) | Err(error: E)
}
