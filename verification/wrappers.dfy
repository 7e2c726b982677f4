/** Failure-carrying datatypes used throughout the model: `Option` stands for
    a Java reference that may be null, `Result` for a computation that may
    throw the builder's configuration error instead of returning. */
module Wrappers {

  /** A possibly-null Java reference. */
  datatype Option<+T> = None | Some(value: T)

  /** Either the value a Java method returns or the exception it throws. */
  datatype Result<+R, +E> = Ok(value: R) | Err(error: E)
}
