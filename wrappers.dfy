/** Failure-carrying wrappers used throughout the model: `None` stands for
    JavaScript's `undefined`/`null`/`NaN`, `Err` for a thrown exception. */
module Wrappers {

  datatype Option<+T> = None | Some(value: T)

  datatype Result<+T, +E> = Ok(value: T) | Err(error: E)
}
