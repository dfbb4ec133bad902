/** Option and Result values used throughout the model. `Result` stands for a
    JavaScript promise or call that either produces a value or throws. */
module Wrappers {

  datatype Option<+T> = None | Some(value: T)

  datatype Result<+T, +E> = Ok(value: T) | Err(error: E)
}
