/** Option and Result values for the model's error paths (JavaScript's
    `undefined` and rejected promises). */
module Wrappers {

  datatype Option<+T> = None | Some(value: T)

  datatype Result<+T, +E> = Ok(value: T) | Err(error: E)
}
