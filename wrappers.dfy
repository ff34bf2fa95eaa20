/** Option and Result values shared by the modules of this model. */
module Wrappers {

  /** An optional value: a JavaScript `undefined` or a present value. */
  datatype Option<+T> = None | Some(value: T)

  /** The outcome of an operation that either returns a value or throws. */
  datatype Result<+T, +E> = Ok(value: T) | Err(error: E)
}
