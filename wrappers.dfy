/** Option and Result, the error-carrying wrappers the rest of the model returns. */
module Wrappers {

  datatype Option<+T> = None | Some(value: T)

  /** `Err` stands for a JavaScript exception thrown by the modelled code. */
  datatype Result<+T, +E> = Ok(value: T) | Err(error: E)
}
