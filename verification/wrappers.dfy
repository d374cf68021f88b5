/** Option and Result, the two failure-carrying shapes the engine uses. */
module Wrappers {

  datatype Option<+T> = None | Some(value: T)

  /** The error side carries the message of the source's error value. */
  datatype Result<+T> = Ok(value: T) | Err(msg: string)
}
