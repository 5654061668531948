/** Option and Result, used for the source's `null`/`undefined` values and for
    the handlers that stop with an alert instead of changing anything. */
module Wrappers {

  datatype Option<T> = None | Some(value: T)

  datatype Result<T, E> = Ok(value: T) | Err(error: E)
}
