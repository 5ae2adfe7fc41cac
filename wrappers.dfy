/** Option and the outcome of a call that may throw a JavaScript `Error`. */
module Wrappers {

  datatype Option<+T> = None | Some(value: T)

  /** `Ok(v)` for a call that returned `v`; `Err(m)` for one that threw an `Error` whose message is `m`. */
  datatype Result<+T> = Ok(value: T) | Err(message: string)
}
