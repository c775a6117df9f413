/** Option and Result, the two failure-carrying shapes the contract uses
    (`Option<T>` for optional message fields, `Result<T, E>` for every entry
    point). */
module Wrappers {

  datatype Option<+T> = None | Some(value: T)

  datatype Result<+T, +E> = Ok(value: T) | Err(error: E)
}
