/** The value-or-nothing type used for nil pointers and dropped errors, and the
    value-or-error type used for returned errors. */
module Wrappers {
  datatype Option<+T> = None | Some(value: T)

  datatype Result<+T> = Ok(value: T) | Err(reason: string)
}
