/** Failure-compatible wrappers shared by the services: an optional value (a nullable
    result or field) and a value-or-error result (a thrown exception). */
module Wrappers {

  datatype Option<+T> = None | Some(value: T)

  datatype Result<+T, +E> = Ok(value: T) | Err(error: E)
}
