/** Failure-carrying results shared by the parser and the model builder. */
module Outcomes {

  datatype Option<T> = None | Some(value: T)

  /** Either a value, or the error a Python exception would have carried. */
  datatype Result<T, E> = Ok(value: T) | Err(error: E)
}
