/** Failure-carrying values shared by the search, masking and pipeline modules. */
module Outcomes {

  /** A value, or the error that stopped the computation producing it. */
  datatype Result<+T, +E> = Ok(value: T) | Err(error: E)
}
