/** Option and Result values for the absent keys, failed lookups and raised
    exceptions of the modelled Python code. */
module Wrappers {

  datatype Option<+T> = None | Some(value: T)

  datatype Result<+T, +E> = Ok(value: T) | Err(error: E)
}
