/** Option and Result, standing for Python's "key in dict" test and for the
    usage()-and-exit error path of the generator. */
module Wrappers {

  datatype Option<+T> = None | Some(value: T)

  datatype Result<+T, +E> = Ok(value: T) | Err(error: E)
}
