// Results of operations that may fail, as Go's `value, ok` and `value, err` pairs.
module Wrappers {
  datatype Option<+T> = None | Some(value: T)

  datatype Result<+T, +E> = Ok(value: T) | Err(error: E)
}
