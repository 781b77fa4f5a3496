/** Values that may be missing, and operations that may be refused. */
module Wrappers {
  datatype Option<+T> = None | Some(value: T)

  function Or<T>(given: Option<T>, current: T): T {
    if given.Some? then given.value else current
  }

  datatype Result<+T, +E> = Ok(value: T) | Err(error: E)
}
