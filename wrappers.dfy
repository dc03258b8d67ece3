/** Optional values (a reference that may be null) and results of operations
    that can fail (the registrar's InvalidOperationException). */
module Wrappers {

  datatype Option<+T> = None | Some(value: T)

  datatype Result<+T, +E> = Ok(value: T) | Err(error: E)
}
