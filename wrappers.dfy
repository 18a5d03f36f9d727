/** Optional values and error results, used for the source's exceptions and
    for the abstract string-to-number parsers. */
module Wrappers {

  datatype Option<+T> = None | Some(value: T)

  datatype Result<+T, +E> = Ok(value: T) | Err(error: E)
}
