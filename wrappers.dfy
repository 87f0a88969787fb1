/** Optional values and results with an error, as the Rust core uses them
    (`Option<T>` for the slot's handles and `builds.last()`, `Result<T, E>`
    for every fallible step of the download pipeline). */
module Wrappers {

  datatype Option<+T> = None | Some(value: T)

  datatype Result<+T, +E> = Ok(value: T) | Err(error: E)
}
