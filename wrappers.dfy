/** Option and Result values: how the model writes down Rust's `Option`, `Result`
    and the panics of `unwrap()` on them. */
module Wrappers {

  datatype Option<+T> = None | Some(value: T)

  datatype Result<+T, +E> = Ok(value: T) | Err(error: E)
}
