/** Option and Result, the two sum types the memoization runtime works with. */
module Wrappers {

  /** Rust's `Option<T>`: what a store lookup yields. */
  datatype Option<+T> = None | Some(value: T)

  /** Rust's `Result<T, E>`: the outcome type whose `Err` side a custom store may refuse. */
  datatype Result<+T, +E> = Ok(value: T) | Err(error: E)
}
