/** Result types shared by every module, and the fixed-width counter type. */
module Basics {

  datatype Option<+T> = None | Some(value: T)

  datatype Result<+T, +E> = Ok(value: T) | Err(error: E)

  const TWO_TO_64: int := 0x1_0000_0000_0000_0000

  /** Rust's `u64`. */
  type U64 = n: int | 0 <= n < TWO_TO_64
}
