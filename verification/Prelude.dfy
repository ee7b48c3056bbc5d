/** Types shared by every module. */
module Prelude {

  datatype Option<+T> = None | Some(value: T)

  datatype Result<+T, +E> = Ok(value: T) | Err(error: E)

  type UserId = nat

  /** One octet of a Go byte slice. */
  type byte = x: int | 0 <= x < 256
}
