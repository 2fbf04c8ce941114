/** Vocabulary shared by the other modules: optional values and operation results. */
module Basics {

  datatype Option<+T> = None | Some(value: T)

  datatype Result<+T, +E> = Ok(value: T) | Err(error: E)

  /** Player ids, room ids and tokens are opaque: they are only ever compared, and "" is the empty one. */
  type Id = string

  const NOBODY: Id := ""

  /** One octet of a packet or an address. */
  type Byte = b: int | 0 <= b < 256

  /** Durations and instants are integers counting nanoseconds. */
  const SECOND: int := 1_000_000_000
  const MINUTE: int := 60 * SECOND
}
