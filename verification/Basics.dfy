/** Types shared by the whole model. */
module Basics {

  /** A byte of a file, a packet or a stream. */
  type byte = x: int | 0 <= x < 256

  datatype Option<+T> = None | Some(value: T)
}
