// Types shared by the whole model.
module Wrappers {

  datatype Option<+T> = None | Some(value: T)

  // A byte of a frame. Bytes are integers here, so that hexadecimal digits and
  // little-endian values are plain arithmetic.
  type byte = x: int | 0 <= x < 256
}
