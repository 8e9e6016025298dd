/** Bytes of a file or a buffer. */
module Bytes {

  type byte = x: int | 0 <= x < 256
}
