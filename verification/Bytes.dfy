/** Bytes of memory, pipes and disk sectors. */
module Bytes {
  newtype Byte = x: int | 0 <= x < 256
}
