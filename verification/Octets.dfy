/** Octets as numbers. */
module Octets {
  type Byte = i: int | 0 <= i < 256
  type Bytes = seq<Byte>
}
