/** Bytes, as numbers where the source calculates with them and as bit patterns where it does not. */
module Bytes {
  type Byte = b: int | 0 <= b < 256

  type Octet = bv8
}
