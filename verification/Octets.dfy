/** Bytes. */
module Octets {
  type Byte = b: nat | b < 256
}
