// Bytes, and texts and buffers of them.

module Octets {

  type byte = b: int | 0 <= b < 0x100

  type Bytes = seq<byte>
}
