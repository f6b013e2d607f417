/** Octets, as the server's `[]byte` buffers and IPv4 addresses hold them. */
module Bytes {
  newtype Byte = b: int | 0 <= b < 256

  const OpenBrace: Byte := 0x7B
  const CloseBrace: Byte := 0x7D
}
