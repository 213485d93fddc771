/** Octets, as carried by every stream of the proxy, and the 32-bit word. */
module Bytes {
  newtype byte = x: int | 0 <= x < 256

  /** Number of values of a 32-bit word. */
  const U32: nat := 0x1_0000_0000
}
