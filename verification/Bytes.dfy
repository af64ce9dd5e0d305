/** The machine integers of the code, and bytes as they travel over the serial links. */
module Bytes {

  /** uint8_t. */
  newtype byte = x: int | 0 <= x < 256

  type uint32 = x: nat | x < 0x1_0000_0000

  function ZeroBytes(n: nat): (z: seq<byte>)
    ensures |z| == n
    ensures forall i | 0 <= i < n :: z[i] == 0
  {
    seq(n, i => 0)
  }
}
