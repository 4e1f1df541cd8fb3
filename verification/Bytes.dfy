/** Bytes. */
module Bytes {
  type byte = b: int | 0 <= b < 0x100

  function Zeros(n: nat): (zeros: seq<byte>)
    ensures |zeros| == n
  {
    if n == 0 then [] else [0] + Zeros(n - 1)
  }
}
