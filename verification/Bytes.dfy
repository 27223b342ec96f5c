/** The unit of memory shared by every component. */
module Bytes {
  type byte = x: int | 0 <= x < 256 witness 0

  function Zeros(n: nat): (s: seq<byte>)
    ensures |s| == n && forall i | 0 <= i < n :: s[i] == 0
  {
    seq(n, _ => 0)
  }
}
