/** Byte strings. */
module Bytes {
  type Byte = x: int | 0 <= x < 256
  type Bytes = seq<Byte>

  function Zeros(n: nat): Bytes
  {
    seq(n, i => 0 as Byte)
  }

  function Pow256(k: nat): (p: nat)
    ensures p >= 1
  {
    if k == 0 then 1 else 256 * Pow256(k - 1)
  }

  /** SHA-256, or any other function from byte strings to 32 bytes. */
  type Digest = Bytes -> Bytes

  ghost predicate Yields32(h: Digest) { forall b :: |h(b)| == 32 }
}
