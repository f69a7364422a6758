/** What several modules share. */
module Common {

  datatype Option<+T> = None | Some(value: T)

  const MAX64 := 0xFFFF_FFFF_FFFF_FFFF

  /** Account addresses matter by identity only; the zero address, which no operation may use, is not among them. */
  type Address = nat

  function Pow2(n: nat): (p: nat)
    ensures p >= 1
  {
    if n == 0 then 1 else 2 * Pow2(n - 1)
  }
}
