/** Number operators of the source that differ from Dafny's. */
module Numbers {

  /** The remainder operator takes the sign of the dividend. */
  function Remainder(n: int, d: nat): int
    requires d > 0
  {
    if n >= 0 then n % d else -(-n % d)
  }
}
