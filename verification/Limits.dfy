module Limits {
  // The number of values of a 64-bit word.
  const TWO_64: int := 0x1_0000_0000_0000_0000

  // x without its k lowest bytes.
  function DropBytes(x: nat, k: nat): nat
    decreases k
  {
    if k == 0 then x else DropBytes(x / 256, k - 1)
  }
}
