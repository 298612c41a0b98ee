/** Octets as numbers and as bits. */
module Bits {

  lemma Back(a: int)
    requires 0 <= a < 256
    ensures (a as bv8) as int == a
  {
  }

  lemma Forth(x: bv8)
    ensures 0 <= x as int < 256 && (x as int) as bv8 == x
  {
  }

  /** The binary digit of `x` that `m` selects. */
  function Digit(x: bv8, m: bv8): nat {
    if x & m != 0 then 1 else 0
  }

  lemma SumOfDigits(x: bv8)
    ensures x as int == Digit(x, 1) + 2 * (Digit(x, 2) + 2 * (Digit(x, 4) + 2 * (Digit(x, 8) +
                        2 * (Digit(x, 16) + 2 * (Digit(x, 32) + 2 * (Digit(x, 64) + 2 * Digit(x, 128)))))))
  {
  }

  lemma DigitOfXor(x: bv8, y: bv8, m: bv8)
    requires m == 1 || m == 2 || m == 4 || m == 8 || m == 16 || m == 32 || m == 64 || m == 128
    ensures Digit(x ^ y, m) == (Digit(x, m) + Digit(y, m)) % 2
  {
  }
}
