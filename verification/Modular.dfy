/** Unsigned 64-bit arithmetic: equality and sums modulo 2^64. */
module Modular {

  const U64: nat := 0x1_0000_0000_0000_0000

  /** Equal modulo 2^64. */
  predicate Congruent(a: int, b: int) {
    (a - b) % U64 == 0
  }

  lemma CongruentSum(a: int, b: int, c: int, d: int)
    requires Congruent(a, b) && Congruent(c, d)
    ensures Congruent(a + c, b + d)
  {
  }

  /** The same, for sums given by name. */
  lemma CongruentTotal(a: int, b: int, c: int, d: int, ac: int, bd: int)
    requires Congruent(a, b) && Congruent(c, d) && ac == a + c && bd == b + d
    ensures Congruent(ac, bd)
  {
    CongruentSum(a, b, c, d);
  }

  lemma CongruentResidue(n: nat)
    ensures Congruent(n % U64, n)
  {
  }

  /** What a wrapped counter gains is congruent to what was added. */
  lemma CongruentGain(count: nat, gain: nat)
    ensures Congruent((count + gain) % U64 - count, gain)
  {
  }

  lemma AddModulo(total: nat, x: nat)
    ensures (total % U64 + x) % U64 == (total + x) % U64
  {
  }

  /** Unsigned 64-bit subtraction. */
  function WrapSub(a: nat, b: nat): int {
    if a >= b then a - b else a - b + U64
  }

  /** It is subtraction modulo 2^64. */
  lemma WrapSubIs(a: nat, b: nat)
    requires a < U64 && b < U64
    ensures 0 <= WrapSub(a, b) < U64 && Congruent(WrapSub(a, b), a - b)
  {
  }
}
