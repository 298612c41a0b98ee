/** Exclusive or of octets, in integer arithmetic, and its agreement with the operation on bits. */
module Octets {
  import opened Bits
  import opened Bytes

  /** Exclusive or of numbers of `n` binary digits. */
  function XorDigits(a: nat, b: nat, n: nat): nat {
    if n == 0 then 0 else (a + b) % 2 + 2 * XorDigits(a / 2, b / 2, n - 1)
  }
  function Xor(a: Byte, b: Byte): Byte {
    XorDigits(a, b, 8) % 256
  }

  /** The number with these binary digits, least significant first. */
  function FromDigits(d: seq<nat>): nat {
    if d == [] then 0 else d[0] + 2 * FromDigits(d[1..])
  }

  function Digits(x: bv8): (d: seq<nat>)
    ensures |d| == 8 && Binary(d)
  {
    [Digit(x, 1), Digit(x, 2), Digit(x, 4), Digit(x, 8), Digit(x, 16), Digit(x, 32), Digit(x, 64), Digit(x, 128)]
  }

  lemma FromDigits8(d: seq<nat>)
    requires |d| == 8
    ensures FromDigits(d) ==
            d[0] + 2 * (d[1] + 2 * (d[2] + 2 * (d[3] + 2 * (d[4] + 2 * (d[5] + 2 * (d[6] + 2 * d[7]))))))
  {
    assert FromDigits(d[1..][1..][1..][1..][1..][1..][1..]) == d[7];
    assert FromDigits(d[1..][1..][1..][1..][1..][1..]) == d[6] + 2 * d[7];
    assert FromDigits(d[1..][1..][1..][1..][1..]) == d[5] + 2 * (d[6] + 2 * d[7]);
    assert FromDigits(d[1..][1..][1..][1..]) == d[4] + 2 * (d[5] + 2 * (d[6] + 2 * d[7]));
    assert FromDigits(d[1..][1..][1..]) == d[3] + 2 * (d[4] + 2 * (d[5] + 2 * (d[6] + 2 * d[7])));
    assert FromDigits(d[1..][1..]) == d[2] + 2 * (d[3] + 2 * (d[4] + 2 * (d[5] + 2 * (d[6] + 2 * d[7]))));
  }

  lemma DigitsMakeUp(x: bv8, d: seq<nat>, v: nat)
    requires d == Digits(x) && v == x as int
    ensures FromDigits(d) == v
  {
    SumOfDigits(x);
    FromDigits8(d);
  }

  predicate Binary(d: seq<nat>) {
    forall i | 0 <= i < |d| :: d[i] < 2
  }

  /** Where the digits differ. */
  function Odd(d: seq<nat>, e: seq<nat>): seq<nat>
    requires |d| == |e|
  {
    seq(|d|, i requires 0 <= i < |d| => (d[i] + e[i]) % 2)
  }

  lemma LowestDigit(a0: nat, a: nat, b0: nat, b: nat)
    requires a0 < 2 && b0 < 2
    ensures (a0 + 2 * a) / 2 == a && (b0 + 2 * b) / 2 == b
    ensures (a0 + 2 * a + (b0 + 2 * b)) % 2 == (a0 + b0) % 2
  {
  }

  lemma {:induction false} XorByDigits(d: seq<nat>, e: seq<nat>)
    requires |d| == |e| && Binary(d) && Binary(e)
    ensures XorDigits(FromDigits(d), FromDigits(e), |d|) == FromDigits(Odd(d, e))
    decreases |d|
  {
    if d != [] {
      XorByDigits(d[1..], e[1..]);
      assert Odd(d, e)[1..] == Odd(d[1..], e[1..]);
      LowestDigit(d[0], FromDigits(d[1..]), e[0], FromDigits(e[1..]));
    }
  }

  lemma DigitsOfXor(x: bv8, y: bv8)
    ensures Digits(x ^ y) == Odd(Digits(x), Digits(y))
  {
    DigitOfXor(x, y, 1);
    DigitOfXor(x, y, 2);
    DigitOfXor(x, y, 4);
    DigitOfXor(x, y, 8);
    DigitOfXor(x, y, 16);
    DigitOfXor(x, y, 32);
    DigitOfXor(x, y, 64);
    DigitOfXor(x, y, 128);
    SameLists(Digits(x ^ y), Odd(Digits(x), Digits(y)));
  }

  lemma SameLists(d: seq<nat>, e: seq<nat>)
    requires |d| == |e| == 8
    requires d[0] == e[0] && d[1] == e[1] && d[2] == e[2] && d[3] == e[3]
    requires d[4] == e[4] && d[5] == e[5] && d[6] == e[6] && d[7] == e[7]
    ensures d == e
  {
  }

  lemma DigitLists(x: bv8, y: bv8, d: seq<nat>, e: seq<nat>, f: seq<nat>)
    requires d == Digits(x) && e == Digits(y) && f == Digits(x ^ y)
    ensures |d| == |e| == 8 && Binary(d) && Binary(e) && f == Odd(d, e)
  {
    DigitsOfXor(x, y);
  }

  lemma XorOfLists(d: seq<nat>, e: seq<nat>, f: seq<nat>, a: nat, b: nat, n: nat)
    requires |d| == |e| == n && Binary(d) && Binary(e) && f == Odd(d, e)
    requires a == FromDigits(d) && b == FromDigits(e)
    ensures XorDigits(a, b, n) == FromDigits(f)
  {
    XorByDigits(d, e);
  }

  lemma XorOfBits(x: bv8, y: bv8, a: nat, b: nat, c: nat, n: nat)
    requires a == x as int && b == y as int && c == (x ^ y) as int && n == 8
    ensures XorDigits(a, b, n) == c
  {
    var d, e, f := Digits(x), Digits(y), Digits(x ^ y);
    DigitsMakeUp(x, d, a);
    DigitsMakeUp(y, e, b);
    DigitsMakeUp(x ^ y, f, c);
    DigitLists(x, y, d, e, f);
    XorOfLists(d, e, f, a, b, n);
  }

  lemma Small(c: nat, x: bv8)
    requires c == x as int
    ensures c < 256
  {
  }

  lemma XorIsXor(a: Byte, b: Byte, x: bv8, y: bv8, c: nat)
    requires x == a as bv8 && y == b as bv8 && c == (x ^ y) as int
    ensures Xor(a, b) == c
  {
    Back(a);
    Back(b);
    Small(c, x ^ y);
    XorOfBits(x, y, a, b, c, 8);
  }
  lemma Same(a: Byte, b: Byte, x: bv8)
    requires x == a as bv8 && x == b as bv8
    ensures a == b
  {
    Back(a);
    Back(b);
  }

  /** Exclusive or of two octets is that of their bits. */
  lemma XorBits(a: Byte, b: Byte)
    ensures Xor(a, b) as bv8 == a as bv8 ^ b as bv8
  {
    var x, y := a as bv8, b as bv8;
    XorIsXor(a, b, x, y, (x ^ y) as int);
    Forth(x ^ y);
  }

  /** The bits of `r` are the exclusive or of those of the four octets. */
  predicate IsXor(r: Byte, a: Byte, b: Byte, c: Byte, d: Byte) {
    r as bv8 == a as bv8 ^ b as bv8 ^ c as bv8 ^ d as bv8
  }

  lemma XorOfFour(a: Byte, b: Byte, c: Byte, d: Byte)
    ensures IsXor(Xor(Xor(a, b), Xor(c, d)), a, b, c, d)
  {
    XorBits(a, b);
    XorBits(c, d);
    XorBits(Xor(a, b), Xor(c, d));
  }

  /** There is one such octet. */
  lemma XorIsUnique(r: Byte, s: Byte, a: Byte, b: Byte, c: Byte, d: Byte)
    requires IsXor(r, a, b, c, d) && IsXor(s, a, b, c, d)
    ensures r == s
  {
    Same(r, s, r as bv8);
  }

  lemma OneDiffers(x: bv8, x': bv8, y: bv8, z: bv8, w: bv8)
    requires x != x'
    ensures x ^ y ^ z ^ w != x' ^ y ^ z ^ w && y ^ x ^ z ^ w != y ^ x' ^ z ^ w
    ensures y ^ z ^ x ^ w != y ^ z ^ x' ^ w && y ^ z ^ w ^ x != y ^ z ^ w ^ x'
  {
  }

  lemma DifferentBits(a: Byte, b: Byte)
    requires a != b
    ensures a as bv8 != b as bv8
  {
    Back(a);
    Back(b);
  }

  // Changing one of the four octets, wherever it stands, changes their exclusive or.

  lemma FirstShows(r: Byte, s: Byte, a: Byte, a': Byte, b: Byte, c: Byte, d: Byte)
    requires a != a' && IsXor(r, a, b, c, d) && IsXor(s, a', b, c, d)
    ensures r != s
  {
    DifferentBits(a, a');
    OneDiffers(a as bv8, a' as bv8, b as bv8, c as bv8, d as bv8);
  }

  lemma SecondShows(r: Byte, s: Byte, a: Byte, a': Byte, b: Byte, c: Byte, d: Byte)
    requires a != a' && IsXor(r, b, a, c, d) && IsXor(s, b, a', c, d)
    ensures r != s
  {
    DifferentBits(a, a');
    OneDiffers(a as bv8, a' as bv8, b as bv8, c as bv8, d as bv8);
  }

  lemma ThirdShows(r: Byte, s: Byte, a: Byte, a': Byte, b: Byte, c: Byte, d: Byte)
    requires a != a' && IsXor(r, b, c, a, d) && IsXor(s, b, c, a', d)
    ensures r != s
  {
    DifferentBits(a, a');
    OneDiffers(a as bv8, a' as bv8, b as bv8, c as bv8, d as bv8);
  }

  lemma FourthShows(r: Byte, s: Byte, a: Byte, a': Byte, b: Byte, c: Byte, d: Byte)
    requires a != a' && IsXor(r, b, c, d, a) && IsXor(s, b, c, d, a')
    ensures r != s
  {
    DifferentBits(a, a');
    OneDiffers(a as bv8, a' as bv8, b as bv8, c as bv8, d as bv8);
  }
}
