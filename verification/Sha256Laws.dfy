/**
  The constants and functions of FIPS 180-4, tied to what that standard says they are: bits of square and cube
  roots of the first primes (sections 4.2.2 and 5.3.3), and functions on single bits (section 4.1.2).
 */
module Sha256Laws {
  import opened Common
  import opened Sha256Spec

  const TWO32: nat := 0x1_0000_0000

  /** The first 64 primes, eight a row. */
  const PRIMES: seq<seq<nat>> := [
    [2, 3, 5, 7, 11, 13, 17, 19],
    [23, 29, 31, 37, 41, 43, 47, 53],
    [59, 61, 67, 71, 73, 79, 83, 89],
    [97, 101, 103, 107, 109, 113, 127, 131],
    [137, 139, 149, 151, 157, 163, 167, 173],
    [179, 181, 191, 193, 197, 199, 211, 223],
    [227, 229, 233, 239, 241, 251, 257, 263],
    [269, 271, 277, 281, 283, 293, 307, 311]]

  /** The first 32 bits of the fractional part of the cube root of `p`, whose integer part is `whole`. */
  predicate CubeRootBits(p: nat, whole: nat, bits: nat) {
    var root := whole * TWO32 + bits;
    bits < TWO32 && root * root * root <= p * TWO32 * TWO32 * TWO32 < (root + 1) * (root + 1) * (root + 1)
  }

  predicate SquareRootBits(p: nat, whole: nat, bits: nat) {
    var root := whole * TWO32 + bits;
    bits < TWO32 && root * root <= p * TWO32 * TWO32 < (root + 1) * (root + 1)
  }

  /** The largest number whose cube is at most `p`. */
  function WholeCubeRoot(p: nat): nat {
    if p < 8 then 1 else if p < 27 then 2 else if p < 64 then 3 else if p < 125 then 4 else if p < 216 then 5 else 6
  }

  predicate FromCubeRoot(p: nat, bits: nat) {
    CubeRootBits(p, WholeCubeRoot(p), bits)
  }

  predicate RowFromCubeRoots(primes: seq<nat>, row: seq<Word>) {
    && |primes| == |row| == 8
    && FromCubeRoot(primes[0], row[0]) && FromCubeRoot(primes[1], row[1]) && FromCubeRoot(primes[2], row[2])
    && FromCubeRoot(primes[3], row[3]) && FromCubeRoot(primes[4], row[4]) && FromCubeRoot(primes[5], row[5])
    && FromCubeRoot(primes[6], row[6]) && FromCubeRoot(primes[7], row[7])
  }

  lemma CubeRoots0()
    ensures RowFromCubeRoots(PRIMES[0], K[0])
  {
    assert FromCubeRoot(2, 0x428a2f98);
    assert FromCubeRoot(3, 0x71374491);
    assert FromCubeRoot(5, 0xb5c0fbcf);
    assert FromCubeRoot(7, 0xe9b5dba5);
    assert FromCubeRoot(11, 0x3956c25b);
    assert FromCubeRoot(13, 0x59f111f1);
    assert FromCubeRoot(17, 0x923f82a4);
    assert FromCubeRoot(19, 0xab1c5ed5);
  }

  lemma CubeRoots1()
    ensures RowFromCubeRoots(PRIMES[1], K[1])
  {
    assert FromCubeRoot(23, 0xd807aa98);
    assert FromCubeRoot(29, 0x12835b01);
    assert FromCubeRoot(31, 0x243185be);
    assert FromCubeRoot(37, 0x550c7dc3);
    assert FromCubeRoot(41, 0x72be5d74);
    assert FromCubeRoot(43, 0x80deb1fe);
    assert FromCubeRoot(47, 0x9bdc06a7);
    assert FromCubeRoot(53, 0xc19bf174);
  }

  lemma CubeRoots2()
    ensures RowFromCubeRoots(PRIMES[2], K[2])
  {
    assert FromCubeRoot(59, 0xe49b69c1);
    assert FromCubeRoot(61, 0xefbe4786);
    assert FromCubeRoot(67, 0x0fc19dc6);
    assert FromCubeRoot(71, 0x240ca1cc);
    assert FromCubeRoot(73, 0x2de92c6f);
    assert FromCubeRoot(79, 0x4a7484aa);
    assert FromCubeRoot(83, 0x5cb0a9dc);
    assert FromCubeRoot(89, 0x76f988da);
  }

  lemma CubeRoots3()
    ensures RowFromCubeRoots(PRIMES[3], K[3])
  {
    assert FromCubeRoot(97, 0x983e5152);
    assert FromCubeRoot(101, 0xa831c66d);
    assert FromCubeRoot(103, 0xb00327c8);
    assert FromCubeRoot(107, 0xbf597fc7);
    assert FromCubeRoot(109, 0xc6e00bf3);
    assert FromCubeRoot(113, 0xd5a79147);
    assert FromCubeRoot(127, 0x06ca6351);
    assert FromCubeRoot(131, 0x14292967);
  }

  lemma CubeRoots4()
    ensures RowFromCubeRoots(PRIMES[4], K[4])
  {
    assert FromCubeRoot(137, 0x27b70a85);
    assert FromCubeRoot(139, 0x2e1b2138);
    assert FromCubeRoot(149, 0x4d2c6dfc);
    assert FromCubeRoot(151, 0x53380d13);
    assert FromCubeRoot(157, 0x650a7354);
    assert FromCubeRoot(163, 0x766a0abb);
    assert FromCubeRoot(167, 0x81c2c92e);
    assert FromCubeRoot(173, 0x92722c85);
  }

  lemma CubeRoots5()
    ensures RowFromCubeRoots(PRIMES[5], K[5])
  {
    assert FromCubeRoot(179, 0xa2bfe8a1);
    assert FromCubeRoot(181, 0xa81a664b);
    assert FromCubeRoot(191, 0xc24b8b70);
    assert FromCubeRoot(193, 0xc76c51a3);
    assert FromCubeRoot(197, 0xd192e819);
    assert FromCubeRoot(199, 0xd6990624);
    assert FromCubeRoot(211, 0xf40e3585);
    assert FromCubeRoot(223, 0x106aa070);
  }

  lemma CubeRoots6()
    ensures RowFromCubeRoots(PRIMES[6], K[6])
  {
    assert FromCubeRoot(227, 0x19a4c116);
    assert FromCubeRoot(229, 0x1e376c08);
    assert FromCubeRoot(233, 0x2748774c);
    assert FromCubeRoot(239, 0x34b0bcb5);
    assert FromCubeRoot(241, 0x391c0cb3);
    assert FromCubeRoot(251, 0x4ed8aa4a);
    assert FromCubeRoot(257, 0x5b9cca4f);
    assert FromCubeRoot(263, 0x682e6ff3);
  }

  lemma CubeRoots7()
    ensures RowFromCubeRoots(PRIMES[7], K[7])
  {
    assert FromCubeRoot(269, 0x748f82ee);
    assert FromCubeRoot(271, 0x78a5636f);
    assert FromCubeRoot(277, 0x84c87814);
    assert FromCubeRoot(281, 0x8cc70208);
    assert FromCubeRoot(283, 0x90befffa);
    assert FromCubeRoot(293, 0xa4506ceb);
    assert FromCubeRoot(307, 0xbef9a3f7);
    assert FromCubeRoot(311, 0xc67178f2);
  }

  /** The round constants are bits of the cube roots of the first 64 primes. */
  lemma RoundConstantsAreCubeRoots(row: nat)
    requires row < 8
    ensures |PRIMES| == |K| == 8 && RowFromCubeRoots(PRIMES[row], K[row])
  {
    match row
    case 0 => CubeRoots0();
    case 1 => CubeRoots1();
    case 2 => CubeRoots2();
    case 3 => CubeRoots3();
    case 4 => CubeRoots4();
    case 5 => CubeRoots5();
    case 6 => CubeRoots6();
    case _ => CubeRoots7();
  }

  /** The initial value is bits of the square roots of the first eight primes. */
  lemma InitialIsSquareRoots()
    ensures SquareRootBits(2, 1, INITIAL.a) && SquareRootBits(3, 1, INITIAL.b) && SquareRootBits(5, 2, INITIAL.c)
    ensures SquareRootBits(7, 2, INITIAL.d) && SquareRootBits(11, 3, INITIAL.e) && SquareRootBits(13, 3, INITIAL.f)
    ensures SquareRootBits(17, 4, INITIAL.g) && SquareRootBits(19, 4, INITIAL.h)
  {
  }

  /** What the rotations bring to the lowest bit, and for the two with a shift to the highest one. */
  lemma SigmasOnBits(x: bv32)
    ensures BigSigma0Bits(x) & 1 == ((x >> 2) ^ (x >> 13) ^ (x >> 22)) & 1
    ensures BigSigma1Bits(x) & 1 == ((x >> 6) ^ (x >> 11) ^ (x >> 25)) & 1
    ensures SmallSigma0Bits(x) & 1 == ((x >> 7) ^ (x >> 18) ^ (x >> 3)) & 1
    ensures SmallSigma1Bits(x) & 1 == ((x >> 17) ^ (x >> 19) ^ (x >> 10)) & 1
    ensures SmallSigma0Bits(x) >> 31 == ((x >> 6) ^ (x >> 17)) & 1
    ensures SmallSigma1Bits(x) >> 31 == ((x >> 16) ^ (x >> 18)) & 1
  {
  }

  /** The first argument chooses between the other two, and the majority decides. */
  lemma ChoiceAndMajority(x: bv32, y: bv32)
    ensures ChBits(0xFFFF_FFFF, x, y) == x && ChBits(0, x, y) == y
    ensures MajBits(x, x, y) == x && MajBits(x, y, x) == x && MajBits(y, x, x) == x
  {
  }

  lemma LastByte(high: nat, low: Byte)
    ensures (high * 256 + low) / 0x100 == high && (high * 256 + low) % 0x100 == low
  {
  }

  lemma Quotients(w: nat)
    ensures w / 0x10000 == w / 0x100 / 0x100 && w / 0x1000000 == w / 0x100 / 0x100 / 0x100
  {
  }

  /** Words are written most significant byte first, and read back. */
  lemma WordsAreBigEndian(b0: Byte, b1: Byte, b2: Byte, b3: Byte)
    ensures BigEndian(b0, b1, b2, b3) == ((b0 * 256 + b1) * 256 + b2) * 256 + b3
    ensures WordBytes(BigEndian(b0, b1, b2, b3)) == [b0, b1, b2, b3]
  {
    var w := BigEndian(b0, b1, b2, b3);
    assert w == ((b0 * 256 + b1) * 256 + b2) * 256 + b3;
    LastByte((b0 * 256 + b1) * 256 + b2, b3);
    LastByte(b0 * 256 + b1, b2);
    LastByte(b0, b1);
    Quotients(w);
    hide *;
    assert w / 0x100 == (b0 * 256 + b1) * 256 + b2 && w / 0x10000 == b0 * 256 + b1 && w / 0x1000000 == b0;
  }

  /** So is the length: its bytes spell the number of bits, modulo 2^64. */
  lemma LengthIsBigEndian(bits: nat)
    ensures LengthBytes(bits) ==
            [bits / 0x100_0000_0000_0000 % 256, bits / 0x1_0000_0000_0000 % 256, bits / 0x100_0000_0000 % 256,
             bits / 0x1_0000_0000 % 256, bits / 0x100_0000 % 256, bits / 0x1_0000 % 256, bits / 0x100 % 256, bits % 256]
  {
    assert Power256(1) == 0x100 && Power256(2) == 0x1_0000 && Power256(3) == 0x100_0000 && Power256(4) == 0x1_0000_0000;
    assert Power256(5) == 0x100_0000_0000 && Power256(6) == 0x1_0000_0000_0000 && Power256(7) == 0x100_0000_0000_0000;
  }
}
