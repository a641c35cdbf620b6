/**
  SHA-256 as FIPS 180-4 defines it, on bytes: section 4.1.2 for the functions, 4.2.2 for the constants,
  5.1.1 for the padding, 5.3.3 for the initial value and 6.2.2 for the computation.
 */
module Sha256Spec {
  import opened Common

  const WORD_MODULUS: nat := 0x1_0000_0000

  type Word = w: int | 0 <= w < WORD_MODULUS

  /** Addition modulo 2^32. */
  function Add(x: Word, y: Word): Word {
    (x + y) % WORD_MODULUS
  }

  function Bits(x: Word): bv32 {
    x as bv32
  }

  function Number(bits: bv32): Word {
    bits as int
  }

  function Rotr(x: bv32, n: nat): bv32
    requires 0 < n < 32
  {
    (x >> n) | (x << (32 - n))
  }

  function ChBits(x: bv32, y: bv32, z: bv32): bv32 {
    (x & y) ^ (!x & z)
  }

  function MajBits(x: bv32, y: bv32, z: bv32): bv32 {
    (x & y) ^ (x & z) ^ (y & z)
  }

  function BigSigma0Bits(x: bv32): bv32 {
    Rotr(x, 2) ^ Rotr(x, 13) ^ Rotr(x, 22)
  }

  function BigSigma1Bits(x: bv32): bv32 {
    Rotr(x, 6) ^ Rotr(x, 11) ^ Rotr(x, 25)
  }

  function SmallSigma0Bits(x: bv32): bv32 {
    Rotr(x, 7) ^ Rotr(x, 18) ^ (x >> 3)
  }

  function SmallSigma1Bits(x: bv32): bv32 {
    Rotr(x, 17) ^ Rotr(x, 19) ^ (x >> 10)
  }

  function Ch(x: Word, y: Word, z: Word): Word {
    Number(ChBits(Bits(x), Bits(y), Bits(z)))
  }

  function Maj(x: Word, y: Word, z: Word): Word {
    Number(MajBits(Bits(x), Bits(y), Bits(z)))
  }

  function BigSigma0(x: Word): Word {
    Number(BigSigma0Bits(Bits(x)))
  }

  function BigSigma1(x: Word): Word {
    Number(BigSigma1Bits(Bits(x)))
  }

  function SmallSigma0(x: Word): Word {
    Number(SmallSigma0Bits(Bits(x)))
  }

  function SmallSigma1(x: Word): Word {
    Number(SmallSigma1Bits(Bits(x)))
  }

  /** Eight constants a row. */
  const K: seq<seq<Word>> := [
    [0x428a2f98, 0x71374491, 0xb5c0fbcf, 0xe9b5dba5, 0x3956c25b, 0x59f111f1, 0x923f82a4, 0xab1c5ed5],
    [0xd807aa98, 0x12835b01, 0x243185be, 0x550c7dc3, 0x72be5d74, 0x80deb1fe, 0x9bdc06a7, 0xc19bf174],
    [0xe49b69c1, 0xefbe4786, 0x0fc19dc6, 0x240ca1cc, 0x2de92c6f, 0x4a7484aa, 0x5cb0a9dc, 0x76f988da],
    [0x983e5152, 0xa831c66d, 0xb00327c8, 0xbf597fc7, 0xc6e00bf3, 0xd5a79147, 0x06ca6351, 0x14292967],
    [0x27b70a85, 0x2e1b2138, 0x4d2c6dfc, 0x53380d13, 0x650a7354, 0x766a0abb, 0x81c2c92e, 0x92722c85],
    [0xa2bfe8a1, 0xa81a664b, 0xc24b8b70, 0xc76c51a3, 0xd192e819, 0xd6990624, 0xf40e3585, 0x106aa070],
    [0x19a4c116, 0x1e376c08, 0x2748774c, 0x34b0bcb5, 0x391c0cb3, 0x4ed8aa4a, 0x5b9cca4f, 0x682e6ff3],
    [0x748f82ee, 0x78a5636f, 0x84c87814, 0x8cc70208, 0x90befffa, 0xa4506ceb, 0xbef9a3f7, 0xc67178f2]]

  /** A round's constant. */
  function RoundConstant(t: nat): Word
    requires t < 64
  {
    K[t / 8][t % 8]
  }

  datatype Vars = Vars(a: Word, b: Word, c: Word, d: Word, e: Word, f: Word, g: Word, h: Word)

  const INITIAL := Vars(0x6a09e667, 0xbb67ae85, 0x3c6ef372, 0xa54ff53a, 0x510e527f, 0x9b05688c, 0x1f83d9ab, 0x5be0cd19)

  function BigEndian(b0: Byte, b1: Byte, b2: Byte, b3: Byte): Word {
    b0 * 0x1000000 + b1 * 0x10000 + b2 * 0x100 + b3
  }

  function WordBytes(w: Word): seq<Byte> {
    [w / 0x1000000, w / 0x10000 % 0x100, w / 0x100 % 0x100, w % 0x100]
  }

  type Block = s: seq<Byte> | |s| == 64 witness seq(64, _ => 0)

  /** The message schedule. */
  function Schedule(block: Block, t: nat): Word
    requires t < 64
  {
    if t < 16 then BigEndian(block[4 * t], block[4 * t + 1], block[4 * t + 2], block[4 * t + 3])
    else Add(Add(Add(SmallSigma1(Schedule(block, t - 2)), Schedule(block, t - 7)), SmallSigma0(Schedule(block, t - 15))),
             Schedule(block, t - 16))
  }

  function Round(v: Vars, k: Word, w: Word): Vars {
    var t1 := Add(Add(Add(Add(v.h, BigSigma1(v.e)), Ch(v.e, v.f, v.g)), k), w);
    var t2 := Add(BigSigma0(v.a), Maj(v.a, v.b, v.c));
    Vars(Add(t1, t2), v.a, v.b, v.c, Add(v.d, t1), v.e, v.f, v.g)
  }

  /** The working variables after `t` rounds. */
  function Rounds(v: Vars, block: Block, t: nat): Vars
    requires t <= 64
  {
    if t == 0 then v else Round(Rounds(v, block, t - 1), RoundConstant(t - 1), Schedule(block, t - 1))
  }

  function Plus(x: Vars, y: Vars): Vars {
    Vars(Add(x.a, y.a), Add(x.b, y.b), Add(x.c, y.c), Add(x.d, y.d), Add(x.e, y.e), Add(x.f, y.f), Add(x.g, y.g), Add(x.h, y.h))
  }

  function Compress(v: Vars, block: Block): Vars {
    Plus(v, Rounds(v, block, 64))
  }

  predicate WholeBlocks(m: seq<Byte>) {
    |m| % 64 == 0
  }

  /** The hash value after the blocks of `m`. */
  function HashBlocks(m: seq<Byte>): Vars
    requires WholeBlocks(m)
    decreases |m|
  {
    if m == [] then INITIAL else Compress(HashBlocks(m[..|m| - 64]), m[|m| - 64..])
  }

  function Power256(n: nat): (p: nat)
    ensures p > 0
  {
    if n == 0 then 1 else 0x100 * Power256(n - 1)
  }

  /** A length in bits as eight bytes, most significant first. */
  function LengthBytes(bits: nat): seq<Byte> {
    seq(8, i requires 0 <= i < 8 => bits / Power256(7 - i) % 0x100)
  }

  function Zeros(n: nat): seq<Byte> {
    seq(n, _ => 0)
  }

  /** The least number of zero bytes after which the length fills up the last block. */
  function ZeroCount(bytes: nat): (k: nat)
    ensures k < 64 && (bytes + 1 + k) % 64 == 56
  {
    (119 - bytes % 64) % 64
  }

  function Pad(m: seq<Byte>, bits: nat): (padded: seq<Byte>)
    ensures WholeBlocks(padded)
  {
    m + [0x80] + Zeros(ZeroCount(|m|)) + LengthBytes(bits)
  }

  function Digest(v: Vars): seq<Byte> {
    WordBytes(v.a) + WordBytes(v.b) + WordBytes(v.c) + WordBytes(v.d)
    + WordBytes(v.e) + WordBytes(v.f) + WordBytes(v.g) + WordBytes(v.h)
  }

  const MESSAGE_LIMIT: nat := 0x2000_0000_0000_0000

  /** The digest of a message, which the standard defines below 2^64 bits. */
  function Sha256(m: seq<Byte>): seq<Byte>
    requires |m| < MESSAGE_LIMIT
  {
    Digest(HashBlocks(Pad(m, 8 * |m|)))
  }
}
