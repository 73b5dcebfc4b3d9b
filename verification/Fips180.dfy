/** SHA-1 as FIPS 180-4 defines it: sections 4.1.1, 4.2.1, 5.1.1, 5.3.1 and 6.1. */
module Fips180 {

  type Word = bv32

  type Byte = b: Word | b <= 0xFF

  function Rotl1(x: Word): Word { (x << 1) | (x >> 31) }
  function Rotl5(x: Word): Word { (x << 5) | (x >> 27) }
  function Rotl30(x: Word): Word { (x << 30) | (x >> 2) }

  function Ch(x: Word, y: Word, z: Word): Word { (x & y) ^ (!x & z) }
  function Parity(x: Word, y: Word, z: Word): Word { x ^ y ^ z }
  function Maj(x: Word, y: Word, z: Word): Word { (x & y) ^ (x & z) ^ (y & z) }

  function F(t: nat, x: Word, y: Word, z: Word): Word {
    if t < 20 then Ch(x, y, z) else if 40 <= t < 60 then Maj(x, y, z) else Parity(x, y, z)
  }

  function K(t: nat): Word {
    if t < 20 then 0x5A827999 else if t < 40 then 0x6ED9EBA1 else if t < 60 then 0x8F1BBCDC else 0xCA62C1D6
  }

  /** Four bytes, the most significant first. */
  function BigEndian(b0: Byte, b1: Byte, b2: Byte, b3: Byte): Word {
    (b0 << 24) | (b1 << 16) | (b2 << 8) | b3
  }

  function Load(block: seq<Byte>, t: nat): Word
    requires |block| == 64 && t < 16
  {
    BigEndian(block[4 * t], block[4 * t + 1], block[4 * t + 2], block[4 * t + 3])
  }

  /** The message schedule. */
  function W(block: seq<Byte>, t: nat): Word
    requires |block| == 64
  {
    if t < 16 then Load(block, t)
    else Rotl1(W(block, t - 3) ^ W(block, t - 8) ^ W(block, t - 14) ^ W(block, t - 16))
  }

  datatype Hash = Hash(a: Word, b: Word, c: Word, d: Word, e: Word)

  const INITIAL := Hash(0x67452301, 0xEFCDAB89, 0x98BADCFE, 0x10325476, 0xC3D2E1F0)

  function Square(n: int): int {
    n * n
  }

  const SQUARE_OF_SCALE: nat := 0x1000_0000_0000_0000

  /** The constants of section 4.2.1 are the integer parts of 2^30 times the square roots of 2, 3, 5 and 10. */
  lemma ConstantsAreRoots(t: nat)
    requires t < 80
    ensures var n, k := if t < 20 then 2 else if t < 40 then 3 else if t < 60 then 5 else 10, K(t) as int;
      Square(k) <= n * SQUARE_OF_SCALE < Square(k + 1)
  {
    assert 0x5A827999 as Word as int == 0x5A827999 && 0x6ED9EBA1 as Word as int == 0x6ED9EBA1;
    assert 0x8F1BBCDC as Word as int == 0x8F1BBCDC && 0xCA62C1D6 as Word as int == 0xCA62C1D6;
  }

  /** The initial hash value of section 5.3.1, byte by byte: in memory order of a little-endian machine it counts up from 01 to EF
      in steps of 22, and down again. */
  lemma InitialBytes()
    ensures WordBytes(INITIAL.a) == [0x67, 0x45, 0x23, 0x01] && WordBytes(INITIAL.b) == [0xEF, 0xCD, 0xAB, 0x89]
    ensures WordBytes(INITIAL.c) == [0x98, 0xBA, 0xDC, 0xFE] && WordBytes(INITIAL.d) == [0x10, 0x32, 0x54, 0x76]
    ensures WordBytes(INITIAL.e) == [0xC3, 0xD2, 0xE1, 0xF0]
  {
  }

  /** Addition modulo 2^32, of two words and of five. */
  function Plus(x: Word, y: Word): Word { x + y }

  function Total(u: Word, v: Word, x: Word, y: Word, z: Word): Word { u + v + x + y + z }

  function Round(h: Hash, t: nat, w: Word): Hash {
    Hash(Total(Rotl5(h.a), F(t, h.b, h.c, h.d), h.e, K(t), w), h.a, Rotl30(h.b), h.c, h.d)
  }

  /** The working variables after the first `t` rounds. */
  function Rounds(h: Hash, block: seq<Byte>, t: nat): Hash
    requires |block| == 64
  {
    if t == 0 then h else Round(Rounds(h, block, t - 1), t - 1, W(block, t - 1))
  }

  function Sum(h: Hash, g: Hash): Hash {
    Hash(Plus(h.a, g.a), Plus(h.b, g.b), Plus(h.c, g.c), Plus(h.d, g.d), Plus(h.e, g.e))
  }

  function Compress(h: Hash, block: seq<Byte>, rounds: nat): Hash
    requires |block| == 64
  {
    Sum(h, Rounds(h, block, rounds))
  }

  function RoundCount(): nat { 80 }

  /** The intermediate hash value after all whole blocks of the message. */
  function Digest(h: Hash, m: seq<Byte>): Hash
    decreases |m|
  {
    if |m| < 64 then h else Digest(Compress(h, m[..64], RoundCount()), m[64..])
  }

  function ByteOf(x: nat): Byte { (x % 256) as Word }

  /** The last `n` bytes of a number, the most significant first. */
  function BytesOf(x: nat, n: nat): (r: seq<Byte>)
    ensures |r| == n
  {
    if n == 0 then [] else BytesOf(x / 256, n - 1) + [ByteOf(x)]
  }

  function Zeros(n: nat): (r: seq<Byte>)
    ensures |r| == n
  {
    seq(n, _ => 0)
  }

  function ZeroCount(length: nat): nat { (119 - length % 64) % 64 }

  /** A one bit, the smallest number of zero bits that leaves room for the length, and the length in bits. */
  function PaddingFor(length: nat, bits: nat): seq<Byte> {
    [0x80] + Zeros(ZeroCount(length)) + BytesOf(bits, 8)
  }

  function Padding(length: nat): seq<Byte> {
    PaddingFor(length, 8 * length)
  }

  function WordBytes(w: Word): seq<Byte> {
    [w >> 24, (w >> 16) & 0xFF, (w >> 8) & 0xFF, w & 0xFF]
  }

  function HashBytes(h: Hash): seq<Byte> {
    WordBytes(h.a) + WordBytes(h.b) + WordBytes(h.c) + WordBytes(h.d) + WordBytes(h.e)
  }

  function Sha1(m: seq<Byte>): seq<Byte> {
    HashBytes(Digest(INITIAL, m + Padding(|m|)))
  }

  lemma {:induction false} DigestJoin(h: Hash, a: seq<Byte>, b: seq<Byte>)
    requires |a| % 64 == 0
    ensures Digest(h, a + b) == Digest(Digest(h, a), b)
    decreases |a|
  {
    if |a| == 0 {
      assert a + b == b;
    } else {
      assert (a + b)[..64] == a[..64] && (a + b)[64..] == a[64..] + b;
      DigestJoin(Compress(h, a[..64], RoundCount()), a[64..], b);
    }
  }

  lemma ZerosFill(length: nat)
    ensures (length + 9 + ZeroCount(length)) % 64 == 0
  {
    var q, r := length / 64, length % 64;
    assert length == 64 * q + r;
    if r <= 55 {
      assert ZeroCount(length) == 55 - r && length + 9 + ZeroCount(length) == 64 * (q + 1);
    } else {
      assert ZeroCount(length) == 119 - r && length + 9 + ZeroCount(length) == 64 * (q + 2);
    }
  }

  /** The padding fills the last block, and is the shortest that can. */
  lemma PaddingFills(length: nat)
    ensures (length + |Padding(length)|) % 64 == 0
    ensures 9 <= |Padding(length)| <= 72
  {
    assert |Padding(length)| == 9 + ZeroCount(length);
    ZerosFill(length);
  }
}
