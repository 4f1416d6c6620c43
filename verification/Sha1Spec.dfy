/** SHA-1 as FIPS PUB 180-1 defines it: padding (section 4), functions and constants (5 and 6),
    and the digest (7). */
module Sha1Spec {
  import opened Bytes

  const BLOCK: nat := 64

  /** Five words. */
  datatype Words = Words(a: bv32, b: bv32, c: bv32, d: bv32, e: bv32)

  const INITIAL := Words(0x67452301, 0xEFCDAB89, 0x98BADCFE, 0x10325476, 0xC3D2E1F0)

  /** Circular left shift. */
  function Rotated(x: bv32, n: nat): bv32
    requires 0 < n < 32
  {
    (x << n) | (x >> (32 - n))
  }

  function Chosen(b: bv32, c: bv32, d: bv32): bv32 {
    (b & c) | ((!b) & d)
  }

  function Parity(b: bv32, c: bv32, d: bv32): bv32 {
    b ^ c ^ d
  }

  function Majority(b: bv32, c: bv32, d: bv32): bv32 {
    (b & c) | (b & d) | (c & d)
  }

  function F(t: nat, b: bv32, c: bv32, d: bv32): bv32 {
    if t < 20 then Chosen(b, c, d)
    else if t < 40 then Parity(b, c, d)
    else if t < 60 then Majority(b, c, d)
    else Parity(b, c, d)
  }

  function K(t: nat): bv32 {
    if t < 20 then 0x5A827999 else if t < 40 then 0x6ED9EBA1 else if t < 60 then 0x8F1BBCDC else 0xCA62C1D6
  }

  function Joined(b0: byte, b1: byte, b2: byte, b3: byte): bv32 {
    ((b0 as bv32) << 24) | ((b1 as bv32) << 16) | ((b2 as bv32) << 8) | (b3 as bv32)
  }

  function Mixed(w: bv32, x: bv32, y: bv32, z: bv32): bv32 {
    Rotated(w ^ x ^ y ^ z, 1)
  }

  /** The word sequence of a block. */
  function W(block: seq<byte>, t: nat): bv32
    requires |block| == BLOCK
  {
    if t < 16 then Joined(block[4 * t], block[4 * t + 1], block[4 * t + 2], block[4 * t + 3])
    else Mixed(W(block, t - 3), W(block, t - 8), W(block, t - 14), W(block, t - 16))
  }

  function Sum(a: bv32, f: bv32, e: bv32, w: bv32, k: bv32): bv32 {
    Rotated(a, 5) + f + e + w + k
  }

  function Round(s: Words, t: nat, w: bv32): Words {
    Words(Sum(s.a, F(t, s.b, s.c, s.d), s.e, w, K(t)), s.a, Rotated(s.b, 30), s.c, s.d)
  }

  function Rounds(s: Words, block: seq<byte>, t: nat): Words
    requires |block| == BLOCK
  {
    if t == 0 then s else Round(Rounds(s, block, t - 1), t - 1, W(block, t - 1))
  }

  function Added(s: Words, r: Words): Words {
    Words(s.a + r.a, s.b + r.b, s.c + r.c, s.d + r.d, s.e + r.e)
  }

  function Compressed(h: Words, block: seq<byte>): Words
    requires |block| == BLOCK
  {
    Added(h, Rounds(h, block, 80))
  }

  /** The words after `k` blocks. */
  function Absorbed(m: seq<byte>, k: nat): Words
    requires |m| == BLOCK * k
  {
    if k == 0 then INITIAL else Compressed(Absorbed(m[..BLOCK * (k - 1)], k - 1), m[BLOCK * (k - 1)..])
  }

  /** How many bytes of zeroes bring the message and its first padding byte to 56 more than a
      multiple of 64. */
  function ZeroCount(n: nat): (k: nat)
    ensures k < 64
  {
    if n % 64 <= 55 then 55 - n % 64 else 119 - n % 64
  }

  function Padded(m: seq<byte>): seq<byte> {
    m + [0x80] + Zeros(ZeroCount(|m|)) + BigEndian(8 * |m|, 8)
  }

  lemma PaddedLength(m: seq<byte>)
    ensures |Padded(m)| == BLOCK * ((|m| + 8) / 64 + 1)
  {
    var q, r := |m| / 64, |m| % 64;
    assert |m| == 64 * q + r;
    if r <= 55 {
      assert (|m| + 8) / 64 == q;
    } else {
      assert (|m| + 8) / 64 == q + 1;
    }
  }

  /** The message digest. */
  function Digest(m: seq<byte>): Words {
    PaddedLength(m);
    Absorbed(Padded(m), (|m| + 8) / 64 + 1)
  }
}
