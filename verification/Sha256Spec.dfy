/** SHA-256 as FIPS 180-4 defines it, for messages of whole bytes. */
module Sha256Spec {
  import opened Bytes
  import opened ByteOrder

  type Word = bv32

  // ---- Functions and constants (sections 4.1.2, 4.2.2 and 5.3.3) ------------------------

  function Ch(x: Word, y: Word, z: Word): Word {
    (x & y) ^ (!x & z)
  }

  function Maj(x: Word, y: Word, z: Word): Word {
    Xor3(x & y, x & z, y & z)
  }

  function Xor3(x: Word, y: Word, z: Word): Word {
    x ^ y ^ z
  }

  /** Addition modulo 2^32, of two words or of more. */
  function Sum(x: Word, y: Word): Word {
    x + y
  }

  function Sum4(x: Word, y: Word, z: Word, u: Word): Word {
    x + y + z + u
  }

  function Sum5(x: Word, y: Word, z: Word, u: Word, v: Word): Word {
    x + y + z + u + v
  }

  function BigSigma0(x: Word): Word {
    Xor3(x.RotateRight(2), x.RotateRight(13), x.RotateRight(22))
  }

  function BigSigma1(x: Word): Word {
    Xor3(x.RotateRight(6), x.RotateRight(11), x.RotateRight(25))
  }

  function Sigma0(x: Word): Word {
    Xor3(x.RotateRight(7), x.RotateRight(18), x >> 3)
  }

  function Sigma1(x: Word): Word {
    Xor3(x.RotateRight(17), x.RotateRight(19), x >> 10)
  }

  const K: seq<Word> :=
    [0x428a2f98, 0x71374491, 0xb5c0fbcf, 0xe9b5dba5, 0x3956c25b, 0x59f111f1, 0x923f82a4, 0xab1c5ed5,
     0xd807aa98, 0x12835b01, 0x243185be, 0x550c7dc3, 0x72be5d74, 0x80deb1fe, 0x9bdc06a7, 0xc19bf174]
    + [0xe49b69c1, 0xefbe4786, 0x0fc19dc6, 0x240ca1cc, 0x2de92c6f, 0x4a7484aa, 0x5cb0a9dc, 0x76f988da,
       0x983e5152, 0xa831c66d, 0xb00327c8, 0xbf597fc7, 0xc6e00bf3, 0xd5a79147, 0x06ca6351, 0x14292967]
    + [0x27b70a85, 0x2e1b2138, 0x4d2c6dfc, 0x53380d13, 0x650a7354, 0x766a0abb, 0x81c2c92e, 0x92722c85,
       0xa2bfe8a1, 0xa81a664b, 0xc24b8b70, 0xc76c51a3, 0xd192e819, 0xd6990624, 0xf40e3585, 0x106aa070]
    + [0x19a4c116, 0x1e376c08, 0x2748774c, 0x34b0bcb5, 0x391c0cb3, 0x4ed8aa4a, 0x5b9cca4f, 0x682e6ff3,
       0x748f82ee, 0x78a5636f, 0x84c87814, 0x8cc70208, 0x90befffa, 0xa4506ceb, 0xbef9a3f7, 0xc67178f2]

  datatype Hash = Hash(a: Word, b: Word, c: Word, d: Word, e: Word, f: Word, g: Word, h: Word)

  const H0: Hash := Hash(0x6a09e667, 0xbb67ae85, 0x3c6ef372, 0xa54ff53a, 0x510e527f, 0x9b05688c, 0x1f83d9ab, 0x5be0cd19)

  // ---- One block (section 6.2.2) -------------------------------------------------------

  /** Four bytes as a word, the first the most significant. */
  function BigEndian(b: seq<byte>, i: nat): Word
    requires i + 4 <= |b|
  {
    (b[i] as bv32 << 24) | (b[i + 1] as bv32 << 16) | (b[i + 2] as bv32 << 8) | (b[i + 3] as bv32)
  }

  /** The message schedule. */
  function W(block: seq<byte>, t: nat): Word
    requires |block| == 64
  {
    if t < 16 then BigEndian(block, 4 * t)
    else Sum4(Sigma1(W(block, t - 2)), W(block, t - 7), Sigma0(W(block, t - 15)), W(block, t - 16))
  }

  function Round(r: Hash, k: Word, w: Word): Hash {
    var t1 := Sum5(r.h, BigSigma1(r.e), Ch(r.e, r.f, r.g), k, w);
    var t2 := Sum(BigSigma0(r.a), Maj(r.a, r.b, r.c));
    Hash(Sum(t1, t2), r.a, r.b, r.c, Sum(r.d, t1), r.e, r.f, r.g)
  }

  /** The working variables after `t` rounds. */
  function Rounds(h: Hash, block: seq<byte>, t: nat): Hash
    requires |block| == 64 && t <= 64
  {
    if t == 0 then h else Round(Rounds(h, block, t - 1), K[t - 1], W(block, t - 1))
  }

  function Compress(h: Hash, block: seq<byte>): Hash
    requires |block| == 64
  {
    var r := Rounds(h, block, 64);
    Hash(Sum(h.a, r.a), Sum(h.b, r.b), Sum(h.c, r.c), Sum(h.d, r.d), Sum(h.e, r.e), Sum(h.f, r.f), Sum(h.g, r.g),
      Sum(h.h, r.h))
  }

  /** The blocks of a padded message, one after the other. */
  function Fold(h: Hash, m: seq<byte>): Hash
    requires |m| % 64 == 0
    decreases |m|
  {
    if |m| == 0 then h else Fold(Compress(h, m[..64]), m[64..])
  }

  // ---- Padding (section 5.1.1) ----------------------------------------------------------

  /** The number of zero bytes that brings the length behind the marker to 56 modulo 64. */
  function ZeroCount(n: nat): (z: nat)
    ensures z < 64 && (n + 1 + z) % 64 == 56
  {
    (119 - n % 64) % 64
  }

  /** A message with its marker bit and `z` zero bytes. */
  function Marked(m: seq<byte>, z: nat): (p: seq<byte>)
    ensures |p| == |m| + 1 + z
  {
    m + [0x80] + Zeros(z)
  }

  function Padded(m: seq<byte>): (p: seq<byte>)
    ensures |p| % 64 == 0
  {
    Marked(m, ZeroCount(|m|)) + Be(8 * |m|, 8)
  }

  function Digest(m: seq<byte>): Hash {
    Fold(H0, Padded(m))
  }

  // ---- Facts ----------------------------------------------------------------------------

  lemma {:induction false} FoldAppend(h: Hash, a: seq<byte>, b: seq<byte>)
    requires |a| % 64 == 0 && |b| % 64 == 0
    ensures (|a + b|) % 64 == 0 && Fold(h, a + b) == Fold(Fold(h, a), b)
    decreases |a|
  {
    hide Compress;
    if a == [] {
      assert a + b == b;
    } else {
      FoldAppend(Compress(h, a[..64]), a[64..], b);
      assert (a + b)[..64] == a[..64] && (a + b)[64..] == a[64..] + b;
    }
  }
}
