/**
 Where the constants of SHA-256 come from (sections 4.2.2 and 5.3.3 of FIPS 180-4): the first 32 bits
 of the fractional parts of the cube roots, or square roots, of the first prime numbers.
 */
module Sha256Constants {
  import opened Sha256Spec
  import opened Arithmetic

  // ---- primes ----------------------------------------------------------------------------

  ghost predicate Divides(d: nat, n: nat)
    requires d > 0
  {
    n % d == 0
  }

  ghost predicate Prime(n: nat) {
    n >= 2 && forall d: nat | 2 <= d < n :: !Divides(d, n)
  }

  const PRIMES: seq<nat> :=
    [2, 3, 5, 7, 11, 13, 17, 19, 23, 29, 31, 37, 41, 43, 47, 53]
    + [59, 61, 67, 71, 73, 79, 83, 89, 97, 101, 103, 107, 109, 113, 127, 131]
    + [137, 139, 149, 151, 157, 163, 167, 173, 179, 181, 191, 193, 197, 199, 211, 223]
    + [227, 229, 233, 239, 241, 251, 257, 263, 269, 271, 277, 281, 283, 293, 307, 311]

  /** None of the primes up to 17 divides `n`. */
  predicate Sieved(n: nat) {
    n % 2 != 0 && n % 3 != 0 && n % 5 != 0 && n % 7 != 0 && n % 11 != 0 && n % 13 != 0 && n % 17 != 0
  }

  lemma SmallFactor(x: nat) returns (q: nat)
    requires 2 <= x <= 18
    ensures q in {2, 3, 5, 7, 11, 13, 17} && x % q == 0
  {
    q := if x % 2 == 0 then 2 else if x % 3 == 0 then 3 else x;
  }

  lemma FactorOfFactor(n: nat, x: nat, y: nat, q: nat)
    requires n == x * y && q > 0 && x % q == 0
    ensures n % q == 0
  {
    var f := x / q;
    assert n == (f * y) * q by { assert x == f * q; assert (f * q) * y == (f * y) * q; }
    Division(n, q, f * y, 0);
  }

  /** Below the square of 19 the seven primes are enough. */
  lemma SieveIsEnough(n: nat)
    requires 17 < n < 361
    ensures Prime(n) <==> Sieved(n)
  {
    if Prime(n) {
      assert !Divides(2, n) && !Divides(3, n) && !Divides(5, n) && !Divides(7, n);
      assert !Divides(11, n) && !Divides(13, n) && !Divides(17, n);
    }
    if d: nat :| 2 <= d < n && Divides(d, n) {
      var e := n / d;
      Cofactor(n, d, e);
      if d <= 18 {
        var q := SmallFactor(d);
        FactorOfFactor(n, d, e, q);
      } else {
        var q := SmallFactor(e);
        FactorOfFactor(n, e, d, q);
      }
    }
  }

  lemma Cofactor(n: nat, d: nat, e: nat)
    requires 17 < n < 361 && 2 <= d < n && n % d == 0 && e == n / d
    ensures n == d * e == e * d && 2 <= e && (d <= 18 || e <= 18)
  {
    assert n == d * e;
    assert e >= 2 || d * e <= d by { if e < 2 { Product(d, e, 1); } }
    assert d <= 18 || e <= 18 || d * e >= 361 by {
      if d >= 19 && e >= 19 { Product(d, 19, e); }
    }
  }

  /** `q` is the next prime after `p`. */
  ghost predicate Follows(p: nat, q: nat) {
    p < q && Prime(q) && forall n: nat | p < n < q :: !Prime(n)
  }

  /** No number from `n` up to `q` passes the sieve before `q` itself. */
  predicate Gap(n: nat, q: nat)
    decreases q - n
  {
    if n >= q then Sieved(q) else !Sieved(n) && Gap(n + 1, q)
  }

  lemma {:induction false} GapMeans(n: nat, q: nat, x: nat)
    requires Gap(n, q) && n <= x < q
    ensures !Sieved(x) && Sieved(q)
    decreases q - n
  {
    hide Sieved;
    if n < x { GapMeans(n + 1, q, x); } else { GapEnds(n + 1, q); }
  }

  lemma {:induction false} GapEnds(n: nat, q: nat)
    requires Gap(n, q)
    ensures Sieved(q)
    decreases q - n
  {
    hide Sieved;
    if n < q { GapEnds(n + 1, q); }
  }

  lemma Next(p: nat, q: nat)
    requires 17 <= p < q < 361 && Gap(p + 1, q)
    ensures Follows(p, q)
  {
    hide Sieved, Prime;
    GapEnds(p + 1, q);
    SieveIsEnough(q);
    forall n: nat | p < n < q ensures !Prime(n) {
      GapMeans(p + 1, q, n);
      SieveIsEnough(n);
    }
  }

  lemma SmallPrimes()
    ensures Prime(2) && Follows(2, 3) && Follows(3, 5) && Follows(5, 7) && Follows(7, 11) && Follows(11, 13)
    ensures Follows(13, 17) && forall n: nat | n < 2 :: !Prime(n)
  {
    assert Divides(2, 4) && Divides(2, 6) && Divides(2, 8) && Divides(3, 9) && Divides(2, 10) && Divides(2, 12);
    assert Divides(2, 14) && Divides(3, 15) && Divides(2, 16);
  }

  lemma PrimesFrom17()
    ensures Follows(17, 19) && Follows(19, 23) && Follows(23, 29) && Follows(29, 31)
    ensures Follows(31, 37) && Follows(37, 41) && Follows(41, 43) && Follows(43, 47)
  {
    hide Follows;
    Next(17, 19) by { assert Gap(18, 19); } Next(19, 23) by { assert Gap(20, 23); }
    Next(23, 29) by { assert Gap(24, 29); } Next(29, 31) by { assert Gap(30, 31); }
    Next(31, 37) by { assert Gap(32, 37); } Next(37, 41) by { assert Gap(38, 41); }
    Next(41, 43) by { assert Gap(42, 43); } Next(43, 47) by { assert Gap(44, 47); }
  }

  lemma PrimesFrom47()
    ensures Follows(47, 53) && Follows(53, 59) && Follows(59, 61) && Follows(61, 67)
    ensures Follows(67, 71) && Follows(71, 73) && Follows(73, 79) && Follows(79, 83)
  {
    hide Follows;
    Next(47, 53) by { assert Gap(48, 53); } Next(53, 59) by { assert Gap(54, 59); }
    Next(59, 61) by { assert Gap(60, 61); } Next(61, 67) by { assert Gap(62, 67); }
    Next(67, 71) by { assert Gap(68, 71); } Next(71, 73) by { assert Gap(72, 73); }
    Next(73, 79) by { assert Gap(74, 79); } Next(79, 83) by { assert Gap(80, 83); }
  }

  lemma PrimesFrom83()
    ensures Follows(83, 89) && Follows(89, 97) && Follows(97, 101) && Follows(101, 103)
    ensures Follows(103, 107) && Follows(107, 109) && Follows(109, 113) && Follows(113, 127)
  {
    hide Follows;
    Next(83, 89) by { assert Gap(84, 89); } Next(89, 97) by { assert Gap(90, 97); }
    Next(97, 101) by { assert Gap(98, 101); } Next(101, 103) by { assert Gap(102, 103); }
    Next(103, 107) by { assert Gap(104, 107); } Next(107, 109) by { assert Gap(108, 109); }
    Next(109, 113) by { assert Gap(110, 113); } Next(113, 127) by { assert Gap(114, 127); }
  }

  lemma PrimesFrom127()
    ensures Follows(127, 131) && Follows(131, 137) && Follows(137, 139) && Follows(139, 149)
    ensures Follows(149, 151) && Follows(151, 157) && Follows(157, 163) && Follows(163, 167)
  {
    hide Follows;
    Next(127, 131) by { assert Gap(128, 131); } Next(131, 137) by { assert Gap(132, 137); }
    Next(137, 139) by { assert Gap(138, 139); } Next(139, 149) by { assert Gap(140, 149); }
    Next(149, 151) by { assert Gap(150, 151); } Next(151, 157) by { assert Gap(152, 157); }
    Next(157, 163) by { assert Gap(158, 163); } Next(163, 167) by { assert Gap(164, 167); }
  }

  lemma PrimesFrom167()
    ensures Follows(167, 173) && Follows(173, 179) && Follows(179, 181) && Follows(181, 191)
    ensures Follows(191, 193) && Follows(193, 197) && Follows(197, 199) && Follows(199, 211)
  {
    hide Follows;
    Next(167, 173) by { assert Gap(168, 173); } Next(173, 179) by { assert Gap(174, 179); }
    Next(179, 181) by { assert Gap(180, 181); } Next(181, 191) by { assert Gap(182, 191); }
    Next(191, 193) by { assert Gap(192, 193); } Next(193, 197) by { assert Gap(194, 197); }
    Next(197, 199) by { assert Gap(198, 199); } Next(199, 211) by { assert Gap(200, 211); }
  }

  lemma PrimesFrom211()
    ensures Follows(211, 223) && Follows(223, 227) && Follows(227, 229) && Follows(229, 233)
    ensures Follows(233, 239) && Follows(239, 241) && Follows(241, 251) && Follows(251, 257)
  {
    hide Follows;
    Next(211, 223) by { assert Gap(212, 223); } Next(223, 227) by { assert Gap(224, 227); }
    Next(227, 229) by { assert Gap(228, 229); } Next(229, 233) by { assert Gap(230, 233); }
    Next(233, 239) by { assert Gap(234, 239); } Next(239, 241) by { assert Gap(240, 241); }
    Next(241, 251) by { assert Gap(242, 251); } Next(251, 257) by { assert Gap(252, 257); }
  }

  lemma PrimesFrom257()
    ensures Follows(257, 263) && Follows(263, 269) && Follows(269, 271) && Follows(271, 277)
    ensures Follows(277, 281) && Follows(281, 283) && Follows(283, 293) && Follows(293, 307)
  {
    hide Follows;
    Next(257, 263) by { assert Gap(258, 263); } Next(263, 269) by { assert Gap(264, 269); }
    Next(269, 271) by { assert Gap(270, 271); } Next(271, 277) by { assert Gap(272, 277); }
    Next(277, 281) by { assert Gap(278, 281); } Next(281, 283) by { assert Gap(282, 283); }
    Next(283, 293) by { assert Gap(284, 293); } Next(293, 307) by { assert Gap(294, 307); }
  }

  lemma PrimesFrom307()
    ensures Follows(307, 311)
  {
    hide Follows;
    Next(307, 311) by { assert Gap(308, 311); }
  }

  ghost predicate Link(i: nat)
    requires i < 63
  {
    Follows(PRIMES[i], PRIMES[i + 1])
  }

  /** The list is the first 64 primes: it starts with 2, and each is followed by the next one. */
  lemma FirstPrimes(i: nat)
    requires i < 63
    ensures |PRIMES| == 64 && PRIMES[0] == 2 && Prime(2) && Link(i)
  {
    hide Follows, Prime;
    SmallPrimes();
    if 6 <= i < 14 { PrimesFrom17(); }
    else if 14 <= i < 22 { PrimesFrom47(); }
    else if 22 <= i < 30 { PrimesFrom83(); }
    else if 30 <= i < 38 { PrimesFrom127(); }
    else if 38 <= i < 46 { PrimesFrom167(); }
    else if 46 <= i < 54 { PrimesFrom211(); }
    else if 54 <= i < 62 { PrimesFrom257(); }
    else if i == 62 { PrimesFrom307(); }
  }

  // ---- roots -----------------------------------------------------------------------------

  const UNIT: nat := 0x1_0000_0000

  /** The whole part of the cube root of a number below 343. */
  function Whole(p: nat): nat {
    if p < 8 then 1 else if p < 27 then 2 else if p < 64 then 3 else if p < 125 then 4 else if p < 216 then 5 else 6
  }

  /** `k` is the first 32 bits behind the point of the cube root of `p`. */
  predicate CubeRootBits(p: nat, k: Word) {
    var x := Whole(p) * UNIT + k as nat;
    x * x * x <= p * (UNIT * UNIT * UNIT) < (x + 1) * (x + 1) * (x + 1)
  }

  /** `k` is the first 32 bits behind the point of the square root of `p`, whose whole part is `c`. */
  predicate SquareRootBits(p: nat, c: nat, k: Word) {
    var x := c * UNIT + k as nat;
    x * x <= p * (UNIT * UNIT) < (x + 1) * (x + 1)
  }

  ghost predicate Fits(i: nat)
    requires i < 64
  {
    CubeRootBits(PRIMES[i], K[i])
  }

  lemma RootsFrom2()
    ensures CubeRootBits(2, 0x428a2f98) && CubeRootBits(3, 0x71374491)
    ensures CubeRootBits(5, 0xb5c0fbcf) && CubeRootBits(7, 0xe9b5dba5)
    ensures CubeRootBits(11, 0x3956c25b) && CubeRootBits(13, 0x59f111f1)
    ensures CubeRootBits(17, 0x923f82a4) && CubeRootBits(19, 0xab1c5ed5)
  {
  }

  lemma RootsFrom23()
    ensures CubeRootBits(23, 0xd807aa98) && CubeRootBits(29, 0x12835b01)
    ensures CubeRootBits(31, 0x243185be) && CubeRootBits(37, 0x550c7dc3)
    ensures CubeRootBits(41, 0x72be5d74) && CubeRootBits(43, 0x80deb1fe)
    ensures CubeRootBits(47, 0x9bdc06a7) && CubeRootBits(53, 0xc19bf174)
  {
  }

  lemma RootsFrom59()
    ensures CubeRootBits(59, 0xe49b69c1) && CubeRootBits(61, 0xefbe4786)
    ensures CubeRootBits(67, 0x0fc19dc6) && CubeRootBits(71, 0x240ca1cc)
    ensures CubeRootBits(73, 0x2de92c6f) && CubeRootBits(79, 0x4a7484aa)
    ensures CubeRootBits(83, 0x5cb0a9dc) && CubeRootBits(89, 0x76f988da)
  {
  }

  lemma RootsFrom97()
    ensures CubeRootBits(97, 0x983e5152) && CubeRootBits(101, 0xa831c66d)
    ensures CubeRootBits(103, 0xb00327c8) && CubeRootBits(107, 0xbf597fc7)
    ensures CubeRootBits(109, 0xc6e00bf3) && CubeRootBits(113, 0xd5a79147)
    ensures CubeRootBits(127, 0x06ca6351) && CubeRootBits(131, 0x14292967)
  {
  }

  lemma RootsFrom137()
    ensures CubeRootBits(137, 0x27b70a85) && CubeRootBits(139, 0x2e1b2138)
    ensures CubeRootBits(149, 0x4d2c6dfc) && CubeRootBits(151, 0x53380d13)
    ensures CubeRootBits(157, 0x650a7354) && CubeRootBits(163, 0x766a0abb)
    ensures CubeRootBits(167, 0x81c2c92e) && CubeRootBits(173, 0x92722c85)
  {
  }

  lemma RootsFrom179()
    ensures CubeRootBits(179, 0xa2bfe8a1) && CubeRootBits(181, 0xa81a664b)
    ensures CubeRootBits(191, 0xc24b8b70) && CubeRootBits(193, 0xc76c51a3)
    ensures CubeRootBits(197, 0xd192e819) && CubeRootBits(199, 0xd6990624)
    ensures CubeRootBits(211, 0xf40e3585) && CubeRootBits(223, 0x106aa070)
  {
  }

  lemma RootsFrom227()
    ensures CubeRootBits(227, 0x19a4c116) && CubeRootBits(229, 0x1e376c08)
    ensures CubeRootBits(233, 0x2748774c) && CubeRootBits(239, 0x34b0bcb5)
    ensures CubeRootBits(241, 0x391c0cb3) && CubeRootBits(251, 0x4ed8aa4a)
    ensures CubeRootBits(257, 0x5b9cca4f) && CubeRootBits(263, 0x682e6ff3)
  {
  }

  lemma RootsFrom269()
    ensures CubeRootBits(269, 0x748f82ee) && CubeRootBits(271, 0x78a5636f)
    ensures CubeRootBits(277, 0x84c87814) && CubeRootBits(281, 0x8cc70208)
    ensures CubeRootBits(283, 0x90befffa) && CubeRootBits(293, 0xa4506ceb)
    ensures CubeRootBits(307, 0xbef9a3f7) && CubeRootBits(311, 0xc67178f2)
  {
  }

  lemma Fits0(i: nat)
    requires 0 <= i < 16
    ensures Fits(i)
  {
    hide CubeRootBits;
    if i < 8 { RootsFrom2(); } else { RootsFrom23(); }
  }

  lemma Fits16(i: nat)
    requires 16 <= i < 32
    ensures Fits(i)
  {
    hide CubeRootBits;
    if i < 24 { RootsFrom59(); } else { RootsFrom97(); }
  }

  lemma Fits32(i: nat)
    requires 32 <= i < 48
    ensures Fits(i)
  {
    hide CubeRootBits;
    if i < 40 { RootsFrom137(); } else { RootsFrom179(); }
  }

  lemma Fits48(i: nat)
    requires 48 <= i < 64
    ensures Fits(i)
  {
    hide CubeRootBits;
    if i < 56 { RootsFrom227(); } else { RootsFrom269(); }
  }

  /** The round constants are those bits of the cube roots of the first 64 primes. */
  lemma RoundConstants(i: nat)
    requires i < 64
    ensures |K| == 64 && Fits(i)
  {
    hide Fits;
    if i < 16 { Fits0(i); }
    else if i < 32 { Fits16(i); }
    else if i < 48 { Fits32(i); }
    else { Fits48(i); }
  }

  /** The initial hash value is those bits of the square roots of the first eight. */
  lemma InitialHash()
    ensures SquareRootBits(2, 1, H0.a) && SquareRootBits(3, 1, H0.b)
    ensures SquareRootBits(5, 2, H0.c) && SquareRootBits(7, 2, H0.d)
    ensures SquareRootBits(11, 3, H0.e) && SquareRootBits(13, 3, H0.f)
    ensures SquareRootBits(17, 4, H0.g) && SquareRootBits(19, 4, H0.h)
  {
  }
}
