/** The Internet checksum of kernel/src/drivers/net/net.c against RFC 1071. */
module Checksum {
  import opened Bytes
  import opened Arithmetic

  const WORD32: nat := 0x1_0000_0000

  function Word(high: int, low: int): int {
    256 * high + low
  }

  /** The 16-bit word at `i`, the last byte of an odd buffer being padded with zero. */
  function WordAt(p: seq<byte>, i: nat): (w: nat)
    requires i < |p|
    ensures w <= 0xFFFF
  {
    Word(p[i], if i + 1 < |p| then p[i + 1] else 0)
  }

  /** The plain sum of the words from `i` on. */
  function Sum(p: seq<byte>, i: nat): nat
    decreases |p| - i
  {
    if i >= |p| then 0 else WordAt(p, i) + Sum(p, i + 2)
  }

  // ---- RFC 1071 section 1 ------------------------------------------------------------------

  /** Addition with end-around carry. */
  function AddCarry(a: nat, b: nat): (r: nat)
    requires a <= 0xFFFF && b <= 0xFFFF
    ensures r <= 0xFFFF
  {
    if a + b > 0xFFFF then a + b - 0xFFFF else a + b
  }

  /** The one's complement sum of the words from `i` on. */
  function OnesSum(p: seq<byte>, i: nat): (r: nat)
    ensures r <= 0xFFFF
    decreases |p| - i
  {
    if i >= |p| then 0 else AddCarry(WordAt(p, i), OnesSum(p, i + 2))
  }

  function InternetChecksum(p: seq<byte>): (c: nat)
    ensures c <= 0xFFFF
  {
    0xFFFF - OnesSum(p, 0)
  }

  // ---- Both sums name the same residue ------------------------------------------------------

  /** The 16-bit number that stands for a sum: zero only for zero, else from 1 to 65535. */
  function Residue(s: nat): (r: nat)
    ensures r <= 0xFFFF && (r == 0 <==> s == 0)
  {
    if s == 0 then 0 else 1 + (s - 1) % 0xFFFF
  }

  lemma ResidueOf(s: nat, q: nat, r: nat)
    requires s == 0xFFFF * q + r && 1 <= r <= 0xFFFF
    ensures Residue(s) == r
  {
    Division(s - 1, 0xFFFF, q, r - 1);
  }

  /** Every positive sum is its residue and some multiple of 65535. */
  lemma ResidueParts(s: nat) returns (q: nat)
    requires s > 0
    ensures s == 0xFFFF * q + Residue(s)
  {
    q := (s - 1) / 0xFFFF;
  }

  lemma ResidueAdd(a: nat, s: nat)
    requires a <= 0xFFFF
    ensures Residue(a + s) == AddCarry(a, Residue(s))
  {
    if s == 0 {
      if a > 0 { ResidueOf(a, 0, a); }
    } else {
      var q := ResidueParts(s);
      var t := a + Residue(s);
      if t > 0xFFFF { ResidueOf(a + s, q + 1, t - 0xFFFF); } else { ResidueOf(a + s, q, t); }
    }
  }

  lemma {:induction false} OnesSumIsResidue(p: seq<byte>, i: nat)
    ensures OnesSum(p, i) == Residue(Sum(p, i))
    decreases |p| - i
  {
    if i < |p| {
      OnesSumIsResidue(p, i + 2);
      ResidueAdd(WordAt(p, i), Sum(p, i + 2));
    }
  }

  /** Folding the carries in changes a sum but not its residue. */
  lemma FoldKeeps(s: nat)
    ensures Residue(s % 0x1_0000 + s / 0x1_0000) == Residue(s)
  {
    var low, high := s % 0x1_0000, s / 0x1_0000;
    assert s == 0x1_0000 * high + low;
    if low + high > 0 {
      var q := ResidueParts(low + high);
      ResidueOf(s, q + high, Residue(low + high));
    }
  }

  lemma {:induction false} SumBound(p: seq<byte>, i: nat)
    requires i <= |p| + 1
    ensures 2 * Sum(p, i) <= (|p| + 1 - i) * 0xFFFF
    decreases |p| - i
  {
    if i < |p| { SumBound(p, i + 2); }
  }

  /** Up to 131074 bytes the sum fits in 32 bits. */
  lemma NoOverflow(p: seq<byte>)
    requires |p| <= 131074
    ensures Sum(p, 0) < WORD32
  {
    SumBound(p, 0);
    if |p| % 2 == 0 { EvenBound(p, 0); }
  }

  lemma {:induction false} EvenBound(p: seq<byte>, i: nat)
    requires |p| % 2 == 0 && i % 2 == 0 && i <= |p|
    ensures 2 * Sum(p, i) <= (|p| - i) * 0xFFFF
    decreases |p| - i
  {
    if i < |p| { EvenBound(p, i + 2); }
  }

  // ---- The code -------------------------------------------------------------------------------

  /** ip_checksum, its sum kept in 32 bits. */
  method IpChecksum(p: seq<byte>) returns (c: nat)
    ensures c <= 0xFFFF
    ensures Sum(p, 0) < WORD32 ==> c == InternetChecksum(p)
  {
    hide Residue, OnesSum;
    var sum := 0;
    var i := 0;
    while i + 1 < |p|
      invariant i % 2 == 0 && i <= |p| && 0 <= sum < WORD32
      invariant Sum(p, 0) < WORD32 ==> sum + Sum(p, i) == Sum(p, 0)
    {
      sum := (sum + Word(p[i], p[i + 1])) % WORD32;
      i := i + 2;
    }
    if |p| % 2 == 1 { sum := (sum + Word(p[|p| - 1], 0)) % WORD32; }
    assert Sum(p, 0) < WORD32 ==> sum == Sum(p, 0);
    ghost var total := sum;
    while sum / 0x1_0000 != 0
      invariant 0 <= sum < WORD32 && Residue(sum) == Residue(total)
      decreases sum
    {
      FoldKeeps(sum);
      sum := sum % 0x1_0000 + sum / 0x1_0000;
    }
    OnesSumIsResidue(p, 0);
    SmallResidue(sum);
    return 0xFFFF - sum;
  }

  lemma SmallResidue(s: nat)
    requires s <= 0xFFFF
    ensures Residue(s) == s
  {
    if s > 0 { ResidueOf(s, 0, s); }
  }

  // ---- Storing the checksum -------------------------------------------------------------------

  /** `p` with a 16-bit value at `at`, the high byte first. */
  function Stored(p: seq<byte>, at: nat, c: nat): (r: seq<byte>)
    requires at + 1 < |p| && c <= 0xFFFF
    ensures |r| == |p|
  {
    p[..at] + [c / 256, c % 256] + p[at + 2..]
  }

  lemma {:induction false} StoredSum(p: seq<byte>, at: nat, c: nat, i: nat)
    requires at % 2 == 0 && i % 2 == 0 && at + 1 < |p| && c <= 0xFFFF && p[at] == 0 && p[at + 1] == 0
    ensures Sum(Stored(p, at, c), i) == Sum(p, i) + (if i <= at then c else 0)
    decreases |p| - i
  {
    if i < |p| {
      StoredSum(p, at, c, i + 2);
      var s := Stored(p, at, c);
      if i == at {
        assert s[at] == c / 256 && s[at + 1] == c % 256;
      } else {
        assert s[i] == p[i] && (i + 1 < |p| ==> s[i + 1] == p[i + 1]);
      }
    }
  }

  /** A buffer that carries its own checksum, in a field that was zero, has checksum zero. */
  lemma StoredVerifies(p: seq<byte>, at: nat)
    requires at % 2 == 0 && at + 1 < |p| && p[at] == 0 && p[at + 1] == 0
    ensures InternetChecksum(Stored(p, at, InternetChecksum(p))) == 0
  {
    hide Residue, OnesSum, Stored;
    var c := InternetChecksum(p);
    StoredSum(p, at, c, 0);
    OnesSumIsResidue(p, 0);
    OnesSumIsResidue(Stored(p, at, c), 0);
    var s := Sum(p, 0);
    if s == 0 {
      assert Residue(0) == 0 by { SmallResidue(0); }
      ResidueOf(c, 0, c);
    } else {
      var q := ResidueParts(s);
      ResidueOf(s + c, q, 0xFFFF);
    }
  }
}
