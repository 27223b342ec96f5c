/** userspace/sha256.c: the digest computed block by block from input that comes in pieces. */
module Sha256 {
  import opened Bytes
  import opened ByteOrder
  import opened Arithmetic
  import opened Sha256Spec

  /** The ROTR macro. */
  function Rotr(x: Word, n: nat): Word
    requires n <= 32
  {
    (x >> n) | (x << (32 - n))
  }

  lemma RotrIsRotation(x: Word)
    ensures Rotr(x, 2) == x.RotateRight(2) && Rotr(x, 13) == x.RotateRight(13) && Rotr(x, 22) == x.RotateRight(22)
    ensures Rotr(x, 6) == x.RotateRight(6) && Rotr(x, 11) == x.RotateRight(11) && Rotr(x, 25) == x.RotateRight(25)
    ensures Rotr(x, 7) == x.RotateRight(7) && Rotr(x, 18) == x.RotateRight(18)
    ensures Rotr(x, 17) == x.RotateRight(17) && Rotr(x, 19) == x.RotateRight(19)
  {
  }

  lemma AddOrder(a: Word, b: Word, c: Word, d: Word)
    ensures Sum4(a, b, c, d) == Sum4(d, c, b, a)
  {
  }

  // ---- The mixing expressions of sha_block -------------------------------------------

  function ScheduleMix0(x: Word): (r: Word)
    ensures r == Sigma0(x)
  {
    hide Rotr, Xor3;
    RotrIsRotation(x);
    Xor3(Rotr(x, 7), Rotr(x, 18), x >> 3)
  }

  function ScheduleMix1(x: Word): (r: Word)
    ensures r == Sigma1(x)
  {
    hide Rotr, Xor3;
    RotrIsRotation(x);
    Xor3(Rotr(x, 17), Rotr(x, 19), x >> 10)
  }

  function RoundMix0(x: Word): (r: Word)
    ensures r == BigSigma0(x)
  {
    hide Rotr, Xor3;
    RotrIsRotation(x);
    Xor3(Rotr(x, 2), Rotr(x, 13), Rotr(x, 22))
  }

  function RoundMix1(x: Word): (r: Word)
    ensures r == BigSigma1(x)
  {
    hide Rotr, Xor3;
    RotrIsRotation(x);
    Xor3(Rotr(x, 6), Rotr(x, 11), Rotr(x, 25))
  }

  class Hasher {
    const H: array<Word>
    const pending: array<byte>
    var pend: nat

    constructor ()
      ensures fresh(H) && fresh(pending) && Valid() && Streamed([]) && pend == 0
    {
      H, pending := new Word[8](i => InitialWord(i)), new byte[128](_ => 0);
      pend := 0;
    }

    static function InitialWord(i: int): Word {
      match i
      case 0 => H0.a case 1 => H0.b case 2 => H0.c case 3 => H0.d
      case 4 => H0.e case 5 => H0.f case 6 => H0.g case _ => H0.h
    }

    ghost predicate Valid()
    {
      H.Length == 8 && pending.Length == 128
    }

    ghost function Regs(): Hash
      reads H
      requires H.Length == 8
    {
      Hash(H[0], H[1], H[2], H[3], H[4], H[5], H[6], H[7])
    }

    /** Of the bytes streamed so far all but the pending ones are in the hash; they are whole blocks. */
    ghost predicate Streamed(stream: seq<byte>)
      reads this, H, pending
    {
      && Valid() && pend <= 128 && pend <= |stream| && (|stream| - pend) % 64 == 0
      && Regs() == Fold(H0, stream[..|stream| - pend]) && pending[..pend] == stream[|stream| - pend..]
    }

    method ShaBlock(data: seq<byte>)
      requires Valid() && |data| == 64
      modifies H
      ensures Regs() == Compress(old(Regs()), data)
    {
      hide Sum, Rounds;
      var r := Mix(data);
      H[0] := Sum(H[0], r.a);
      H[1] := Sum(H[1], r.b);
      H[2] := Sum(H[2], r.c);
      H[3] := Sum(H[3], r.d);
      H[4] := Sum(H[4], r.e);
      H[5] := Sum(H[5], r.f);
      H[6] := Sum(H[6], r.g);
      H[7] := Sum(H[7], r.h);
    }

    /** The 64 rounds. */
    method Mix(data: seq<byte>) returns (r: Hash)
      requires Valid() && |data| == 64
      ensures r == Rounds(Regs(), data, 64)
    {
      hide ScheduleMix0, ScheduleMix1, RoundMix0, RoundMix1, Sigma0, Sigma1, BigSigma0, BigSigma1, BigEndian, W, Ch,
        Maj, Sum, Sum4, Sum5;
      var w := Schedule(data);
      var a, b, c, d, e, f, g, h := H[0], H[1], H[2], H[3], H[4], H[5], H[6], H[7];
      for i := 0 to 64
        invariant Hash(a, b, c, d, e, f, g, h) == Rounds(Regs(), data, i)
      {
        var t1 := Sum5(h, RoundMix1(e), Ch(e, f, g), K[i], w[i]);
        var t2 := Sum(RoundMix0(a), Maj(a, b, c));
        h, g, f, e := g, f, e, Sum(d, t1);
        d, c, b, a := c, b, a, Sum(t1, t2);
      }
      return Hash(a, b, c, d, e, f, g, h);
    }

    /** The message schedule of a block. */
    method Schedule(data: seq<byte>) returns (w: array<Word>)
      requires |data| == 64
      ensures fresh(w) && w.Length == 64 && forall t: nat | t < 64 :: w[t] == W(data, t)
    {
      hide ScheduleMix0, ScheduleMix1, Sigma0, Sigma1, BigEndian, Sum4;
      w := new Word[64];
      for i := 0 to 16
        invariant forall t: nat | t < i :: w[t] == W(data, t)
      {
        w[i] := BigEndian(data, i * 4);
      }
      for i := 16 to 64
        invariant forall t: nat | t < i :: w[t] == W(data, t)
      {
        var s0, s1 := ScheduleMix0(w[i - 15]), ScheduleMix1(w[i - 2]);
        AddOrder(w[i - 16], s0, w[i - 7], s1);
        w[i] := Sum4(w[i - 16], s0, w[i - 7], s1);
      }
    }

    /** The two pending blocks go into the hash. */
    method Drain(ghost stream: seq<byte>)
      requires Streamed(stream) && pend == 128
      modifies this`pend, H
      ensures Streamed(stream) && pend == 0
    {
      hide Compress;
      ghost var done := stream[..|stream| - 128];
      DrainFolds(H0, done, pending[..]);
      assert stream == done + pending[..];
      ShaBlock(pending[..64]);
      ShaBlock(pending[64..]);
      pend := 0;
      assert stream[..|stream| - pend] == stream;
    }

    method Feed(data: seq<byte>, ghost stream: seq<byte>)
      requires Streamed(stream) && pend < 128
      modifies this`pend, H, pending
      ensures Streamed(stream + data) && pend < 128
    {
      hide Fold, Streamed;
      var i := 0;
      assert data[..0] == [] && stream + [] == stream;
      while i < |data|
        invariant i <= |data| && Streamed(stream + data[..i]) && pend < 128
      {
        var take := if |data| - i < 128 - pend then |data| - i else 128 - pend;
        Append(data[i..i + take], stream + data[..i]);
        assert stream + data[..i] + data[i..i + take] == stream + data[..i + take];
        i := i + take;
        if pend == 128 { Drain(stream + data[..i]); }
      }
      assert data[..i] == data;
    }

    /** Bytes that fit are added to the pending ones. */
    method Append(src: seq<byte>, ghost stream: seq<byte>)
      requires Streamed(stream) && pend + |src| <= 128
      modifies this`pend, pending
      ensures Streamed(stream + src) && pend == old(pend) + |src|
    {
      hide Fold;
      for k := 0 to |src|
        invariant pend == old(pend) && pending[..pend] == old(pending[..pend])
        invariant forall j: nat | j < k :: pending[pend + j] == src[j]
      {
        pending[pend + k] := src[k];
      }
      pend := pend + |src|;
      ghost var all := stream + src;
      assert all[..|all| - pend] == stream[..|stream| - old(pend)];
      assert pending[..pend] == old(pending[..pend]) + src;
    }

    lemma PendingCount(stream: seq<byte>)
      requires Streamed(stream)
      ensures Valid() && pend <= 128 && pend % 64 == |stream| % 64
    {
    }

    /** The marker and zeros up to 56 modulo 64. */
    method Pad(ghost m: seq<byte>)
      requires Streamed(m) && pend < 128
      modifies this`pend, H, pending
      ensures Streamed(Marked(m, ZeroCount(|m|))) && pend <= 120
    {
      hide Fold, Streamed, ZeroCount, Marked;
      Append([0x80], m);
      ghost var z: nat := 0;
      MoreZeros(m, 0);
      PendingCount(Marked(m, 0));
      while pend % 64 != 56
        invariant z <= ZeroCount(|m|) && Streamed(Marked(m, z)) && pend <= 128 && pend % 64 == (|m| + 1 + z) % 64
        decreases ZeroCount(|m|) - z, pend
      {
        PadEnds(|m|, z);
        if pend == 128 {
          Drain(Marked(m, z));
        } else {
          Append([0], Marked(m, z));
          MoreZeros(m, z);
          z := z + 1;
        }
        PendingCount(Marked(m, z));
      }
      PadEnds(|m|, z);
    }

    /** The final padding, the length, and the last blocks. */
    method Finish(ghost m: seq<byte>, total: nat)
      requires Streamed(m) && pend < 128 && total == |m|
      modifies this`pend, H, pending
      ensures Valid() && Regs() == Digest(m)
    {
      hide Fold, Be, Streamed, Marked;
      Pad(m);
      WriteLength(8 * total, Marked(m, ZeroCount(|m|)));
      PendingCount(Padded(m));
      LastBlocks(Padded(m));
    }

    /** The length in bits, the most significant byte first. */
    method WriteLength(bits: nat, ghost stream: seq<byte>)
      requires Streamed(stream) && pend <= 120
      modifies this`pend, pending
      ensures Streamed(stream + Be(bits, 8)) && pend == old(pend) + 8
    {
      hide Fold, Streamed;
      var i := 8;
      assert stream + Be(bits / Pow256(8), 0) == stream;
      while i > 0
        invariant 0 <= i <= 8 && pend == old(pend) + 8 - i && Streamed(stream + Be(bits / Pow256(i), 8 - i))
      {
        i := i - 1;
        DivTwice(bits, Pow256(i), 256);
        assert Pow256(i + 1) == Pow256(i) * 256;
        ghost var before := Be(bits / Pow256(i + 1), 7 - i);
        Append([bits / Pow256(i) % 256], stream + before);
        assert stream + before + [bits / Pow256(i) % 256] == stream + Be(bits / Pow256(i), 8 - i);
      }
      assert bits / Pow256(0) == bits;
    }

    method LastBlocks(ghost stream: seq<byte>)
      requires Streamed(stream) && pend % 64 == 0
      modifies H
      ensures Regs() == Fold(H0, stream)
    {
      hide Fold, Compress;
      ghost var done := |stream| - pend;
      var off := 0;
      while off < pend
        invariant off % 64 == 0 && off <= pend && Regs() == Fold(H0, stream[..done + off])
      {
        ghost var block := stream[done + off..done + off + 64];
        assert pending[off..off + 64] == pending[..pend][off..off + 64] == block;
        FoldOne(H0, stream[..done + off], block);
        ShaBlock(pending[off..off + 64]);
        off := off + 64;
        assert stream[..done + off] == stream[..done + off - 64] + block;
      }
      assert stream[..done + off] == stream;
    }
  }

  function Concat(pieces: seq<seq<byte>>): seq<byte> {
    if pieces == [] then [] else Concat(pieces[..|pieces| - 1]) + pieces[|pieces| - 1]
  }

  /** The whole program: however the input is cut into reads, the result is the digest of the input. */
  method HashPieces(pieces: seq<seq<byte>>) returns (digest: Hash)
    ensures digest == Digest(Concat(pieces))
  {
    hide Hasher.Streamed, Fold;
    var s := new Hasher();
    var total := 0;
    for i := 0 to |pieces|
      invariant fresh(s.H) && fresh(s.pending) && s.Streamed(Concat(pieces[..i])) && s.pend < 128
      invariant total == |Concat(pieces[..i])|
    {
      total := total + |pieces[i]|;
      s.Feed(pieces[i], Concat(pieces[..i]));
      assert pieces[..i + 1][..i] == pieces[..i];
    }
    assert pieces[..|pieces|] == pieces;
    s.Finish(Concat(pieces), total);
    return Hash(s.H[0], s.H[1], s.H[2], s.H[3], s.H[4], s.H[5], s.H[6], s.H[7]);
  }

  lemma MoreZeros(m: seq<byte>, z: nat)
    ensures Marked(m, 0) == m + [0x80] && Marked(m, z) + [0] == Marked(m, z + 1)
  {
  }

  lemma PadEnds(n: nat, z: nat)
    requires z <= ZeroCount(n)
    ensures (n + 1 + z) % 64 == 56 <==> z == ZeroCount(n)
  {
  }

  lemma FoldOne(h: Hash, done: seq<byte>, block: seq<byte>)
    requires |done| % 64 == 0 && |block| == 64
    ensures |done + block| % 64 == 0 && Fold(h, done + block) == Compress(Fold(h, done), block)
  {
    hide Compress;
    FoldAppend(h, done, block);
    var mid := Fold(h, done);
    assert block[..64] == block && block[64..] == [];
    assert Fold(mid, block) == Fold(Compress(mid, block), []);
  }

  lemma DrainFolds(h: Hash, done: seq<byte>, blocks: seq<byte>)
    requires |done| % 64 == 0 && |blocks| == 128
    ensures |done + blocks| % 64 == 0
    ensures Fold(h, done + blocks) == Compress(Compress(Fold(h, done), blocks[..64]), blocks[64..])
  {
    hide Fold, Compress;
    FoldOne(h, done, blocks[..64]);
    FoldOne(h, done + blocks[..64], blocks[64..]);
    assert done + blocks == done + blocks[..64] + blocks[64..];
  }
}
