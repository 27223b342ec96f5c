/** The block list of kheap.c, in memory and as a sequence. */
module HeapBlocks {
  import opened Bytes
  import opened ByteOrder

  const HEADER: nat := 29            // packed: magic 4, size 8, free 1, next 8, prev 8
  const MAGIC: nat := 0xDEAD_BEEF
  const MIN_SPLIT: nat := 64
  const WORD: nat := 0x1_0000_0000_0000_0000

  datatype Header = Header(magic: nat, size: nat, free: bool, next: nat, prev: nat)

  predicate Fits(h: Header) {
    h.magic < 0x1_0000_0000 && h.size < WORD && h.next < WORD && h.prev < WORD
  }

  function Encode(h: Header): (s: seq<byte>)
    ensures |s| == HEADER
  {
    Le(h.magic, 4) + Le(h.size, 8) + [if h.free then 1 else 0] + Le(h.next, 8) + Le(h.prev, 8)
  }

  function Decode(s: seq<byte>): Header
    requires |s| == HEADER
  {
    Header(LeValue(s[..4]), LeValue(s[4..12]), s[12] != 0, LeValue(s[13..21]), LeValue(s[21..]))
  }

  lemma HeaderRoundTrip(h: Header)
    requires Fits(h)
    ensures Decode(Encode(h)) == h
  {
    var s := Encode(h);
    assert Pow256(4) == 0x1_0000_0000;
    assert Pow256(8) == WORD by { assert Pow256(6) == 0x1_0000_0000 * 0x1_0000; }
    LeRoundTrip(h.magic, 4);
    LeRoundTrip(h.size, 8);
    LeRoundTrip(h.next, 8);
    LeRoundTrip(h.prev, 8);
    hide Le, LeValue, Pow256;
    assert s[..4] == Le(h.magic, 4);
    assert s[4..12] == Le(h.size, 8);
    assert s[13..21] == Le(h.next, 8);
    assert s[21..] == Le(h.prev, 8);
  }

  /** The header at address `a`. */
  function HeaderAt(data: seq<byte>, a: nat): Header
    requires a + HEADER <= |data|
  {
    Decode(data[a..a + HEADER])
  }

  function StoreHeader(data: seq<byte>, a: nat, h: Header): (r: seq<byte>)
    requires a + HEADER <= |data|
    ensures |r| == |data| && forall x :: 0 <= x < |data| && !(a <= x < a + HEADER) ==> r[x] == data[x]
  {
    data[..a] + Encode(h) + data[a + HEADER..]
  }

  lemma StoredHeader(data: seq<byte>, a: nat, h: Header)
    requires a + HEADER <= |data| && Fits(h)
    ensures HeaderAt(StoreHeader(data, a, h), a) == h
  {
    HeaderRoundTrip(h);
    hide Decode, Encode;
    assert StoreHeader(data, a, h)[a..a + HEADER] == Encode(h);
  }

  lemma OtherHeader(data: seq<byte>, a: nat, h: Header, b: nat)
    requires a + HEADER <= |data| && b + HEADER <= |data| && (a + HEADER <= b || b + HEADER <= a)
    ensures HeaderAt(StoreHeader(data, a, h), b) == HeaderAt(data, b)
  {
    hide Decode, Encode;
    assert StoreHeader(data, a, h)[b..b + HEADER] == data[b..b + HEADER];
  }

  // ---- Blocks ------------------------------------------------------------------------

  datatype Block = Block(addr: nat, size: nat, free: bool)

  /** One past the last byte of a block. */
  function End(b: Block): nat {
    b.addr + HEADER + b.size
  }

  /** The blocks tile [lo, hi): each begins where the one before it ends. */
  ghost predicate Tiled(blocks: seq<Block>, lo: nat, hi: nat) {
    if blocks == [] then lo == hi else blocks[0].addr == lo && Tiled(blocks[1..], End(blocks[0]), hi)
  }

  lemma {:induction false} TiledBounds(blocks: seq<Block>, lo: nat, hi: nat)
    requires Tiled(blocks, lo, hi)
    ensures lo <= hi && forall b <- blocks :: lo <= b.addr && End(b) <= hi
  {
    if blocks != [] { TiledBounds(blocks[1..], End(blocks[0]), hi); }
  }

  lemma {:induction false} TiledSplit(s: seq<Block>, t: seq<Block>, lo: nat, mid: nat, hi: nat)
    requires Tiled(s, lo, mid) && Tiled(t, mid, hi)
    ensures Tiled(s + t, lo, hi)
  {
    if s == [] { assert s + t == t; } else {
      TiledSplit(s[1..], t, End(s[0]), mid, hi);
      assert (s + t)[1..] == s[1..] + t;
    }
  }

  /** Where the part of a tiling after its first `i` blocks begins. */
  ghost function Start(blocks: seq<Block>, i: nat, hi: nat): nat
    requires i <= |blocks|
  {
    if i == |blocks| then hi else blocks[i].addr
  }

  lemma {:induction false} TiledParts(blocks: seq<Block>, i: nat, lo: nat, hi: nat)
    requires Tiled(blocks, lo, hi) && i <= |blocks|
    ensures Tiled(blocks[..i], lo, Start(blocks, i, hi)) && Tiled(blocks[i..], Start(blocks, i, hi), hi)
  {
    if i == 0 {
      assert blocks[..0] == [] && blocks[0..] == blocks;
    } else {
      TiledParts(blocks[1..], i - 1, End(blocks[0]), hi);
      assert blocks[..i][1..] == blocks[1..][..i - 1];
      assert blocks[i..] == blocks[1..][i - 1..];
    }
  }

  /** Blocks of a tiling never overlap. */
  lemma TiledApart(blocks: seq<Block>, i: nat, j: nat, lo: nat, hi: nat)
    requires Tiled(blocks, lo, hi) && i < j < |blocks|
    ensures lo <= blocks[i].addr && End(blocks[i]) <= blocks[j].addr && End(blocks[j]) <= hi
  {
    TiledParts(blocks, j, lo, hi);
    TiledBounds(blocks[..j], lo, Start(blocks, j, hi));
    TiledBounds(blocks, lo, hi);
    assert blocks[..j][i] == blocks[i];
  }

  // ---- The list in memory ----------------------------------------------------------

  /** What the header of the `i`-th block has to be for the list to be doubly linked. */
  function HeaderOf(blocks: seq<Block>, i: nat): Header
    requires i < |blocks|
  {
    Header(MAGIC, blocks[i].size, blocks[i].free, AddrOf(blocks, i + 1), AddrOf(blocks, i - 1))
  }

  /** The address of the `i`-th block; NULL outside the list. */
  function AddrOf(blocks: seq<Block>, i: int): nat {
    if 0 <= i < |blocks| then blocks[i].addr else 0
  }

  ghost predicate Linked(data: seq<byte>, blocks: seq<Block>) {
    forall i: nat | i < |blocks| :: LinkedAt(data, blocks, i)
  }

  ghost predicate LinkedAt(data: seq<byte>, blocks: seq<Block>, i: nat)
    requires i < |blocks|
  {
    blocks[i].addr + HEADER <= |data| && HeaderAt(data, blocks[i].addr) == HeaderOf(blocks, i)
  }

  /** The blocks in use. */
  ghost function Live(blocks: seq<Block>): set<Block> {
    set b <- blocks | !b.free
  }

  /** The payloads of the blocks of `live` hold the same bytes. */
  ghost predicate SameBytes(data: seq<byte>, data': seq<byte>, live: set<Block>) {
    |data'| == |data| && forall b <- live :: SamePayload(data, data', b)
  }

  ghost predicate SamePayload(data: seq<byte>, data': seq<byte>, b: Block) {
    End(b) <= |data| && |data'| == |data| && data'[b.addr + HEADER..End(b)] == data[b.addr + HEADER..End(b)]
  }
}
