/** kernel/src/fs/ext2.c: reading file data through direct, indirect and double-indirect blocks. */
module Ext2 {
  import opened Arithmetic
  import opened Bytes
  import opened ByteOrder

  const WORD32: nat := 0x1_0000_0000
  const WORD64: nat := 0x1_0000_0000_0000_0000

  /**
   A mounted volume: its block size, the blocks that can be read, and what the code finds
   where it reads a pointer behind the end of a table.
   */
  datatype Volume = Volume(bs: nat, disk: map<nat, seq<byte>>, stray: nat -> nat)

  ghost predicate Sane(v: Volume) {
    0 < v.bs <= 0x1_0000 && v.bs % 1024 == 0 && forall b <- v.disk :: |v.disk[b]| == v.bs
  }

  datatype Inode = Inode(size: nat, block: seq<nat>)

  predicate ProperInode(n: Inode) {
    |n.block| == 15 && n.size < WORD32
  }

  /** Pointers per block. */
  function Ptrs(v: Volume): nat {
    v.bs / 4
  }

  /** Logical blocks that direct, indirect and double-indirect blocks reach. */
  function Reach(v: Volume): nat {
    12 + Ptrs(v) + Ptrs(v) * Ptrs(v)
  }

  lemma ReachSmall(v: Volume)
    requires Sane(v)
    ensures Reach(v) < WORD32 && 256 <= Ptrs(v) <= 0x4000
  {
    Product(Ptrs(v), Ptrs(v), 0x4000);
  }

  /** The `i`-th pointer of a block of pointers. */
  function Pointer(block: seq<byte>, i: nat): nat
    requires 4 * i + 4 <= |block|
  {
    LeValue(block[4 * i..4 * i + 4])
  }

  lemma InTable(v: Volume, b: nat, i: nat)
    requires Sane(v) && b in v.disk && i < Ptrs(v)
    ensures 4 * i + 4 <= |v.disk[b]|
  {
  }

  /** The pointer at index `i` of a table; behind its end, whatever is there. */
  function TableEntry(v: Volume, b: nat, i: nat): nat
    requires Sane(v) && b in v.disk
  {
    if i < Ptrs(v) then
      InTable(v, b, i);
      Pointer(v.disk[b], i)
    else v.stray(i)
  }

  lemma PtrsPositive(v: Volume)
    requires Sane(v)
    ensures Ptrs(v) > 0
  {
  }

  /** Where a block in the double-indirect range is found: the index in the top table and in the table it names. */
  function Split(v: Volume, l: nat): (r: (nat, nat))
    requires Sane(v) && 12 + Ptrs(v) <= l
    ensures r.1 < Ptrs(v)
  {
    PtrsPositive(v);
    DivMod(l - 12 - Ptrs(v), Ptrs(v))
  }

  function DivMod(m: nat, p: nat): (r: (nat, nat))
    requires p > 0
    ensures r.1 < p
  {
    (m / p, m % p)
  }

  lemma SplitLow(v: Volume, l: nat)
    requires Sane(v) && 12 + Ptrs(v) <= l < Reach(v)
    ensures Split(v, l).0 < Ptrs(v)
  {
    PtrsPositive(v);
    DivBelow(l - 12 - Ptrs(v), Ptrs(v), Ptrs(v));
  }

  // ---- What the format says --------------------------------------------------------------

  /** The pointer a table holds; a table that is not there is a hole. */
  function Entry(v: Volume, table: nat, i: nat): nat
    requires Sane(v) && i < Ptrs(v)
  {
    if table == 0 || table !in v.disk then 0 else TableEntry(v, table, i)
  }

  /** The physical block of a logical one; 0 is a hole. */
  function Mapped(v: Volume, n: Inode, l: nat): nat
    requires Sane(v) && ProperInode(n) && l < Reach(v)
  {
    if l < 12 then n.block[l]
    else if l < 12 + Ptrs(v) then Entry(v, n.block[12], l - 12)
    else
      SplitLow(v, l);
      Entry(v, Entry(v, n.block[13], Split(v, l).0), Split(v, l).1)
  }

  /** The contents of a logical block. */
  function Content(v: Volume, n: Inode, l: nat): (s: seq<byte>)
    requires Sane(v) && ProperInode(n) && l < Reach(v)
    ensures |s| == v.bs
  {
    var b := Mapped(v, n, l);
    if b == 0 || b !in v.disk then Zeros(v.bs) else v.disk[b]
  }

  /** The first `k` logical blocks, one after the other. */
  function Blocks(v: Volume, n: Inode, k: nat): (s: seq<byte>)
    requires Sane(v) && ProperInode(n) && k <= Reach(v)
    ensures |s| == k * v.bs
  {
    if k == 0 then [] else Blocks(v, n, k - 1) + Content(v, n, k - 1)
  }

  function BlockCount(v: Volume, n: Inode): (k: nat)
    requires v.bs > 0
    ensures n.size <= k * v.bs
  {
    (n.size + v.bs - 1) / v.bs
  }

  /** The file: its logical blocks, cut to its size. */
  function File(v: Volume, n: Inode): (s: seq<byte>)
    requires Sane(v) && ProperInode(n) && BlockCount(v, n) <= Reach(v)
    ensures |s| == n.size
  {
    Blocks(v, n, BlockCount(v, n))[..n.size]
  }

  // ---- What the code looks up --------------------------------------------------------------

  /** get_inode_block.  A table that cannot be read counts as a hole; a missing top table is looked for in block 0. */
  function GetInodeBlock(v: Volume, n: Inode, l: nat): nat
    requires Sane(v) && ProperInode(n)
  {
    if l < 12 then n.block[l]
    else if l < 12 + Ptrs(v) then
      if n.block[12] !in v.disk then 0 else TableEntry(v, n.block[12], l - 12)
    else if n.block[13] !in v.disk then 0
    else
      var next := TableEntry(v, n.block[13], Split(v, l).0);
      if next == 0 || next !in v.disk then 0 else TableEntry(v, next, Split(v, l).1)
  }

  /** The top table that leads to a logical block is there. */
  predicate TopTable(v: Volume, n: Inode, l: nat)
    requires ProperInode(n)
  {
    l < 12 || (if l < 12 + Ptrs(v) then n.block[12] != 0 else n.block[13] != 0)
  }

  /** Block 0, read as the missing top table, leads nowhere. */
  predicate Block0Harmless(v: Volume, l: nat)
    requires Sane(v) && 12 <= l
  {
    || 0 !in v.disk
    || (if l < 12 + Ptrs(v) then TableEntry(v, 0, l - 12) == 0
        else
          var next := TableEntry(v, 0, Split(v, l).0);
          next == 0 || next !in v.disk || TableEntry(v, next, Split(v, l).1) == 0)
  }

  /** The lookup follows the format exactly when the top table is there or block 0, read instead, leads nowhere. */
  lemma LookupRight(v: Volume, n: Inode, l: nat)
    requires Sane(v) && ProperInode(n) && l < Reach(v)
    ensures GetInodeBlock(v, n, l) == Mapped(v, n, l) <==> TopTable(v, n, l) || Block0Harmless(v, l)
  {
    hide TableEntry, Split, Reach;
  }

  // ---- read_inode_data -----------------------------------------------------------------------

  /** The number of bytes read_inode_data sets out to read; the offset is first cut to 32 bits. */
  function Wanted(n: Inode, offset: nat, count: nat): nat {
    if offset % WORD32 >= n.size then 0
    else if offset + count > n.size then n.size - offset % WORD32
    else count
  }

  /** The logical block a position is in, and its place there. */
  function BlockNo(v: Volume, x: nat): nat
    requires v.bs > 0
  {
    x / v.bs
  }

  function Place(v: Volume, x: nat): (r: nat)
    requires v.bs > 0
    ensures r < v.bs && x == BlockNo(v, x) * v.bs + r
  {
    x % v.bs
  }

  /** The physical block the code takes for a position; the block number is cut to 32 bits. */
  function Taken(v: Volume, n: Inode, x: nat): nat
    requires Sane(v) && ProperInode(n)
  {
    GetInodeBlock(v, n, BlockNo(v, x) % WORD32)
  }

  /** The byte the code finds at position `x`. */
  function Seen(v: Volume, n: Inode, x: nat): byte
    requires Sane(v) && ProperInode(n)
  {
    var b := Taken(v, n, x);
    if b == 0 || b !in v.disk then 0 else v.disk[b][Place(v, x)]
  }

  /** The block at position `x` is neither a hole nor readable. */
  predicate Unreadable(v: Volume, n: Inode, x: nat)
    requires Sane(v) && ProperInode(n)
  {
    Taken(v, n, x) != 0 && Taken(v, n, x) !in v.disk
  }

  /** `buf` holds what the code finds from `offset` on. */
  ghost predicate Holds(v: Volume, n: Inode, offset: nat, buf: seq<byte>)
    requires Sane(v) && ProperInode(n)
  {
    forall i: nat | i < |buf| :: HoldsAt(v, n, offset + i, buf[i])
  }

  ghost predicate HoldsAt(v: Volume, n: Inode, x: nat, b: byte)
    requires Sane(v) && ProperInode(n)
  {
    !Unreadable(v, n, x) && b == Seen(v, n, x)
  }

  /** `piece` is what one readable block, or a hole, holds from position `x` on. */
  ghost predicate PieceOf(v: Volume, n: Inode, x: nat, piece: seq<byte>)
    requires Sane(v) && ProperInode(n)
  {
    && Place(v, x) + |piece| <= v.bs && !Unreadable(v, n, x)
    && var b := Taken(v, n, x);
       forall i | 0 <= i < |piece| :: piece[i] == if b == 0 then 0 else v.disk[b][Place(v, x) + i]
  }

  lemma PieceSeen(v: Volume, n: Inode, offset: nat, buf: seq<byte>, piece: seq<byte>)
    requires Sane(v) && ProperInode(n) && Holds(v, n, offset, buf) && PieceOf(v, n, offset + |buf|, piece)
    ensures Holds(v, n, offset, buf + piece)
  {
    hide GetInodeBlock;
    var x := offset + |buf|;
    forall i: nat | i < |buf + piece| ensures HoldsAt(v, n, offset + i, (buf + piece)[i]) {
      if i >= |buf| {
        var y := offset + i;
        assert x == BlockNo(v, x) * v.bs + Place(v, x);
        Division(y, v.bs, BlockNo(v, x), Place(v, x) + (y - x));
      } else {
        assert HoldsAt(v, n, offset + i, buf[i]);
      }
    }
  }

  /** One round of the loop: as much of one block as is wanted; nothing when the block cannot be read. */
  method ReadPiece(v: Volume, n: Inode, at: nat, left: nat) returns (piece: seq<byte>)
    requires Sane(v) && ProperInode(n) && left > 0
    ensures |piece| <= left && (|piece| == 0 <==> Unreadable(v, n, at))
    ensures |piece| > 0 ==> PieceOf(v, n, at, piece)
  {
    hide GetInodeBlock;
    var off := Place(v, at);
    var toCopy := v.bs - off;
    if toCopy > left { toCopy := left; }
    var phys := GetInodeBlock(v, n, BlockNo(v, at) % WORD32);
    if phys == 0 { return Zeros(toCopy); }
    if phys !in v.disk { return []; }
    return v.disk[phys][off..off + toCopy];
  }

  /**
   What a read of `count` bytes at `offset` leaves in the buffer: all that is wanted, or what comes
   before an unreadable block.
   */
  ghost predicate ReadResult(v: Volume, n: Inode, offset: nat, count: nat, buf: seq<byte>)
    requires Sane(v) && ProperInode(n)
  {
    && |buf| <= Wanted(n, offset, count) && Holds(v, n, offset, buf)
    && (|buf| < Wanted(n, offset, count) ==> Unreadable(v, n, offset + |buf|))
  }

  method ReadInodeData(v: Volume, n: Inode, offset: nat, count: nat) returns (buf: seq<byte>)
    requires Sane(v) && ProperInode(n) && count < WORD32 && offset + count < WORD64
    ensures ReadResult(v, n, offset, count, buf)
  {
    hide GetInodeBlock, PieceOf, Unreadable, HoldsAt;
    buf := [];
    if offset % WORD32 >= n.size { return; }
    var left := count;
    if offset + count > n.size { left := n.size - offset % WORD32; }
    var at := offset;
    while left > 0
      invariant left >= 0 && at == offset + |buf| && |buf| + left == Wanted(n, offset, count)
      invariant Holds(v, n, offset, buf)
    {
      hide Holds, Wanted;
      var piece := ReadPiece(v, n, at, left);
      if |piece| == 0 { return; }
      PieceSeen(v, n, offset, buf, piece);
      buf := buf + piece;
      at := at + |piece|;
      left := left - |piece|;
    }
  }

  // ---- Against the format --------------------------------------------------------------------

  lemma {:induction false} BlocksAt(v: Volume, n: Inode, k: nat, l: nat, r: nat)
    requires Sane(v) && ProperInode(n) && l < k <= Reach(v) && r < v.bs
    ensures l * v.bs + r < |Blocks(v, n, k)| && Blocks(v, n, k)[l * v.bs + r] == Content(v, n, l)[r]
    decreases k
  {
    hide Content, Reach;
    if l < k - 1 { BlocksAt(v, n, k - 1, l, r); }
  }

  /** A byte of the file is the byte of its logical block. */
  lemma FileAt(v: Volume, n: Inode, x: nat)
    requires Sane(v) && ProperInode(n) && BlockCount(v, n) <= Reach(v) && x < n.size
    ensures BlockNo(v, x) < Reach(v) && File(v, n)[x] == Content(v, n, BlockNo(v, x))[Place(v, x)]
  {
    hide Reach, Blocks, Content;
    DivBelow(x, v.bs, BlockCount(v, n));
    assert x == BlockNo(v, x) * v.bs + Place(v, x);
    BlocksAt(v, n, BlockCount(v, n), BlockNo(v, x), Place(v, x));
  }

  /** At position `x` the lookup follows the format, and the block is a hole or readable. */
  ghost predicate IntactAt(v: Volume, n: Inode, x: nat)
    requires Sane(v) && ProperInode(n)
  {
    (TopTable(v, n, BlockNo(v, x)) || Block0Harmless(v, BlockNo(v, x))) && !Unreadable(v, n, x)
  }

  lemma SeenIsFile(v: Volume, n: Inode, x: nat)
    requires Sane(v) && ProperInode(n) && IntactAt(v, n, x) && BlockCount(v, n) <= Reach(v) && x < n.size
    ensures File(v, n)[x] == Seen(v, n, x)
  {
    hide GetInodeBlock, Mapped, Reach, Blocks, File, TopTable, Block0Harmless;
    FileAt(v, n, x);
    ReachSmall(v);
    LookupRight(v, n, BlockNo(v, x));
  }

  function End(n: Inode, offset: nat, count: nat): nat {
    if offset + count < n.size then offset + count else n.size
  }

  /** Any read from intact blocks of a file is the slice of the file that was asked for. */
  lemma ReadsSlice(v: Volume, n: Inode, offset: nat, count: nat, buf: seq<byte>)
    requires Sane(v) && ProperInode(n) && BlockCount(v, n) <= Reach(v) && offset <= n.size
    requires ReadResult(v, n, offset, count, buf)
    requires forall x: nat | offset <= x < End(n, offset, count) :: IntactAt(v, n, x)
    ensures buf == File(v, n)[offset..End(n, offset, count)]
  {
    hide Blocks, Unreadable, Seen, Reach, TopTable, Block0Harmless, File;
    assert offset % WORD32 == offset;
    var end := End(n, offset, count);
    assert Wanted(n, offset, count) == end - offset;
    assert offset + |buf| < end ==> IntactAt(v, n, offset + |buf|);
    forall i: nat | i < |buf| ensures buf[i] == File(v, n)[offset..end][i] {
      assert HoldsAt(v, n, offset + i, buf[i]) && IntactAt(v, n, offset + i);
      SeenIsFile(v, n, offset + i);
    }
  }

  // ---- Where the code departs from the format ------------------------------------------------

  /**
   Behind the end of the file bytes are read exactly when the offset, cut to 32 bits, is inside it
   and its block is not unreadable.
   */
  lemma BeyondTheEnd(v: Volume, n: Inode, offset: nat, count: nat, buf: seq<byte>)
    requires Sane(v) && ProperInode(n) && offset >= n.size && ReadResult(v, n, offset, count, buf)
    ensures buf != [] <==> offset % WORD32 < n.size && !Unreadable(v, n, offset)
  {
    hide Seen, GetInodeBlock;
    if buf != [] { assert HoldsAt(v, n, offset + 0, buf[0]); }
  }

  /**
   More bytes than asked for are written into the caller's buffer exactly when the offset is beyond
   4 GiB, the file reaches further than the request does from the cut offset, and none of the blocks
   on the way is unreadable.
   */
  lemma MoreThanAsked(v: Volume, n: Inode, offset: nat, count: nat, buf: seq<byte>)
    requires Sane(v) && ProperInode(n) && ReadResult(v, n, offset, count, buf)
    ensures |buf| > count <==>
      && offset >= WORD32 && offset % WORD32 + count < n.size
      && forall x: nat | offset <= x <= offset + count :: !Unreadable(v, n, x)
  {
    hide Unreadable, Seen;
    assert Wanted(n, offset, count) > count <==> offset >= WORD32 && offset % WORD32 + count < n.size;
    if |buf| > count {
      forall x: nat | offset <= x <= offset + count ensures !Unreadable(v, n, x) {
        assert HoldsAt(v, n, offset + (x - offset), buf[x - offset]);
      }
    }
  }

  /** A file of one byte, read at 4 GiB: one byte comes back, whatever count was asked for. */
  lemma PastFourGigabytes(count: nat, buf: seq<byte>)
    requires ReadResult(Volume(4096, map[], _ => 0), Inode(1, seq(15, _ => 0)), WORD32, count, buf)
    ensures buf == [0]
  {
    var v, n := Volume(4096, map[], _ => 0), Inode(1, seq(15, _ => 0));
    assert Wanted(n, WORD32, count) == 1;
    assert !Unreadable(v, n, WORD32);
    assert |buf| == 1 && HoldsAt(v, n, WORD32 + 0, buf[0]);
  }

  // ---- A hole in the place of the indirect table ---------------------------------------------

  /** A volume of two blocks, and a file of 13 blocks none of which is there. */
  function TwoBlocks(): Volume {
    Volume(1024, map[0 := [7, 0, 0, 0] + Zeros(1020), 7 := seq(1024, _ => 1)], _ => 0)
  }

  function Holes(): Inode {
    Inode(13 * 1024, seq(15, _ => 0))
  }

  /** Its first byte behind the direct blocks is 0, but block 0 is read for the table and block 7 for the byte. */
  lemma HoleMisread(buf: seq<byte>)
    ensures Sane(TwoBlocks()) && ProperInode(Holes()) && BlockCount(TwoBlocks(), Holes()) == 13 <= Reach(TwoBlocks())
    ensures Mapped(TwoBlocks(), Holes(), 12) == 0 && GetInodeBlock(TwoBlocks(), Holes(), 12) == 7
    ensures ReadResult(TwoBlocks(), Holes(), 12 * 1024, 1, buf) ==> buf == [1]
    ensures File(TwoBlocks(), Holes())[12 * 1024..12 * 1024 + 1] == [0]
  {
    hide TwoBlocks, Holes, GetInodeBlock, Mapped, Seen, File, Unreadable, Reach, BlockCount;
    HoleLookup();
    HoleSeen();
    HoleInFile();
    if ReadResult(TwoBlocks(), Holes(), 12 * 1024, 1, buf) {
      assert HoldsAt(TwoBlocks(), Holes(), 12 * 1024 + 0, buf[0]);
    }
  }

  lemma HoleLookup()
    ensures Sane(TwoBlocks()) && ProperInode(Holes()) && Reach(TwoBlocks()) > 13
    ensures Mapped(TwoBlocks(), Holes(), 12) == 0 && GetInodeBlock(TwoBlocks(), Holes(), 12) == 7
  {
    hide TableEntry, Split;
    Block0Says7();
  }

  lemma HoleSeen()
    requires Sane(TwoBlocks()) && ProperInode(Holes())
    ensures Seen(TwoBlocks(), Holes(), 12 * 1024) == 1 && !Unreadable(TwoBlocks(), Holes(), 12 * 1024)
    ensures Wanted(Holes(), 12 * 1024, 1) == 1
  {
    hide GetInodeBlock;
    HoleLookup();
  }

  lemma HoleInFile()
    requires Sane(TwoBlocks()) && ProperInode(Holes())
    ensures BlockCount(TwoBlocks(), Holes()) == 13 <= Reach(TwoBlocks())
    ensures File(TwoBlocks(), Holes())[12 * 1024..12 * 1024 + 1] == [0]
  {
    hide Mapped, File, Reach;
    HoleLookup();
    FileAt(TwoBlocks(), Holes(), 12 * 1024);
  }

  lemma Block0Says7()
    ensures Sane(TwoBlocks()) && TableEntry(TwoBlocks(), 0, 0) == 7
  {
    var t := TwoBlocks().disk[0];
    assert t[4 * 0..4 * 0 + 4] == [7, 0, 0, 0];
    assert [7, 0, 0, 0][1..] == [0, 0, 0] && [0, 0, 0][1..] == [0, 0] && [0, 0][1..] == [0] && [0][1..] == [];
    assert LeValue([0, 0]) == 0;
    assert LeValue([7, 0, 0, 0]) == 7 + 256 * LeValue([0, 0, 0]);
  }
}
