/** kheap.c: the kernel heap, with its block headers in the memory it manages. */
module KHeap {
  import opened Bytes
  import opened HeapBlocks
  import opened HeapEdits
  import opened HeapSpec

  class Heap {
    var data: seq<byte>          // memory, by address
    var start: nat               // heap_start; 0 is NULL
    var end: nat                 // one past the heap
    var avail: nat               // free pages that follow it
    const base: nat
    ghost var blocks: seq<Block>

    constructor (data: seq<byte>, base: nat, avail: nat)
      requires 0 < base && base + avail * PAGE_SIZE <= |data| <= WORD
      ensures Valid() && Now() == Pool([], base, avail) && this.data == data && this.base == base
    {
      this.data, this.base, this.avail := data, base, avail;
      start, end, blocks := 0, base, [];
    }

    ghost predicate Valid()
      reads this
    {
      Sound(data, blocks, base, end) && end + avail * PAGE_SIZE <= |data| && start == AddrOf(blocks, 0)
    }

    ghost function Now(): Pool
      reads this
    {
      Pool(blocks, end, avail)
    }

    /** The frame allocator: the next pages lie right behind the heap. */
    method PmmAlloc(pages: nat) returns (a: nat)
      modifies this`avail
      ensures if pages <= old(avail) then a == end && avail == old(avail) - pages else a == 0 && avail == old(avail)
    {
      if pages > avail { return 0; }
      avail := avail - pages;
      return end;
    }

    /** Walking to the end of a list that is not empty. */
    method LastBlock() returns (last: nat)
      requires Valid() && start != 0
      ensures |blocks| > 0 && last == blocks[|blocks| - 1].addr
    {
      hide HeaderAt, Tiled;
      last := start;
      ghost var i: nat := 0;
      ReadAt(data, blocks, base, end, 0);
      while HeaderAt(data, last).next != 0
        invariant i < |blocks| && last == blocks[i].addr && last + HEADER <= |data|
        invariant HeaderAt(data, last) == HeaderOf(blocks, i) && (HeaderOf(blocks, i).next == 0 <==> i + 1 == |blocks|)
        decreases |blocks| - i
      {
        last := HeaderAt(data, last).next;
        i := i + 1;
        ReadAt(data, blocks, base, end, i);
      }
    }

    method HeapExpand(size: nat) returns (ok: bool)
      requires Valid()
      modifies this
      ensures Valid() && ok == (GrowthPages(size) <= old(avail))
      ensures Now() == if ok then Grown(old(Now()), size) else old(Now())
      ensures SameBytes(old(data), data, Live(old(blocks)))
    {
      hide HeaderAt, StoreHeader, Tiled, SameBytes, Live, Linked;
      var pages := (size + PAGE_SIZE - 1) / PAGE_SIZE;
      if pages < 4 { pages := 4; }
      assert pages == GrowthPages(size);
      EndPositive(data, blocks, base, end);
      var a := PmmAlloc(pages);
      if a == 0 { return false; }
      var block := Header(MAGIC, pages * PAGE_SIZE - HEADER, true, 0, 0);
      ghost var b := Growth(a, size);
      AppendSet(data, blocks, base, end, b, block);
      data := StoreHeader(data, a, block);
      if start == 0 {
        start := a;
      } else {
        var last := LastBlock();
        ReadAt(data, blocks, base, end, |blocks| - 1);
        var h := HeaderAt(data, last);
        data := StoreHeader(data, last, h.(next := a));
        data := StoreHeader(data, a, block.(prev := last));
      }
      end := a + pages * PAGE_SIZE;
      blocks := blocks + [b];
      return true;
    }

    /** The block takes in its successor; `h` is the header it then has. */
    method MergeWithNext(block: nat, h: Header, ghost i: nat) returns (h': Header)
      requires Valid() && i + 1 < |blocks| && block == blocks[i].addr && h == HeaderOf(blocks, i)
      requires blocks[i].free && blocks[i + 1].free
      modifies this`data, this`blocks
      ensures Valid() && blocks == MergeAt(old(blocks), i) && SameBytes(old(data), data, Live(old(blocks)))
      ensures |blocks| == |old(blocks)| - 1 && h' == HeaderOf(blocks, i)
      ensures h'.next == 0 <==> i + 1 == |blocks|
    {
      hide HeaderAt, StoreHeader, Tiled, SameBytes, Live, Linked;
      ReadAt(data, blocks, base, end, i + 1);
      var n := HeaderAt(data, h.next);
      MergeSet(data, blocks, base, end, i);
      h' := h.(size := h.size + HEADER + n.size, next := n.next);
      assert h' == HeaderOf(MergeAt(blocks, i), i);
      data := StoreHeader(data, block, h');
      if n.next != 0 {
        data := StoreHeader(data, n.next, HeaderAt(data, n.next).(prev := block));
      }
      blocks := MergeAt(blocks, i);
      ReadAt(data, blocks, base, end, i);
    }

    method HeapCoalesce()
      requires Valid()
      modifies this`data, this`blocks
      ensures Valid() && blocks == Pass(old(blocks)) && Live(blocks) == Live(old(blocks))
      ensures SameBytes(old(data), data, Live(blocks))
    {
      hide HeaderAt, StoreHeader, Tiled, SameBytes, Live, Linked, Replaced;
      var block := start;
      ghost var i: nat := 0;
      EndPositive(data, blocks, base, end);
      assert blocks[..0] + Pass(blocks[0..]) == Pass(blocks) by { assert blocks[0..] == blocks; }
      while block != 0
        invariant i <= |blocks| && block == AddrOf(blocks, i) && (block == 0 <==> i == |blocks|) && Valid()
        invariant Pass(old(blocks)) == blocks[..i] + Pass(blocks[i..])
        invariant Live(blocks) == Live(old(blocks)) && SameBytes(old(data), data, Live(blocks))
        decreases |blocks| - i
      {
        ReadAt(data, blocks, base, end, i);
        var h := HeaderAt(data, block);
        if h.next != 0 { ReadAt(data, blocks, base, end, i + 1); }
        if h.free && h.next != 0 && HeaderAt(data, h.next).free {
          PassMerges(blocks, i);
          MergeLive(blocks, i);
          ghost var was := data;
          h := MergeWithNext(block, h, i);
          SameBytesTrans(old(data), was, data, Live(blocks));
        } else {
          PassSkips(blocks, i);
        }
        block := h.next;
        i := i + 1;
      }
      assert blocks[i..] == [] && blocks[..i] == blocks;
    }

    /** A block that suits is given out, split when the rest is worth keeping. */
    method GiveOut(block: nat, size: nat, ghost i: nat) returns (p: nat)
      requires Valid() && i < |blocks| && block == blocks[i].addr && Suits(blocks[i], size)
      modifies this`data, this`blocks
      ensures Valid() && blocks == Occupied(old(blocks), i, size) && p == old(blocks)[i].addr + HEADER
      ensures SameBytes(old(data), data, Live(old(blocks)))
    {
      hide HeaderAt, StoreHeader, Tiled, SameBytes, Live, Linked;
      ReadAt(data, blocks, base, end, i);
      var h := HeaderAt(data, block);
      if h.size > size + HEADER + MIN_SPLIT {
        SplitSet(data, blocks, base, end, i, size);
        ghost var next := SplitAt(blocks, i, size);
        var b := block + HEADER + size;
        assert HeaderOf(next, i + 1) == Header(MAGIC, h.size - size - HEADER, true, h.next, block);
        data := StoreHeader(data, b, Header(MAGIC, h.size - size - HEADER, true, h.next, block));
        if h.next != 0 {
          ReadAt(data, blocks, base, end, i + 1);
          assert HeaderOf(next, i + 2) == HeaderOf(blocks, i + 1).(prev := b);
          data := StoreHeader(data, h.next, HeaderAt(data, h.next).(prev := b));
        }
        h := h.(next := b, size := size);
        assert HeaderOf(next, i) == h.(free := false);
      } else {
        FlagSet(data, blocks, base, end, i, false);
      }
      data := StoreHeader(data, block, h.(free := false));
      blocks := Occupied(blocks, i, size);
      return block + HEADER;
    }

    method Kmalloc(size: nat) returns (p: nat)
      requires Valid()
      modifies this
      ensures Valid() && SameBytes(old(data), data, Live(old(blocks)))
      ensures size == 0 ==> p == 0 && data == old(data) && Now() == old(Now())
      ensures size != 0 ==> (Now(), p) == Malloc(old(Now()), Aligned(size))
      decreases avail
    {
      hide HeaderAt, StoreHeader, Tiled, SameBytes, Live, Linked, Occupied, FitIndex;
      EndPositive(data, blocks, base, end);
      if size == 0 { return 0; }
      var aligned := (size + 15) / 16 * 16;
      var block := start;
      ghost var i: nat := 0;
      while block != 0
        invariant i <= |blocks| && block == AddrOf(blocks, i) && (block == 0 <==> i == |blocks|)
        invariant forall k: nat | k < i :: !Suits(blocks[k], aligned)
        invariant Valid() && data == old(data) && Now() == old(Now())
        decreases |blocks| - i
      {
        ReadAt(data, blocks, base, end, i);
        var h := HeaderAt(data, block);
        if h.free && h.size >= aligned {
          FitFound(blocks, i, aligned);
          p := GiveOut(block, aligned, i);
          return;
        }
        block := h.next;
        i := i + 1;
      }
      FitFound(blocks, i, aligned);
      var grown := HeapExpand(aligned);
      if !grown { return 0; }
      GrowthNotLive(old(blocks), Growth(old(end), aligned));
      ghost var d1 := data;
      AlignedTwice(size);
      p := Kmalloc(aligned);
      SameBytesTrans(old(data), d1, data, Live(old(blocks)));
    }

    /** The magic number in front of `p` is right. */
    ghost predicate Marked(p: nat)
      reads this
    {
      HEADER <= p <= |data| && HeaderAt(data, p - HEADER).magic == MAGIC
    }

    ghost predicate IsBlock(p: nat)
      reads this
    {
      HEADER <= p && IndexOf(blocks, p - HEADER) < |blocks|
    }

    ghost function BlockOf(p: nat): Block
      reads this
      requires IsBlock(p)
    {
      blocks[IndexOf(blocks, p - HEADER)]
    }

    /** What krealloc may be passed: NULL, the payload of a block, or a pointer whose magic number is wrong. */
    ghost predicate Passable(p: nat)
      reads this
    {
      p == 0 || (HEADER <= p <= |data| && (Marked(p) ==> IsBlock(p)))
    }

    /** The header in front of `p` is what is left, inside another block, of one that was freed and merged. */
    ghost predicate Stale(p: nat)
      reads this
    {
      !IsBlock(p) && HEADER <= p && StaleIn(blocks, p)
    }

    method Kfree(p: nat)
      requires Valid() && (Passable(p) || Stale(p))
      modifies this`data, this`blocks
      ensures Valid()
      ensures
        if !old(Marked(p)) then data == old(data) && blocks == old(blocks)
        else if old(IsBlock(p)) then
          && blocks == Pass(Flagged(old(blocks), IndexOf(old(blocks), p - HEADER), true))
          && Live(blocks) == Live(old(blocks)) - {old(BlockOf(p))} && SameBytes(old(data), data, Live(blocks))
        else
          && blocks == Pass(old(blocks)) && Live(blocks) == Live(old(blocks))
          && SameBytes(Refreed(old(data), p - HEADER), data, Live(blocks))
          && (StaleInFree(old(blocks), p) ==> SameBytes(old(data), data, Live(blocks)))
    {
      hide HeaderAt, StoreHeader, Tiled, SameBytes, Live, Linked, Pass, StaleInFree;
      if p == 0 { return; }
      StaleBounds(data, blocks, base, end, p);
      var h := HeaderAt(data, p - HEADER);
      if h.magic != MAGIC { return; }
      ghost var i := IndexOf(blocks, p - HEADER);
      if i < |blocks| {
        ReadAt(data, blocks, base, end, i);
        FlagSet(data, blocks, base, end, i, true);
        FreedLive(blocks, i, base, end);
      } else {
        StoreInside(data, blocks, base, end, p - HEADER, h.(free := true));
        StaleFree(data, blocks, base, end, p);
      }
      data := StoreHeader(data, p - HEADER, h.(free := true));
      if i < |blocks| { blocks := Flagged(blocks, i, true); }
      ghost var d1 := data;
      HeapCoalesce();
      if i < |old(blocks)| || StaleInFree(old(blocks), p) {
        LessLive(old(data), d1, Live(old(blocks)), Live(blocks));
        SameBytesTrans(old(data), d1, data, Live(blocks));
      }
    }

    /** Writing into the payload of a block in use, as memcpy and the owner of the block do. */
    method Fill(p: nat, off: nat, src: seq<byte>)
      requires Valid() && IsBlock(p) && !BlockOf(p).free && p + off + |src| <= End(BlockOf(p))
      modifies this`data
      ensures Valid() && SameBytes(old(data), data, Live(blocks) - {BlockOf(p)})
      ensures p + off + |src| <= |old(data)| && data == StoreBytes(old(data), p + off, src)
    {
      hide HeaderAt, Tiled, SameBytes, Live, Linked;
      PayloadWrite(data, blocks, base, end, IndexOf(blocks, p - HEADER), p + off, src);
      data := StoreBytes(data, p + off, src);
    }

    /** krealloc of a block to more than it has. */
    method Grow(p: nat, size: nat) returns (q: nat)
      requires Valid() && p != 0 && Passable(p) && Marked(p) && size > BlockOf(p).size
      modifies this
      ensures Valid() && Moved(old(data), old(blocks), data, blocks, old(BlockOf(p)), size, q)
      ensures q == 0 <==> Malloc(old(Now()), Aligned(size)).1 == 0
    {
      hide HeaderAt, StoreHeader, Tiled, SameBytes, Live, Linked, Moved, Malloc, Pass, StoreBytes, IndexOf;
      ghost var b, i := BlockOf(p), IndexOf(blocks, p - HEADER);
      ghost var d0, blocks0 := data, blocks;
      ReadAt(data, blocks, base, end, i);
      var h := HeaderAt(data, p - HEADER);
      MallocGrants(Now(), Aligned(size), base);
      MallocLeaves(Now(), Aligned(size), b);
      q := Kmalloc(size);
      if q == 0 {
        NotMoved(d0, data, blocks0, blocks, b, size);
        return;
      }
      ghost var g :| GrantedBlock(old(Now()), Aligned(size), Now(), q, g);
      FindBlock(data, blocks, base, end, b);
      FindLive(data, blocks, base, end, g);
      ghost var d1, blocks1 := data, blocks;
      Fill(q, 0, data[p..p + h.size]);
      ghost var d2 := data;
      FindBlock(data, blocks, base, end, b);
      InUse(blocks0, i);
      Kfree(p);
      MoveDone(d0, d1, d2, data, blocks0, blocks1, blocks, b, g, size, q);
    }

    method Krealloc(p: nat, size: nat) returns (q: nat)
      requires Valid() && Passable(p)
      modifies this
      ensures Valid()
      ensures p == 0 && size == 0 ==> q == 0 && data == old(data) && Now() == old(Now())
      ensures p == 0 && size != 0 ==>
        (Now(), q) == Malloc(old(Now()), Aligned(size)) && SameBytes(old(data), data, Live(old(blocks)))
      ensures p != 0 && !old(Marked(p)) ==> q == 0 && data == old(data) && Now() == old(Now())
      ensures old(Marked(p)) && size == 0 ==>
        q == 0 && Live(blocks) == Live(old(blocks)) - {old(BlockOf(p))} && SameBytes(old(data), data, Live(blocks))
      ensures old(Marked(p)) && 0 < size <= old(BlockOf(p)).size ==> q == p && data == old(data) && Now() == old(Now())
      ensures old(Marked(p)) && size > old(BlockOf(p)).size ==>
        && Moved(old(data), old(blocks), data, blocks, old(BlockOf(p)), size, q)
        && (q == 0 <==> Malloc(old(Now()), Aligned(size)).1 == 0)
    {
      hide HeaderAt, StoreHeader, Tiled, SameBytes, Live, Linked, Moved, Malloc, Pass, StoreBytes;
      if p == 0 {
        q := Kmalloc(size);
        return;
      }
      if size == 0 {
        Kfree(p);
        return 0;
      }
      var h := HeaderAt(data, p - HEADER);
      if h.magic != MAGIC { return 0; }
      ReadAt(data, blocks, base, end, IndexOf(blocks, p - HEADER));
      if h.size >= size { return p; }
      q := Grow(p, size);
    }
  }

  /** The old contents of `b` have moved to a larger block, or nothing has happened to any block in use. */
  ghost predicate Moved(d0: seq<byte>, blocks0: seq<Block>, d: seq<byte>, blocks: seq<Block>, b: Block, size: nat,
                        q: nat) {
    if q == 0 then Live(blocks) == Live(blocks0) && SameBytes(d0, d, Live(blocks0))
    else exists g: Block :: MovedTo(d0, blocks0, d, blocks, b, size, q, g)
  }

  ghost predicate MovedTo(d0: seq<byte>, blocks0: seq<Block>, d: seq<byte>, blocks: seq<Block>, b: Block, size: nat,
                          q: nat, g: Block) {
    && g.addr + HEADER == q && g.size >= size && g !in Live(blocks0) && Live(blocks) == Live(blocks0) - {b} + {g}
    && SameBytes(d0, d, Live(blocks0) - {b})
    && End(b) <= |d0| && q + b.size <= |d| && (!b.free ==> d[q..q + b.size] == d0[b.addr + HEADER..End(b)])
  }

  lemma NotMoved(d0: seq<byte>, d: seq<byte>, blocks0: seq<Block>, blocks: seq<Block>, b: Block, size: nat)
    requires Live(blocks) == Live(blocks0) && SameBytes(d0, d, Live(blocks0))
    ensures Moved(d0, blocks0, d, blocks, b, size, 0)
  {
  }

  lemma FrontOf(d: seq<byte>, q: nat, e: nat, n: nat)
    requires q + n <= e <= |d|
    ensures d[q..q + n] == d[q..e][..n]
  {
  }

  lemma MoveDone(d0: seq<byte>, d1: seq<byte>, d2: seq<byte>, d3: seq<byte>, blocks0: seq<Block>, blocks1: seq<Block>,
                 blocks3: seq<Block>, b: Block, g: Block, size: nat, q: nat)
    requires SameBytes(d0, d1, Live(blocks0)) && (b.free || b in Live(blocks0))
    requires Live(blocks1) == Live(blocks0) + {g} && g !in Live(blocks0) && (b.free ==> b !in Live(blocks1))
    requires g.addr + HEADER == q && g.size >= size >= b.size && End(g) <= |d1| && End(b) <= |d1|
    requires d2 == StoreBytes(d1, q, d1[b.addr + HEADER..End(b)]) && SameBytes(d1, d2, Live(blocks1) - {g})
    requires Live(blocks3) == Live(blocks1) - {b} && SameBytes(d2, d3, Live(blocks3))
    ensures q != 0 && Moved(d0, blocks0, d3, blocks3, b, size, q)
  {
    hide Live;
    assert Live(blocks1) - {g} == Live(blocks0);
    LessLive(d0, d1, Live(blocks0), Live(blocks0) - {b});
    LessLive(d1, d2, Live(blocks0), Live(blocks0) - {b});
    LessLive(d2, d3, Live(blocks3), Live(blocks0) - {b});
    SameBytesTrans(d0, d1, d2, Live(blocks0) - {b});
    SameBytesTrans(d0, d2, d3, Live(blocks0) - {b});
    assert !b.free ==> SamePayload(d0, d1, b);
    assert g != b && SamePayload(d2, d3, g);
    var n := b.size;
    FrontOf(d3, q, End(g), n);
    FrontOf(d2, q, End(g), n);
    assert Live(blocks3) == Live(blocks0) - {b} + {g};
    assert MovedTo(d0, blocks0, d3, blocks3, b, size, q, g);
  }

  lemma InUse(blocks: seq<Block>, i: nat)
    requires i < |blocks|
    ensures !blocks[i].free <==> blocks[i] in Live(blocks)
  {
  }

  /** A block is found from its address, and its magic number is right. */
  lemma FindBlock(data: seq<byte>, blocks: seq<Block>, lo: nat, hi: nat, b: Block)
    requires Sound(data, blocks, lo, hi) && b in blocks
    ensures IndexOf(blocks, b.addr) < |blocks| && blocks[IndexOf(blocks, b.addr)] == b
    ensures 0 < b.addr && End(b) <= |data| && HeaderAt(data, b.addr).magic == MAGIC
  {
    hide HeaderAt, Linked, HeaderOf;
    var k: nat :| k < |blocks| && blocks[k] == b;
    var i := IndexOf(blocks, b.addr);
    ReadAt(data, blocks, lo, hi, k);
    assert HeaderOf(blocks, k).magic == MAGIC by { MagicOf(blocks, k); }
    if i < k { TiledApart(blocks, i, k, lo, hi); }
    if k < i { TiledApart(blocks, k, i, lo, hi); }
  }

  lemma FindLive(data: seq<byte>, blocks: seq<Block>, lo: nat, hi: nat, b: Block)
    requires Sound(data, blocks, lo, hi) && b in Live(blocks)
    ensures IndexOf(blocks, b.addr) < |blocks| && blocks[IndexOf(blocks, b.addr)] == b && !b.free
    ensures 0 < b.addr && End(b) <= |data| && HeaderAt(data, b.addr).magic == MAGIC
  {
    FindBlock(data, blocks, lo, hi, b);
  }

  /** The 29 bytes in front of `p` lie in the payload of a block. */
  ghost predicate StaleIn(blocks: seq<Block>, p: nat) {
    exists j: nat | j < |blocks| :: blocks[j].addr + 2 * HEADER <= p <= End(blocks[j])
  }

  /** That block is free. */
  ghost predicate StaleInFree(blocks: seq<Block>, p: nat) {
    exists j: nat | j < |blocks| :: blocks[j].free && blocks[j].addr + 2 * HEADER <= p <= End(blocks[j])
  }

  /** Memory with the free flag set in what is taken for a header at `x`. */
  function Refreed(data: seq<byte>, x: nat): seq<byte>
    requires x + HEADER <= |data|
  {
    StoreHeader(data, x, HeaderAt(data, x).(free := true))
  }

  lemma StaleFree(data: seq<byte>, blocks: seq<Block>, lo: nat, hi: nat, p: nat)
    requires Sound(data, blocks, lo, hi) && HEADER <= p <= |data|
    ensures StaleInFree(blocks, p) ==> SameBytes(data, Refreed(data, p - HEADER), Live(blocks))
  {
    hide HeaderAt, StoreHeader, Tiled, SameBytes, Live, Linked;
    if StaleInFree(blocks, p) {
      var j: nat :| j < |blocks| && blocks[j].free && blocks[j].addr + 2 * HEADER <= p <= End(blocks[j]);
      assert blocks[j].addr + HEADER <= p - HEADER && p - HEADER + HEADER <= End(blocks[j]);
      StoreUnlisted(data, blocks, lo, hi, p - HEADER, HeaderAt(data, p - HEADER).(free := true));
    }
  }

  lemma StaleBounds(data: seq<byte>, blocks: seq<Block>, lo: nat, hi: nat, p: nat)
    requires Sound(data, blocks, lo, hi)
    ensures StaleIn(blocks, p) ==> HEADER <= p <= |data|
  {
    TiledBounds(blocks, lo, hi);
  }

  lemma MagicOf(blocks: seq<Block>, k: nat)
    requires k < |blocks|
    ensures HeaderOf(blocks, k).magic == MAGIC
  {
  }

  lemma GrowthNotLive(blocks: seq<Block>, b: Block)
    requires b.free
    ensures Live(blocks + [b]) == Live(blocks)
  {
    forall x | x in Live(blocks) ensures x in Live(blocks + [b]) { }
  }

  lemma LessLive(a: seq<byte>, b: seq<byte>, live: set<Block>, less: set<Block>)
    requires SameBytes(a, b, live) && less <= live
    ensures SameBytes(a, b, less)
  {
  }

  lemma EndPositive(data: seq<byte>, blocks: seq<Block>, lo: nat, hi: nat)
    requires Sound(data, blocks, lo, hi)
    ensures 0 < hi && SameBytes(data, data, Live(blocks)) && (blocks != [] <==> AddrOf(blocks, 0) != 0)
  {
    TiledBounds(blocks, lo, hi);
  }
}
