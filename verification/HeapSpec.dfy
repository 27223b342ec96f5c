/** What kmalloc, kfree and heap_coalesce do to the block list, as functions. */
module HeapSpec {
  import opened Arithmetic
  import opened HeapBlocks
  import opened HeapEdits

  const PAGE_SIZE: nat := 4096

  /** The rounding of kmalloc. */
  function Aligned(size: nat): (r: nat)
    ensures size <= r < size + 16 && r % 16 == 0
  {
    (size + 15) / 16 * 16
  }

  /** The pages heap_expand asks for. */
  function GrowthPages(size: nat): (pages: nat)
    ensures 4 <= pages && size <= pages * PAGE_SIZE
  {
    var pages := (size + PAGE_SIZE - 1) / PAGE_SIZE;
    if pages < 4 then 4 else pages
  }

  /** The block that growth for `size` bytes adds. */
  function Growth(at: nat, size: nat): Block {
    Block(at, GrowthPages(size) * PAGE_SIZE - HEADER, true)
  }

  predicate Suits(b: Block, size: nat) {
    b.free && b.size >= size
  }

  /** The first block that suits, or the length of the list. */
  function FitIndex(blocks: seq<Block>, size: nat): (i: nat)
    ensures i <= |blocks| && (i < |blocks| ==> Suits(blocks[i], size))
    ensures forall k: nat | k < i :: !Suits(blocks[k], size)
  {
    if blocks == [] || Suits(blocks[0], size) then 0 else 1 + FitIndex(blocks[1..], size)
  }

  /** The list after block `i` is given out. */
  function Occupied(blocks: seq<Block>, i: nat, size: nat): seq<Block>
    requires i < |blocks|
  {
    if blocks[i].size > size + HEADER + MIN_SPLIT then SplitAt(blocks, i, size) else Flagged(blocks, i, false)
  }

  /** The heap: its blocks, where it ends, and how many free pages follow. */
  datatype Pool = Pool(blocks: seq<Block>, end: nat, avail: nat)

  function Grown(h: Pool, size: nat): Pool
    requires GrowthPages(size) <= h.avail
  {
    Pool(h.blocks + [Growth(h.end, size)], h.end + GrowthPages(size) * PAGE_SIZE, h.avail - GrowthPages(size))
  }

  /** kmalloc of an aligned size: the heap after it, and the index of the block given out if there is one. */
  function Malloc(h: Pool, size: nat): (r: (Pool, nat))
    decreases h.avail
  {
    var i := FitIndex(h.blocks, size);
    if i < |h.blocks| then (h.(blocks := Occupied(h.blocks, i, size)), h.blocks[i].addr + HEADER)
    else if GrowthPages(size) > h.avail then (h, 0)
    else Malloc(Grown(h, size), size)
  }

  /** One pass of heap_coalesce: each free block takes in at most its successor. */
  function Pass(blocks: seq<Block>): seq<Block> {
    if |blocks| < 2 then blocks
    else if blocks[0].free && blocks[1].free then [Merge(blocks[0], blocks[1])] + Pass(blocks[2..])
    else [blocks[0]] + Pass(blocks[1..])
  }

  lemma PassMerges(blocks: seq<Block>, i: nat)
    requires i + 1 < |blocks| && blocks[i].free && blocks[i + 1].free
    ensures blocks[..i] + Pass(blocks[i..]) == MergeAt(blocks, i)[..i + 1] + Pass(MergeAt(blocks, i)[i + 1..])
  {
    var m := MergeAt(blocks, i);
    assert m[i + 1..] == blocks[i..][2..];
    assert m[..i + 1] == blocks[..i] + [Merge(blocks[i], blocks[i + 1])];
  }

  lemma PassSkips(blocks: seq<Block>, i: nat)
    requires i < |blocks| && !(i + 1 < |blocks| && blocks[i].free && blocks[i + 1].free)
    ensures blocks[..i] + Pass(blocks[i..]) == blocks[..i + 1] + Pass(blocks[i + 1..])
  {
    assert blocks[i..][1..] == blocks[i + 1..];
    assert blocks[..i + 1] == blocks[..i] + [blocks[i]];
  }

  /** Merging free blocks changes nothing about the blocks in use. */
  lemma MergeLive(blocks: seq<Block>, i: nat)
    requires i + 1 < |blocks| && blocks[i].free && blocks[i + 1].free
    ensures Live(MergeAt(blocks, i)) == Live(blocks)
  {
    var m := MergeAt(blocks, i);
    assert blocks == blocks[..i] + [blocks[i], blocks[i + 1]] + blocks[i + 2..];
    forall b | b in Live(blocks) ensures b in Live(m) { }
    forall b | b in Live(m) ensures b in Live(blocks) { }
  }

  lemma FitFound(blocks: seq<Block>, i: nat, size: nat)
    requires i <= |blocks| && (forall k: nat | k < i :: !Suits(blocks[k], size))
    requires (i < |blocks| ==> Suits(blocks[i], size))
    ensures FitIndex(blocks, size) == i
  {
    assert i <= FitIndex(blocks, size);
  }

  lemma AlignedTwice(size: nat)
    ensures Aligned(Aligned(size)) == Aligned(size)
  {
  }

  /** The block at address `a`, or the length of the list. */
  function IndexOf(blocks: seq<Block>, a: nat): (i: nat)
    ensures i <= |blocks| && (i < |blocks| ==> blocks[i].addr == a)
    ensures i == |blocks| ==> forall b <- blocks :: b.addr != a
  {
    if blocks == [] || blocks[0].addr == a then 0 else 1 + IndexOf(blocks[1..], a)
  }

  // ---- What kmalloc grants -----------------------------------------------------------

  /** The block that is given out when block `i` serves `size` bytes. */
  function Grant(blocks: seq<Block>, i: nat, size: nat): Block
    requires i < |blocks|
  {
    Block(blocks[i].addr, if blocks[i].size > size + HEADER + MIN_SPLIT then size else blocks[i].size, false)
  }

  lemma OccupiedLive(blocks: seq<Block>, i: nat, size: nat, lo: nat, hi: nat)
    requires Tiled(blocks, lo, hi) && i < |blocks| && Suits(blocks[i], size)
    ensures Live(Occupied(blocks, i, size)) == Live(blocks) + {Grant(blocks, i, size)}
    ensures Grant(blocks, i, size).size >= size && Grant(blocks, i, size) !in Live(blocks)
    ensures Tiled(Occupied(blocks, i, size), lo, hi)
  {
    var next, g := Occupied(blocks, i, size), Grant(blocks, i, size);
    if blocks[i].size > size + HEADER + MIN_SPLIT {
      SplitTiles(blocks, i, size, lo, hi);
    } else {
      FlaggedTiles(blocks, i, false, lo, hi);
    }
    assert blocks == blocks[..i] + [blocks[i]] + blocks[i + 1..];
    assert next == blocks[..i] + [g] + next[i + 1..];
    forall b | b in Live(blocks) ensures b in Live(next) {
      if b in blocks[i + 1..] { assert blocks[i + 1..] == next[|next| - (|blocks| - i - 1)..]; }
    }
    forall b | b in Live(next) ensures b in Live(blocks) + {g} { }
    forall k: nat | k < |blocks| && !blocks[k].free ensures blocks[k].addr != g.addr {
      if k < i { TiledApart(blocks, k, i, lo, hi); }
      if i < k { TiledApart(blocks, i, k, lo, hi); }
    }
  }

  /** kmalloc adds at most one block to those in use, a new one that is large enough, and removes none. */
  ghost predicate Granted(h: Pool, size: nat, h': Pool, p: nat) {
    if p == 0 then Live(h'.blocks) == Live(h.blocks)
    else exists b: Block :: GrantedBlock(h, size, h', p, b)
  }

  ghost predicate GrantedBlock(h: Pool, size: nat, h': Pool, p: nat, b: Block) {
    !b.free && b.size >= size && b.addr + HEADER == p && b !in Live(h.blocks) && Live(h'.blocks) == Live(h.blocks) + {b}
  }

  lemma GrowthTiles(h: Pool, size: nat, lo: nat)
    requires Tiled(h.blocks, lo, h.end) && GrowthPages(size) <= h.avail
    ensures Tiled(Grown(h, size).blocks, lo, Grown(h, size).end) && Live(Grown(h, size).blocks) == Live(h.blocks)
  {
    var b := Growth(h.end, size);
    AppendTiles(h.blocks, b, lo, h.end);
    forall x | x in Live(h.blocks) ensures x in Live(h.blocks + [b]) { }
  }

  lemma {:induction false} MallocGrants(h: Pool, size: nat, lo: nat)
    requires Tiled(h.blocks, lo, h.end)
    ensures Tiled(Malloc(h, size).0.blocks, lo, Malloc(h, size).0.end)
    ensures Granted(h, size, Malloc(h, size).0, Malloc(h, size).1)
    decreases h.avail
  {
    hide Live, Occupied, Tiled;
    var i := FitIndex(h.blocks, size);
    if i < |h.blocks| {
      OccupiedLive(h.blocks, i, size, lo, h.end);
      assert GrantedBlock(h, size, Malloc(h, size).0, Malloc(h, size).1, Grant(h.blocks, i, size));
    } else if GrowthPages(size) <= h.avail {
      GrowthTiles(h, size, lo);
      MallocGrants(Grown(h, size), size, lo);
      var r := Malloc(h, size);
      if r.1 != 0 {
        var b :| GrantedBlock(Grown(h, size), size, r.0, r.1, b);
        assert GrantedBlock(h, size, r.0, r.1, b);
      }
    }
  }

  /** A block that does not suit the request stays in the list as it is. */
  lemma {:induction false} MallocLeaves(h: Pool, size: nat, b: Block)
    requires b in h.blocks && !Suits(b, size)
    ensures b in Malloc(h, size).0.blocks
    decreases h.avail
  {
    var i := FitIndex(h.blocks, size);
    if i < |h.blocks| {
      OccupiedLeaves(h.blocks, i, size, b);
    } else if GrowthPages(size) <= h.avail {
      MallocLeaves(Grown(h, size), size, b);
    }
  }

  lemma OccupiedLeaves(blocks: seq<Block>, i: nat, size: nat, b: Block)
    requires i < |blocks| && Suits(blocks[i], size) && b in blocks && !Suits(b, size)
    ensures b in Occupied(blocks, i, size)
  {
    var k: nat :| k < |blocks| && blocks[k] == b;
    var next := Occupied(blocks, i, size);
    if blocks[i].size > size + HEADER + MIN_SPLIT {
      assert next[if k < i then k else k + 1] == b;
    } else {
      assert next[k] == b;
    }
  }

  // ---- When kmalloc succeeds -----------------------------------------------------------

  /** A block of growth is large enough for the request that asked for it. */
  predicate GrowthSuits(size: nat) {
    size + HEADER <= GrowthPages(size) * PAGE_SIZE
  }

  /** Growth that does not suit is tried again until fewer pages than it takes are left. */
  lemma {:induction false} MallocSucceeds(h: Pool, size: nat)
    ensures Malloc(h, size).1 != 0 <==>
      FitIndex(h.blocks, size) < |h.blocks| || (GrowthSuits(size) && GrowthPages(size) <= h.avail)
    ensures FitIndex(h.blocks, size) == |h.blocks| && !GrowthSuits(size) ==>
      Malloc(h, size).0.avail == h.avail % GrowthPages(size)
    decreases h.avail
  {
    hide Occupied;
    var i := FitIndex(h.blocks, size);
    if i == |h.blocks| && GrowthPages(size) <= h.avail {
      var g := Grown(h, size);
      var b := Growth(h.end, size);
      MallocSucceeds(g, size);
      forall k: nat | k < i ensures !Suits(g.blocks[k], size) { assert g.blocks[k] == h.blocks[k]; }
      if Suits(b, size) {
        FitFound(g.blocks, i, size);
      } else {
        FitFound(g.blocks, i + 1, size);
        assert (h.avail - GrowthPages(size)) % GrowthPages(size) == h.avail % GrowthPages(size) by {
          OneLess(h.avail, GrowthPages(size));
        }
      }
    }
  }

  lemma OneLess(a: nat, p: nat)
    requires 0 < p <= a
    ensures (a - p) % p == a % p
  {
    assert a - p == (a - p) / p * p + (a - p) % p;
    assert ((a - p) / p + 1) * p == (a - p) / p * p + p;
    Division(a, p, (a - p) / p + 1, (a - p) % p);
  }

  /** The requests that growth can never serve: the header takes the last bytes of the last page. */
  lemma Unservable(size: nat)
    ensures !GrowthSuits(Aligned(size)) <==>
      Aligned(size) > 3 * PAGE_SIZE && (Aligned(size) % PAGE_SIZE == 0 || Aligned(size) % PAGE_SIZE == 4080)
  {
    PagesOf(Aligned(size));
  }

  lemma PagesOf(a: nat)
    requires a % 16 == 0
    ensures !GrowthSuits(a) <==> a > 3 * PAGE_SIZE && (a % PAGE_SIZE == 0 || a % PAGE_SIZE == 4080)
  {
    var q, r := a / PAGE_SIZE, a % PAGE_SIZE;
    assert a == q * PAGE_SIZE + r;
    assert (a + PAGE_SIZE - 1) / PAGE_SIZE == if r == 0 then q else q + 1;
    assert r % 16 == 0 by { assert q * PAGE_SIZE == (q * 256) * 16; }
    assert GrowthPages(a) == if a > 3 * PAGE_SIZE then (if r == 0 then q else q + 1) else 4;
  }

  /** kmalloc(16384) on a heap without a large enough block fails however much memory is left. */
  lemma SixteenKilobytes(h: Pool)
    requires FitIndex(h.blocks, 16384) == |h.blocks|
    ensures Malloc(h, Aligned(16384)).1 == 0 && Malloc(h, Aligned(16384)).0.avail == h.avail % 4
  {
    hide Malloc, FitIndex;
    assert Aligned(16384) == 16384 && GrowthPages(16384) == 4;
    MallocSucceeds(h, 16384);
  }

  // ---- What one pass of coalescing achieves -------------------------------------------

  ghost predicate Adjacent(blocks: seq<Block>, i: nat) {
    i + 1 < |blocks| && blocks[i].free && blocks[i + 1].free
  }

  ghost predicate Triple(blocks: seq<Block>, i: nat) {
    i + 2 < |blocks| && blocks[i].free && blocks[i + 1].free && blocks[i + 2].free
  }

  lemma {:induction false} PassShape(blocks: seq<Block>)
    ensures blocks != [] ==> Pass(blocks) != [] && Pass(blocks)[0].free == blocks[0].free
    ensures blocks == [] ==> Pass(blocks) == []
  {
  }

  /** After heap_coalesce two neighbours are both free exactly when three were in a row before. */
  lemma {:induction false} PassComplete(blocks: seq<Block>)
    ensures (exists i: nat :: Adjacent(Pass(blocks), i)) <==> (exists i: nat :: Triple(blocks, i))
  {
    if |blocks| >= 2 {
      var k := if blocks[0].free && blocks[1].free then 2 else 1;
      var rest := blocks[k..];
      PassComplete(rest);
      PassShape(rest);
      var done := Pass(blocks);
      assert done[1..] == Pass(rest);
      if i: nat :| Adjacent(done, i) {
        if i == 0 { assert Triple(blocks, 0); } else {
          assert Adjacent(Pass(rest), i - 1);
          var j: nat :| Triple(rest, j);
          assert Triple(blocks, j + k);
        }
      }
      if i: nat :| Triple(blocks, i) {
        if i >= k {
          assert Triple(rest, i - k);
          var j: nat :| Adjacent(Pass(rest), j);
          assert Adjacent(done, j + 1);
        } else {
          TripleEarly(blocks, i);
        }
      }
    }
  }

  /** Freeing a block between two free ones always leaves two free neighbours. */
  lemma FreedBetween(blocks: seq<Block>, k: nat)
    requires 0 < k && k + 1 < |blocks| && blocks[k - 1].free && blocks[k + 1].free
    ensures exists i: nat :: Adjacent(Pass(Flagged(blocks, k, true)), i)
  {
    assert Triple(Flagged(blocks, k, true), k - 1);
    PassComplete(Flagged(blocks, k, true));
  }

  lemma TripleEarly(blocks: seq<Block>, i: nat)
    requires Triple(blocks, i) && i < 2 && (i == 1 ==> blocks[0].free)
    ensures exists j: nat :: Adjacent(Pass(blocks), j)
  {
    PassShape(blocks[2..]);
    assert Pass(blocks)[1..] == Pass(blocks[2..]);
    assert Adjacent(Pass(blocks), 0);
  }
}
