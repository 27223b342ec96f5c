/**
 Any history of kmalloc, krealloc, kfree and writes: what its callers see is a map from
 pointers to byte strings that only their own operations change.
 */
module KHeapRuns {
  import opened Bytes
  import opened HeapBlocks
  import opened HeapEdits
  import opened HeapSpec
  import opened KHeap

  datatype Op = Alloc(size: nat) | Resize(p: nat, size: nat) | Release(p: nat) | Write(p: nat, off: nat, b: byte)

  /** The allocations that are out, each with the bytes its owner expects there. */
  type View = map<nat, seq<byte>>

  function Min(a: nat, b: nat): nat {
    if a < b then a else b
  }

  function Put(s: seq<byte>, i: nat, b: byte): seq<byte>
    requires i < |s|
  {
    s[..i] + [b] + s[i + 1..]
  }

  /** What an operation may do to the view. */
  ghost predicate Expected(v: View, op: Op, v': View) {
    match op
    case Alloc(size) => v' == v || exists p: nat, bytes: seq<byte> :: Added(v, v', p, bytes, size)
    case Release(p) => v' == v - {p}
    case Write(p, off, b) => v' == if p in v && off < |v[p]| then v[p := Put(v[p], off, b)] else v
    case Resize(p, size) =>
      if p !in v then v' == v
      else if size == 0 then v' == v - {p}
      else v' == v || exists q: nat, bytes: seq<byte> :: Added(v - {p}, v', q, bytes, size) && Continues(v[p], bytes)
  }

  /** A pointer that was not out before joins the view. */
  ghost predicate Added(v: View, v': View, p: nat, bytes: seq<byte>, size: nat) {
    p != 0 && p !in v && |bytes| == size && v' == v[p := bytes]
  }

  /** The new contents begin with as much of the old as there is room for. */
  ghost predicate Continues(was: seq<byte>, bytes: seq<byte>) {
    var n := Min(|was|, |bytes|);
    bytes[..n] == was[..n]
  }

  /** Every pointer of the view is a block in use that is large enough and holds the expected bytes. */
  ghost predicate Agrees(data: seq<byte>, blocks: seq<Block>, v: View) {
    forall p <- v :: HeldBy(data, blocks, p, v[p])
  }

  ghost predicate HeldBy(data: seq<byte>, blocks: seq<Block>, p: nat, bytes: seq<byte>) {
    exists b <- Live(blocks) :: HeldIn(data, b, p, bytes)
  }

  ghost predicate HeldIn(data: seq<byte>, b: Block, p: nat, bytes: seq<byte>) {
    b.addr + HEADER == p && |bytes| <= b.size && End(b) <= |data| && data[p..p + |bytes|] == bytes
  }

  lemma HeldKept(data: seq<byte>, data': seq<byte>, b: Block, p: nat, bytes: seq<byte>)
    requires HeldIn(data, b, p, bytes) && SamePayload(data, data', b)
    ensures HeldIn(data', b, p, bytes)
  {
    var n := |bytes|;
    assert data'[p..p + n] == data'[p..End(b)][..n] && data[p..p + n] == data[p..End(b)][..n];
  }

  /** Blocks that stay in use with their bytes keep the view true. */
  lemma ViewKept(data: seq<byte>, blocks: seq<Block>, data': seq<byte>, blocks': seq<Block>, v: View, live: set<Block>)
    requires Agrees(data, blocks, v) && SameBytes(data, data', live) && live <= Live(blocks')
    requires forall b <- Live(blocks) :: b in live || b.addr + HEADER !in v
    ensures Agrees(data', blocks', v)
  {
    forall p <- v ensures HeldBy(data', blocks', p, v[p]) {
      assert HeldBy(data, blocks, p, v[p]);
      var b :| b in Live(blocks) && HeldIn(data, b, p, v[p]);
      assert SamePayload(data, data', b);
      HeldKept(data, data', b, p, v[p]);
    }
  }

  lemma ViewAdds(data: seq<byte>, blocks: seq<Block>, v: View, b: Block, bytes: seq<byte>)
    requires Agrees(data, blocks, v) && b in Live(blocks) && HeldIn(data, b, b.addr + HEADER, bytes)
    ensures Agrees(data, blocks, v[b.addr + HEADER := bytes])
  {
    var v' := v[b.addr + HEADER := bytes];
    forall p <- v' ensures HeldBy(data, blocks, p, v'[p]) {
      if p != b.addr + HEADER { assert HeldBy(data, blocks, p, v[p]); }
    }
  }

  /** Live allocations never overlap, and none of them is NULL. */
  lemma NoOverlap(data: seq<byte>, blocks: seq<Block>, lo: nat, hi: nat, v: View, p: nat, q: nat)
    requires Sound(data, blocks, lo, hi) && Agrees(data, blocks, v) && p in v && q in v && p < q
    ensures p != 0 && p + |v[p]| <= q
  {
    assert HeldBy(data, blocks, p, v[p]) && HeldBy(data, blocks, q, v[q]);
    var a :| a in Live(blocks) && HeldIn(data, a, p, v[p]);
    var b :| b in Live(blocks) && HeldIn(data, b, q, v[q]);
    var i: nat :| i < |blocks| && blocks[i] == a;
    var j: nat :| j < |blocks| && blocks[j] == b;
    if i < j { TiledApart(blocks, i, j, lo, hi); }
    if j < i { TiledApart(blocks, j, i, lo, hi); }
  }

  /** The view names blocks that krealloc and kfree accept. */
  lemma ViewBlock(h: Heap, v: View, p: nat) returns (b: Block)
    requires h.Valid() && Agrees(h.data, h.blocks, v) && p in v
    ensures b in Live(h.blocks) && !b.free && HeldIn(h.data, b, p, v[p])
    ensures p != 0 && h.Passable(p) && h.Marked(p) && h.BlockOf(p) == b
  {
    hide HeaderAt, Tiled, Linked, Live, Agrees, HeldBy, IndexOf;
    b := Holder(h.data, h.blocks, v, p);
    FindLive(h.data, h.blocks, h.base, h.end, b);
  }

  lemma Holder(data: seq<byte>, blocks: seq<Block>, v: View, p: nat) returns (b: Block)
    requires Agrees(data, blocks, v) && p in v
    ensures b in Live(blocks) && HeldIn(data, b, p, v[p])
  {
    assert HeldBy(data, blocks, p, v[p]);
    b :| b in Live(blocks) && HeldIn(data, b, p, v[p]);
  }

  /** A pointer belongs to one block only. */
  lemma OneBlock(data: seq<byte>, blocks: seq<Block>, lo: nat, hi: nat, a: Block, b: Block)
    requires Sound(data, blocks, lo, hi) && a in Live(blocks) && b in Live(blocks) && a.addr == b.addr
    ensures a == b
  {
    FindLive(data, blocks, lo, hi, a);
    FindLive(data, blocks, lo, hi, b);
  }

  method DoAlloc(h: Heap, v: View, size: nat) returns (v': View)
    requires h.Valid() && Agrees(h.data, h.blocks, v)
    modifies h
    ensures h.Valid() && Agrees(h.data, h.blocks, v') && Expected(v, Alloc(size), v')
  {
    hide HeaderAt, Tiled, Linked, SameBytes, Live, Agrees, Malloc, HeldIn;
    ghost var d0, blocks0 := h.data, h.blocks;
    MallocGrants(h.Now(), Aligned(size), h.base);
    var p := h.Kmalloc(size);
    if p == 0 {
      ViewKept(d0, blocks0, h.data, h.blocks, v, Live(blocks0));
      return v;
    }
    ghost var b :| GrantedBlock(Pool(blocks0, old(h.end), old(h.avail)), Aligned(size), h.Now(), p, b);
    ViewKept(d0, blocks0, h.data, h.blocks, v, Live(blocks0));
    FindLive(h.data, h.blocks, h.base, h.end, b);
    NewPointer(h.data, h.blocks, h.base, h.end, blocks0, d0, v, b);
    var bytes := h.data[p..p + size];
    HeldFresh(h.data, b, size);
    ViewAdds(h.data, h.blocks, v, b, bytes);
    v' := v[p := bytes];
    assert Added(v, v', p, bytes, size);
  }

  lemma HeldFresh(data: seq<byte>, b: Block, size: nat)
    requires size <= b.size && End(b) <= |data|
    ensures HeldIn(data, b, b.addr + HEADER, data[b.addr + HEADER..b.addr + HEADER + size])
  {
  }

  /** A block that was not in use before has a pointer nobody holds. */
  lemma NewPointer(data: seq<byte>, blocks: seq<Block>, lo: nat, hi: nat, blocks0: seq<Block>, d0: seq<byte>, v: View,
                   b: Block)
    requires Sound(data, blocks, lo, hi) && Agrees(d0, blocks0, v)
    requires forall a <- Live(blocks0) :: a in Live(blocks) || a.addr + HEADER !in v
    requires b in Live(blocks) && b !in Live(blocks0)
    ensures b.addr + HEADER !in v
  {
    hide HeaderAt, Tiled, Linked, Live;
    if b.addr + HEADER in v {
      var a := Holder(d0, blocks0, v, b.addr + HEADER);
      OneBlock(data, blocks, lo, hi, a, b);
    }
  }

  lemma ViewLess(data: seq<byte>, blocks: seq<Block>, v: View, p: nat)
    requires Agrees(data, blocks, v)
    ensures Agrees(data, blocks, v - {p})
  {
    forall q <- v - {p} ensures HeldBy(data, blocks, q, (v - {p})[q]) { assert HeldBy(data, blocks, q, v[q]); }
  }

  /** Only the holder of `p` may have gone or changed. */
  lemma ViewWithout(d0: seq<byte>, blocks0: seq<Block>, data: seq<byte>, blocks: seq<Block>, v: View, b: Block)
    requires Agrees(d0, blocks0, v) && SameBytes(d0, data, Live(blocks0) - {b}) && Live(blocks0) - {b} <= Live(blocks)
    ensures Agrees(data, blocks, v - {b.addr + HEADER})
  {
    hide SameBytes, Live, HeldBy;
    ViewLess(d0, blocks0, v, b.addr + HEADER);
    ViewKept(d0, blocks0, data, blocks, v - {b.addr + HEADER}, Live(blocks0) - {b});
  }

  method DoRelease(h: Heap, v: View, p: nat) returns (v': View)
    requires h.Valid() && Agrees(h.data, h.blocks, v)
    modifies h
    ensures h.Valid() && Agrees(h.data, h.blocks, v') && Expected(v, Release(p), v')
  {
    hide HeaderAt, Tiled, Linked, SameBytes, Live, Agrees, HeldIn, Pass;
    v' := v - {p};
    if p !in v {
      assert v' == v;
      return;
    }
    ghost var b := ViewBlock(h, v, p);
    ghost var d0, blocks0 := h.data, h.blocks;
    h.Kfree(p);
    ViewWithout(d0, blocks0, h.data, h.blocks, v, b);
    assert b.addr + HEADER == p by { PointerOf(d0, b, p, v[p]); }
  }

  lemma PointerOf(data: seq<byte>, b: Block, p: nat, bytes: seq<byte>)
    requires HeldIn(data, b, p, bytes)
    ensures b.addr + HEADER == p && |bytes| <= b.size && End(b) <= |data| && data[p..p + |bytes|] == bytes
  {
  }

  method DoWrite(h: Heap, v: View, p: nat, off: nat, x: byte) returns (v': View)
    requires h.Valid() && Agrees(h.data, h.blocks, v)
    modifies h
    ensures h.Valid() && Agrees(h.data, h.blocks, v') && Expected(v, Write(p, off, x), v')
  {
    hide HeaderAt, Tiled, Linked, SameBytes, Live, Agrees, HeldIn;
    if p !in v || off >= |v[p]| { return v; }
    ghost var b := ViewBlock(h, v, p);
    ghost var d0, blocks0 := h.data, h.blocks;
    PointerOf(d0, b, p, v[p]);
    h.Fill(p, off, [x]);
    v' := v[p := Put(v[p], off, x)];
    ViewWithout(d0, blocks0, h.data, h.blocks, v, b);
    HeldWritten(d0, h.data, b, p, v[p], off, x);
    ViewAdds(h.data, h.blocks, v - {p}, b, Put(v[p], off, x));
    assert v' == (v - {p})[p := Put(v[p], off, x)];
  }

  lemma HeldWritten(data: seq<byte>, data': seq<byte>, b: Block, p: nat, bytes: seq<byte>, off: nat, x: byte)
    requires HeldIn(data, b, p, bytes) && off < |bytes| && data' == StoreBytes(data, p + off, [x])
    ensures HeldIn(data', b, p, Put(bytes, off, x))
  {
  }

  lemma StillThere(d0: seq<byte>, blocks0: seq<Block>, data: seq<byte>, blocks: seq<Block>, v: View, b: Block,
                   size: nat)
    requires Agrees(d0, blocks0, v) && Moved(d0, blocks0, data, blocks, b, size, 0)
    ensures Agrees(data, blocks, v)
  {
    hide SameBytes, Live, HeldBy, MovedTo;
    ViewKept(d0, blocks0, data, blocks, v, Live(blocks0));
  }

  /** krealloc within the block. */
  lemma InPlace(data: seq<byte>, blocks: seq<Block>, v: View, b: Block, size: nat)
    requires Agrees(data, blocks, v) && b in Live(blocks) && size <= b.size
    requires b.addr + HEADER in v && HeldIn(data, b, b.addr + HEADER, v[b.addr + HEADER])
    ensures End(b) <= |data| && Agrees(data, blocks, v - {b.addr + HEADER})
    ensures var p: nat := b.addr + HEADER; var bytes := data[p..p + size];
      HeldIn(data, b, p, bytes) && Continues(v[p], bytes)
  {
    var p: nat := b.addr + HEADER;
    ViewLess(data, blocks, v, p);
    var n := Min(|v[p]|, size);
    assert data[p..p + size][..n] == data[p..p + |v[p]|][..n];
  }

  lemma NotFree(blocks: seq<Block>, b: Block)
    requires b in Live(blocks)
    ensures !b.free
  {
  }

  /** krealloc to another block. */
  lemma MovedOver(data: seq<byte>, blocks: seq<Block>, lo: nat, hi: nat, d0: seq<byte>, blocks0: seq<Block>, v: View,
                  b: Block, size: nat, q: nat)
    returns (g: Block)
    requires Sound(data, blocks, lo, hi) && Agrees(d0, blocks0, v) && b in Live(blocks0) && size > b.size
    requires b.addr + HEADER in v && HeldIn(d0, b, b.addr + HEADER, v[b.addr + HEADER])
    requires q != 0 && Moved(d0, blocks0, data, blocks, b, size, q)
    ensures g in Live(blocks) && g.addr + HEADER == q && size <= g.size && End(g) <= |data|
    ensures Agrees(data, blocks, v - {b.addr + HEADER}) && q !in v - {b.addr + HEADER}
    ensures var bytes := data[q..q + size]; HeldIn(data, g, q, bytes) && Continues(v[b.addr + HEADER], bytes)
  {
    hide HeaderAt, Tiled, Linked, SameBytes, Live, HeldBy;
    var p: nat := b.addr + HEADER;
    NotFree(blocks0, b);
    g :| MovedTo(d0, blocks0, data, blocks, b, size, q, g);
    FindLive(data, blocks, lo, hi, g);
    ViewWithout(d0, blocks0, data, blocks, v, b);
    ViewLess(d0, blocks0, v, p);
    NewPointer(data, blocks, lo, hi, blocks0, d0, v - {p}, g);
    HeldFresh(data, g, size);
    var n := |v[p]|;
    assert data[q..q + size][..n] == data[q..q + b.size][..n];
    assert d0[p..p + n] == d0[p..End(b)][..n];
  }

  method DoResize(h: Heap, v: View, p: nat, size: nat) returns (v': View)
    requires h.Valid() && Agrees(h.data, h.blocks, v)
    modifies h
    ensures h.Valid() && Agrees(h.data, h.blocks, v') && Expected(v, Resize(p, size), v')
  {
    hide HeaderAt, Tiled, Linked, SameBytes, Live, Agrees, HeldIn, Malloc, Moved, MovedTo;
    if p !in v { return v; }
    ghost var b := ViewBlock(h, v, p);
    ghost var d0, blocks0 := h.data, h.blocks;
    PointerOf(d0, b, p, v[p]);
    var q := h.Krealloc(p, size);
    if size == 0 {
      ViewWithout(d0, blocks0, h.data, h.blocks, v, b);
      return v - {p};
    }
    if q == 0 {
      StillThere(d0, blocks0, h.data, h.blocks, v, b, size);
      return v;
    }
    ghost var g := b;
    if size <= b.size {
      InPlace(d0, blocks0, v, b, size);
    } else {
      g := MovedOver(h.data, h.blocks, h.base, h.end, d0, blocks0, v, b, size, q);
    }
    var bytes := h.data[q..q + size];
    v' := (v - {p})[q := bytes];
    ViewAdds(h.data, h.blocks, v - {p}, g, bytes);
    assert Added(v - {p}, v', q, bytes, size);
  }

  /**
   Every history keeps the heap sound and every caller's bytes where they belong: the
   views follow one another as the operations say, and the last one is what memory holds.
   */
  method Run(h: Heap, ops: seq<Op>) returns (views: seq<View>)
    requires h.Valid()
    modifies h
    ensures h.Valid() && |views| == |ops| + 1 && views[0] == map[]
    ensures forall i: nat | i < |ops| :: Expected(views[i], ops[i], views[i + 1])
    ensures Agrees(h.data, h.blocks, views[|ops|])
    ensures forall p <- views[|ops|], q <- views[|ops|] | p < q :: p != 0 && p + |views[|ops|][p]| <= q
  {
    hide Expected, Agrees, HeaderAt, Tiled, Linked;
    views := [map[]];
    assert Agrees(h.data, h.blocks, map[]) by { NobodyYet(h.data, h.blocks); }
    for i := 0 to |ops|
      invariant h.Valid() && |views| == i + 1 && views[0] == map[] && Agrees(h.data, h.blocks, views[i])
      invariant forall k: nat | k < i :: Expected(views[k], ops[k], views[k + 1])
    {
      var v;
      match ops[i] {
        case Alloc(size) => v := DoAlloc(h, views[i], size);
        case Release(p) => v := DoRelease(h, views[i], p);
        case Write(p, off, b) => v := DoWrite(h, views[i], p, off, b);
        case Resize(p, size) => v := DoResize(h, views[i], p, size);
      }
      views := views + [v];
    }
    var last := views[|ops|];
    forall p <- last, q <- last | p < q ensures p != 0 && p + |last[p]| <= q {
      NoOverlap(h.data, h.blocks, h.base, h.end, last, p, q);
    }
  }

  lemma NobodyYet(data: seq<byte>, blocks: seq<Block>)
    ensures Agrees(data, blocks, map[])
  {
  }

  // ---- Two free neighbours -----------------------------------------------------------------

  /** The first two requests on a fresh heap of four pages split its one block twice. */
  lemma TwoRequests()
    ensures Malloc(Pool([], 4096, 4), 16) == (Pool([Block(4096, 16, false), Block(4141, 16310, true)], 20480, 0), 4125)
    ensures Malloc(Pool([Block(4096, 16, false), Block(4141, 16310, true)], 20480, 0), 16)
         == (Pool([Block(4096, 16, false), Block(4141, 16, false), Block(4186, 16265, true)], 20480, 0), 4170)
  {
    var one := [Block(4096, 16355, true)];
    assert Grown(Pool([], 4096, 4), 16) == Pool(one, 20480, 0);
    assert SplitAt(one, 0, 16) == [Block(4096, 16, false), Block(4141, 16310, true)];
    var two := [Block(4096, 16, false), Block(4141, 16310, true)];
    assert FitIndex(two, 16) == 1 by { assert two[1..] == [two[1]]; }
    assert SplitAt(two, 1, 16) == [Block(4096, 16, false), Block(4141, 16, false), Block(4186, 16265, true)];
  }

  /** Releasing the first of them merges nothing, and releasing the second then merges it with the first only. */
  lemma TwoReleases()
    ensures var three := [Block(4096, 16, true), Block(4141, 16, false), Block(4186, 16265, true)];
      && Pass([Block(4096, 16, false), Block(4141, 16, false), Block(4186, 16265, true)][0 := three[0]]) == three
      && Pass(three[1 := Block(4141, 16, true)]) == [Block(4096, 61, true), Block(4186, 16265, true)]
  {
    var a, b, c := Block(4096, 16, true), Block(4141, 16, false), Block(4186, 16265, true);
    assert [a, b, c][1..] == [b, c] && [b, c][1..] == [c];
    assert [a, b.(free := true), c][2..] == [c];
    assert Pass([c]) == [c] && Pass([b, c]) == [b] + Pass([c]);
  }

  /** Two kmallocs and two kfrees on a fresh heap, after which two neighbours are both free. */
  method LeaveNeighbours() returns (h: Heap)
    ensures h.Valid() && Adjacent(h.blocks, 0)
  {
    hide Malloc, Pass, HeaderAt, Tiled, Linked, SameBytes, Live;
    TwoRequests();
    TwoReleases();
    h := new Heap(Zeros(0x5000), 4096, 4);
    var a := h.Kmalloc(16);
    var b := h.Kmalloc(16);
    FindBlock(h.data, h.blocks, h.base, h.end, h.blocks[0]);
    h.Kfree(a);
    FindBlock(h.data, h.blocks, h.base, h.end, h.blocks[1]);
    h.Kfree(b);
  }
}
