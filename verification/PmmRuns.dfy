/** Any history of allocations and releases: blocks never overlap and no page is lost. */
module PmmRuns {
  import opened Options
  import opened Pmm

  /** First fit as a function. */
  ghost function Lowest(free: set<nat>, n: nat, limit: nat, from: nat): Option<nat>
    decreases limit - from
  {
    if from + n > limit then None
    else if FreeRun(free, from, n, limit) then Some(from)
    else Lowest(free, n, limit, from + 1)
  }

  lemma {:induction false} LowestFits(free: set<nat>, n: nat, limit: nat, from: nat)
    requires n > 0 && forall s: nat | s < from :: !FreeRun(free, s, n, limit)
    ensures FirstFit(free, n, limit, Lowest(free, n, limit, from))
    decreases limit - from
  {
    if from + n <= limit && !FreeRun(free, from, n, limit) { LowestFits(free, n, limit, from + 1); }
  }

  /** The contract of the allocator leaves no choice. */
  lemma FirstFitIsLowest(free: set<nat>, n: nat, limit: nat, r: Option<nat>)
    requires n > 0 && FirstFit(free, n, limit, r)
    ensures r == Lowest(free, n, limit, 0)
  {
    LowestFits(free, n, limit, 0);
  }

  datatype Block = Block(start: nat, pages: nat)
  datatype Pool = Pool(free: set<nat>, live: seq<Block>)

  /** Allocate some pages, anywhere or below 4 GiB, or release the k-th outstanding block. */
  datatype Op = Get(pages: nat) | GetDma(pages: nat) | Put(k: nat)

  function DmaLimit(total: nat): nat {
    if DMA_PAGES > total then total else DMA_PAGES
  }

  ghost function Given(pool: Pool, n: nat, limit: nat): Pool {
    if n == 0 then pool
    else match Lowest(pool.free, n, limit, 0)
      case None => pool
      case Some(s) => Pool(pool.free - Range(s, n), pool.live + [Block(s, n)])
  }

  ghost function Do(pool: Pool, total: nat, op: Op): Pool {
    match op
    case Get(n) => Given(pool, n, total)
    case GetDma(n) => Given(pool, n, DmaLimit(total))
    case Put(k) =>
      if k >= |pool.live| then pool
      else Pool(pool.free + Range(pool.live[k].start, pool.live[k].pages), pool.live[..k] + pool.live[k + 1..])
  }

  ghost function History(pool: Pool, total: nat, ops: seq<Op>): Pool {
    if ops == [] then pool else Do(History(pool, total, ops[..|ops| - 1]), total, ops[|ops| - 1])
  }

  ghost function Pages(live: seq<Block>): nat {
    if live == [] then 0 else Pages(live[..|live| - 1]) + live[|live| - 1].pages
  }

  lemma {:induction false} PagesRemove(live: seq<Block>, k: nat)
    requires k < |live|
    ensures Pages(live[..k] + live[k + 1..]) == Pages(live) - live[k].pages
  {
    var n := |live| - 1;
    var rest := live[..k] + live[k + 1..];
    if k == n {
      assert rest == live[..n];
    } else {
      assert rest[..|rest| - 1] == live[..n][..k] + live[..n][k + 1..];
      PagesRemove(live[..n], k);
    }
  }

  ghost function Span(b: Block): set<nat> {
    Range(b.start, b.pages)
  }

  ghost predicate Apart(live: seq<Block>, i: nat, j: nat)
    requires i < |live| && j < |live|
  {
    i != j ==> Span(live[i]) !! Span(live[j])
  }

  ghost predicate Sound(pool: Pool) {
    && (forall b <- pool.live :: Span(b) !! pool.free)
    && (forall i: nat, j: nat | i < |pool.live| && j < |pool.live| :: Apart(pool.live, i, j))
  }

  lemma GetKeeps(pool: Pool, b: Block)
    requires Sound(pool) && Span(b) <= pool.free
    ensures Sound(Pool(pool.free - Span(b), pool.live + [b]))
    ensures |pool.free - Span(b)| + Pages(pool.live + [b]) == |pool.free| + Pages(pool.live)
  {
    var live := pool.live + [b];
    assert live[..|pool.live|] == pool.live;
    SubsetSize(Span(b), pool.free);
    hide Range;
    forall i: nat, j: nat | i < |live| && j < |live| ensures Apart(live, i, j) {
      if i < |pool.live| && j < |pool.live| { assert Apart(pool.live, i, j); }
    }
  }

  lemma PutSound(pool: Pool, k: nat)
    requires Sound(pool) && k < |pool.live|
    ensures Sound(Pool(pool.free + Span(pool.live[k]), pool.live[..k] + pool.live[k + 1..]))
  {
    hide Span;
    var rest := pool.live[..k] + pool.live[k + 1..];
    forall i: nat, j: nat | i < |rest| && j < |rest| ensures Apart(rest, i, j) {
      assert Apart(pool.live, if i < k then i else i + 1, if j < k then j else j + 1);
    }
    forall i: nat | i < |rest| ensures Span(rest[i]) !! pool.free + Span(pool.live[k]) {
      var i' := if i < k then i else i + 1;
      assert Apart(pool.live, i', k) && pool.live[i'] in pool.live;
    }
  }

  lemma PutKeeps(pool: Pool, k: nat)
    requires Sound(pool) && k < |pool.live|
    ensures Sound(Pool(pool.free + Span(pool.live[k]), pool.live[..k] + pool.live[k + 1..]))
    ensures |pool.free + Span(pool.live[k])| + Pages(pool.live[..k] + pool.live[k + 1..])
         == |pool.free| + Pages(pool.live)
  {
    PagesRemove(pool.live, k);
    PutSound(pool, k);
    assert Span(pool.live[k]) !! pool.free;
  }

  lemma DoKeeps(pool: Pool, total: nat, op: Op)
    requires Sound(pool)
    ensures Sound(Do(pool, total, op))
    ensures var r := Do(pool, total, op); |r.free| + Pages(r.live) == |pool.free| + Pages(pool.live)
  {
    match op {
      case Get(n) => GivenKeeps(pool, n, total);
      case GetDma(n) => GivenKeeps(pool, n, DmaLimit(total));
      case Put(k) => if k < |pool.live| { PutKeeps(pool, k); }
    }
  }

  lemma GivenKeeps(pool: Pool, n: nat, limit: nat)
    requires Sound(pool)
    ensures Sound(Given(pool, n, limit))
    ensures var r := Given(pool, n, limit); |r.free| + Pages(r.live) == |pool.free| + Pages(pool.live)
  {
    if n > 0 && Lowest(pool.free, n, limit, 0).Some? {
      LowestFits(pool.free, n, limit, 0);
      GetKeeps(pool, Block(Lowest(pool.free, n, limit, 0).value, n));
    }
  }

  /**
   Over every history: outstanding blocks are disjoint from each other and from the free pages, and
   no page is lost.
   */
  lemma {:induction false} BlocksNeverOverlap(pool: Pool, total: nat, ops: seq<Op>)
    requires Sound(pool)
    ensures Sound(History(pool, total, ops))
    ensures var r := History(pool, total, ops); |r.free| + Pages(r.live) == |pool.free| + Pages(pool.live)
  {
    if ops != [] {
      BlocksNeverOverlap(pool, total, ops[..|ops| - 1]);
      DoKeeps(History(pool, total, ops[..|ops| - 1]), total, ops[|ops| - 1]);
    }
  }

  // ---- The allocator itself, run through a history -------------------------------------------

  ghost predicate Inside(live: seq<Block>, total: nat) {
    forall b <- live :: b.start + b.pages <= total
  }

  /** One allocation on the real bitmap, recorded by its owner. */
  method DoGet(a: Allocator, live: seq<Block>, n: nat, dma: bool) returns (live': seq<Block>)
    requires a.Valid() && Inside(live, a.total)
    modifies a, a.bitmap
    ensures a.Valid() && Inside(live', a.total)
    ensures Pool(a.free, live') == Given(Pool(old(a.free), live), n, if dma then DmaLimit(a.total) else a.total)
  {
    hide Range, Allocator.Used;
    var r;
    if dma { r := a.AllocDma(n); } else { r := a.Alloc(n); }
    if n > 0 { FirstFitIsLowest(old(a.free), n, if dma then DmaLimit(a.total) else a.total, r); }
    match r {
      case None => return live;
      case Some(s) => return live + [Block(s, n)];
    }
  }

  method DoPut(a: Allocator, live: seq<Block>, k: nat) returns (live': seq<Block>)
    requires a.Valid() && Inside(live, a.total) && Sound(Pool(a.free, live))
    modifies a, a.bitmap
    ensures a.Valid() && Inside(live', a.total) && Pool(a.free, live') == Do(Pool(old(a.free), live), a.total, Put(k))
  {
    hide Range, Allocator.Used;
    if k >= |live| { return live; }
    var b := live[k];
    assert Span(b) !! a.free;
    var done := a.Free(b.start, b.pages);
    assert done < b.pages ==> b.start + done in Span(b);
    return live[..k] + live[k + 1..];
  }

  /**
   pmm_alloc, pmm_alloc_dma and pmm_free in any order: the bitmap follows the history, blocks that
   are out never overlap, and every page is free or in one of them.
   */
  method Run(a: Allocator, ops: seq<Op>) returns (live: seq<Block>)
    requires a.Valid()
    modifies a, a.bitmap
    ensures a.Valid() && Pool(a.free, live) == History(Pool(old(a.free), []), a.total, ops)
    ensures Sound(Pool(a.free, live)) && a.freePages + Pages(live) == old(a.freePages)
  {
    hide Allocator.Used, Sound, Do, History;
    ghost var start := Pool(a.free, []);
    live := [];
    assert ops[..0] == [] && Sound(start) && History(start, a.total, []) == start by { StartSound(start, a.total); }
    for i := 0 to |ops|
      invariant a.Valid() && Inside(live, a.total) && Pool(a.free, live) == History(start, a.total, ops[..i])
      invariant Sound(Pool(a.free, live)) && |a.free| + Pages(live) == |start.free|
    {
      HistoryMore(start, a.total, ops, i);
      DoKeeps(Pool(a.free, live), a.total, ops[i]);
      ghost var was := Pool(a.free, live);
      match ops[i] {
        case Get(n) => live := DoGet(a, live, n, false);
        case GetDma(n) => live := DoGet(a, live, n, true);
        case Put(k) => live := DoPut(a, live, k);
      }
      assert Pool(a.free, live) == Do(was, a.total, ops[i]) by { DoIs(was, a.total, ops[i]); }
    }
    assert ops[..|ops|] == ops;
  }

  lemma StartSound(pool: Pool, total: nat)
    requires pool.live == []
    ensures Sound(pool) && History(pool, total, []) == pool && Pages([]) == 0
  {
  }

  lemma HistoryMore(pool: Pool, total: nat, ops: seq<Op>, i: nat)
    requires i < |ops|
    ensures History(pool, total, ops[..i + 1]) == Do(History(pool, total, ops[..i]), total, ops[i])
  {
    assert ops[..i + 1][..i] == ops[..i];
  }

  lemma DoIs(pool: Pool, total: nat, op: Op)
    ensures match op
      case Get(n) => Do(pool, total, op) == Given(pool, n, total)
      case GetDma(n) => Do(pool, total, op) == Given(pool, n, DmaLimit(total))
      case Put(_) => true
  {
  }
}
