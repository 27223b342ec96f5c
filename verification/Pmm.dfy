/**
 The physical page allocator: a bitmap, one bit per page, set when the page is
 taken.  Addresses are page numbers; the higher-half offset of the C pointers is
 not part of the model.
 */
module Pmm {
  import opened Options

  const DMA_PAGES: nat := 0x10_0000  // 4 GiB in pages

  // ---- one byte of the bitmap -------------------------------------------

  function Mask(k: nat): bv8
    requires k < 8
  {
    match k
    case 0 => 1 case 1 => 2 case 2 => 4 case 3 => 8
    case 4 => 16 case 5 => 32 case 6 => 64 case _ => 128
  }

  predicate Test(b: bv8, k: nat)
    requires k < 8
  {
    b & Mask(k) != 0
  }

  lemma SetBit(b: bv8, k: nat, j: nat)
    requires k < 8 && j < 8
    ensures Test(b | Mask(k), j) == (j == k || Test(b, j))
  {
  }

  lemma ClearBit(b: bv8, k: nat, j: nat)
    requires k < 8 && j < 8
    ensures Test(b & !Mask(k), j) == (j != k && Test(b, j))
  {
  }

  lemma SameBits(a: bv8, b: bv8)
    requires forall k: nat | k < 8 :: Test(a, k) == Test(b, k)
    ensures a == b
  {
    assert Test(a, 0) == Test(b, 0) && Test(a, 1) == Test(b, 1) && Test(a, 2) == Test(b, 2) && Test(a, 3) == Test(b, 3);
    assert Test(a, 4) == Test(b, 4) && Test(a, 5) == Test(b, 5) && Test(a, 6) == Test(b, 6) && Test(a, 7) == Test(b, 7);
  }

  // ---- runs of pages ------------------------------------------------------

  ghost function Range(start: nat, n: nat): (r: set<nat>)
    ensures forall p :: p in r <==> start <= p < start + n
    ensures |r| == n
  {
    if n == 0 then {} else Range(start, n - 1) + {start + n - 1}
  }

  /** `n` consecutive free pages from `start`, all below `limit`. */
  ghost predicate FreeRun(free: set<nat>, start: nat, n: nat, limit: nat) {
    start + n <= limit && forall p :: start <= p < start + n ==> p in free
  }

  ghost predicate NoRun(free: set<nat>, n: nat, limit: nat) {
    forall s: nat :: !FreeRun(free, s, n, limit)
  }

  /** First fit: the lowest run, or nothing when there is none. */
  ghost predicate FirstFit(free: set<nat>, n: nat, limit: nat, r: Option<nat>) {
    match r
    case Some(start) => n > 0 && FreeRun(free, start, n, limit) &&
      forall s: nat | s < start :: !FreeRun(free, s, n, limit)
    case None => n == 0 || NoRun(free, n, limit)
  }

  /** A taken page closes every run that would end just after page `i`. */
  lemma NoRunEndsAt(free: set<nat>, pages: nat, i: nat, taken: nat)
    requires NoRun(free, pages, i)
    requires pages <= i + 1 ==> taken !in free && i + 1 - pages <= taken <= i
    ensures NoRun(free, pages, i + 1)
  {
    var limit := i + 1;
    forall s: nat ensures !FreeRun(free, s, pages, limit) { assert !FreeRun(free, s, pages, i); }
  }

  lemma SubsetSize(a: set<nat>, b: set<nat>)
    requires a <= b
    ensures |b - a| == |b| - |a|
  {
    assert b == a + (b - a);
  }

  /** A region of the memory map, in whole pages. */
  datatype Region = Region(start: nat, pages: nat)

  predicate Within(r: Region, p: nat) {
    r.start <= p < r.start + r.pages
  }

  ghost predicate Listed(regions: seq<Region>, p: nat) {
    exists i :: 0 <= i < |regions| && Within(regions[i], p)
  }

  /** No page is in two regions. */
  ghost predicate NoOverlap(regions: seq<Region>) {
    forall i, j, p: nat :: 0 <= i < j < |regions| && Within(regions[i], p) ==> !Within(regions[j], p)
  }

  lemma OtherRegion(regions: seq<Region>, i: nat, p: nat)
    requires NoOverlap(regions) && i < |regions| && Within(regions[i], p)
    ensures !Listed(regions[..i], p)
  {
  }

  lemma ListedMore(regions: seq<Region>, i: nat, p: nat)
    requires i < |regions|
    ensures Listed(regions[..i + 1], p) <==> Listed(regions[..i], p) || Within(regions[i], p)
  {
    assert regions[..i + 1] == regions[..i] + [regions[i]];
    if Listed(regions[..i], p) {
      var k :| 0 <= k < i && Within(regions[..i][k], p);
      assert Within(regions[..i + 1][k], p);
    }
    if Within(regions[i], p) { assert Within(regions[..i + 1][i], p); }
  }

  lemma NoRegions()
    ensures forall p: nat :: !Listed([], p)
  {
  }

  lemma FullByte(k: nat)
    requires k < 8
    ensures Test(0xFF, k)
  {
  }

  class Allocator {
    const bitmap: array<bv8>
    const total: nat
    var freePages: nat
    ghost var free: set<nat>

    ghost predicate Used(p: nat)
      reads bitmap
      requires p < 8 * bitmap.Length
    {
      Test(bitmap[p / 8], p % 8)
    }

    ghost predicate Valid()
      reads this, bitmap
    {
      && total <= 8 * bitmap.Length
      && (forall p: nat | p < total :: p in free <==> !Used(p))
      && (forall p <- free :: p < total)
      && freePages == |free|
    }

    /**
     pmm_init: every page is taken, the pages of the usable regions are released, and those of the
     bitmap itself are taken again.
     */
    constructor (total: nat, usable: seq<Region>, own: Region)
      requires NoOverlap(usable) && own.start + own.pages <= total
      ensures Valid() && this.total == total && fresh(bitmap)
      ensures forall p: nat :: p in free <==> p < total && Listed(usable, p) && !Within(own, p)
    {
      hide Used, Listed, NoOverlap;
      this.total := total;
      bitmap := new bv8[(total + 7) / 8](_ => 0xFF);
      freePages, free := 0, {};
      new;
      AllUsed();
      NoRegions();
      for i := 0 to |usable|
        invariant Valid() && forall p: nat :: p in free <==> p < total && Listed(usable[..i], p)
      {
        ReleaseRegion(usable, i);
      }
      assert usable[..|usable|] == usable;
      ghost var all := free;
      for k := 0 to own.pages
        invariant Valid() && forall p: nat :: p in free <==> p in all && !(own.start <= p < own.start + k)
      {
        Reserve(own.start + k);
      }
    }

    /** Takes a page unless it is taken. */
    method Reserve(page: nat)
      requires Valid() && page < total
      modifies this, bitmap
      ensures Valid() && free == old(free) - {page}
    {
      hide Used;
      var used := BitmapTest(page);
      if !used {
        BitmapSet(page);
        freePages := freePages - 1;
        free := free - {page};
      }
    }

    lemma AllUsed()
      requires total <= 8 * bitmap.Length && free == {} && freePages == 0
      requires forall j :: 0 <= j < bitmap.Length ==> bitmap[j] == 0xFF
      ensures Valid()
    {
      forall p: nat | p < total ensures Used(p) { FullByte(p % 8); }
    }

    /** One usable region of the memory map. */
    method ReleaseRegion(usable: seq<Region>, i: nat)
      requires Valid() && NoOverlap(usable) && i < |usable|
      requires forall p: nat :: p in free <==> p < total && Listed(usable[..i], p)
      modifies this, bitmap
      ensures Valid() && forall p: nat :: p in free <==> p < total && Listed(usable[..i + 1], p)
    {
      hide Used, Listed;
      var r := usable[i];
      ghost var before := free;
      for p := r.start to r.start + r.pages
        invariant Valid() && forall q: nat :: q in free <==> q in before || (r.start <= q < p && q < total)
      {
        if p < total {
          OtherRegion(usable, i, p);
          ReleaseOne(p);
        }
      }
      forall q: nat ensures Listed(usable[..i + 1], q) <==> Listed(usable[..i], q) || Within(r, q) {
        ListedMore(usable, i, q);
      }
    }

    method BitmapTest(page: nat) returns (used: bool)
      requires page < 8 * bitmap.Length
      ensures used == Used(page)
    {
      used := bitmap[page / 8] & Mask(page % 8) != 0;
    }

    method BitmapSet(page: nat)
      requires page < 8 * bitmap.Length
      modifies bitmap
      ensures forall p: nat | p < 8 * bitmap.Length :: Used(p) == (p == page || old(Used(p)))
    {
      bitmap[page / 8] := bitmap[page / 8] | Mask(page % 8);
      forall p: nat | p < 8 * bitmap.Length ensures Used(p) == (p == page || old(Used(p))) {
        if p / 8 == page / 8 { SetBit(old(bitmap[page / 8]), page % 8, p % 8); }
      }
    }

    method BitmapClear(page: nat)
      requires page < 8 * bitmap.Length
      modifies bitmap
      ensures forall p: nat | p < 8 * bitmap.Length :: Used(p) == (p != page && old(Used(p)))
    {
      bitmap[page / 8] := bitmap[page / 8] & !Mask(page % 8);
      forall p: nat | p < 8 * bitmap.Length ensures Used(p) == (p != page && old(Used(p))) {
        if p / 8 == page / 8 { ClearBit(old(bitmap[page / 8]), page % 8, p % 8); }
      }
    }

    /** Mark the run found by the scan. */
    method Take(start: nat, pages: nat)
      requires Valid() && FreeRun(free, start, pages, total)
      modifies this, bitmap
      ensures Valid() && free == old(free) - Range(start, pages)
      ensures forall p: nat | p < 8 * bitmap.Length :: Used(p) == (p in Range(start, pages) || old(Used(p)))
    {
      hide Used, Range;
      for j := 0 to pages
        invariant forall p: nat | p < 8 * bitmap.Length :: Used(p) == (p in Range(start, j) || old(Used(p)))
        invariant free == old(free) && freePages == old(freePages)
      {
        BitmapSet(start + j);
      }
      SubsetSize(Range(start, pages), free);
      freePages := freePages - pages;
      free := free - Range(start, pages);
    }

    /** The scan shared by pmm_alloc and pmm_alloc_dma: count consecutive clear bits below `limit`. */
    method Scan(pages: nat, limit: nat) returns (r: Option<nat>)
      requires Valid() && limit <= total
      ensures FirstFit(free, pages, limit, r)
    {
      hide Used, Range;
      if pages == 0 { return None; }
      var consecutive, start := 0, 0;
      for i := 0 to limit
        invariant consecutive < pages && consecutive <= i
        invariant consecutive > 0 ==> start == i - consecutive
        invariant forall p :: i - consecutive <= p < i ==> p in free
        invariant consecutive < i ==> i - consecutive - 1 !in free
        invariant NoRun(free, pages, i)
      {
        var used := BitmapTest(i);
        if !used {
          if consecutive == 0 { start := i; }
          consecutive := consecutive + 1;
          if consecutive == pages {
            Earlier(free, pages, start, i, limit);
            return Some(start);
          }
          NoRunEndsAt(free, pages, i, if consecutive <= i then i - consecutive else 0);
        } else {
          NoRunEndsAt(free, pages, i, i);
          consecutive := 0;
        }
      }
      return None;
    }

    static lemma Earlier(free: set<nat>, pages: nat, start: nat, i: nat, limit: nat)
      requires start + pages == i + 1 <= limit
      requires NoRun(free, pages, i)
      ensures forall s: nat | s < start :: !FreeRun(free, s, pages, limit)
    {
      forall s: nat | s < start ensures !FreeRun(free, s, pages, limit) { assert !FreeRun(free, s, pages, i); }
    }

    method Alloc(pages: nat) returns (r: Option<nat>)
      requires Valid()
      modifies this, bitmap
      ensures Valid() && FirstFit(old(free), pages, total, r)
      ensures free == if r.Some? then old(free) - Range(r.value, pages) else old(free)
      ensures forall p: nat | p < 8 * bitmap.Length ::
        Used(p) == ((r.Some? && p in Range(r.value, pages)) || old(Used(p)))
    {
      r := Scan(pages, total);
      if r.Some? { Take(r.value, pages); }
    }

    method AllocDma(pages: nat) returns (r: Option<nat>)
      requires Valid()
      modifies this, bitmap
      ensures Valid() && FirstFit(old(free), pages, if DMA_PAGES > total then total else DMA_PAGES, r)
      ensures free == if r.Some? then old(free) - Range(r.value, pages) else old(free)
      ensures forall p: nat | p < 8 * bitmap.Length ::
        Used(p) == ((r.Some? && p in Range(r.value, pages)) || old(Used(p)))
    {
      var max := DMA_PAGES;
      if max > total { max := total; }
      r := Scan(pages, max);
      if r.Some? { Take(r.value, pages); }
    }

    method ReleaseOne(page: nat)
      requires Valid() && page < total && page !in free
      modifies this, bitmap
      ensures Valid() && free == old(free) + {page}
      ensures forall p: nat | p < 8 * bitmap.Length :: Used(p) == (p != page && old(Used(p)))
    {
      hide Used;
      BitmapClear(page);
      freePages := freePages + 1;
      free := free + {page};
    }

    /** Frees page after page and gives up at the first one that is already free; `done` pages were freed. */
    method Free(start: nat, pages: nat) returns (done: nat)
      requires Valid() && start + pages <= total
      modifies this, bitmap
      ensures Valid() && done <= pages && free == old(free) + Range(start, done)
      ensures Range(start, done) !! old(free) && (done < pages ==> start + done in old(free))
      ensures forall p: nat | p < 8 * bitmap.Length :: Used(p) == (p !in Range(start, done) && old(Used(p)))
    {
      hide Used, Range, Freed;
      done := 0;
      NothingFreed(free, start);
      while done < pages
        invariant done <= pages && Valid() && Freed(old(free), free, start, done)
        invariant forall p: nat | p < 8 * bitmap.Length :: Used(p) == (!(start <= p < start + done) && old(Used(p)))
      {
        FreedAt(old(free), free, start, done);
        var used := BitmapTest(start + done);
        if !used {
          FreedIs(old(free), free, start, done);
          return;
        }
        ReleaseOne(start + done);
        done := done + 1;
      }
      FreedIs(old(free), free, start, done);
    }
  }

  /** `free` is `before` and the first `done` pages of a block that was not free. */
  ghost predicate Freed(before: set<nat>, free: set<nat>, start: nat, done: nat) {
    free == before + Range(start, done) && Range(start, done) !! before
  }

  lemma NothingFreed(free: set<nat>, start: nat)
    ensures Freed(free, free, start, 0)
  {
  }

  lemma FreedIs(before: set<nat>, free: set<nat>, start: nat, done: nat)
    requires Freed(before, free, start, done)
    ensures free == before + Range(start, done) && Range(start, done) !! before
  {
  }

  lemma FreedAt(before: set<nat>, free: set<nat>, start: nat, done: nat)
    requires Freed(before, free, start, done)
    ensures start + done in free <==> start + done in before
    ensures start + done !in free ==> Freed(before, free + {start + done}, start, done + 1)
  {
    assert Range(start, done + 1) == Range(start, done) + {start + done};
  }

  /** Freeing what was just allocated puts every bit of the bitmap back. */
  method AllocThenFree(a: Allocator, pages: nat) returns (r: Option<nat>)
    requires a.Valid()
    modifies a, a.bitmap
    ensures a.Valid() && a.free == old(a.free) && a.freePages == old(a.freePages) && a.bitmap[..] == old(a.bitmap[..])
  {
    hide Range;
    r := a.Alloc(pages);
    if r.Some? {
      ghost var taken := Range(r.value, pages);
      assert taken <= old(a.free);
      var done := a.Free(r.value, pages);
      assert done == pages;
      assert (old(a.free) - taken) + taken == old(a.free);
      assert forall p <- taken :: !old(a.Used(p));
    }
    SameUse(a);
  }

  twostate lemma SameUse(a: Allocator)
    requires forall p: nat | p < 8 * a.bitmap.Length :: a.Used(p) == old(a.Used(p))
    ensures a.bitmap[..] == old(a.bitmap[..])
  {
    forall i | 0 <= i < a.bitmap.Length ensures a.bitmap[i] == old(a.bitmap[i]) {
      forall k: nat | k < 8 ensures Test(a.bitmap[i], k) == Test(old(a.bitmap[i]), k) {
        assert a.Used(8 * i + k) == old(a.Used(8 * i + k));
      }
      SameBits(a.bitmap[i], old(a.bitmap[i]));
    }
  }
}
