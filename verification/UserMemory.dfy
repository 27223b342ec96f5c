/** User memory seen through the page tables, and copy_to_va, which writes to it. */
module UserMemory {
  import opened Options
  import opened Bytes
  import opened Pmm
  import opened PageTables
  import opened Pmap
  import opened PmapRights
  import opened PmapFork
  import opened PmapNeed

  const LOWER_BYTES: nat := LOWER_PAGES * PAGE_SIZE

  ghost predicate IsData(mem: seq<Page>, f: nat) {
    f < |mem| && mem[f].Data? && |mem[f].bytes| == PAGE_SIZE
  }

  /** The byte at a user address. */
  ghost function ByteAt(mem: seq<Page>, root: nat, va: nat): Option<byte> {
    var e := Translate(mem, root, va / PAGE_SIZE);
    if e.Some? && IsData(mem, e.value.frame) then Some(mem[e.value.frame].bytes[va % PAGE_SIZE]) else None
  }

  /** Every mapped page has a data frame of its own that is not a table, not free and not frame 0. */
  ghost predicate Private(mem: seq<Page>, free: set<nat>, root: nat) {
    && Tree(mem, root) && (forall t: nat | Owns(mem, root, t) :: t !in free)
    && (forall v: nat | v < LOWER_PAGES && Translate(mem, root, v).Some? ::
          var f := Translate(mem, root, v).value.frame;
          f != 0 && IsData(mem, f) && f !in free && !Owns(mem, root, f))
    && (forall v: nat, u: nat | v < LOWER_PAGES && u < LOWER_PAGES :: !SharedFrame(mem, root, v, u))
  }

  /** `chunk` replaces the bytes of one frame from offset `off`. */
  function Patched(page: Page, off: nat, chunk: seq<byte>): (r: Page)
    requires page.Data? && |page.bytes| == PAGE_SIZE && off + |chunk| <= PAGE_SIZE
    ensures r.Data? && |r.bytes| == PAGE_SIZE
    ensures forall i :: 0 <= i < PAGE_SIZE ==>
      r.bytes[i] == if off <= i < off + |chunk| then chunk[i - off] else page.bytes[i]
  {
    Data(page.bytes[..off] + chunk + page.bytes[off + |chunk|..])
  }

  /** Writing inside one page changes exactly those addresses. */
  lemma PatchBytes(mem: seq<Page>, free: set<nat>, root: nat, v: nat, off: nat, chunk: seq<byte>)
    requires Private(mem, free, root) && v < LOWER_PAGES && Translate(mem, root, v).Some? && off + |chunk| <= PAGE_SIZE
    ensures var f := Translate(mem, root, v).value.frame;
      && IsData(mem, f)
      && var mem' := mem[f := Patched(mem[f], off, chunk)];
         && Private(mem', free, root)
         && (forall u: nat | u < LOWER_PAGES :: Translate(mem', root, u) == Translate(mem, root, u))
         && forall va: nat | va < LOWER_BYTES :: ByteAt(mem', root, va) ==
              if v * PAGE_SIZE + off <= va < v * PAGE_SIZE + off + |chunk| then Some(chunk[va - (v * PAGE_SIZE + off)])
              else ByteAt(mem, root, va)
  {
    var f := Translate(mem, root, v).value.frame;
    var mem' := mem[f := Patched(mem[f], off, chunk)];
    WriteData(mem, root, f, Patched(mem[f], off, chunk));
    forall u: nat | u < LOWER_PAGES ensures Translate(mem', root, u) == Translate(mem, root, u) { }
    PatchPrivate(mem, mem', free, root);
    forall va: nat | va < LOWER_BYTES ensures ByteAt(mem', root, va) ==
      if v * PAGE_SIZE + off <= va < v * PAGE_SIZE + off + |chunk| then Some(chunk[va - (v * PAGE_SIZE + off)])
      else ByteAt(mem, root, va)
    {
      var u := va / PAGE_SIZE;
      assert !SharedFrame(mem, root, u, v);
      assert va == u * PAGE_SIZE + va % PAGE_SIZE;
      PatchByte(mem, root, v, off, chunk, va);
    }
  }

  lemma PatchPrivate(mem: seq<Page>, mem': seq<Page>, free: set<nat>, root: nat)
    requires Private(mem, free, root) && Tree(mem', root) && forall f | IsData(mem, f) :: IsData(mem', f)
    requires forall t: nat :: Owns(mem', root, t) <==> Owns(mem, root, t)
    requires forall u: nat | u < LOWER_PAGES :: Translate(mem', root, u) == Translate(mem, root, u)
    ensures Private(mem', free, root)
  {
    hide Tree, Owns, Translate;
    forall v: nat, u: nat | v < LOWER_PAGES && u < LOWER_PAGES ensures !SharedFrame(mem', root, v, u) {
      assert !SharedFrame(mem, root, v, u);
    }
  }

  lemma PatchByte(mem: seq<Page>, root: nat, v: nat, off: nat, chunk: seq<byte>, va: nat)
    requires v < LOWER_PAGES && va < LOWER_BYTES && Translate(mem, root, v).Some? && off + |chunk| <= PAGE_SIZE
    requires IsData(mem, Translate(mem, root, v).value.frame) && !SharedFrame(mem, root, va / PAGE_SIZE, v)
    requires var f := Translate(mem, root, v).value.frame;
      Translate(mem[f := Patched(mem[f], off, chunk)], root, va / PAGE_SIZE) == Translate(mem, root, va / PAGE_SIZE)
    ensures var f := Translate(mem, root, v).value.frame;
      ByteAt(mem[f := Patched(mem[f], off, chunk)], root, va) ==
        if v * PAGE_SIZE + off <= va < v * PAGE_SIZE + off + |chunk| then Some(chunk[va - (v * PAGE_SIZE + off)])
        else ByteAt(mem, root, va)
  {
    hide Translate;
  }

  /** `src` is what the addresses from `va` on hold in `mem'`; every other address is as in `mem`. */
  ghost predicate Written(mem: seq<Page>, mem': seq<Page>, root: nat, va: nat, src: seq<byte>) {
    forall a: nat | a < LOWER_BYTES ::
      ByteAt(mem', root, a) == if va <= a < va + |src| then Some(src[a - va]) else ByteAt(mem, root, a)
  }

  ghost predicate MappedRange(mem: seq<Page>, root: nat, va: nat, len: nat) {
    forall a: nat | va <= a < va + len :: Translate(mem, root, a / PAGE_SIZE).Some?
  }

  /** copy_to_va: page by page, over frames that need not be adjacent; it fails exactly when some page is not mapped. */
  method CopyToVa(m: Memory, root: nat, va: nat, src: seq<byte>) returns (ok: bool)
    requires m.Valid() && Private(m.mem, m.free, root) && va + |src| <= LOWER_BYTES
    modifies m`mem
    ensures m.Valid() && Private(m.mem, m.free, root)
    ensures forall u: nat | u < LOWER_PAGES :: Translate(m.mem, root, u) == Translate(old(m.mem), root, u)
    ensures ok == MappedRange(old(m.mem), root, va, |src|)
    ensures ok ==> Written(old(m.mem), m.mem, root, va, src)
    ensures SameRights(old(m.mem), m.mem, root)
  {
    hide Memory.Counted, Tree, Owns, Translate, SharedFrame, Grants;
    var done := 0;
    while done < |src|
      invariant done <= |src| && m.Valid() && Private(m.mem, m.free, root)
      invariant forall u: nat | u < LOWER_PAGES :: Translate(m.mem, root, u) == Translate(old(m.mem), root, u)
      invariant Written(old(m.mem), m.mem, root, va, src[..done])
      invariant MappedRange(old(m.mem), root, va, done) && SameRights(old(m.mem), m.mem, root)
    {
      var cur := va + done;
      var v, off := cur / PAGE_SIZE, cur % PAGE_SIZE;
      PrivateTree(m.mem, m.free, root);
      var frame := m.PmapResolve(root, v);
      if frame == 0 {
        Unmapped(m.mem, m.free, root, v);
        return false;
      }
      var chunk := |src| - done;
      if chunk > PAGE_SIZE - off { chunk := PAGE_SIZE - off; }
      hide Written, MappedRange, ByteAt;
      ChunkStep(old(m.mem), m.mem, m.free, root, va, src, done, chunk);
      LeafIsNoTable(m.mem, m.free, root, v);
      DataRights(m.mem, root, frame, Patched(m.mem[frame], off, src[done..done + chunk]));
      hide Private;
      m.mem := m.mem[frame := Patched(m.mem[frame], off, src[done..done + chunk])];
      done := done + chunk;
    }
    assert src[..done] == src;
    return true;
  }

  lemma PrivateTree(mem: seq<Page>, free: set<nat>, root: nat)
    requires Private(mem, free, root)
    ensures Tree(mem, root)
  {
  }

  lemma LeafIsNoTable(mem: seq<Page>, free: set<nat>, root: nat, v: nat)
    requires Private(mem, free, root) && v < LOWER_PAGES && Translate(mem, root, v).Some?
    ensures Translate(mem, root, v).value.frame < |mem| && !Owns(mem, root, Translate(mem, root, v).value.frame)
  {
    hide Translate, Owns, Tree;
  }

  lemma Unmapped(mem: seq<Page>, free: set<nat>, root: nat, v: nat)
    requires Private(mem, free, root) && v < LOWER_PAGES
    ensures (match Translate(mem, root, v) case Some(e) => e.frame case None => 0) == 0 ==>
      Translate(mem, root, v).None?
  {
  }

  lemma ChunkStep(mem0: seq<Page>, mem: seq<Page>, free: set<nat>, root: nat, va: nat, src: seq<byte>, done: nat,
                  chunk: nat)
    requires Private(mem, free, root) && va + |src| <= LOWER_BYTES && done + chunk <= |src|
    requires Written(mem0, mem, root, va, src[..done]) && MappedRange(mem0, root, va, done)
    requires forall u: nat | u < LOWER_PAGES :: Translate(mem, root, u) == Translate(mem0, root, u)
    requires Translate(mem, root, (va + done) / PAGE_SIZE).Some? && (va + done) % PAGE_SIZE + chunk <= PAGE_SIZE
    requires chunk > 0
    ensures var v, off := (va + done) / PAGE_SIZE, (va + done) % PAGE_SIZE;
      var f := Translate(mem, root, v).value.frame;
      && IsData(mem, f)
      && var mem' := mem[f := Patched(mem[f], off, src[done..done + chunk])];
         && Private(mem', free, root) && Written(mem0, mem', root, va, src[..done + chunk]) &&
           MappedRange(mem0, root, va, done + chunk)
         && (forall u: nat | u < LOWER_PAGES :: Translate(mem', root, u) == Translate(mem0, root, u))
  {
    hide Private, Translate, ByteAt, SharedFrame, Owns, Tree, Patched, IsData;
    var v, off := (va + done) / PAGE_SIZE, (va + done) % PAGE_SIZE;
    PatchBytes(mem, free, root, v, off, src[done..done + chunk]);
    var f := Translate(mem, root, v).value.frame;
    var mem' := mem[f := Patched(mem[f], off, src[done..done + chunk])];
    forall a: nat | va <= a < va + done + chunk ensures Translate(mem0, root, a / PAGE_SIZE).Some? {
      if a >= va + done { assert a / PAGE_SIZE == v; }
    }
  }

  // ---- map_zeroed_range ------------------------------------------------------------

  /** The leaf flags of a page of user memory, and those of the entries made for it. */
  const USER_PAGE: Flags := PRESENT | (USER | WRITE)
  const USER_ENTRY: Flags := TableFlags(USER | WRITE)

  /** Pages `v` to `v + n - 1` are user memory and read as zeros; every other address reads as before. */
  ghost predicate ZeroedPages(mem: seq<Page>, mem': seq<Page>, root: nat, v: nat, n: nat) {
    && (forall a: nat | a < LOWER_BYTES ::
          ByteAt(mem', root, a) == if v * PAGE_SIZE <= a < (v + n) * PAGE_SIZE then Some(0) else ByteAt(mem, root, a))
    && (forall u: nat | u < LOWER_PAGES ::
          if v <= u < v + n then Translate(mem', root, u).Some? && Translate(mem', root, u).value.flags == USER_PAGE
          else Translate(mem', root, u) == Translate(mem, root, u))
  }

  /** A zeroed frame that was free changes nothing a space reads. */
  lemma FreshFrame(mem: seq<Page>, free: set<nat>, root: nat, f: nat)
    requires Private(mem, free, root) && f in free && f < |mem|
    ensures Private(mem[f := ZeroData()], free - {f}, root) && !Owns(mem[f := ZeroData()], root, f)
    ensures SameTables(mem, mem[f := ZeroData()], root)
    ensures !IsLeaf(mem[f := ZeroData()], root, f)
    ensures forall u: nat | u < LOWER_PAGES :: Translate(mem[f := ZeroData()], root, u) == Translate(mem, root, u)
    ensures forall a: nat | a < LOWER_BYTES :: ByteAt(mem[f := ZeroData()], root, a) == ByteAt(mem, root, a)
  {
    hide Tree, Owns, SharedFrame;
    WriteData(mem, root, f, ZeroData());
    forall u: nat | u < LOWER_PAGES ensures Translate(mem[f := ZeroData()], root, u) == Translate(mem, root, u) { }
    hide Translate;
    PatchPrivate(mem, mem[f := ZeroData()], free, root);
  }

  /** Mapping that frame makes its page read as zeros. */
  lemma FreshPage(mem: seq<Page>, free: set<nat>, mem': seq<Page>, free': set<nat>, root: nat, v: nat, e: Pte)
    requires Private(mem, free, root) && v < LOWER_PAGES && e.frame != 0 && e.frame < |mem|
    requires mem[e.frame] == ZeroData()
    requires e.frame !in free && !Owns(mem, root, e.frame) && Present(e) && e.flags == USER_PAGE
    requires !IsLeaf(mem, root, e.frame)
    requires Expanded(mem, free, mem', free', root) && Retargeted(mem, mem', root, v, e) && Tree(mem', root)
    ensures Private(mem', free', root) && ZeroedPages(mem, mem', root, v, 1)
  {
    hide Tree, Owns, Translate;
    forall a: nat, b: nat | a < LOWER_PAGES && b < LOWER_PAGES ensures !SharedFrame(mem', root, a, b) {
      assert !SharedFrame(mem, root, a, b);
    }
    forall a: nat | a < LOWER_BYTES
      ensures ByteAt(mem', root, a)
           == if v * PAGE_SIZE <= a < (v + 1) * PAGE_SIZE then Some(0) else ByteAt(mem, root, a)
    {
      PageOf(a, v);
    }
  }

  lemma PageOf(a: nat, v: nat)
    ensures a / PAGE_SIZE == v <==> v * PAGE_SIZE <= a < (v + 1) * PAGE_SIZE
  {
  }

  /** When the tables run out nothing a space reads has changed. */
  lemma NoPage(mem: seq<Page>, free: set<nat>, mem': seq<Page>, free': set<nat>, root: nat)
    requires Private(mem, free, root) && Expanded(mem, free, mem', free', root) && SamePages(mem, mem', root)
    requires Tree(mem', root)
    ensures Private(mem', free', root)
    ensures ZeroedPages(mem, mem', root, 0, 0)
  {
    hide Tree, Owns, Translate;
    forall a: nat, b: nat | a < LOWER_PAGES && b < LOWER_PAGES ensures !SharedFrame(mem', root, a, b) {
      assert !SharedFrame(mem, root, a, b);
    }
  }

  lemma MissingKept(mem: seq<Page>, mem': seq<Page>, root: nat, v: nat)
    requires SameTables(mem, mem', root) && v < LOWER_PAGES
    ensures Missing(mem', root, v, 3) == Missing(mem, root, v, 3)
  {
    forall k: nat | k < 3 ensures TableFor(mem', root, v, k) == TableFor(mem, root, v, k) { ShiftLower(v, k); }
    MissingSame(mem, mem', root, v, 3);
  }

  /** What became of one page of the range: mapped to zeros, or not mapped because frames ran out. */
  ghost predicate PageMade(mem: seq<Page>, free: set<nat>, mem': seq<Page>, free': set<nat>, root: nat, v: nat) {
    if |free| >= 1 + Missing(mem, root, v, 3) then
      && ZeroedPages(mem, mem', root, v, 1) && PathOnly(mem, mem', root, v) && TableFor(mem', root, v, 0).Some?
      && |free'| == |free| - 1 - Missing(mem, root, v, 3)
    else free' == {} && ZeroedPages(mem, mem', root, v, 0)
  }

  lemma PathFrom(mem: seq<Page>, mem1: seq<Page>, mem': seq<Page>, root: nat, v: nat)
    requires SameTables(mem, mem1, root) && PathOnly(mem1, mem', root, v)
    ensures PathOnly(mem, mem', root, v)
  {
  }

  lemma PageIsMade(mem: seq<Page>, free: set<nat>, mem': seq<Page>, free': set<nat>, root: nat, v: nat, f: nat,
                   flags: Flags)
    requires Private(mem, free, root) && v < LOWER_PAGES && f in free && f < |mem| && f != 0
    requires flags & PRESENT != 0 && flags == USER_PAGE
    requires var mem1 := mem[f := ZeroData()];
      && Expanded(mem1, free - {f}, mem', free', root) && Tree(mem', root)
      && if |free - {f}| >= Missing(mem1, root, v, 3) then
           && Retargeted(mem1, mem', root, v, Pte(f, flags)) && TableFor(mem', root, v, 0).Some?
           && |free'| == |free - {f}| - Missing(mem1, root, v, 3)
         else free' == {} && SamePages(mem1, mem', root)
    requires PathOnly(mem[f := ZeroData()], mem', root, v)
    ensures Private(mem', free', root) && PageMade(mem, free, mem', free', root, v)
  {
    hide Tree, Owns, Translate, TableFor, Missing, Expanded, Retargeted, SamePages, ByteAt, SharedFrame, SameTables,
      PathOnly;
    var mem1 := mem[f := ZeroData()];
    FreshFrame(mem, free, root, f);
    PathFrom(mem, mem1, mem', root, v);
    MissingKept(mem, mem1, root, v);
    assert |free - {f}| == |free| - 1;
    if |free - {f}| >= Missing(mem1, root, v, 3) {
      FreshPage(mem1, free - {f}, mem', free', root, v, Pte(f, flags));
    } else {
      NoPage(mem1, free - {f}, mem', free', root);
      NoZeroes(mem1, mem', root, 0, v);
    }
  }

  /** One round of map_zeroed_range. */
  method MapZeroedPage(m: Memory, root: nat, v: nat) returns (ok: bool)
    requires m.Valid() && Private(m.mem, m.free, root) && v < LOWER_PAGES
    modifies m`mem, m`free, m.pmm, m.pmm.bitmap
    ensures m.Valid() && Private(m.mem, m.free, root)
    ensures ok == (old(m.free) != {}) && PageMade(old(m.mem), old(m.free), m.mem, m.free, root, v)
    ensures !ok ==> m.free == {}
    ensures EntriesKept(old(m.mem), m.mem, root, USER_ENTRY)
  {
    hide Memory.Counted, Tree, Owns, Translate, TableFor, Missing, Expanded, Retargeted, SamePages, PageMade,
      SharedFrame, PathOnly, EntriesKept;
    SameEntries(m.mem, root, USER_ENTRY);
    var frame := m.FrameAlloc();
    if frame == 0 {
      Starved(m.mem, old(m.free), m.free, root, v);
      return false;
    }
    FreshFrame(m.mem, old(m.free), root, frame);
    FrameEntries(m.mem, old(m.free), root, frame);
    hide Private;
    ghost var mem1 := m.mem[frame := ZeroData()];
    m.mem := m.mem[frame := ZeroData()];
    PrivateSpace(m.mem, m.free, root);
    m.PmapMap(root, v, frame, USER | WRITE);
    assert USER_PAGE & PRESENT != 0;
    PageIsMade(old(m.mem), old(m.free), m.mem, m.free, root, v, frame, USER_PAGE);
    EntriesTransitive(old(m.mem), mem1, m.mem, root, USER_ENTRY);
    return true;
  }

  lemma FrameEntries(mem: seq<Page>, free: set<nat>, root: nat, f: nat)
    requires Private(mem, free, root) && f in free && f < |mem|
    ensures EntriesKept(mem, mem[f := ZeroData()], root, USER_ENTRY)
  {
    hide Tree, Owns, Translate, EntryTo;
    OutsideEntries(mem, mem[f := ZeroData()], root);
  }

  /**
   The rights of a zeroed range: its pages have those of USER and WRITE that the entries which were
   there before do not withhold; all other pages have the rights they had.
   */
  ghost predicate RangeRights(mem: seq<Page>, mem': seq<Page>, root: nat, v: nat, n: nat) {
    forall u: nat, right: Flags | u < LOWER_PAGES && (right == USER || right == WRITE) ::
      Grants(mem', root, u, right) <==>
        if v <= u < v + n then PathAllows(mem, root, u, right) else Grants(mem, root, u, right)
  }

  lemma RangeGrants(mem: seq<Page>, mem': seq<Page>, root: nat, v: nat, n: nat)
    requires ZeroedPages(mem, mem', root, v, n) && EntriesKept(mem, mem', root, USER_ENTRY)
    ensures RangeRights(mem, mem', root, v, n)
  {
    hide Translate, ByteAt, EntriesKept, Grants, PathAllows;
    forall u: nat, right: Flags | u < LOWER_PAGES && (right == USER || right == WRITE)
      ensures Grants(mem', root, u, right) <==>
        if v <= u < v + n then PathAllows(mem, root, u, right) else Grants(mem, root, u, right)
    {
      if v <= u < v + n {
        var e := Translate(mem', root, u).value;
        assert e == Pte(e.frame, PRESENT | (USER | WRITE));
        MapGrants(mem, mem', root, u, e.frame, USER | WRITE, right);
        assert Has(PRESENT | (USER | WRITE), USER) && Has(PRESENT | (USER | WRITE), WRITE);
      } else {
        OtherRights(mem, mem', root, u, USER_ENTRY, right);
      }
    }
  }

  /** In an open space every page of the range can be read and written in user mode. */
  lemma UserRange(mem: seq<Page>, mem': seq<Page>, root: nat, v: nat, n: nat, u: nat)
    requires RangeRights(mem, mem', root, v, n) && Open(mem, root) && v <= u < v + n && u < LOWER_PAGES
    ensures Grants(mem', root, u, USER) && Grants(mem', root, u, WRITE)
  {
    hide Grants, PathAllows, Open;
    OpenAllows(mem, root, u);
  }

  /** A range of no pages is the same range everywhere. */
  lemma NoZeroes(mem: seq<Page>, mem': seq<Page>, root: nat, u: nat, v: nat)
    requires ZeroedPages(mem, mem', root, u, 0)
    ensures ZeroedPages(mem, mem', root, v, 0)
  {
  }

  lemma Starved(mem: seq<Page>, free: set<nat>, free': set<nat>, root: nat, v: nat)
    requires free == {} && free' == {}
    ensures PageMade(mem, free, mem, free', root, v)
  {
    hide Missing;
  }

  lemma PrivateSpace(mem: seq<Page>, free: set<nat>, root: nat)
    requires Private(mem, free, root)
    ensures Tree(mem, root) && forall t: nat | Owns(mem, root, t) :: t !in free
  {
  }

  lemma ZeroedMore(mem: seq<Page>, a: seq<Page>, b: seq<Page>, root: nat, v: nat, i: nat, n: nat)
    requires ZeroedPages(mem, a, root, v, i) && ZeroedPages(a, b, root, v + i, n)
    ensures ZeroedPages(mem, b, root, v, i + n)
  {
    hide ByteAt, Translate;
    assert (v + i + n) * PAGE_SIZE == (v + i) * PAGE_SIZE + n * PAGE_SIZE;
    assert v * PAGE_SIZE <= (v + i) * PAGE_SIZE;
  }

  // ---- how many frames a range takes ---------------------------------------------------

  /** Page `u` is the first of a range from page `v` on that needs its table of level `l`, and there is none yet. */
  ghost predicate Opens(mem: seq<Page>, root: nat, v: nat, u: nat, l: nat)
    requires v <= u && l < 3
  {
    TableFor(mem, root, u, l).None? && (u == v || Shift(u - 1, l + 1) != Shift(u, l + 1))
  }

  /** The number of tables a range from page `v` on adds for page `u`. */
  ghost function Added(mem: seq<Page>, root: nat, v: nat, u: nat): nat
    requires v <= u
  {
    (if Opens(mem, root, v, u, 0) then 1 else 0) +
    (if Opens(mem, root, v, u, 1) then 1 else 0) +
    (if Opens(mem, root, v, u, 2) then 1 else 0)
  }

  /** Frames for `n` pages from page `v` on and for all the tables they lack. */
  ghost function Need(mem: seq<Page>, root: nat, v: nat, n: nat): nat {
    if n == 0 then 0 else Need(mem, root, v, n - 1) + 1 + Added(mem, root, v, v + n - 1)
  }

  lemma {:induction false} NeedGrows(mem: seq<Page>, root: nat, v: nat, n: nat, n': nat)
    requires n <= n'
    ensures Need(mem, root, v, n) + (n' - n) <= Need(mem, root, v, n')
    decreases n'
  {
    hide Added;
    if n < n' { NeedGrows(mem, root, v, n, n' - 1); }
  }

  /** The tables of `mem'` are those of `mem` and the ones that the first `i` pages from `v` on need. */
  ghost predicate Tabled(mem: seq<Page>, mem': seq<Page>, root: nat, v: nat, i: nat) {
    forall l: nat, p: nat | l < 3 && Lower(l, p) ::
      TableAt(mem', root, l, p).Some? <==>
        TableAt(mem, root, l, p).Some? || (i > 0 && Shift(v, l + 1) <= p <= Shift(v + i - 1, l + 1))
  }

  lemma {:induction false} ShiftNext(u: nat, l: nat)
    ensures Shift(u, l) <= Shift(u + 1, l) <= Shift(u, l) + 1
  {
    if l > 0 { ShiftNext(u, l - 1); }
  }

  lemma {:induction false} ShiftMonotone(u: nat, w: nat, l: nat)
    requires u <= w
    ensures Shift(u, l) <= Shift(w, l)
  {
    if l > 0 { ShiftMonotone(u, w, l - 1); }
  }

  lemma TabledStep(mem: seq<Page>, a: seq<Page>, b: seq<Page>, root: nat, v: nat, i: nat)
    requires Tabled(mem, a, root, v, i) && PathOnly(a, b, root, v + i) && TableFor(b, root, v + i, 0).Some?
    ensures Tabled(mem, b, root, v, i + 1)
  {
    hide TableAt, Shift, Positions;
    forall l: nat, p: nat | l < 3 && Lower(l, p)
      ensures TableAt(b, root, l, p).Some? <==>
        TableAt(mem, root, l, p).Some? || Shift(v, l + 1) <= p <= Shift(v + i, l + 1)
    {
      PathExists(b, root, v + i, l);
      ShiftMonotone(v, v + i, l + 1);
      if i > 0 { ShiftNext(v + i - 1, l + 1); }
    }
  }

  lemma OpensNow(mem: seq<Page>, a: seq<Page>, root: nat, v: nat, i: nat, l: nat)
    requires Tabled(mem, a, root, v, i) && v + i < LOWER_PAGES && l < 3
    ensures TableFor(a, root, v + i, l).None? <==> Opens(mem, root, v, v + i, l)
  {
    hide TableAt, Shift, Positions;
    ShiftLower(v + i, l);
    ShiftMonotone(v, v + i, l + 1);
    if i > 0 { ShiftNext(v + i - 1, l + 1); }
  }

  /** What is missing on the way to the next page is what the range adds for it. */
  lemma MissingIsAdded(mem: seq<Page>, a: seq<Page>, root: nat, v: nat, i: nat)
    requires Tabled(mem, a, root, v, i) && v + i < LOWER_PAGES
    ensures Missing(a, root, v + i, 3) == Added(mem, root, v, v + i)
  {
    hide Tabled, TableFor, Opens, Missing;
    OpensNow(mem, a, root, v, i, 0);
    OpensNow(mem, a, root, v, i, 1);
    OpensNow(mem, a, root, v, i, 2);
    MissingStep(a, root, v + i, 1);
    MissingStep(a, root, v + i, 2);
    MissingStep(a, root, v + i, 3);
  }

  /** The range after `i` rounds: all pages so far are there, or the last one was lost and no frame is left. */
  ghost predicate RangeMade(mem: seq<Page>, free: set<nat>, mem': seq<Page>, free': set<nat>, root: nat, v: nat,
                            i: nat) {
    if |free| >= Need(mem, root, v, i) then
      && ZeroedPages(mem, mem', root, v, i) && Tabled(mem, mem', root, v, i)
      && |free'| == |free| - Need(mem, root, v, i)
    else i > 0 && |free| > Need(mem, root, v, i - 1) && free' == {} && ZeroedPages(mem, mem', root, v, i - 1)
  }

  lemma RangeStart(mem: seq<Page>, free: set<nat>, root: nat, v: nat)
    ensures RangeMade(mem, free, mem, free, root, v, 0)
  {
  }

  lemma RangeStep(mem: seq<Page>, free: set<nat>, a: seq<Page>, freeA: set<nat>, b: seq<Page>, freeB: set<nat>,
                  root: nat, v: nat, i: nat)
    requires RangeMade(mem, free, a, freeA, root, v, i) && freeA != {} && PageMade(a, freeA, b, freeB, root, v + i)
    requires v + i < LOWER_PAGES
    ensures RangeMade(mem, free, b, freeB, root, v, i + 1)
  {
    hide ZeroedPages, Missing, TableFor, Tabled, PathOnly, Added;
    MissingIsAdded(mem, a, root, v, i);
    if |freeA| >= 1 + Missing(a, root, v + i, 3) {
      ZeroedMore(mem, a, b, root, v, i, 1);
      TabledStep(mem, a, b, root, v, i);
    } else {
      ZeroedMore(mem, a, b, root, v, i, 0);
    }
  }

  /** A range that stops early had no frame left for a page. */
  lemma RangeStops(mem: seq<Page>, free: set<nat>, a: seq<Page>, root: nat, v: nat, i: nat, pages: nat)
    requires RangeMade(mem, free, a, {}, root, v, i) && i < pages
    ensures |free| <= Need(mem, root, v, pages - 1)
  {
    hide ZeroedPages, Tabled, Added;
    NeedGrows(mem, root, v, i, pages - 1);
    if i > 0 { NeedGrows(mem, root, v, i - 1, i); }
  }

  /** The pages share a page table, as the user stack's do. */
  predicate OneTable(v: nat, pages: nat) {
    pages > 0 && (v + pages - 1) / ENTRIES == v / ENTRIES
  }

  lemma SameTable(v: nat, pages: nat, i: nat)
    requires OneTable(v, pages) && i < pages
    ensures (v + i) / ENTRIES == v / ENTRIES
  {
    assert v / ENTRIES <= (v + i) / ENTRIES <= (v + pages - 1) / ENTRIES;
  }

  /** Inside one page table only the first page can lack tables. */
  lemma {:induction false} NeedOneTable(mem: seq<Page>, root: nat, v: nat, n: nat)
    requires n > 0 && OneTable(v, n) && v + n <= LOWER_PAGES
    ensures Need(mem, root, v, n) == n + Missing(mem, root, v, 3)
    decreases n
  {
    hide TableFor, Missing, Shift;
    if n == 1 {
      assert Need(mem, root, v, 0) == 0;
      assert Tabled(mem, mem, root, v, 0);
      MissingIsAdded(mem, mem, root, v, 0);
    } else {
      SameTable(v, n, n - 2);
      NeedOneTable(mem, root, v, n - 1);
      SamePrefixes(v + n - 2);
    }
  }

  lemma SamePrefixes(u: nat)
    requires (u + 1) / ENTRIES == u / ENTRIES
    ensures Shift(u + 1, 1) == Shift(u, 1) && Shift(u + 1, 2) == Shift(u, 2) && Shift(u + 1, 3) == Shift(u, 3)
  {
    assert Shift(u, 1) == u / ENTRIES && Shift(u + 1, 1) == (u + 1) / ENTRIES;
    assert Shift(u, 2) == Shift(u, 1) / ENTRIES && Shift(u + 1, 2) == Shift(u + 1, 1) / ENTRIES;
  }

  /**
   map_zeroed_range.  With a frame for every page and for every table they lack exactly the pages
   of the range read as zeros afterwards.  With fewer it still reports success exactly when there
   is a frame for everything before the last page and for that page itself, and then the last page
   is not mapped and no frame is left; otherwise it fails with no frame left.  Two pages or more
   inside one page table are never left incomplete.
   */
  method MapZeroedRange(m: Memory, root: nat, v: nat, pages: nat) returns (ok: bool)
    requires m.Valid() && Private(m.mem, m.free, root) && v + pages <= LOWER_PAGES
    modifies m`mem, m`free, m.pmm, m.pmm.bitmap
    ensures m.Valid() && Private(m.mem, m.free, root)
    ensures ok <==> pages == 0 || |old(m.free)| > Need(old(m.mem), root, v, pages - 1)
    ensures |old(m.free)| >= Need(old(m.mem), root, v, pages) ==>
      && ok && ZeroedPages(old(m.mem), m.mem, root, v, pages)
      && |m.free| == |old(m.free)| - Need(old(m.mem), root, v, pages)
      && RangeRights(old(m.mem), m.mem, root, v, pages)
    ensures |old(m.free)| < Need(old(m.mem), root, v, pages) ==>
      && m.free == {}
      && (ok ==>
            ZeroedPages(old(m.mem), m.mem, root, v, pages - 1) && RangeRights(old(m.mem), m.mem, root, v, pages - 1))
    ensures Open(old(m.mem), root) ==> Open(m.mem, root)
    ensures OneTable(v, pages) && pages >= 2 ==>
      && (ok <==> |old(m.free)| >= pages + Missing(old(m.mem), root, v, 3))
      && (ok ==>
            && ZeroedPages(old(m.mem), m.mem, root, v, pages)
            && |m.free| == |old(m.free)| - pages - Missing(old(m.mem), root, v, 3)
            && RangeRights(old(m.mem), m.mem, root, v, pages))
  {
    hide Memory.Counted, Private, PageMade, ZeroedPages, TableFor, Missing, RangeMade, OneTable, Need, EntriesKept,
      RangeRights, Open;
    SameEntries(m.mem, root, USER_ENTRY);
    assert Has(USER_ENTRY, USER) && Has(USER_ENTRY, WRITE);
    RangeStart(m.mem, m.free, root, v);
    ghost var mem0, free0 := m.mem, m.free;
    Enough(mem0, free0, root, v, pages);
    var i := 0;
    while i < pages
      invariant i <= pages && m.Valid() && Private(m.mem, m.free, root)
      invariant RangeMade(mem0, free0, m.mem, m.free, root, v, i) && EntriesKept(mem0, m.mem, root, USER_ENTRY)
      invariant Open(mem0, root) ==> Open(m.mem, root)
    {
      ghost var a, freeA := m.mem, m.free;
      var got := MapZeroedPage(m, root, v + i);
      if Open(mem0, root) { OpenStays(a, m.mem, root, USER_ENTRY); }
      if !got {
        RangeStops(mem0, free0, a, root, v, i, pages);
        return false;
      }
      RangeStep(mem0, free0, a, freeA, m.mem, m.free, root, v, i);
      EntriesTransitive(mem0, a, m.mem, root, USER_ENTRY);
      i := i + 1;
    }
    RangeEnds(mem0, free0, m.mem, m.free, root, v, pages);
    if |free0| >= Need(mem0, root, v, pages) {
      RangeGrants(mem0, m.mem, root, v, pages);
    } else {
      RangeGrants(mem0, m.mem, root, v, pages - 1);
    }
    return true;
  }

  /** A single page is lost, with success reported, exactly when it gets a frame and its tables do not. */
  lemma OnePageNeed(mem: seq<Page>, root: nat, v: nat)
    requires v < LOWER_PAGES
    ensures Need(mem, root, v, 0) == 0 && Need(mem, root, v, 1) == 1 + Missing(mem, root, v, 3)
  {
    NeedOneTable(mem, root, v, 1);
  }

  /** How the two exits compare with the need of the range. */
  lemma Enough(mem: seq<Page>, free: set<nat>, root: nat, v: nat, pages: nat)
    requires v + pages <= LOWER_PAGES
    ensures pages > 0 ==> Need(mem, root, v, pages) > Need(mem, root, v, pages - 1)
    ensures pages == 0 ==> Need(mem, root, v, pages) == 0
    ensures OneTable(v, pages) && pages >= 2 ==>
      && Need(mem, root, v, pages) == pages + Missing(mem, root, v, 3)
      && Need(mem, root, v, pages - 1) == pages - 1 + Missing(mem, root, v, 3)
  {
    hide Missing, Added;
    if OneTable(v, pages) && pages >= 2 {
      SameTable(v, pages, pages - 2);
      NeedOneTable(mem, root, v, pages);
      NeedOneTable(mem, root, v, pages - 1);
    }
  }

  lemma RangeEnds(mem: seq<Page>, free: set<nat>, mem': seq<Page>, free': set<nat>, root: nat, v: nat, pages: nat)
    requires RangeMade(mem, free, mem', free', root, v, pages)
    ensures pages == 0 || |free| > Need(mem, root, v, pages - 1)
    ensures if |free| >= Need(mem, root, v, pages) then
        ZeroedPages(mem, mem', root, v, pages) && |free'| == |free| - Need(mem, root, v, pages)
      else pages > 0 && free' == {} && ZeroedPages(mem, mem', root, v, pages - 1)
  {
    hide ZeroedPages, Tabled, Added;
  }
}
