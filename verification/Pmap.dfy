/**
 pmap.c over physical memory: mapping, unmapping, duplicating and tearing down
 address spaces whose tables live in frames of the page allocator.
 */
module Pmap {
  import opened Options
  import opened Bytes
  import opened Pmm
  import opened PageTables

  /** The flags of an entry that pmap_map makes for a new table. */
  function TableFlags(flags: Flags): Flags {
    PRESENT | WRITE | flags
  }

  /** The table of level `l` on the way to page `v`. */
  ghost function TableFor(mem: seq<Page>, root: nat, v: nat, l: nat): Option<nat>
    requires l < 4
  {
    TableAt(mem, root, l, Shift(v, l + 1))
  }

  /** How many of the tables of levels below `l` on the way to page `v` do not exist yet. */
  ghost function Missing(mem: seq<Page>, root: nat, v: nat, l: nat): nat
    requires l < 4
  {
    if l == 0 then 0
    else Missing(mem, root, v, l - 1) + (if TableFor(mem, root, v, l - 1).None? then 1 else 0)
  }

  lemma {:induction false} MissingSame(mem: seq<Page>, mem': seq<Page>, root: nat, v: nat, l: nat)
    requires l < 4 && v < LOWER_PAGES
    requires forall k: nat | k < l :: TableFor(mem', root, v, k) == TableFor(mem, root, v, k)
    ensures Missing(mem', root, v, l) == Missing(mem, root, v, l)
  {
    if l > 0 { MissingSame(mem, mem', root, v, l - 1); }
  }

  lemma ShiftIndex(v: nat, l: nat)
    ensures Shift(v, l) == Shift(v, l + 1) * ENTRIES + Index(v, l)
  {
  }

  /** A page table walk one level down. */
  lemma WalkDown(mem: seq<Page>, root: nat, v: nat, l: nat)
    requires Tree(mem, root) && v < LOWER_PAGES && 0 < l < 4 && TableFor(mem, root, v, l).Some?
    ensures Lower(l, Shift(v, l + 1)) && Lower(l - 1, Shift(v, l))
    ensures IsTable(mem, TableFor(mem, root, v, l).value)
    ensures var e := mem[TableFor(mem, root, v, l).value].entries[Index(v, l)];
      TableFor(mem, root, v, l - 1) == if Present(e) then Some(e.frame) else None
  {
    ShiftLower(v, l);
    ShiftLower(v, l - 1);
    ShiftIndex(v, l);
  }

  lemma {:induction false} PathExists(mem: seq<Page>, root: nat, v: nat, l: nat)
    requires l < 4 && TableFor(mem, root, v, 0).Some?
    ensures TableFor(mem, root, v, l).Some?
  {
    if l > 0 { PathExists(mem, root, v, l - 1); }
  }

  /** Only tables on the way to page `v` may differ. */
  ghost predicate PathOnly(mem: seq<Page>, mem': seq<Page>, root: nat, v: nat) {
    forall l: nat, p: nat | Lower(l, p) && p != Shift(v, l + 1) :: TableAt(mem', root, l, p) == TableAt(mem, root, l, p)
  }

  /** `mem'` is `mem` with an empty table for page `v` linked at level `l`. */
  ghost predicate Grown(mem: seq<Page>, mem': seq<Page>, root: nat, v: nat, l: nat, f: nat)
    requires l < 3
  {
    && |mem'| == |mem| && Tree(mem', root) && TableFor(mem', root, v, l) == Some(f) && PathOnly(mem, mem', root, v)
    && (forall k: nat | k < l :: TableFor(mem', root, v, k) == TableFor(mem, root, v, k))
    && (forall t: nat :: Owns(mem', root, t) <==> Owns(mem, root, t) || t == f)
    && (forall w: nat | w < LOWER_PAGES :: Translate(mem', root, w) == Translate(mem, root, w))
    && (forall t: nat | t < |mem| && !Owns(mem, root, t) && t != f :: mem'[t] == mem[t])
  }

  lemma LinkGrows(mem: seq<Page>, root: nat, v: nat, level: nat, table: nat, f: nat, flags: Flags)
    requires Tree(mem, root) && v < LOWER_PAGES && 0 < level < 4 && f < |mem| && !Owns(mem, root, f)
    requires flags & PRESENT != 0
    requires TableFor(mem, root, v, level) == Some(table) && TableFor(mem, root, v, level - 1).None?
    ensures IsTable(mem, table) && f != table
    ensures Grown(mem, Link(mem, table, Index(v, level), f, flags), root, v, level - 1, f)
    ensures EntriesKept(mem, Link(mem, table, Index(v, level), f, flags), root, flags)
  {
    hide Tree, Translate, Missing, TableAt, Owns, Shift, Positions, Link, EntriesKept;
    WalkDown(mem, root, v, level);
    ShiftIndex(v, level);
    OwnedTable(mem, root, level, Shift(v, level + 1));
    LinkKeeps(mem, root, level, Shift(v, level + 1), Index(v, level), f, flags);
    LinkEntries(mem, root, level, Shift(v, level + 1), Index(v, level), f, flags);
    var mem' := Link(mem, table, Index(v, level), f, flags);
    LinkShape(mem, table, Index(v, level), f, flags);
    forall k: nat | k < level - 1 ensures TableFor(mem', root, v, k) == TableFor(mem, root, v, k) { ShiftLower(v, k); }
  }

  /**
   From `mem` to `mem'` the space at `root` took frames from `free` down to `free'` for new tables,
   and nothing else changed.
   */
  ghost predicate Expanded(mem: seq<Page>, free: set<nat>, mem': seq<Page>, free': set<nat>, root: nat) {
    && |mem'| == |mem| && free' <= free
    && (forall t: nat :: Owns(mem', root, t) <==> Owns(mem, root, t) || t in free - free')
    && (forall t: nat | t < |mem| && !Owns(mem, root, t) && t !in free - free' :: mem'[t] == mem[t])
  }

  ghost predicate SamePages(mem: seq<Page>, mem': seq<Page>, root: nat) {
    forall w: nat | w < LOWER_PAGES :: Translate(mem', root, w) == Translate(mem, root, w)
  }

  lemma ExpandedMore(mem: seq<Page>, free: set<nat>, a: seq<Page>, freeA: set<nat>, root: nat, v: nat, l: nat,
                     b: seq<Page>, f: nat)
    requires Expanded(mem, free, a, freeA, root) && SamePages(mem, a, root) && PathOnly(mem, a, root, v)
    requires l < 3 && Grown(a, b, root, v, l, f) && f in freeA
    ensures Expanded(mem, free, b, freeA - {f}, root) && SamePages(mem, b, root) && PathOnly(mem, b, root, v)
    ensures |freeA - {f}| == |freeA| - 1
  {
    hide Owns, Tree, TableFor, Translate, TableAt;
    assert free - (freeA - {f}) == (free - freeA) + {f};
  }

  /** First fit for one page is the lowest free page. */
  lemma OneFrame(free: set<nat>, total: nat, r: Option<nat>)
    requires FirstFit(free, 1, total, r) && forall p <- free :: p < total
    ensures r.None? <==> free == {}
    ensures r.Some? ==> r.value in free && Range(r.value, 1) == {r.value} && forall g <- free :: r.value <= g
  {
    forall g <- free ensures FreeRun(free, g, 1, total) { }
    if r.Some? {
      assert r.value in free;
      forall g <- free ensures r.value <= g { assert FreeRun(free, g, 1, total); }
    }
  }

  class Memory {
    const pmm: Allocator
    var mem: seq<Page>
    var refs: seq<nat>
    ghost var free: set<nat>   // the free frames of `pmm`

    constructor (pmm: Allocator, mem: seq<Page>, refs: seq<nat>)
      ensures this.pmm == pmm && this.mem == mem && this.refs == refs && free == pmm.free
    {
      this.pmm, this.mem, this.refs, this.free := pmm, mem, refs, pmm.free;
    }

    /** Free frames are counted by nobody, and page 0, the error value of the C code, is never one of them. */
    ghost predicate Counted()
      reads this`refs, this`free, pmm, pmm.bitmap
    {
      && pmm.Valid() && free == pmm.free && 0 !in free
      && (forall f <- free :: f < |refs| && refs[f] == 0)
    }

    ghost predicate Valid()
      reads this, pmm, pmm.bitmap
    {
      Counted() && pmm.total <= |mem| && forall f <- free :: f < |mem|
    }

    /** A well-formed address space: a tree of tables, none of them in a free frame. */
    ghost predicate Space(root: nat)
      reads this`mem, this`free
    {
      Tree(mem, root) && forall t: nat | Owns(mem, root, t) :: t !in free
    }

    method FrameAlloc() returns (f: nat)
      requires Valid()
      modifies this`free, pmm, pmm.bitmap
      ensures Valid() && (f == 0 <==> old(free) == {})
      ensures f != 0 ==> f in old(free) && f < |mem| && forall g <- old(free) :: f <= g
      ensures f != 0 ==> f < |refs| && refs[f] == 0
      ensures free == old(free) - {f}
    {
      hide FirstFit, Range;
      var r := pmm.Alloc(1);
      OneFrame(old(free), pmm.total, r);
      free := pmm.free;
      match r {
        case None => return 0;
        case Some(s) => return s;
      }
    }

    method TableAlloc() returns (f: nat)
      requires Valid()
      modifies this`mem, this`free, pmm, pmm.bitmap
      ensures Valid() && (f == 0 <==> old(free) == {})
      ensures f != 0 ==> f in old(free) && f < |mem|
      ensures free == old(free) - {f}
      ensures mem == if f == 0 then old(mem) else old(mem)[f := ZeroTable()]
    {
      hide Counted;
      f := FrameAlloc();
      if f != 0 { mem := mem[f := ZeroTable()]; }
    }

    /** The leaf entry of a mapped page's table, or nothing. */
    method PmapPte(root: nat, v: nat) returns (table: Option<nat>)
      requires Tree(mem, root) && v < LOWER_PAGES
      ensures table == TableAt(mem, root, 0, v / ENTRIES)
      ensures table.Some? ==> IsTable(mem, table.value)
    {
      var t, level := root, 3;
      ShiftLower(v, 3);
      assert Shift(v, 1) == v / ENTRIES;
      while level > 0
        invariant 0 <= level <= 3 && TableFor(mem, root, v, level) == Some(t)
      {
        WalkDown(mem, root, v, level);
        var entry := mem[t].entries[Index(v, level)];
        if !Present(entry) {
          Missed(mem, root, v, level - 1);
          return None;
        }
        t := entry.frame;
        level := level - 1;
      }
      ShiftLower(v, 0);
      return Some(t);
    }

    static lemma Missed(mem: seq<Page>, root: nat, v: nat, l: nat)
      requires v < LOWER_PAGES && l < 3 && TableFor(mem, root, v, l).None?
      ensures TableFor(mem, root, v, 0).None?
      decreases l
    {
      if l > 0 { Missed(mem, root, v, l - 1); }
    }

    /** The physical frame of a page, 0 when it is not mapped. */
    method PmapResolve(root: nat, v: nat) returns (frame: nat)
      requires Tree(mem, root) && v < LOWER_PAGES
      ensures frame == match Translate(mem, root, v) case Some(e) => e.frame case None => 0
    {
      var t := PmapPte(root, v);
      if t.None? || !Present(mem[t.value].entries[Index(v, 0)]) { return 0; }
      return mem[t.value].entries[Index(v, 0)].frame;
    }

    method PmapUnmap(root: nat, v: nat)
      requires Valid() && Space(root) && v < LOWER_PAGES
      modifies this`mem
      ensures Valid() && Space(root) && Expanded(old(mem), free, mem, free, root)
      ensures Retargeted(old(mem), mem, root, v, Pte(0, 0))
    {
      var t := PmapPte(root, v);
      if t.Some? {
        assert Shift(v, 1) == v / ENTRIES;
        StoreLast(mem, root, v, t.value, Pte(0, 0));
        mem := mem[t.value := Table(mem[t.value].entries[Index(v, 0) := Pte(0, 0)])];
      }
    }

    // ---- pmap_map ----------------------------------------------------------------

    /** One missing table on the way to page `v` is allocated and linked. */
    method AddTable(root: nat, v: nat, level: nat, table: nat, flags: Flags) returns (next: nat)
      requires Valid() && Space(root) && v < LOWER_PAGES && 0 < level < 4
      requires TableFor(mem, root, v, level) == Some(table) && TableFor(mem, root, v, level - 1).None?
      modifies this`mem, this`free, pmm, pmm.bitmap
      ensures Valid() && Space(root)
      ensures next == 0 <==> old(free) == {}
      ensures next == 0 ==> mem == old(mem) && free == old(free)
      ensures next != 0 ==> next in old(free) && free == old(free) - {next}
      ensures next != 0 ==> Grown(old(mem), mem, root, v, level - 1, next)
      ensures next != 0 ==> EntriesKept(old(mem), mem, root, TableFlags(flags))
    {
      hide Counted, Tree, Owns, TableFor, Translate, IsTable, PathOnly, EntriesKept;
      WalkDown(mem, root, v, level);
      next := TableAlloc();
      if next != 0 {
        assert (TableFlags(flags)) & PRESENT != 0;
        LinkGrows(old(mem), root, v, level, table, next, TableFlags(flags));
        TableShape(old(mem), table);
        mem := mem[table := Table(mem[table].entries[Index(v, level) := Pte(next, TableFlags(flags))])];
        assert mem == Link(old(mem), table, Index(v, level), next, TableFlags(flags));
      }
    }

    /**
     The loop of pmap_map: the page table of `v`, with every missing table on the way added;
     nothing when frames run out.
     */
    method ReachLeaf(root: nat, v: nat, flags: Flags) returns (r: Option<nat>)
      requires Valid() && Space(root) && v < LOWER_PAGES
      modifies this`mem, this`free, pmm, pmm.bitmap
      ensures Valid() && Space(root)
      ensures Expanded(old(mem), old(free), mem, free, root) && SamePages(old(mem), mem, root)
      ensures PathOnly(old(mem), mem, root, v) && EntriesKept(old(mem), mem, root, TableFlags(flags))
      ensures if |old(free)| >= Missing(old(mem), root, v, 3)
        then r.Some? && TableFor(mem, root, v, 0) == r && |free| == |old(free)| - Missing(old(mem), root, v, 3)
        else r.None? && free == {}
    {
      hide Counted, Tree, Owns, Missing, TableFor, Translate, Expanded, SamePages, PathOnly, IsTable, EntriesKept;
      var table, level := root, 3;
      WalkStart(mem, free, root, v);
      SameEntries(mem, root, TableFlags(flags));
      while level > 0
        invariant 0 <= level <= 3 && Valid() && Space(root) && TableFor(mem, root, v, level) == Some(table)
        invariant |old(free)| - |free| == Missing(old(mem), root, v, 3) - Missing(mem, root, v, level)
        invariant Expanded(old(mem), old(free), mem, free, root) && SamePages(old(mem), mem, root)
        invariant PathOnly(old(mem), mem, root, v) && EntriesKept(old(mem), mem, root, TableFlags(flags))
      {
        WalkDown(mem, root, v, level);
        MissingStep(mem, root, v, level);
        TableShape(mem, table);
        var entry := mem[table].entries[Index(v, level)];
        if !Present(entry) {
          ghost var was, wasFree := mem, free;
          var next := AddTable(root, v, level, table, flags);
          if next == 0 { return None; }
          ExpandedMore(old(mem), old(free), was, wasFree, root, v, level - 1, mem, next);
          MissingGrown(was, mem, root, v, level - 1, next);
          EntriesTransitive(old(mem), was, mem, root, TableFlags(flags));
          table := next;
        } else {
          table := entry.frame;
        }
        level := level - 1;
      }
      MissingStep(mem, root, v, 1);
      return Some(table);
    }

    /**
     pmap_map.  With a frame for every missing table the page is mapped and no other
     page moves; with fewer the call gives up silently, all free frames are gone, and
     no page at all has moved.
     */
    method PmapMap(root: nat, v: nat, frame: nat, flags: Flags)
      requires Valid() && Space(root) && v < LOWER_PAGES
      modifies this`mem, this`free, pmm, pmm.bitmap
      ensures Valid() && Space(root) && Expanded(old(mem), old(free), mem, free, root)
      ensures PathOnly(old(mem), mem, root, v) && EntriesKept(old(mem), mem, root, TableFlags(flags))
      ensures if |old(free)| >= Missing(old(mem), root, v, 3) then
          && Retargeted(old(mem), mem, root, v, Pte(frame, PRESENT | flags)) && TableFor(mem, root, v, 0).Some?
          && |free| == |old(free)| - Missing(old(mem), root, v, 3)
        else free == {} && SamePages(old(mem), mem, root)
    {
      hide Counted, Missing, Tree, Owns, TableFor, Expanded, SamePages, Retargeted, PathOnly, TableAt, Shift, IsTable,
        EntriesKept;
      var r := ReachLeaf(root, v, flags);
      if r.None? { return; }
      var table := r.value;
      ghost var grown := mem;
      LeafKept(mem, root, v, table, Pte(frame, PRESENT | flags), TableFlags(flags));
      StoreAfterGrowth(old(mem), old(free), mem, free, root, v, table, Pte(frame, PRESENT | flags));
      TableShape(mem, table);
      mem := mem[table := Table(mem[table].entries[Index(v, 0) := Pte(frame, PRESENT | flags)])];
      EntriesTransitive(old(mem), grown, mem, root, TableFlags(flags));
    }
  }

  lemma SameEntries(mem: seq<Page>, root: nat, flags: Flags)
    ensures EntriesKept(mem, mem, root, flags)
  {
  }

  lemma LeafKept(mem: seq<Page>, root: nat, v: nat, table: nat, e: Pte, flags: Flags)
    requires Tree(mem, root) && v < LOWER_PAGES && TableFor(mem, root, v, 0) == Some(table)
    ensures IsTable(mem, table)
    ensures EntriesKept(mem, mem[table := Table(mem[table].entries[Index(v, 0) := e])], root, flags)
  {
    hide Tree, TableAt, EntriesKept;
    assert Shift(v, 1) == v / ENTRIES;
    LeafEntries(mem, root, v, e, flags);
  }

  /** Where the walk begins. */
  lemma WalkStart(mem: seq<Page>, free: set<nat>, root: nat, v: nat)
    requires v < LOWER_PAGES
    ensures TableFor(mem, root, v, 3) == Some(root)
    ensures Expanded(mem, free, mem, free, root) && SamePages(mem, mem, root) && PathOnly(mem, mem, root, v)
  {
    ShiftLower(v, 3);
  }

  lemma MissingStep(mem: seq<Page>, root: nat, v: nat, l: nat)
    requires 0 < l < 4
    ensures Missing(mem, root, v, l)
         == Missing(mem, root, v, l - 1) + (if TableFor(mem, root, v, l - 1).None? then 1 else 0)
    ensures Missing(mem, root, v, 0) == 0
  {
    hide TableFor;
  }

  lemma MissingGrown(mem: seq<Page>, mem': seq<Page>, root: nat, v: nat, l: nat, f: nat)
    requires l < 3 && v < LOWER_PAGES && Grown(mem, mem', root, v, l, f)
    ensures Missing(mem', root, v, l) == Missing(mem, root, v, l) && TableFor(mem', root, v, l) == Some(f)
  {
    hide TableFor;
    MissingSame(mem, mem', root, v, l);
  }

  lemma TableShape(mem: seq<Page>, t: nat)
    requires IsTable(mem, t)
    ensures t < |mem| && mem[t].Table? && |mem[t].entries| == ENTRIES
  {
  }

  /** Page `v` goes to `e` and every other page stays where it was. */
  ghost predicate Retargeted(mem: seq<Page>, mem': seq<Page>, root: nat, v: nat, e: Pte) {
    && Translate(mem', root, v) == (if Present(e) then Some(e) else None)
    && forall w: nat | w < LOWER_PAGES && w != v :: Translate(mem', root, w) == Translate(mem, root, w)
  }

  /** The final store of pmap_map. */
  lemma StoreLast(mem: seq<Page>, root: nat, v: nat, table: nat, e: Pte)
    requires Tree(mem, root) && v < LOWER_PAGES && TableFor(mem, root, v, 0) == Some(table)
    ensures IsTable(mem, table) && Owns(mem, root, table)
    ensures var mem' := mem[table := Table(mem[table].entries[Index(v, 0) := e])];
      && Tree(mem', root) && (forall t: nat :: Owns(mem', root, t) <==> Owns(mem, root, t))
      && SameTables(mem, mem', root) && Retargeted(mem, mem', root, v, e)
  {
    ShiftLower(v, 0);
    assert Shift(v, 1) == v / ENTRIES;
    StoreLeaf(mem, root, v, e);
    TreeFromSameTables(mem, mem[table := Table(mem[table].entries[Index(v, 0) := e])], root);
  }

  lemma StoreAfterGrowth(mem: seq<Page>, free: set<nat>, a: seq<Page>, freeA: set<nat>, root: nat, v: nat, table: nat,
                         e: Pte)
    requires Tree(a, root) && v < LOWER_PAGES && TableFor(a, root, v, 0) == Some(table)
    requires Expanded(mem, free, a, freeA, root) && SamePages(mem, a, root) && PathOnly(mem, a, root, v)
    ensures IsTable(a, table) && Owns(a, root, table)
    ensures var b := a[table := Table(a[table].entries[Index(v, 0) := e])];
      && Tree(b, root) && (forall t: nat :: Owns(b, root, t) <==> Owns(a, root, t))
      && Expanded(mem, free, b, freeA, root) && Retargeted(mem, b, root, v, e) && PathOnly(mem, b, root, v)
      && TableFor(b, root, v, 0) == Some(table)
  {
    StoreLast(a, root, v, table, e);
    ShiftLower(v, 0);
    var b := a[table := Table(a[table].entries[Index(v, 0) := e])];
    assert TableFor(b, root, v, 0) == TableFor(a, root, v, 0);
    hide Tree, Owns, TableFor, Translate, TableAt;
  }
}
