/** What fork and destroy mean together. */
module PmapTheorems {
  import opened Options
  import opened Bytes
  import opened Pmm
  import opened PageTables
  import opened Pmap
  import opened PmapFork
  import opened PmapNeed
  import opened PmapForkRun
  import opened PmapForkLoops
  import opened PmapDestroy
  import opened PmapRights

  /** What a program reads at page `v`. */
  ghost function Contents(mem: seq<Page>, root: nat, v: nat): Option<Page> {
    var e := Translate(mem, root, v);
    if e.Some? && e.value.frame < |mem| then Some(mem[e.value.frame]) else None
  }

  ghost predicate SameView(mem: seq<Page>, mem': seq<Page>, root: nat) {
    forall v: nat | v < LOWER_PAGES :: Contents(mem', root, v) == Contents(mem, root, v)
  }

  /** A frame outside a space's tables and pages can be written without the space noticing. */
  lemma WriteUnseen(mem: seq<Page>, root: nat, f: nat, page: Page)
    requires Tree(mem, root) && f < |mem| && !Owns(mem, root, f) && !IsLeaf(mem, root, f)
    ensures SameView(mem, mem[f := page], root)
  {
    WriteData(mem, root, f, page);
    forall v: nat | v < LOWER_PAGES ensures Contents(mem[f := page], root, v) == Contents(mem, root, v) {
      assert Translate(mem, root, v) == Translate(mem[f := page], root, v);
    }
  }

  /** After a complete fork both spaces read the same, and the parent reads what it did before. */
  lemma ForkCopies(w0: World, parent: nat, w: World, child: nat)
    requires ParentOk(w0, parent) && Forked(w0, parent, w, child, LOWER_PAGES)
    ensures Tree(w.mem, parent) && SameView(w0.mem, w.mem, parent)
    ensures forall t: nat :: Owns(w.mem, parent, t) <==> Owns(w0.mem, parent, t)
    ensures forall v: nat | v < LOWER_PAGES :: Translate(w.mem, parent, v) == Translate(w0.mem, parent, v)
    ensures forall v: nat | v < LOWER_PAGES :: Contents(w.mem, child, v) == Contents(w0.mem, parent, v)
  {
    SameOnTables(w0.mem, w.mem, parent);
    forall v: nat | v < LOWER_PAGES
      ensures Contents(w.mem, parent, v) == Contents(w0.mem, parent, v)
      ensures Contents(w.mem, child, v) == Contents(w0.mem, parent, v)
    {
      assert CopyOf(w0, parent, w, child, v);
    }
  }

  /** Whatever is written later through a page of the child, the parent reads the same; and the other way round. */
  lemma ForkIsolates(w0: World, parent: nat, w: World, child: nat, v: nat, page: Page)
    requires ParentOk(w0, parent) && Forked(w0, parent, w, child, LOWER_PAGES) && v < LOWER_PAGES
    ensures Translate(w.mem, child, v).Some? ==>
      var f := Translate(w.mem, child, v).value.frame; f < |w.mem| && SameView(w.mem, w.mem[f := page], parent)
    ensures Translate(w.mem, parent, v).Some? ==>
      var f := Translate(w.mem, parent, v).value.frame; f < |w.mem| && SameView(w.mem, w.mem[f := page], child)
  {
    ForkCopies(w0, parent, w, child);
    assert CopyOf(w0, parent, w, child, v);
    if Translate(w.mem, child, v).Some? {
      var f := Translate(w.mem, child, v).value.frame;
      assert !IsLeaf(w.mem, parent, f);  // the parent's pages lie in frames that were not free
      WriteUnseen(w.mem, parent, f, page);
    }
    if Translate(w.mem, parent, v).Some? {
      var f := Translate(w.mem, parent, v).value.frame;
      ChildLeaf(w0, parent, w, child, f);
      WriteUnseen(w.mem, child, f, page);
    }
  }

  // ---- rights of the child ----------------------------------------------------------------

  /** Among the pages up to `n` that need the table at (l, p) there is a first one. */
  lemma {:induction false} FirstExists(mem: seq<Page>, root: nat, l: nat, p: nat, n: nat) returns (u: nat)
    requires n < LOWER_PAGES && Translate(mem, root, n).Some? && Shift(n, l + 1) == p
    ensures u <= n && FirstUnder(mem, root, l, p, u)
    decreases n
  {
    hide Translate, Shift;
    u := n;
    if x: nat :| x < n && Translate(mem, root, x).Some? && Shift(x, l + 1) == p {
      u := FirstExists(mem, root, l, p, x);
    }
  }

  /** Page `u` is the first one under the level `l` table on the way to page `v`. */
  ghost predicate Leads(mem: seq<Page>, root: nat, v: nat, l: nat, u: nat) {
    FirstUnder(mem, root, l, Shift(v, l + 1), u)
  }

  /** The first page of the parent under each table on the way to page `v` is open to user mode. */
  ghost predicate LedByUser(mem: seq<Page>, root: nat, v: nat) {
    forall l: nat, u: nat | l < 3 && Leads(mem, root, v, l, u) :: Has(Translate(mem, root, u).value.flags, USER)
  }

  lemma ChildHas(flags: Flags)
    ensures Has(ChildFlags(flags), WRITE) && (Has(ChildFlags(flags), USER) <==> Has(flags, USER))
    ensures !Has(ChildFlags(flags), COW)
  {
  }

  /**
   Every copied page is writable in the child.  It is open to user mode exactly when it was marked so
   in the parent and so was the first page under each of its tables.
   */
  lemma ForkRights(w0: World, parent: nat, w: World, child: nat, v: nat)
    requires FirstEntries(w0, parent, w, child, LOWER_PAGES) && CopyOf(w0, parent, w, child, v)
    requires v < LOWER_PAGES && Translate(w0.mem, parent, v).Some?
    ensures Grants(w.mem, child, v, WRITE)
    ensures Grants(w.mem, child, v, USER) <==>
      Has(Translate(w0.mem, parent, v).value.flags, USER) && LedByUser(w0.mem, parent, v)
  {
    hide Translate, Shift, EntryTo, ChildFlags, Owns, Positions, Has;
    ChildHas(Translate(w0.mem, parent, v).value.flags);
    forall l: nat | l < 3
      ensures PathEntry(w.mem, child, v, l).Some? && Has(PathEntry(w.mem, child, v, l).value.flags, WRITE)
      ensures Has(PathEntry(w.mem, child, v, l).value.flags, USER) || !LedByUser(w0.mem, parent, v)
    {
      var u := FirstExists(w0.mem, parent, l, Shift(v, l + 1), v);
      assert Leads(w0.mem, parent, v, l, u);
      LeadEntry(w0, parent, w, child, v, l, u);
    }
    forall l: nat, u: nat | l < 3 && Leads(w0.mem, parent, v, l, u)
      ensures Has(PathEntry(w.mem, child, v, l).value.flags, USER) <==>
        Has(Translate(w0.mem, parent, u).value.flags, USER)
    {
      LeadEntry(w0, parent, w, child, v, l, u);
    }
  }

  lemma LeadEntry(w0: World, parent: nat, w: World, child: nat, v: nat, l: nat, u: nat)
    requires FirstEntries(w0, parent, w, child, LOWER_PAGES) && v < LOWER_PAGES && Translate(w.mem, child, v).Some?
    requires l < 3 && Leads(w0.mem, parent, v, l, u)
    ensures PathEntry(w.mem, child, v, l).Some? && Has(PathEntry(w.mem, child, v, l).value.flags, WRITE)
    ensures Has(PathEntry(w.mem, child, v, l).value.flags, USER) <==>
      Has(Translate(w0.mem, parent, u).value.flags, USER)
  {
    hide Translate, Shift, EntryTo, ChildFlags, Positions, Has;
    MappedPath(w.mem, child, v, l);
    ShiftLower(v, l);
    ChildHas(Translate(w0.mem, parent, u).value.flags);
  }

  /** So when all pages of the parent are user pages, all pages of the child can be used by user mode. */
  lemma ForkOfUser(w0: World, parent: nat, w: World, child: nat, v: nat)
    requires FirstEntries(w0, parent, w, child, LOWER_PAGES) && CopyOf(w0, parent, w, child, v)
    requires v < LOWER_PAGES && Translate(w0.mem, parent, v).Some?
    requires forall u: nat | u < LOWER_PAGES && Translate(w0.mem, parent, u).Some? ::
      Has(Translate(w0.mem, parent, u).value.flags, USER)
    ensures Grants(w.mem, child, v, USER) && Grants(w.mem, child, v, WRITE)
  {
    hide Translate, Shift, EntryTo, ChildFlags, Owns, Grants;
    ForkRights(w0, parent, w, child, v);
  }

  /** The child's pages are in frames that were free before the fork. */
  lemma ChildLeaf(w0: World, parent: nat, w: World, child: nat, f: nat)
    requires Forked(w0, parent, w, child, LOWER_PAGES)
    ensures IsLeaf(w.mem, child, f) ==>
      f in w0.free - w.free && f < |w.refs| && w.refs[f] == 1 && !Owns(w.mem, child, f)
  {
    if IsLeaf(w.mem, child, f) {
      var u: nat :| u < LOWER_PAGES && Translate(w.mem, child, u).Some? && Translate(w.mem, child, u).value.frame == f;
      assert CopyOf(w0, parent, w, child, u);
    }
  }

  lemma ForkedIsWhole(w0: World, parent: nat, w: World, child: nat, total: nat)
    requires ParentOk(w0, parent) && Forked(w0, parent, w, child, LOWER_PAGES) && 0 !in w0.free
    requires |w.refs| <= total && forall f <- w0.free :: f < total
    ensures Whole(w, child, total)
  {
    forall f: nat ensures IsLeaf(w.mem, child, f) ==> f in w0.free - w.free && !Owns(w.mem, child, f) {
      ChildLeaf(w0, parent, w, child, f);
    }
  }

  /** Forking and then destroying the child gives every frame back and leaves every count as it was. */
  method ForkThenDestroy(m: Memory, parent: nat, cr3: nat)
    requires m.Valid() && ParentOk(WorldOf(m), parent) && IsTable(m.mem, cr3) && cr3 !in m.free
    requires |m.refs| <= m.pmm.total
    requires |m.free| >= 1 + Cost(PagesBelow(m.mem, parent, LOWER_PAGES))
    modifies m`mem, m`free, m`refs, m.pmm, m.pmm.bitmap
    ensures m.Valid() && m.free == old(m.free) && m.refs == old(m.refs) && m.pmm.freePages == old(m.pmm.freePages)
    ensures SameView(old(m.mem), m.mem, parent)
  {
    ghost var w0 := WorldOf(m);
    assert forall f <- m.free :: f < m.pmm.total;
    hide Allocator.Used, Cost;
    var child := Fork(m, parent, cr3);
    ghost var w := WorldOf(m);
    ForkedIsWhole(w0, parent, w, child, m.pmm.total);
    ForkCopies(w0, parent, w, child);
    hide Whole, Tree, Owns, IsLeaf, SameView;
    Destroy(m, child);
    Restored(w0, parent, w, child, WorldOf(m));
  }

  lemma Restored(w0: World, parent: nat, w: World, child: nat, w': World)
    requires ParentOk(w0, parent) && Forked(w0, parent, w, child, LOWER_PAGES)
    requires w'.mem == w.mem && |w'.refs| == |w.refs|
    requires forall f: nat :: f in w'.free <==>
      f in w.free || Owns(w.mem, child, f) || (IsLeaf(w.mem, child, f) && Sole(w, f))
    requires forall f: nat | f < |w'.refs| ::
      w'.refs[f] == if IsLeaf(w.mem, child, f) then Dropped(w.refs[f]) else w.refs[f]
    ensures w'.free == w0.free && w'.refs == w0.refs
  {
    forall f: nat ensures IsLeaf(w.mem, child, f) ==> f in w0.free - w.free && f < |w.refs| && w.refs[f] == 1 {
      ChildLeaf(w0, parent, w, child, f);
    }
    hide Tree, Owns, IsLeaf;
  }
}
