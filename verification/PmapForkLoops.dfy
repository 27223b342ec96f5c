/** The nested loops of pmap_fork, one method per table level, and the result. */
module PmapForkLoops {
  import opened Options
  import opened Bytes
  import opened Pmm
  import opened PageTables
  import opened Pmap
  import opened PmapFork
  import opened PmapNeed
  import opened PmapForkRun

  /** No table, no pages. */
  lemma AbsentPages(mem: seq<Page>, root: nat, l: nat, p: nat)
    requires Lower(l, p) && TableAt(mem, root, l, p).None?
    ensures forall v: nat | v < LOWER_PAGES && Shift(v, l + 1) == p :: Translate(mem, root, v).None?
  {
    forall v: nat | v < LOWER_PAGES && Shift(v, l + 1) == p ensures Translate(mem, root, v).None? {
      ShiftUp(v, l);
      NothingBelow(mem, root, l, p, 0, v / ENTRIES);
    }
  }

  lemma ShiftValues(v: nat)
    ensures Shift(v, 1) == v / 512 && Shift(v, 2) == v / 0x4_0000 && Shift(v, 3) == v / 0x800_0000
  {
    assert Shift(v, 1) == v / 512;
    assert Shift(v, 2) == Shift(v, 1) / 512;
    assert Shift(v, 3) == Shift(v, 2) / 512;
  }

  /** Entry `i` of the table at (l, p) leads to position (l - 1, 512 p + i). */
  lemma EntryChild(mem: seq<Page>, root: nat, l: nat, p: nat, t: nat, i: nat)
    requires Tree(mem, root) && 0 < l && Lower(l, p) && TableAt(mem, root, l, p) == Some(t) && i < ENTRIES
    requires (l == 3 ==> i < 256)
    ensures Lower(l - 1, p * ENTRIES + i) && IsTable(mem, t)
    ensures TableAt(mem, root, l - 1, p * ENTRIES + i)
         == if Present(mem[t].entries[i]) then Some(mem[t].entries[i].frame) else None
  {
    var q := p * ENTRIES + i;
    assert q / ENTRIES == p && q % ENTRIES == i;
  }

  /** During a fork the parent's tables read as they did at its start. */
  lemma ParentTable(w0: World, parent: nat, w: World, child: nat, n: nat, l: nat, p: nat, t: nat)
    requires ParentOk(w0, parent) && Running(w0, parent, w, child, n) && Lower(l, p)
    requires TableAt(w0.mem, parent, l, p) == Some(t)
    ensures IsTable(w.mem, t) && IsTable(w0.mem, t) && w.mem[t] == w0.mem[t]
  {
    assert Owns(w0.mem, parent, t);
  }

  /** The first page below position `p` of level `l`. */
  function Start(l: nat, p: nat): nat
    requires l < 3
  {
    match l case 0 => p * 512 case 1 => p * 0x4_0000 case _ => p * 0x800_0000
  }

  lemma StartDown(l: nat, p: nat)
    requires 0 < l < 3
    ensures Start(l - 1, p * 512) == Start(l, p) && Start(l - 1, p * 512 + 512) == Start(l, p + 1)
  {
  }

  lemma StartShift(l: nat, p: nat, v: nat)
    requires l < 3 && Start(l, p) <= v < Start(l, p + 1)
    ensures Shift(v, l + 1) == p
  {
    ShiftValues(v);
  }

  lemma SkipTable(w0: World, parent: nat, w: World, child: nat, l: nat, p: nat)
    requires l < 3 && Running(w0, parent, w, child, Start(l, p)) && Lower(l, p) && TableAt(w0.mem, parent, l, p).None?
    ensures Running(w0, parent, w, child, Start(l, p + 1))
  {
    AbsentPages(w0.mem, parent, l, p);
    hide Running, Translate, TableAt;
    forall v: nat | Start(l, p) <= v < Start(l, p + 1) && v < LOWER_PAGES ensures Translate(w0.mem, parent, v).None? {
      StartShift(l, p, v);
    }
    RunningSkip(w0, parent, w, child, Start(l, p), Start(l, p + 1));
  }

  /** There is a page for which no frame is left once those before it have theirs. */
  ghost predicate Short(w0: World, parent: nat) {
    exists v: nat | v < LOWER_PAGES && Translate(w0.mem, parent, v).Some? :: |w0.free| < 2 + Cost(Done(w0, parent, v))
  }

  /** The loop over one page table. */
  method ForkPt(m: Memory, child: nat, pt: nat, q: nat, ghost w0: World, ghost parent: nat) returns (ok: bool)
    requires m.Valid() && ParentOk(w0, parent) && Running(w0, parent, WorldOf(m), child, Start(0, q))
    requires Lower(0, q) && TableAt(w0.mem, parent, 0, q) == Some(pt)
    modifies m`mem, m`free, m`refs, m.pmm, m.pmm.bitmap
    ensures m.Valid() && Apart(w0, WorldOf(m), child)
    ensures ok ==> Running(w0, parent, WorldOf(m), child, Start(0, q + 1))
    ensures !ok ==> Short(w0, parent) && m.free == {}
  {
    hide Memory.Valid, Apart, Going, Starved, ParentOk, Cost, Done, TableAt;
    for p1 := 0 to ENTRIES
      invariant m.Valid() && Running(w0, parent, WorldOf(m), child, q * 512 + p1)
    {
      var v := q * 512 + p1;
      ParentTable(w0, parent, WorldOf(m), child, v, 0, q, pt);
      var pte := m.mem[pt].entries[p1];
      assert v / ENTRIES == q && v % ENTRIES == p1;
      assert Translate(w0.mem, parent, v) == if Present(pte) then Some(pte) else None;
      hide Running, Translate;
      if !Present(pte) {
        RunningSkip(w0, parent, WorldOf(m), child, v, v + 1);
      } else {
        ok := ForkPage(m, child, v, pte, w0, parent);
        if !ok { return; }
      }
    }
    RunningApart(w0, parent, WorldOf(m), child, Start(0, q + 1));
    return true;
  }

  lemma RunningApart(w0: World, parent: nat, w: World, child: nat, n: nat)
    requires Running(w0, parent, w, child, n)
    ensures Apart(w0, w, child)
  {
  }

  /** The loop over one page directory. */
  method ForkPd(m: Memory, child: nat, pd: nat, q: nat, ghost w0: World, ghost parent: nat) returns (ok: bool)
    requires m.Valid() && ParentOk(w0, parent) && Running(w0, parent, WorldOf(m), child, Start(1, q))
    requires Lower(1, q) && TableAt(w0.mem, parent, 1, q) == Some(pd)
    modifies m`mem, m`free, m`refs, m.pmm, m.pmm.bitmap
    ensures m.Valid() && Apart(w0, WorldOf(m), child)
    ensures ok ==> Running(w0, parent, WorldOf(m), child, Start(1, q + 1))
    ensures !ok ==> Short(w0, parent) && m.free == {}
  {
    hide Memory.Valid, Apart, Running, ParentOk, Short, TableAt, Tree, Start;
    RootTable(w0, parent);
    StartDown(1, q);
    for p2 := 0 to ENTRIES
      invariant m.Valid() && Running(w0, parent, WorldOf(m), child, Start(0, q * 512 + p2))
    {
      ParentTable(w0, parent, WorldOf(m), child, Start(0, q * 512 + p2), 1, q, pd);
      EntryChild(w0.mem, parent, 1, q, pd, p2);
      var e2 := m.mem[pd].entries[p2];
      if !Present(e2) {
        SkipTable(w0, parent, WorldOf(m), child, 0, q * 512 + p2);
      } else {
        ok := ForkPt(m, child, e2.frame, q * 512 + p2, w0, parent);
        if !ok { return; }
      }
    }
    RunningApart(w0, parent, WorldOf(m), child, Start(1, q + 1));
    return true;
  }

  /** The loop over one page directory pointer table. */
  method ForkPdpt(m: Memory, child: nat, pdpt: nat, q: nat, ghost w0: World, ghost parent: nat) returns (ok: bool)
    requires m.Valid() && ParentOk(w0, parent) && Running(w0, parent, WorldOf(m), child, Start(2, q))
    requires Lower(2, q) && TableAt(w0.mem, parent, 2, q) == Some(pdpt)
    modifies m`mem, m`free, m`refs, m.pmm, m.pmm.bitmap
    ensures m.Valid() && Apart(w0, WorldOf(m), child)
    ensures ok ==> Running(w0, parent, WorldOf(m), child, Start(2, q + 1))
    ensures !ok ==> Short(w0, parent) && m.free == {}
  {
    hide Memory.Valid, Apart, Running, ParentOk, Short, TableAt, Tree, Start;
    RootTable(w0, parent);
    StartDown(2, q);
    for p3 := 0 to ENTRIES
      invariant m.Valid() && Running(w0, parent, WorldOf(m), child, Start(1, q * 512 + p3))
    {
      ParentTable(w0, parent, WorldOf(m), child, Start(1, q * 512 + p3), 2, q, pdpt);
      EntryChild(w0.mem, parent, 2, q, pdpt, p3);
      var e3 := m.mem[pdpt].entries[p3];
      if !Present(e3) {
        SkipTable(w0, parent, WorldOf(m), child, 1, q * 512 + p3);
      } else {
        ok := ForkPd(m, child, e3.frame, q * 512 + p3, w0, parent);
        if !ok { return; }
      }
    }
    RunningApart(w0, parent, WorldOf(m), child, Start(2, q + 1));
    return true;
  }

  /** Frames for the root, for every page and for every table those pages need. */
  ghost predicate Enough(w0: World, parent: nat) {
    |w0.free| >= 1 + Cost(PagesBelow(w0.mem, parent, LOWER_PAGES))
  }

  /**
   The last page of the parent is `last`, and there is a frame for everything before it and for
   the page itself, but not for all the tables that only this page needs.
   */
  ghost predicate Window(w0: World, parent: nat, last: nat) {
    && LastBelow(w0, parent, LOWER_PAGES, last)
    && 2 + Cost(PagesBelow(w0.mem, parent, last)) <= |w0.free| < 1 + Cost(PagesBelow(w0.mem, parent, LOWER_PAGES))
  }

  /**
   pmap_fork.  With enough frames the child maps exactly the parent's pages to private copies.
   With fewer the call returns a child exactly in the window above, and that child lacks the
   last page and only that one; otherwise it fails.  Without enough frames none is left, because
   nothing is given back.  The parent's memory is untouched either way.
   */
  method Fork(m: Memory, parent: nat, cr3: nat) returns (child: nat)
    requires m.Valid() && ParentOk(WorldOf(m), parent) && IsTable(m.mem, cr3) && cr3 !in m.free
    modifies m`mem, m`free, m`refs, m.pmm, m.pmm.bitmap
    ensures m.Valid() && m.free <= old(m.free) && |m.mem| == |old(m.mem)|
    ensures forall t: nat | t < |m.mem| && t !in old(m.free) :: m.mem[t] == old(m.mem)[t]
    ensures Enough(old(WorldOf(m)), parent) ==>
      child != 0 && Forked(old(WorldOf(m)), parent, WorldOf(m), child, LOWER_PAGES)
    ensures child != 0 ==> FirstEntries(old(WorldOf(m)), parent, WorldOf(m), child, LOWER_PAGES)
    ensures !Enough(old(WorldOf(m)), parent) ==>
      (child != 0 <==> exists last: nat :: Window(old(WorldOf(m)), parent, last)) && m.free == {}
    ensures child != 0 ==> forall last: nat | Window(old(WorldOf(m)), parent, last) ::
      CopiedBut(old(WorldOf(m)), parent, WorldOf(m), child, LOWER_PAGES, last)
  {
    hide Memory.Valid, Going, Starved, Tree, Owns, Translate, Done, Cost, Enough, Window, CopiedBut, Forked;
    hide FirstEntries;
    ghost var w0 := WorldOf(m);
    child := PmapCreate(m, cr3);
    if child == 0 {
      NoFrames(w0, parent);
      return;
    }
    StartFork(w0, parent, WorldOf(m), child);
    RootTable(w0, parent);
    for p4 := 0 to 256
      invariant m.Valid() && Running(w0, parent, WorldOf(m), child, Start(2, p4))
    {
      hide Running, ParentOk, TableAt, Short;
      ParentTable(w0, parent, WorldOf(m), child, Start(2, p4), 3, 0, parent);
      EntryChild(w0.mem, parent, 3, 0, parent, p4);
      var e4 := m.mem[parent].entries[p4];
      if !Present(e4) {
        SkipTable(w0, parent, WorldOf(m), child, 2, p4);
      } else {
        var ok := ForkPdpt(m, child, e4.frame, p4, w0, parent);
        if !ok {
          ShortFails(w0, parent);
          return 0;
        }
      }
    }
    FinishFork(w0, parent, WorldOf(m), child);
  }

  lemma RootTable(w: World, parent: nat)
    requires ParentOk(w, parent)
    ensures Lower(3, 0) && TableAt(w.mem, parent, 3, 0) == Some(parent) && Tree(w.mem, parent)
  {
  }

  lemma StartFork(w0: World, parent: nat, w: World, child: nat)
    requires child in w0.free && child < |w0.mem| && w.free == w0.free - {child} && w.refs == w0.refs
    requires |w.mem| == |w0.mem| && w.mem == w0.mem[child := w.mem[child]]
    requires IsTable(w.mem, child) && forall i :: 0 <= i < 256 ==> !Present(w.mem[child].entries[i])
    ensures Running(w0, parent, w, child, 0)
  {
    FreshSpace(w.mem, child);
    assert Done(w0, parent, 0) == {};
    assert Prefixes({}, 1) == Prefixes({}, 2) == Prefixes({}, 3) == {};
  }

  lemma NoFrames(w0: World, parent: nat)
    requires w0.free == {}
    ensures !Enough(w0, parent) && forall last: nat :: !Window(w0, parent, last)
  {
  }

  /** A fork that stops early had too few frames and was not in the window. */
  lemma ShortFails(w0: World, parent: nat)
    requires Short(w0, parent)
    ensures !Enough(w0, parent) && forall last: nat :: !Window(w0, parent, last)
  {
    hide Cost, Translate;
    var v: nat :| v < LOWER_PAGES && Translate(w0.mem, parent, v).Some? && |w0.free| < 2 + Cost(Done(w0, parent, v));
    DoneStep(w0, parent, v);
    DoneMonotone(w0, parent, v + 1, LOWER_PAGES);
    forall last: nat ensures !Window(w0, parent, last) {
      if Window(w0, parent, last) {
        DoneMonotone(w0, parent, v, last);
      }
    }
  }

  /** The parent has one last page. */
  lemma OneLast(w0: World, parent: nat, last: nat, last': nat)
    requires LastBelow(w0, parent, LOWER_PAGES, last) && LastBelow(w0, parent, LOWER_PAGES, last')
    ensures last == last'
  {
  }

  lemma FinishFork(w0: World, parent: nat, w: World, child: nat)
    requires Running(w0, parent, w, child, LOWER_PAGES)
    ensures Apart(w0, w, child) && FirstEntries(w0, parent, w, child, LOWER_PAGES)
    ensures Enough(w0, parent) ==> Forked(w0, parent, w, child, LOWER_PAGES)
    ensures Enough(w0, parent) || exists last: nat :: Window(w0, parent, last)
    ensures forall last: nat | Window(w0, parent, last) ::
      CopiedBut(w0, parent, w, child, LOWER_PAGES, last) && w.free == {}
  {
    hide Apart, Forked, Lean, Cost, CopiedBut, PagesBelow, Translate, FirstEntries;
    RunningApart(w0, parent, w, child, LOWER_PAGES);
    if !Enough(w0, parent) {
      var gone: nat :| Lost(w0, parent, w, child, LOWER_PAGES, gone);
      assert Window(w0, parent, gone);
      forall last: nat | Window(w0, parent, last) ensures last == gone {
        OneLast(w0, parent, last, gone);
      }
    }
  }
}
