/** The smallest fork that loses a page: a parent with one page and two free frames. */
module PmapWindow {
  import opened Options
  import opened Bytes
  import opened Pmm
  import opened PageTables
  import opened Pmap
  import opened PmapFork
  import opened PmapNeed
  import opened PmapForkRun
  import opened PmapForkLoops

  /** One page takes four frames: its own and one for each table below the root. */
  lemma OnePageCost(v: nat)
    ensures Cost({v}) == 4 && Cost({}) == 0
  {
    forall l: nat ensures |Prefixes({v}, l)| == 1 && |Prefixes({}, l)| == 0 {
      assert Prefixes({v}, l) == {Shift(v, l)};
      assert Prefixes({}, l) == {};
    }
  }

  /** A parent with a single page loses it in a fork exactly when two, three or four frames are free. */
  lemma SinglePage(w0: World, parent: nat, v: nat)
    requires v < LOWER_PAGES && PagesBelow(w0.mem, parent, LOWER_PAGES) == {v}
    ensures Window(w0, parent, v) <==> 2 <= |w0.free| <= 4
  {
    OnePageCost(v);
    assert v in PagesBelow(w0.mem, parent, LOWER_PAGES);
    forall u: nat | u < LOWER_PAGES && u != v ensures Translate(w0.mem, parent, u).None? {
      assert u !in PagesBelow(w0.mem, parent, LOWER_PAGES);
    }
    assert PagesBelow(w0.mem, parent, v) == {};
  }

  // ---- one such parent -------------------------------------------------------

  /** A table whose only entry is the first one. */
  function OneEntry(f: nat): (r: Page)
    ensures r.Table? && |r.entries| == ENTRIES && Present(r.entries[0]) && r.entries[0].frame == f
    ensures forall i :: 0 < i < ENTRIES ==> !Present(r.entries[i])
  {
    Table([Pte(f, PRESENT)] + seq(ENTRIES - 1, _ => Pte(0, 0)))
  }

  /** Tables in frames 1 to 4, the root in 1, the page in 5, and two frames to spare. */
  function Small(): World {
    World([ZeroData(), OneEntry(2), OneEntry(3), OneEntry(4), OneEntry(5), ZeroData(), ZeroData(), ZeroData()], {6, 7},
          [0, 0, 0, 0, 0, 1, 0, 0])
  }

  lemma {:induction false} SmallTables(l: nat, p: nat)
    requires Lower(l, p)
    ensures TableAt(Small().mem, 1, l, p) == if p == 0 then Some(4 - l) else None
    decreases 3 - l
  {
    hide OneEntry, ZeroData;
    if l < 3 {
      LowerUp(l, p);
      SmallTables(l + 1, p / ENTRIES);
    }
  }

  lemma SmallPages(v: nat)
    requires v < LOWER_PAGES
    ensures Translate(Small().mem, 1, v).Some? <==> v == 0
    ensures v == 0 ==> Translate(Small().mem, 1, v).value.frame == 5
  {
    hide OneEntry, ZeroData, TableAt;
    SmallTables(0, v / ENTRIES);
  }

  /** A parent and a memory on which the fork returns a child without the parent's only page. */
  lemma LosesItsOnlyPage()
    ensures ParentOk(Small(), 1) && Window(Small(), 1, 0) && !Enough(Small(), 1)
  {
    var w := Small();
    forall l: nat, p: nat | Lower(l, p) ensures TableAt(w.mem, 1, l, p) == if p == 0 then Some(4 - l) else None {
      SmallTables(l, p);
    }
    forall v: nat | v < LOWER_PAGES
      ensures Translate(w.mem, 1, v).Some? <==> v == 0
      ensures v == 0 ==> Translate(w.mem, 1, v).value.frame == 5
    {
      SmallPages(v);
    }
    hide Translate, OneEntry, ZeroData;
    assert PagesBelow(w.mem, 1, LOWER_PAGES) == {0};
    SinglePage(w, 1, 0);
  }

  /** The fork on that memory, with an allocator that has two free frames: the child has none of the parent's pages. */
  method ForkSmall() returns (m: Memory, child: nat)
    ensures m.Valid() && child != 0 && m.free == {}
    ensures Translate(m.mem, 1, 0).Some? && forall v: nat | v < LOWER_PAGES :: Translate(m.mem, child, v).None?
  {
    hide Tree, Owns, Translate, Cost, Window, Enough, OneEntry, ZeroData, Allocator.Used;
    LosesItsOnlyPage();
    SmallAlone();
    var regions := [Region(0, 1), Region(6, 2)];
    var pmm := new Allocator(8, regions, Region(0, 1));
    m := new Memory(pmm, Small().mem, Small().refs);
    assert Within(regions[0], 0) && Within(regions[1], 6) && Within(regions[1], 7);
    assert m.free == {6, 7};
    assert WorldOf(m) == Small();
    child := Fork(m, 1, 1);
    assert CopiedBut(Small(), 1, WorldOf(m), child, LOWER_PAGES, 0);
    ParentStays(m.mem);
    forall v: nat | v < LOWER_PAGES ensures Translate(m.mem, child, v).None? {
      SmallPages(v);
      if v != 0 { assert CopyOf(Small(), 1, WorldOf(m), child, v); }
    }
  }

  lemma SmallAlone()
    ensures IsTable(Small().mem, 1)
  {
  }

  lemma ParentStays(mem: seq<Page>)
    requires |mem| == 8 && forall t: nat | t < 8 && t !in {6, 7} :: mem[t] == Small().mem[t]
    ensures Translate(mem, 1, 0).Some?
  {
    LosesItsOnlyPage();
    forall t: nat | t < 8 && Owns(Small().mem, 1, t) ensures mem[t] == Small().mem[t] { }
    SameOnTables(Small().mem, mem, 1);
    SmallPages(0);
  }
}
