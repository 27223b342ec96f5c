/** pmap_destroy: every table and every solely owned page frame of a space is freed exactly once. */
module PmapDestroy {
  import opened Options
  import opened Bytes
  import opened Pmm
  import opened PageTables
  import opened Pmap
  import opened PmapFork
  import opened PmapForkRun
  import opened PmapForkLoops

  /** Frame `f` is mapped by a page below `n`. */
  ghost predicate LeafBelow(mem: seq<Page>, root: nat, f: nat, n: nat) {
    exists v: nat | v < n && v < LOWER_PAGES ::
      Translate(mem, root, v).Some? && Translate(mem, root, v).value.frame == f
  }

  /** Frame `f` is one of the first `a[l]` tables of some level `l` below the root. */
  ghost predicate TableBelow(mem: seq<Page>, root: nat, f: nat, a: seq<nat>)
    requires |a| == 3
  {
    exists l: nat, p: nat | l < 3 && Lower(l, p) :: p < a[l] && TableAt(mem, root, l, p) == Some(f)
  }

  /** What pmap_destroy relies on: tables are not counted, pages sit in frames of their own that are no tables. */
  ghost predicate Whole(w: World, root: nat, total: nat) {
    && Tree(w.mem, root) && |w.refs| <= total
    && (forall t: nat | Owns(w.mem, root, t) ::
          t != 0 && t !in w.free && t < total && t < |w.refs| && w.refs[t] == 0 && !IsLeaf(w.mem, root, t))
    && (forall f: nat | IsLeaf(w.mem, root, f) :: f != 0 && f !in w.free)
    && (forall v: nat, u: nat | v < LOWER_PAGES && u < LOWER_PAGES :: !SharedFrame(w.mem, root, v, u))
  }

  /** The leaf frames that go back to the allocator: nobody else counts on them. */
  ghost predicate Sole(w: World, f: nat) {
    f < |w.refs| && w.refs[f] <= 1
  }

  function Dropped(n: nat): nat {
    if n > 0 then n - 1 else 0
  }

  /** Progress: pages below `n` are released and the first `a[l]` tables of each level are freed. */
  ghost predicate Torn(w0: World, root: nat, w: World, n: nat, a: seq<nat>)
    requires |a| == 3
  {
    && w.mem == w0.mem && |w.refs| == |w0.refs|
    && (forall f: nat :: f in w.free <==>
          f in w0.free || TableBelow(w0.mem, root, f, a) || (LeafBelow(w0.mem, root, f, n) && Sole(w0, f)))
    && (forall f: nat | f < |w0.refs| ::
          w.refs[f] == if LeafBelow(w0.mem, root, f, n) then Dropped(w0.refs[f]) else w0.refs[f])
  }

  // ---- progress -----------------------------------------------------------------

  lemma LeafBelowStep(mem: seq<Page>, root: nat, v: nat, f: nat)
    requires v < LOWER_PAGES
    ensures LeafBelow(mem, root, f, v + 1) <==>
      LeafBelow(mem, root, f, v) || (Translate(mem, root, v).Some? && Translate(mem, root, v).value.frame == f)
  {
    if LeafBelow(mem, root, f, v + 1) && !LeafBelow(mem, root, f, v) {
      var u: nat :| u < v + 1 && u < LOWER_PAGES && Translate(mem, root, u).Some? &&
        Translate(mem, root, u).value.frame == f;
      assert u == v;
    }
  }

  lemma LeafBelowSkip(mem: seq<Page>, root: nat, n: nat, n': nat, f: nat)
    requires n <= n' && forall v: nat | n <= v < n' && v < LOWER_PAGES :: Translate(mem, root, v).None?
    ensures LeafBelow(mem, root, f, n') <==> LeafBelow(mem, root, f, n)
  {
  }

  lemma TableBelowStep(mem: seq<Page>, root: nat, l: nat, a: seq<nat>, f: nat)
    requires |a| == 3 && l < 3 && Lower(l, a[l])
    ensures TableBelow(mem, root, f, a[l := a[l] + 1]) <==>
      TableBelow(mem, root, f, a) || TableAt(mem, root, l, a[l]) == Some(f)
  {
    var b := a[l := a[l] + 1];
    if TableBelow(mem, root, f, b) && !TableBelow(mem, root, f, a) {
      var k: nat, p: nat :| k < 3 && Lower(k, p) && p < b[k] && TableAt(mem, root, k, p) == Some(f);
      assert k == l && p == a[l];
    }
    if TableBelow(mem, root, f, a) {
      var k: nat, p: nat :| k < 3 && Lower(k, p) && p < a[k] && TableAt(mem, root, k, p) == Some(f);
      assert p < b[k];
    }
    if TableAt(mem, root, l, a[l]) == Some(f) { assert a[l] < b[l]; }
  }

  /** Positions that hold no table can be passed over. */
  lemma TableBelowSkip(mem: seq<Page>, root: nat, a: seq<nat>, b: seq<nat>, f: nat)
    requires |a| == |b| == 3 && forall l :: 0 <= l < 3 ==> a[l] <= b[l]
    requires forall l: nat, p: nat | l < 3 && Lower(l, p) && a[l] <= p < b[l] :: TableAt(mem, root, l, p).None?
    ensures TableBelow(mem, root, f, b) <==> TableBelow(mem, root, f, a)
  {
    if TableBelow(mem, root, f, b) {
      var k: nat, p: nat :| k < 3 && Lower(k, p) && p < b[k] && TableAt(mem, root, k, p) == Some(f);
      assert p < a[k];
    }
    if TableBelow(mem, root, f, a) {
      var k: nat, p: nat :| k < 3 && Lower(k, p) && p < a[k] && TableAt(mem, root, k, p) == Some(f);
      assert p < b[k];
    }
  }

  lemma TornSkip(w0: World, root: nat, w: World, n: nat, n': nat, a: seq<nat>, b: seq<nat>)
    requires |a| == |b| == 3 && Torn(w0, root, w, n, a) && n <= n' && forall l :: 0 <= l < 3 ==> a[l] <= b[l]
    requires forall v: nat | n <= v < n' && v < LOWER_PAGES :: Translate(w0.mem, root, v).None?
    requires forall l: nat, p: nat | l < 3 && Lower(l, p) && a[l] <= p < b[l] :: TableAt(w0.mem, root, l, p).None?
    ensures Torn(w0, root, w, n', b)
  {
    forall f: nat ensures (TableBelow(w0.mem, root, f, b) <==> TableBelow(w0.mem, root, f, a))
                       && (LeafBelow(w0.mem, root, f, n') <==> LeafBelow(w0.mem, root, f, n))
    {
      TableBelowSkip(w0.mem, root, a, b, f);
      LeafBelowSkip(w0.mem, root, n, n', f);
    }
  }

  /** Releasing one page: its count drops, and with the last count the frame is free. */
  lemma TornPage(w0: World, root: nat, w: World, w': World, v: nat, a: seq<nat>, total: nat)
    requires |a| == 3 && Whole(w0, root, total) && Torn(w0, root, w, v, a) && v < LOWER_PAGES
    requires Translate(w0.mem, root, v).Some?
    requires var f := Translate(w0.mem, root, v).value.frame;
      && w'.mem == w.mem && |w'.refs| == |w.refs|
      && (forall g: nat | g < |w.refs| :: w'.refs[g] == if g == f then Dropped(w.refs[g]) else w.refs[g])
      && w'.free == (if f < |w.refs| && w.refs[f] <= 1 then w.free + {f} else w.free)
    ensures Torn(w0, root, w', v + 1, a)
  {
    var f := Translate(w0.mem, root, v).value.frame;
    NotYet(w0, root, v);
    forall g: nat ensures LeafBelow(w0.mem, root, g, v + 1) <==> LeafBelow(w0.mem, root, g, v) || g == f {
      LeafBelowStep(w0.mem, root, v, g);
    }
    hide LeafBelow, TableBelow, Whole, Translate;
  }

  /** A page's frame is not the frame of an earlier page. */
  lemma NotYet(w: World, root: nat, v: nat)
    requires v < LOWER_PAGES && Translate(w.mem, root, v).Some?
    requires forall a: nat, b: nat | a < LOWER_PAGES && b < LOWER_PAGES :: !SharedFrame(w.mem, root, a, b)
    ensures !LeafBelow(w.mem, root, Translate(w.mem, root, v).value.frame, v)
  {
    var f := Translate(w.mem, root, v).value.frame;
    if LeafBelow(w.mem, root, f, v) {
      var u: nat :| u < v && u < LOWER_PAGES && Translate(w.mem, root, u).Some? &&
        Translate(w.mem, root, u).value.frame == f;
      assert SharedFrame(w.mem, root, u, v);
      assert false;
    }
  }

  lemma TornTable(w0: World, root: nat, w: World, w': World, n: nat, a: seq<nat>, l: nat, t: nat)
    requires |a| == 3 && l < 3 && Lower(l, a[l]) && Torn(w0, root, w, n, a) && TableAt(w0.mem, root, l, a[l]) == Some(t)
    requires w'.mem == w.mem && w'.refs == w.refs && w'.free == w.free + {t}
    ensures Torn(w0, root, w', n, a[l := a[l] + 1])
  {
    forall f: nat ensures TableBelow(w0.mem, root, f, a[l := a[l] + 1]) <==> TableBelow(w0.mem, root, f, a) || f == t {
      TableBelowStep(w0.mem, root, l, a, f);
    }
    hide LeafBelow, TableBelow, TableAt;
  }

  /** A table whose turn has not come is not free yet, so it can be read and then freed once. */
  lemma StillThere(w0: World, root: nat, w: World, n: nat, a: seq<nat>, l: nat, p: nat, t: nat, total: nat)
    requires |a| == 3 && Whole(w0, root, total) && Torn(w0, root, w, n, a) && Lower(l, p)
    requires TableAt(w0.mem, root, l, p) == Some(t)
    requires l < 3 ==> a[l] <= p
    ensures t != 0 && t !in w.free && t < total && t < |w.refs| && w.refs[t] == 0 && IsTable(w.mem, t)
  {
    assert Owns(w0.mem, root, t);
    if TableBelow(w0.mem, root, t, a) {
      var k: nat, q: nat :| k < 3 && Lower(k, q) && q < a[k] && TableAt(w0.mem, root, k, q) == Some(t);
      assert SamePlace(w0.mem, root, l, p, k, q);
      assert false;
    }
  }

  lemma PageStillThere(w0: World, root: nat, w: World, v: nat, a: seq<nat>, total: nat)
    requires |a| == 3 && Whole(w0, root, total) && Torn(w0, root, w, v, a) && v < LOWER_PAGES
    requires Translate(w0.mem, root, v).Some?
    ensures Translate(w0.mem, root, v).value.frame != 0 && Translate(w0.mem, root, v).value.frame !in w.free
  {
    var f := Translate(w0.mem, root, v).value.frame;
    assert IsLeaf(w0.mem, root, f);
    NotYet(w0, root, v);
  }

  // ---- the loops -------------------------------------------------------------------

  /** Tables are only ever read while they are allocated. */
  method ReadEntry(m: Memory, t: nat, i: nat) returns (e: Pte)
    requires IsTable(m.mem, t) && i < ENTRIES && t !in m.free
    ensures e == m.mem[t].entries[i]
  {
    e := m.mem[t].entries[i];
  }

  /** pmm_free of one frame that is allocated and not counted: it never meets the double-free check. */
  method FreeFrame(m: Memory, f: nat)
    requires m.Valid() && f != 0 && f < m.pmm.total && f !in m.free && f < |m.refs| && m.refs[f] == 0
    modifies m`free, m.pmm, m.pmm.bitmap
    ensures m.Valid() && m.free == old(m.free) + {f}
  {
    var done := m.pmm.Free(f, 1);
    assert Range(f, 1) == {f};
    m.free := m.pmm.free;
  }

  method FrameRefDec(m: Memory, f: nat) returns (last: bool)
    requires m.Valid() && f !in m.free
    modifies m`refs
    ensures m.Valid() && |m.refs| == |old(m.refs)|
    ensures forall g: nat | g < |m.refs| :: m.refs[g] == if g == f then Dropped(old(m.refs)[g]) else old(m.refs)[g]
    ensures last == (f < |m.refs| && old(m.refs)[f] <= 1)
  {
    if f >= |m.refs| { return false; }
    if m.refs[f] > 0 { m.refs := m.refs[f := m.refs[f] - 1]; }
    last := m.refs[f] == 0;
  }

  ghost predicate Tearing(m: Memory, w0: World, root: nat, n: nat, a: seq<nat>)
    reads m, m.pmm, m.pmm.bitmap
    requires |a| == 3
  {
    m.Valid() && Torn(w0, root, WorldOf(m), n, a)
  }

  method DestroyPage(m: Memory, v: nat, pte: Pte, ghost w0: World, ghost root: nat, ghost a: seq<nat>)
    requires |a| == 3 && Tearing(m, w0, root, v, a) && Whole(w0, root, m.pmm.total)
    requires v < LOWER_PAGES && Translate(w0.mem, root, v) == Some(pte)
    modifies m`free, m`refs, m.pmm, m.pmm.bitmap
    ensures Tearing(m, w0, root, v + 1, a)
  {
    ghost var w := WorldOf(m);
    assert |w.refs| <= m.pmm.total;
    PageStillThere(w0, root, w, v, a, m.pmm.total);
    hide Memory.Counted, Torn, Whole, Translate;
    var last := FrameRefDec(m, pte.frame);
    if last { FreeFrame(m, pte.frame); }
    TornPage(w0, root, w, WorldOf(m), v, a, m.pmm.total);
  }

  lemma TornMemory(w0: World, root: nat, w: World, n: nat, a: seq<nat>)
    requires |a| == 3 && Torn(w0, root, w, n, a)
    ensures w.mem == w0.mem
  {
  }

  lemma WholeTree(w: World, root: nat, total: nat)
    requires Whole(w, root, total)
    ensures Tree(w.mem, root) && Lower(3, 0) && TableAt(w.mem, root, 3, 0) == Some(root)
  {
  }

  /** Free the table whose entries have all been dealt with. */
  method DestroyTable(m: Memory, t: nat, ghost l: nat, ghost n: nat, ghost w0: World, ghost root: nat,
                      ghost a: seq<nat>)
    requires |a| == 3 && Tearing(m, w0, root, n, a) && Whole(w0, root, m.pmm.total)
    requires l < 3 && Lower(l, a[l]) && TableAt(w0.mem, root, l, a[l]) == Some(t)
    modifies m`free, m.pmm, m.pmm.bitmap
    ensures Tearing(m, w0, root, n, a[l := a[l] + 1])
  {
    ghost var w := WorldOf(m);
    StillThere(w0, root, w, n, a, l, a[l], t, m.pmm.total);
    hide Memory.Counted, Torn, Whole, TableAt;
    FreeFrame(m, t);
    TornTable(w0, root, w, WorldOf(m), n, a, l, t);
  }

  /** A position without a table: nothing below it either. */
  lemma SkipTorn(w0: World, root: nat, w: World, l: nat, p: nat, a: seq<nat>, b: seq<nat>)
    requires l < 3 && |a| == |b| == 3 && Torn(w0, root, w, Start(l, p), a) && Lower(l, p)
    requires TableAt(w0.mem, root, l, p).None?
    requires forall k :: 0 <= k < 3 ==> a[k] <= b[k]
    requires forall k: nat, q: nat | k < 3 && Lower(k, q) && a[k] <= q < b[k] :: Below(l, p, k, q)
    ensures Torn(w0, root, w, Start(l, p + 1), b)
  {
    AbsentPages(w0.mem, root, l, p);
    hide Torn, Translate;
    forall v: nat | Start(l, p) <= v < Start(l, p + 1) && v < LOWER_PAGES ensures Translate(w0.mem, root, v).None? {
      StartShift(l, p, v);
    }
    forall k: nat, q: nat | k < 3 && Lower(k, q) && a[k] <= q < b[k] ensures TableAt(w0.mem, root, k, q).None? {
      NothingBelow(w0.mem, root, l, p, k, q);
    }
    TornSkip(w0, root, w, Start(l, p), Start(l, p + 1), a, b);
  }

  method DestroyPt(m: Memory, pt: nat, q: nat, ghost w0: World, ghost root: nat, ghost a: seq<nat>)
    requires |a| == 3 && a[0] == q && Tearing(m, w0, root, Start(0, q), a) && Whole(w0, root, m.pmm.total)
    requires Lower(0, q) && TableAt(w0.mem, root, 0, q) == Some(pt)
    modifies m`free, m`refs, m.pmm, m.pmm.bitmap
    ensures Tearing(m, w0, root, Start(0, q + 1), a[0 := q + 1])
  {
    hide Memory.Valid, Torn, Whole, TableAt;
    for p1 := 0 to ENTRIES
      invariant Tearing(m, w0, root, q * 512 + p1, a)
    {
      var v := q * 512 + p1;
      StillThere(w0, root, WorldOf(m), v, a, 0, q, pt, m.pmm.total);
      TornMemory(w0, root, WorldOf(m), v, a);
      var pte := ReadEntry(m, pt, p1);
      assert v / ENTRIES == q && v % ENTRIES == p1;
      assert Translate(w0.mem, root, v) == if Present(pte) then Some(pte) else None;
      hide Translate;
      if !Present(pte) {
        TornSkip(w0, root, WorldOf(m), v, v + 1, a, a);
      } else {
        DestroyPage(m, v, pte, w0, root, a);
      }
    }
    DestroyTable(m, pt, 0, Start(0, q + 1), w0, root, a);
  }

  method DestroyPd(m: Memory, pd: nat, q: nat, ghost w0: World, ghost root: nat, ghost z: nat)
    requires Tearing(m, w0, root, Start(1, q), [q * 512, q, z]) && Whole(w0, root, m.pmm.total)
    requires Lower(1, q) && TableAt(w0.mem, root, 1, q) == Some(pd)
    modifies m`free, m`refs, m.pmm, m.pmm.bitmap
    ensures Tearing(m, w0, root, Start(1, q + 1), [(q + 1) * 512, q + 1, z])
  {
    hide Memory.Valid, Torn, Whole, TableAt, Tree, Start;
    WholeTree(w0, root, m.pmm.total);
    StartDown(1, q);
    for p2 := 0 to ENTRIES
      invariant Tearing(m, w0, root, Start(0, q * 512 + p2), [q * 512 + p2, q, z])
    {
      ghost var c := q * 512 + p2;
      StillThere(w0, root, WorldOf(m), Start(0, c), [c, q, z], 1, q, pd, m.pmm.total);
      TornMemory(w0, root, WorldOf(m), Start(0, c), [c, q, z]);
      EntryChild(w0.mem, root, 1, q, pd, p2);
      var e2 := ReadEntry(m, pd, p2);
      if !Present(e2) {
        SkipTorn(w0, root, WorldOf(m), 0, c, [c, q, z], [c + 1, q, z]);
      } else {
        DestroyPt(m, e2.frame, q * 512 + p2, w0, root, [c, q, z]);
        assert [c, q, z][0 := c + 1] == [c + 1, q, z];
      }
    }
    DestroyTable(m, pd, 1, Start(1, q + 1), w0, root, [q * 512 + 512, q, z]);
    assert [q * 512 + 512, q, z][1 := q + 1] == [(q + 1) * 512, q + 1, z];
  }

  method DestroyPdpt(m: Memory, pdpt: nat, q: nat, ghost w0: World, ghost root: nat)
    requires Tearing(m, w0, root, Start(2, q), [q * 0x4_0000, q * 512, q]) && Whole(w0, root, m.pmm.total)
    requires Lower(2, q) && TableAt(w0.mem, root, 2, q) == Some(pdpt)
    modifies m`free, m`refs, m.pmm, m.pmm.bitmap
    ensures Tearing(m, w0, root, Start(2, q + 1), [(q + 1) * 0x4_0000, (q + 1) * 512, q + 1])
  {
    hide Memory.Valid, Torn, Whole, TableAt, Tree, Start;
    WholeTree(w0, root, m.pmm.total);
    StartDown(2, q);
    for p3 := 0 to ENTRIES
      invariant Tearing(m, w0, root, Start(1, q * 512 + p3), [(q * 512 + p3) * 512, q * 512 + p3, q])
    {
      ghost var c := q * 512 + p3;
      StillThere(w0, root, WorldOf(m), Start(1, c), [c * 512, c, q], 2, q, pdpt, m.pmm.total);
      TornMemory(w0, root, WorldOf(m), Start(1, c), [c * 512, c, q]);
      EntryChild(w0.mem, root, 2, q, pdpt, p3);
      var e3 := ReadEntry(m, pdpt, p3);
      if !Present(e3) {
        BelowDirectory(c);
        SkipTorn(w0, root, WorldOf(m), 1, c, [c * 512, c, q], [(c + 1) * 512, c + 1, q]);
      } else {
        DestroyPd(m, e3.frame, q * 512 + p3, w0, root, q);
      }
    }
    DestroyTable(m, pdpt, 2, Start(2, q + 1), w0, root, [(q * 512 + 512) * 512, q * 512 + 512, q]);
    assert [(q * 512 + 512) * 512, q * 512 + 512, q][2 := q + 1] == [(q + 1) * 0x4_0000, (q + 1) * 512, q + 1];
  }

  lemma BelowDirectory(c: nat)
    ensures forall q: nat | c * 512 <= q < (c + 1) * 512 :: Below(1, c, 0, q)
    ensures Below(1, c, 1, c)
  {
    forall q: nat | c * 512 <= q < (c + 1) * 512 ensures Below(1, c, 0, q) { ShiftValues(q); }
  }

  lemma BelowPointers(c: nat)
    ensures forall q: nat | c * 0x4_0000 <= q < (c + 1) * 0x4_0000 :: Below(2, c, 0, q)
    ensures forall q: nat | c * 512 <= q < (c + 1) * 512 :: Below(2, c, 1, q)
    ensures Below(2, c, 2, c)
  {
    forall q: nat | c * 0x4_0000 <= q < (c + 1) * 0x4_0000 ensures Below(2, c, 0, q) { ShiftValues(q); }
    forall q: nat | c * 512 <= q < (c + 1) * 512 ensures Below(2, c, 1, q) { ShiftValues(q); }
  }

  /**
   pmap_destroy.  Every lower-half table, the root, and every page frame that nobody
   else counts go back to the allocator, each exactly once; other pages only lose one
   count; no memory is written and no freed table is read.
   */
  method Destroy(m: Memory, root: nat)
    requires m.Valid() && Whole(WorldOf(m), root, m.pmm.total)
    modifies m`free, m`refs, m.pmm, m.pmm.bitmap
    ensures m.Valid() && |m.refs| == |old(m.refs)|
    ensures forall f: nat :: f in m.free <==>
      f in old(m.free) || Owns(m.mem, root, f) || (IsLeaf(m.mem, root, f) && Sole(old(WorldOf(m)), f))
    ensures forall f: nat | f < |m.refs| ::
      m.refs[f] == if IsLeaf(m.mem, root, f) then Dropped(old(m.refs)[f]) else old(m.refs)[f]
  {
    ghost var w0 := WorldOf(m);
    StartTorn(w0, root);
    hide Memory.Valid, Torn, Whole, TableAt, Tree, Owns, IsLeaf, Sole;
    WholeTree(w0, root, m.pmm.total);
    for p4 := 0 to 256
      invariant Tearing(m, w0, root, Start(2, p4), [p4 * 0x4_0000, p4 * 512, p4])
    {
      StillThere(w0, root, WorldOf(m), Start(2, p4), [p4 * 0x4_0000, p4 * 512, p4], 3, 0, root, m.pmm.total);
      TornMemory(w0, root, WorldOf(m), Start(2, p4), [p4 * 0x4_0000, p4 * 512, p4]);
      EntryChild(w0.mem, root, 3, 0, root, p4);
      var e4 := ReadEntry(m, root, p4);
      if !Present(e4) {
        BelowPointers(p4);
        SkipTorn(w0, root, WorldOf(m), 2, p4, [p4 * 0x4_0000, p4 * 512, p4],
          [(p4 + 1) * 0x4_0000, (p4 + 1) * 512, p4 + 1]);
      } else {
        DestroyPdpt(m, e4.frame, p4, w0, root);
      }
    }
    ghost var w := WorldOf(m);
    StillThere(w0, root, w, LOWER_PAGES, [256 * 0x4_0000, 256 * 512, 256], 3, 0, root, m.pmm.total);
    TornMemory(w0, root, w, LOWER_PAGES, [256 * 0x4_0000, 256 * 512, 256]);
    FreeFrame(m, root);
    EndTorn(w0, root, w);
  }

  lemma StartTorn(w: World, root: nat)
    ensures Torn(w, root, w, 0, [0, 0, 0])
  {
  }

  lemma EndTorn(w0: World, root: nat, w: World)
    requires Torn(w0, root, w, LOWER_PAGES, [256 * 0x4_0000, 256 * 512, 256])
    ensures |w.refs| == |w0.refs|
    ensures forall f: nat :: f in w.free || f == root <==>
      f in w0.free || Owns(w0.mem, root, f) || (IsLeaf(w0.mem, root, f) && Sole(w0, f))
    ensures forall f: nat | f < |w0.refs| ::
      w.refs[f] == if IsLeaf(w0.mem, root, f) then Dropped(w0.refs[f]) else w0.refs[f]
  {
    forall f: nat
      ensures LeafBelow(w0.mem, root, f, LOWER_PAGES) <==> IsLeaf(w0.mem, root, f)
      ensures TableBelow(w0.mem, root, f, [256 * 0x4_0000, 256 * 512, 256]) || f == root <==> Owns(w0.mem, root, f)
    {
      AllTables(w0.mem, root, f);
    }
  }

  lemma AllTables(mem: seq<Page>, root: nat, f: nat)
    ensures TableBelow(mem, root, f, [256 * 0x4_0000, 256 * 512, 256]) || f == root <==> Owns(mem, root, f)
  {
    assert Lower(3, 0) && TableAt(mem, root, 3, 0) == Some(root);
    var a := [256 * 0x4_0000, 256 * 512, 256];
    if Owns(mem, root, f) {
      var l: nat, p: nat :| Lower(l, p) && TableAt(mem, root, l, p) == Some(f);
      if l < 3 { assert p < a[l]; }
    }
    if TableBelow(mem, root, f, a) {
      var l: nat, p: nat :| l < 3 && Lower(l, p) && p < a[l] && TableAt(mem, root, l, p) == Some(f);
    }
  }
}
