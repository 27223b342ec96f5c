/** pmap_create and the four nested loops of pmap_fork. */
module PmapForkRun {
  import opened Options
  import opened Bytes
  import opened Pmm
  import opened PageTables
  import opened Pmap
  import opened PmapFork
  import opened PmapNeed

  // ---- pmap_create -----------------------------------------------------------

  /** An empty lower half under the upper half of another root table. */
  function FreshRoot(from: seq<Pte>): (r: seq<Pte>)
    requires |from| == ENTRIES
    ensures |r| == ENTRIES && (forall i :: 0 <= i < 256 ==> !Present(r[i]))
    ensures (forall i :: 256 <= i < ENTRIES ==> r[i] == from[i])
  {
    seq(256, _ => Pte(0, 0)) + from[256..]
  }

  method PmapCreate(m: Memory, cr3: nat) returns (root: nat)
    requires m.Valid() && IsTable(m.mem, cr3) && cr3 !in m.free
    modifies m`mem, m`free, m.pmm, m.pmm.bitmap
    ensures m.Valid() && (root == 0 <==> old(m.free) == {})
    ensures m.free == old(m.free) - {root}
    ensures root == 0 ==> m.mem == old(m.mem)
    ensures root != 0 ==> root in old(m.free) && m.mem == old(m.mem)[root := Table(FreshRoot(old(m.mem)[cr3].entries))]
  {
    root := m.TableAlloc();
    if root == 0 { return; }
    var pml4 := m.mem[root].entries;
    var i := ENTRIES / 2;
    while i < ENTRIES
      invariant ENTRIES / 2 <= i <= ENTRIES && |pml4| == ENTRIES
      invariant m.Valid() && m.free == old(m.free) - {root} && m.mem == old(m.mem)[root := ZeroTable()]
      invariant forall k :: 0 <= k < ENTRIES ==>
        pml4[k] == if ENTRIES / 2 <= k < i then old(m.mem)[cr3].entries[k] else Pte(0, 0)
    {
      pml4 := pml4[i := m.mem[cr3].entries[i]];
      i := i + 1;
    }
    assert pml4 == FreshRoot(old(m.mem)[cr3].entries);
    m.mem := m.mem[root := Table(pml4)];
  }

  lemma {:induction false} FreshHasOnlyRoot(mem: seq<Page>, root: nat, l: nat, p: nat)
    requires IsTable(mem, root) && (forall i :: 0 <= i < 256 ==> !Present(mem[root].entries[i])) && Lower(l, p)
    ensures TableAt(mem, root, l, p) == if l == 3 then Some(root) else None
    decreases 3 - l
  {
    if l < 3 {
      LowerUp(l, p);
      FreshHasOnlyRoot(mem, root, l + 1, p / ENTRIES);
    }
  }

  lemma FreshSpace(mem: seq<Page>, root: nat)
    requires IsTable(mem, root) && (forall i :: 0 <= i < 256 ==> !Present(mem[root].entries[i]))
    ensures Tree(mem, root) && (forall t: nat :: Owns(mem, root, t) <==> t == root)
    ensures forall v: nat | v < LOWER_PAGES :: Translate(mem, root, v).None?
    ensures Lean(mem, root, {})
    ensures forall l: nat, p: nat | l < 3 && Lower(l, p) :: EntryTo(mem, root, l, p).None?
  {
    forall l: nat, p: nat | Lower(l, p) ensures TableAt(mem, root, l, p) == if l == 3 then Some(root) else None {
      FreshHasOnlyRoot(mem, root, l, p);
    }
    assert Lower(3, 0);
  }

  // ---- the state of a running fork ----------------------------------------------

  ghost function WorldOf(m: Memory): World
    reads m
  {
    World(m.mem, m.free, m.refs)
  }

  ghost function Done(w0: World, parent: nat, n: nat): set<nat> {
    PagesBelow(w0.mem, parent, n)
  }

  /** The last page mapped below `n` is `last`. */
  ghost predicate LastBelow(w0: World, parent: nat, n: nat, last: nat) {
    && last < n && last < LOWER_PAGES && Translate(w0.mem, parent, last).Some?
    && forall v: nat | last < v < n && v < LOWER_PAGES :: Translate(w0.mem, parent, v).None?
  }

  /** Pages below `n` are copied except `gone`, which is not mapped; nor are the others. */
  ghost predicate CopiedBut(w0: World, parent: nat, w: World, child: nat, n: nat, gone: nat) {
    && (forall v: nat | v < n && v < LOWER_PAGES && v != gone :: CopyOf(w0, parent, w, child, v))
    && (forall v: nat | (n <= v || v == gone) && v < LOWER_PAGES :: Translate(w.mem, child, v).None?)
  }

  /**
   The last page mapped below `n` was lost: there was a frame for the page itself, but not for
   every table on the way to it, and pmap_map gave up without saying so.
   */
  ghost predicate Lost(w0: World, parent: nat, w: World, child: nat, n: nat, last: nat) {
    && LastBelow(w0, parent, n, last) && CopiedBut(w0, parent, w, child, n, last)
    && 2 + Cost(Done(w0, parent, last)) <= |w0.free| < 1 + Cost(Done(w0, parent, n))
  }

  /** Page `v` is the first mapped one below the table at position (l, p). */
  ghost predicate FirstUnder(mem: seq<Page>, root: nat, l: nat, p: nat, v: nat) {
    && v < LOWER_PAGES && Translate(mem, root, v).Some? && Shift(v, l + 1) == p
    && forall u: nat | u < v && Translate(mem, root, u).Some? :: Shift(u, l + 1) != p
  }

  /** The entry to a table of the child has the flags that its first page below `n` got. */
  ghost predicate FirstEntries(w0: World, parent: nat, w: World, child: nat, n: nat) {
    forall l: nat, p: nat, v: nat | l < 3 && Lower(l, p) && v < n && FirstUnder(w0.mem, parent, l, p, v) ::
      EntryTo(w.mem, child, l, p).Some? ==>
        EntryTo(w.mem, child, l, p).value.flags == ChildFlags(Translate(w0.mem, parent, v).value.flags)
  }

  lemma FirstSkip(w0: World, parent: nat, w: World, child: nat, n: nat, n': nat)
    requires FirstEntries(w0, parent, w, child, n) && n <= n'
    requires forall v: nat | n <= v < n' && v < LOWER_PAGES :: Translate(w0.mem, parent, v).None?
    ensures FirstEntries(w0, parent, w, child, n')
  {
    hide EntryTo, Translate, Shift;
  }

  /** The tables that copying page `v` adds are those it is the first to need. */
  lemma FirstStep(w0: World, parent: nat, w: World, w': World, child: nat, v: nat)
    requires FirstEntries(w0, parent, w, child, v) && Lean(w.mem, child, Done(w0, parent, v))
    requires v < LOWER_PAGES && Translate(w0.mem, parent, v).Some?
    requires EntriesKept(w.mem, w'.mem, child, ChildFlags(Translate(w0.mem, parent, v).value.flags))
    ensures FirstEntries(w0, parent, w', child, v + 1)
  {
    hide EntryTo, TableAt, Shift, Positions, ChildFlags, Translate;
    forall l: nat, p: nat, u: nat | l < 3 && Lower(l, p) && u < v + 1 && FirstUnder(w0.mem, parent, l, p, u)
      ensures EntryTo(w'.mem, child, l, p).Some? ==>
        EntryTo(w'.mem, child, l, p).value.flags == ChildFlags(Translate(w0.mem, parent, u).value.flags)
    {
      EntryLeadsTo(w.mem, child, l, p);
      assert EntryStep(w.mem, w'.mem, child, l, p, ChildFlags(Translate(w0.mem, parent, v).value.flags));
      if u < v {
        assert u in Done(w0, parent, v) && Shift(u, l + 1) in Prefixes(Done(w0, parent, v), l + 1);
      } else {
        forall x | x in Done(w0, parent, v) ensures Shift(x, l + 1) != p { }
        assert p !in Prefixes(Done(w0, parent, v), l + 1);
      }
    }
  }

  ghost predicate Starved(w0: World, parent: nat, w: World, child: nat, n: nat) {
    && w.free == {} && Apart(w0, w, child) && FirstEntries(w0, parent, w, child, n)
    && exists last: nat :: Lost(w0, parent, w, child, n, last)
  }

  ghost predicate Going(w0: World, parent: nat, w: World, child: nat, n: nat) {
    && Forked(w0, parent, w, child, n) && Lean(w.mem, child, Done(w0, parent, n))
    && |w0.free| == |w.free| + 1 + Cost(Done(w0, parent, n)) && FirstEntries(w0, parent, w, child, n)
  }

  ghost predicate Running(w0: World, parent: nat, w: World, child: nat, n: nat) {
    Going(w0, parent, w, child, n) || Starved(w0, parent, w, child, n)
  }

  lemma DoneStep(w0: World, parent: nat, v: nat)
    requires v < LOWER_PAGES && Translate(w0.mem, parent, v).Some?
    ensures Done(w0, parent, v + 1) == Done(w0, parent, v) + {v} && v !in Done(w0, parent, v)
    ensures Cost(Done(w0, parent, v)) < Cost(Done(w0, parent, v + 1))
  {
    assert Done(w0, parent, v + 1) == Done(w0, parent, v) + {v};
    CostGrows(Done(w0, parent, v), Done(w0, parent, v + 1));
  }

  lemma DoneSkip(w0: World, parent: nat, n: nat, n': nat)
    requires n <= n' && forall v: nat | n <= v < n' && v < LOWER_PAGES :: Translate(w0.mem, parent, v).None?
    ensures Done(w0, parent, n') == Done(w0, parent, n)
  {
  }

  lemma DoneMonotone(w0: World, parent: nat, n: nat, n': nat)
    requires n <= n'
    ensures Cost(Done(w0, parent, n)) <= Cost(Done(w0, parent, n'))
  {
    CostGrows(Done(w0, parent, n), Done(w0, parent, n'));
  }

  lemma LostSkip(w0: World, parent: nat, w: World, child: nat, n: nat, n': nat, last: nat)
    requires Lost(w0, parent, w, child, n, last) && n <= n'
    requires forall v: nat | n <= v < n' && v < LOWER_PAGES :: Translate(w0.mem, parent, v).None?
    ensures Lost(w0, parent, w, child, n', last)
  {
    DoneSkip(w0, parent, n, n');
    hide Translate, Cost, Done;
    forall v: nat | v < n' && v < LOWER_PAGES && v != last ensures CopyOf(w0, parent, w, child, v) {
      if v < n { assert CopyOf(w0, parent, w, child, v); }
    }
  }

  lemma RunningSkip(w0: World, parent: nat, w: World, child: nat, n: nat, n': nat)
    requires Running(w0, parent, w, child, n) && n <= n'
    requires forall v: nat | n <= v < n' && v < LOWER_PAGES :: Translate(w0.mem, parent, v).None?
    ensures Running(w0, parent, w, child, n')
  {
    DoneSkip(w0, parent, n, n');
    FirstSkip(w0, parent, w, child, n, n');
    hide Lost, Forked, Lean, Apart, Translate, Cost, Done, FirstEntries;
    if Going(w0, parent, w, child, n) {
      SkipForked(w0, parent, w, child, n, n');
    } else {
      var last: nat :| Lost(w0, parent, w, child, n, last);
      LostSkip(w0, parent, w, child, n, n', last);
    }
  }

  lemma StepGoing(w0: World, parent: nat, w: World, w': World, child: nat, v: nat, f: nat)
    requires ParentOk(w0, parent) && Going(w0, parent, w, child, v) && v < LOWER_PAGES
    requires Translate(w0.mem, parent, v).Some? && Translate(w0.mem, parent, v).value.frame < |w.mem|
    requires f < |w.refs| && w.refs[f] == 0
    requires var e := Translate(w0.mem, parent, v).value;
      && PageStep(w, w', child, v, f, w.mem[e.frame], ChildFlags(e.flags))
      && var m := w.mem[f := w.mem[e.frame]];
         PathOnly(m, w'.mem, child, v) && TableFor(w'.mem, child, v, 0).Some?
         && |w'.free| == |w.free| - 1 - Missing(m, child, v, 3)
    requires EntriesKept(w.mem, w'.mem, child, ChildFlags(Translate(w0.mem, parent, v).value.flags))
    ensures Going(w0, parent, w', child, v + 1)
  {
    var e := Translate(w0.mem, parent, v).value;
    var m := w.mem[f := w.mem[e.frame]];
    FirstStep(w0, parent, w, w', child, v);
    StepForked(w0, parent, w, w', child, v, f);
    DoneStep(w0, parent, v);
    WriteData(w.mem, child, f, w.mem[e.frame]);
    LeanSame(w.mem, m, child, Done(w0, parent, v));
    LeanStep(m, w'.mem, child, Done(w0, parent, v), v);
    MissingIsCost(m, child, Done(w0, parent, v), v);
    hide Forked, Lean, Cost, Done, PageStep, FirstEntries;
  }

  /** A step that maps nothing keeps the copies made so far. */
  lemma StarvedCopies(w0: World, parent: nat, w: World, w': World, child: nat, v: nat, f: nat, page: Page)
    requires Apart(w0, w, child) && CopiedTo(w0, parent, w, child, v)
    requires FrameStep(w, w', child, f, page) && SamePages(w.mem[f := page], w'.mem, child)
    ensures CopiedBut(w0, parent, w', child, v + 1, v)
  {
    FrameApart(w0, w, w', child, f, page);
    WriteData(w.mem, child, f, page);
    assert forall u: nat | u < LOWER_PAGES :: Translate(w'.mem, child, u) == Translate(w.mem, child, u);
    hide Translate, Tree, Owns, Expanded, SamePages, SameTables, Leaf;
    forall u: nat | u < v && u < LOWER_PAGES ensures CopyOf(w0, parent, w', child, u) {
      assert CopyOf(w0, parent, w, child, u);
    }
  }

  lemma StepStarved(w0: World, parent: nat, w: World, w': World, child: nat, v: nat, f: nat, page: Page)
    requires Going(w0, parent, w, child, v) && v < LOWER_PAGES && Translate(w0.mem, parent, v).Some?
    requires FrameStep(w, w', child, f, page) && w'.free == {} && SamePages(w.mem[f := page], w'.mem, child)
    requires |w.free| - 1 < Missing(w.mem[f := page], child, v, 3)
    requires EntriesKept(w.mem, w'.mem, child, ChildFlags(Translate(w0.mem, parent, v).value.flags))
    ensures Starved(w0, parent, w', child, v + 1)
  {
    var m := w.mem[f := page];
    FirstStep(w0, parent, w, w', child, v);
    FrameApart(w0, w, w', child, f, page);
    WriteData(w.mem, child, f, page);
    StarvedCopies(w0, parent, w, w', child, v, f, page);
    assert w.free == (w.free - {f}) + {f};
    hide Apart, Lean, Cost, Done, Tree, Owns, Forked, SamePages, Leaf, Missing, CopiedBut, Expanded, Translate,
      FirstEntries;
    DoneStep(w0, parent, v);
    LeanSame(w.mem, m, child, Done(w0, parent, v));
    MissingIsCost(m, child, Done(w0, parent, v), v);
    assert Lost(w0, parent, w', child, v + 1, v);
  }

  method FrameRefInc(m: Memory, f: nat)
    requires m.Valid() && f !in m.free
    modifies m`refs
    ensures m.Valid()
    ensures m.refs == if f < |old(m.refs)| then old(m.refs)[f := old(m.refs)[f] + 1] else old(m.refs)
  {
    if f < |m.refs| { m.refs := m.refs[f := m.refs[f] + 1]; }
  }

  /** The flags the child's page is mapped with: the parent's, writable, not copy-on-write. */
  function CopyFlags(flags: Flags): Flags {
    (flags & !(WRITE | COW)) | WRITE
  }

  lemma EntryFlags(flags: Flags)
    ensures TableFlags(CopyFlags(flags)) == ChildFlags(flags) == PRESENT | CopyFlags(flags)
  {
  }

  /** Allocate a frame, copy the page into it and count it; 0 when there is none. */
  method FillFrame(m: Memory, child: nat, from: nat, ghost flags: Flags) returns (frame: nat)
    requires m.Valid() && m.Space(child) && from < |m.mem|
    modifies m`mem, m`free, m`refs, m.pmm, m.pmm.bitmap
    ensures m.Valid() && (frame == 0 <==> old(m.free) == {})
    ensures frame == 0 ==> WorldOf(m) == old(WorldOf(m))
    ensures frame != 0 ==>
      && frame in old(m.free) && frame < |old(m.mem)| && frame < |old(m.refs)| && old(m.refs)[frame] == 0
      && m.mem == old(m.mem)[frame := old(m.mem)[from]] && m.free == old(m.free) - {frame}
      && m.refs == old(m.refs)[frame := 1]
      && m.Space(child) && EntriesKept(old(m.mem), m.mem, child, flags)
  {
    hide Memory.Counted, Tree, Owns, Leaf, SameTables, EntriesKept;
    frame := m.FrameAlloc();
    if frame == 0 { return; }
    WriteData(m.mem, child, frame, m.mem[from]);
    DataEntries(m.mem, child, frame, m.mem[from], flags);
    m.mem := m.mem[frame := m.mem[from]];
    FrameRefInc(m, frame);
  }

  /** Allocate a frame, copy the page, count the frame and map it; 0 when there is no frame for the page itself. */
  method CopyPage(m: Memory, child: nat, v: nat, pte: Pte) returns (frame: nat)
    requires m.Valid() && m.Space(child) && v < LOWER_PAGES && pte.frame < |m.mem|
    modifies m`mem, m`free, m`refs, m.pmm, m.pmm.bitmap
    ensures m.Valid() && (frame == 0 <==> old(m.free) == {})
    ensures frame == 0 ==> WorldOf(m) == old(WorldOf(m))
    ensures frame != 0 ==>
      var w, page := old(WorldOf(m)), old(m.mem)[pte.frame];
      && FrameStep(w, WorldOf(m), child, frame, page) && w.refs[frame] == 0
      && if |w.free| - 1 >= Missing(w.mem[frame := page], child, v, 3) then
           && Retargeted(w.mem[frame := page], m.mem, child, v, Pte(frame, ChildFlags(pte.flags)))
           && PathOnly(w.mem[frame := page], m.mem, child, v) && TableFor(m.mem, child, v, 0).Some?
           && |m.free| == |w.free| - 1 - Missing(w.mem[frame := page], child, v, 3)
         else m.free == {} && SamePages(w.mem[frame := page], m.mem, child)
    ensures frame != 0 ==> EntriesKept(old(m.mem), m.mem, child, ChildFlags(pte.flags))
  {
    hide Memory.Valid, Expanded, Retargeted, PathOnly, TableFor, SamePages, Missing, Tree, EntriesKept, ChildFlags,
      CopyFlags, TableFlags, Owns;
    EntryFlags(pte.flags);
    frame := FillFrame(m, child, pte.frame, ChildFlags(pte.flags));
    if frame == 0 { return; }
    ghost var mem1 := m.mem;
    m.PmapMap(child, v, frame, CopyFlags(pte.flags));
    EntriesTransitive(old(m.mem), mem1, m.mem, child, ChildFlags(pte.flags));
  }

  lemma DataEntries(mem: seq<Page>, root: nat, f: nat, page: Page, flags: Flags)
    requires Tree(mem, root) && f < |mem| && !Owns(mem, root, f)
    ensures EntriesKept(mem, mem[f := page], root, flags)
  {
    hide Tree, Owns, EntryTo;
    OutsideEntries(mem, mem[f := page], root);
  }

  /** The body of the innermost loop. */
  method ForkPage(m: Memory, child: nat, v: nat, pte: Pte, ghost w0: World, ghost parent: nat) returns (ok: bool)
    requires m.Valid() && ParentOk(w0, parent) && v < LOWER_PAGES && Translate(w0.mem, parent, v) == Some(pte)
    requires Running(w0, parent, WorldOf(m), child, v)
    modifies m`mem, m`free, m`refs, m.pmm, m.pmm.bitmap
    ensures m.Valid() && Apart(w0, WorldOf(m), child)
    ensures ok ==> Running(w0, parent, WorldOf(m), child, v + 1)
    ensures !ok ==> |w0.free| < 2 + Cost(Done(w0, parent, v)) && m.free == {}
  {
    ghost var w := WorldOf(m);
    SpaceOf(w0, parent, w, child, v, pte);
    RunOut(w0, parent, w, child, v);
    DoneStep(w0, parent, v);
    hide Memory.Valid, Apart, Tree, Owns, Translate, Forked, Lean, Cost, Done, ParentOk, Starved;
    var frame := CopyPage(m, child, v, pte);
    if frame == 0 { return false; }
    ghost var page := w.mem[pte.frame];
    FrameApart(w0, w, WorldOf(m), child, frame, page);
    hide FrameStep, Retargeted, PathOnly, TableFor, SamePages, Missing, EntriesKept, FirstEntries;
    if |w.free| - 1 >= Missing(w.mem[frame := page], child, v, 3) {
      StepGoing(w0, parent, w, WorldOf(m), child, v, frame);
    } else {
      StepStarved(w0, parent, w, WorldOf(m), child, v, frame, page);
    }
    return true;
  }

  /** Without a free frame left there were too few for the pages so far and one more. */
  lemma RunOut(w0: World, parent: nat, w: World, child: nat, v: nat)
    requires Running(w0, parent, w, child, v)
    ensures w.free == {} ==> |w0.free| < 2 + Cost(Done(w0, parent, v))
    ensures w.free != {} ==> Going(w0, parent, w, child, v)
  {
    hide Forked, Lean, Apart, LastBelow, CopiedBut, Cost, Done, FirstEntries;
  }

  lemma SpaceOf(w0: World, parent: nat, w: World, child: nat, v: nat, pte: Pte)
    requires ParentOk(w0, parent) && v < LOWER_PAGES && Translate(w0.mem, parent, v) == Some(pte)
    requires Running(w0, parent, w, child, v)
    ensures Apart(w0, w, child) && pte.frame < |w.mem| && Tree(w.mem, child)
    ensures forall t: nat | Owns(w.mem, child, t) :: t !in w.free
  {
  }
}
