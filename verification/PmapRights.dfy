/**
 Access rights (Intel SDM volume 3A, section 4.6): user mode may touch a page, and anybody may write
 to it, only if the leaf and every entry on the way to it say so.
 */
module PmapRights {
  import opened Options
  import opened Bytes
  import opened Pmm
  import opened PageTables
  import opened Pmap

  /** The entry of level `l + 1` on the way to page `v`. */
  ghost function PathEntry(mem: seq<Page>, root: nat, v: nat, l: nat): Option<Pte>
    requires l < 3
  {
    EntryTo(mem, root, l, Shift(v, l + 1))
  }

  predicate Has(flags: Flags, right: Flags) {
    flags & right != 0
  }

  /** All four entries on the way to page `v` give this right. */
  ghost predicate Grants(mem: seq<Page>, root: nat, v: nat, right: Flags) {
    && Translate(mem, root, v).Some? && Has(Translate(mem, root, v).value.flags, right)
    && forall l: nat | l < 3 :: PathEntry(mem, root, v, l).Some? && Has(PathEntry(mem, root, v, l).value.flags, right)
  }

  /** The entries that were on the way to page `v` before do not withhold this right. */
  ghost predicate PathAllows(mem: seq<Page>, root: nat, v: nat, right: Flags) {
    forall l: nat | l < 3 && PathEntry(mem, root, v, l).Some? :: Has(PathEntry(mem, root, v, l).value.flags, right)
  }

  /** A mapped page has all the entries on its way. */
  lemma MappedPath(mem: seq<Page>, root: nat, v: nat, l: nat)
    requires Translate(mem, root, v).Some? && l < 3
    ensures PathEntry(mem, root, v, l).Some?
  {
    assert Shift(v, 1) == v / ENTRIES;
    hide TableAt, EntryTo;
    PathExists(mem, root, v, l);
    EntryLeadsTo(mem, root, l, Shift(v, l + 1));
  }

  lemma NewFlags(flags: Flags, right: Flags)
    requires Has(PRESENT | flags, right)
    ensures Has(TableFlags(flags), right)
  {
  }

  /**
   Mapping a page with `flags` grants exactly those rights of the leaf that the entries which were
   already on the way do not withhold; on a way that was missing altogether, exactly the leaf's.
   */
  lemma MapGrants(mem: seq<Page>, mem': seq<Page>, root: nat, v: nat, frame: nat, flags: Flags, right: Flags)
    requires v < LOWER_PAGES && EntriesKept(mem, mem', root, TableFlags(flags))
    requires Translate(mem', root, v) == Some(Pte(frame, PRESENT | flags))
    ensures Grants(mem', root, v, right) <==> Has(PRESENT | flags, right) && PathAllows(mem, root, v, right)
    ensures (forall l: nat | l < 3 :: PathEntry(mem, root, v, l).None?) ==>
      (Grants(mem', root, v, right) <==> Has(PRESENT | flags, right))
  {
    hide Translate, EntryTo, Shift, Positions;
    forall l: nat | l < 3
      ensures PathEntry(mem', root, v, l).Some?
      ensures PathEntry(mem, root, v, l).Some? ==> PathEntry(mem', root, v, l) == PathEntry(mem, root, v, l)
      ensures PathEntry(mem, root, v, l).None? && Has(PRESENT | flags, right) ==>
        Has(PathEntry(mem', root, v, l).value.flags, right)
    {
      MappedPath(mem', root, v, l);
      ShiftLower(v, l);
      assert EntryStep(mem, mem', root, l, Shift(v, l + 1), TableFlags(flags));
      if Has(PRESENT | flags, right) { NewFlags(flags, right); }
    }
  }

  /** A page that is translated as before has the rights it had. */
  lemma OtherRights(mem: seq<Page>, mem': seq<Page>, root: nat, w: nat, flags: Flags, right: Flags)
    requires w < LOWER_PAGES && EntriesKept(mem, mem', root, flags)
    requires Translate(mem', root, w) == Translate(mem, root, w)
    ensures Grants(mem', root, w, right) <==> Grants(mem, root, w, right)
  {
    hide Translate, EntryTo, Shift, Positions;
    if Translate(mem, root, w).Some? {
      forall l: nat | l < 3 ensures PathEntry(mem', root, w, l) == PathEntry(mem, root, w, l) {
        MappedPath(mem, root, w, l);
        ShiftLower(w, l);
        assert EntryStep(mem, mem', root, l, Shift(w, l + 1), flags);
      }
    }
  }

  // ---- user space ------------------------------------------------------------------------

  /** No entry between the tables of the space withholds anything from user mode, as in a space without any. */
  ghost predicate Open(mem: seq<Page>, root: nat) {
    forall l: nat, p: nat | l < 3 && Lower(l, p) && EntryTo(mem, root, l, p).Some? ::
      Has(EntryTo(mem, root, l, p).value.flags, USER) && Has(EntryTo(mem, root, l, p).value.flags, WRITE)
  }

  lemma OpenStays(mem: seq<Page>, mem': seq<Page>, root: nat, flags: Flags)
    requires Open(mem, root) && EntriesKept(mem, mem', root, flags) && Has(flags, USER) && Has(flags, WRITE)
    ensures Open(mem', root)
  {
    hide EntryTo;
    forall l: nat, p: nat | l < 3 && Lower(l, p) && EntryTo(mem', root, l, p).Some?
      ensures Has(EntryTo(mem', root, l, p).value.flags, USER) && Has(EntryTo(mem', root, l, p).value.flags, WRITE)
    {
      assert EntryStep(mem, mem', root, l, p, flags);
    }
  }

  /** No entry between the tables of the space is read-only. */
  ghost predicate WriteOpen(mem: seq<Page>, root: nat) {
    forall l: nat, p: nat | l < 3 && Lower(l, p) && EntryTo(mem, root, l, p).Some? ::
      Has(EntryTo(mem, root, l, p).value.flags, WRITE)
  }

  /** Mapping a read-only page never makes its neighbours read-only. */
  lemma WriteStaysOpen(mem: seq<Page>, mem': seq<Page>, root: nat, flags: Flags)
    requires WriteOpen(mem, root) && EntriesKept(mem, mem', root, TableFlags(flags))
    ensures WriteOpen(mem', root)
  {
    hide EntryTo;
    forall l: nat, p: nat | l < 3 && Lower(l, p) && EntryTo(mem', root, l, p).Some?
      ensures Has(EntryTo(mem', root, l, p).value.flags, WRITE)
    {
      assert EntryStep(mem, mem', root, l, p, TableFlags(flags));
      assert Has(TableFlags(flags), WRITE);
    }
  }

  lemma OpenAllows(mem: seq<Page>, root: nat, v: nat)
    requires Open(mem, root) && v < LOWER_PAGES
    ensures PathAllows(mem, root, v, USER) && PathAllows(mem, root, v, WRITE)
  {
    hide EntryTo, Shift, Positions;
    ShiftLower(v, 0);
    ShiftLower(v, 1);
    ShiftLower(v, 2);
  }

  /** No page gained or lost a right. */
  ghost predicate SameRights(mem: seq<Page>, mem': seq<Page>, root: nat) {
    forall u: nat, right: Flags | u < LOWER_PAGES :: Grants(mem', root, u, right) <==> Grants(mem, root, u, right)
  }

  /** Writing a frame that is no table changes no rights. */
  lemma DataRights(mem: seq<Page>, root: nat, f: nat, page: Page)
    requires Tree(mem, root) && f < |mem| && !Owns(mem, root, f)
    ensures SameRights(mem, mem[f := page], root)
  {
    hide Tree, Owns, EntryTo, Grants;
    OutsideEntries(mem, mem[f := page], root);
    WriteData(mem, root, f, page);
    hide SameTables;
    forall u: nat, right: Flags | u < LOWER_PAGES
      ensures Grants(mem[f := page], root, u, right) <==> Grants(mem, root, u, right)
    {
      OtherRights(mem, mem[f := page], root, u, 0, right);
    }
  }

  /** What pmap_map means for rights: the mapped page gets what its way allows, and no other page's rights change. */
  method MapWithRights(m: Memory, root: nat, v: nat, frame: nat, flags: Flags)
    requires m.Valid() && m.Space(root) && v < LOWER_PAGES
    modifies m`mem, m`free, m.pmm, m.pmm.bitmap
    ensures m.Valid() && m.Space(root) && EntriesKept(old(m.mem), m.mem, root, PRESENT | WRITE | flags)
    ensures WriteOpen(old(m.mem), root) ==> WriteOpen(m.mem, root)
    ensures |old(m.free)| >= Missing(old(m.mem), root, v, 3) ==>
      && Translate(m.mem, root, v) == Some(Pte(frame, PRESENT | flags))
      && forall right: Flags :: Grants(m.mem, root, v, right) <==>
           Has(PRESENT | flags, right) && PathAllows(old(m.mem), root, v, right)
    ensures forall w: nat, right: Flags | w < LOWER_PAGES && w != v ::
      Grants(m.mem, root, w, right) <==> Grants(old(m.mem), root, w, right)
  {
    hide Memory.Valid, Tree, Owns, Translate, Missing, TableFor, Expanded, PathOnly, EntriesKept, Grants, PathAllows,
      WriteOpen;
    m.PmapMap(root, v, frame, flags);
    if WriteOpen(old(m.mem), root) { WriteStaysOpen(old(m.mem), m.mem, root, flags); }
    assert Present(Pte(frame, PRESENT | flags)) by { assert (PRESENT | flags) & PRESENT != 0; }
    forall right: Flags | |old(m.free)| >= Missing(old(m.mem), root, v, 3)
      ensures Grants(m.mem, root, v, right) <==> Has(PRESENT | flags, right) && PathAllows(old(m.mem), root, v, right)
    {
      MapGrants(old(m.mem), m.mem, root, v, frame, flags, right);
    }
    forall w: nat, right: Flags | w < LOWER_PAGES && w != v
      ensures Grants(m.mem, root, w, right) <==> Grants(old(m.mem), root, w, right)
    {
      OtherRights(old(m.mem), m.mem, root, w, TableFlags(flags), right);
    }
  }
}
