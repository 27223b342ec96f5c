/**
 Four-level page tables in physical memory (Intel SDM volume 3A, section 4.5).

 A page is named by its virtual page number, a frame by its physical page number.
 A table is named by its level (3 is the PML4, 0 the page table) and by the common
 prefix of the pages below it: the page `v` is translated by the level-`l` table
 with prefix `v / 512^(l+1)`, at index `v / 512^l % 512`.
 */
module PageTables {
  import opened Options
  import opened Bytes
  import opened Pmm

  const ENTRIES: nat := 512
  const PAGE_SIZE: nat := 4096

  /** The bits of an entry outside the address field: bits 0-11, then bits 52-63. */
  type Flags = bv24
  const PRESENT: Flags := 0x001
  const WRITE: Flags := 0x002
  const USER: Flags := 0x004
  const COW: Flags := 0x200

  /** An entry: its address field, as a frame number, and the remaining bits. */
  datatype Pte = Pte(frame: nat, flags: Flags)

  predicate Present(e: Pte) {
    e.flags & PRESENT != 0
  }

  datatype Page = Table(entries: seq<Pte>) | Data(bytes: seq<byte>)

  function ZeroTable(): (r: Page)
    ensures r.Table? && |r.entries| == ENTRIES && forall i :: 0 <= i < ENTRIES ==> !Present(r.entries[i])
  {
    Table(seq(ENTRIES, _ => Pte(0, 0)))
  }

  function ZeroData(): (r: Page)
    ensures r.Data? && |r.bytes| == PAGE_SIZE && forall i :: 0 <= i < PAGE_SIZE ==> r.bytes[i] == 0
  {
    Data(seq(PAGE_SIZE, _ => 0))
  }

  predicate IsTable(mem: seq<Page>, t: nat) {
    t < |mem| && mem[t].Table? && |mem[t].entries| == ENTRIES
  }

  /** `v / 512^l`. */
  function Shift(v: nat, l: nat): nat {
    if l == 0 then v else Shift(v, l - 1) / ENTRIES
  }

  /** idx() of pmap.c: the index of page `v` in its table of level `l`. */
  function Index(v: nat, l: nat): (i: nat)
    ensures i < ENTRIES
  {
    Shift(v, l) % ENTRIES
  }

  // ---- the lower half -----------------------------------------------------

  const LOWER_PAGES: nat := 0x8_0000_0000  // 256 * 512^3

  /** Number of table positions of level `l` in the lower half. */
  function Positions(l: nat): nat
    requires l < 4
  {
    match l case 0 => 0x400_0000 case 1 => 0x2_0000 case 2 => 0x100 case _ => 1
  }

  ghost predicate Lower(l: nat, p: nat) {
    l < 4 && p < Positions(l)
  }

  lemma ShiftLower(v: nat, l: nat)
    requires v < LOWER_PAGES && l < 4
    ensures Lower(l, Shift(v, l + 1))
  {
    assert Shift(v, 1) == v / 512;
    assert Shift(v, 2) == v / 512 / 512;
    assert Shift(v, 3) == v / 512 / 512 / 512;
    assert Shift(v, 4) == v / 512 / 512 / 512 / 512;
  }

  // ---- walking --------------------------------------------------------------

  /** The frame of the table at a position, if the walk from `root` gets there. */
  ghost function TableAt(mem: seq<Page>, root: nat, l: nat, p: nat): Option<nat>
    requires l < 4
    decreases 3 - l
  {
    if l == 3 then (if p == 0 then Some(root) else None)
    else
      var up := TableAt(mem, root, l + 1, p / ENTRIES);
      if up.None? || !IsTable(mem, up.value) then None
      else
        var e := mem[up.value].entries[p % ENTRIES];
        if Present(e) then Some(e.frame) else None
  }

  /** The leaf entry of a page, if its page table exists. */
  ghost function Leaf(mem: seq<Page>, root: nat, v: nat): Option<Pte> {
    var t := TableAt(mem, root, 0, v / ENTRIES);
    if t.None? || !IsTable(mem, t.value) then None else Some(mem[t.value].entries[v % ENTRIES])
  }

  /** The flat view: the entry a page is translated by, if it is mapped. */
  ghost function Translate(mem: seq<Page>, root: nat, v: nat): Option<Pte> {
    var e := Leaf(mem, root, v);
    if e.Some? && Present(e.value) then e else None
  }

  /** `t` is a table of the lower half of `root`. */
  ghost predicate Owns(mem: seq<Page>, root: nat, t: nat) {
    exists l: nat, p: nat | Lower(l, p) :: TableAt(mem, root, l, p) == Some(t)
  }

  ghost predicate SamePlace(mem: seq<Page>, root: nat, l: nat, p: nat, l': nat, p': nat)
    requires l < 4 && l' < 4
  {
    TableAt(mem, root, l, p).Some? && TableAt(mem, root, l, p) == TableAt(mem, root, l', p')
  }

  /** The tables of the lower half form a tree: each has one position, hence one parent entry. */
  ghost predicate Tree(mem: seq<Page>, root: nat) {
    && (forall l: nat, p: nat | Lower(l, p) && TableAt(mem, root, l, p).Some? ::
          IsTable(mem, TableAt(mem, root, l, p).value))
    && (forall l: nat, p: nat, l': nat, p': nat | Lower(l, p) && Lower(l', p') && SamePlace(mem, root, l, p, l', p') ::
          l == l' && p == p')
  }

  // ---- what a write can change -------------------------------------------------

  /** The position (l', p') is (l, p) or lies below it. */
  ghost predicate Below(l: nat, p: nat, l': nat, p': nat) {
    l' <= l && Shift(p', l - l') == p
  }

  lemma LowerUp(l: nat, p: nat)
    requires Lower(l, p) && l < 3
    ensures Lower(l + 1, p / ENTRIES)
  {
  }

  lemma {:induction false} ShiftUp(p: nat, n: nat)
    ensures Shift(p / ENTRIES, n) == Shift(p, n + 1)
  {
    if n > 0 { ShiftUp(p, n - 1); }
  }

  ghost function Store(mem: seq<Page>, t: nat, i: nat, e: Pte): seq<Page>
    requires IsTable(mem, t) && i < ENTRIES
  {
    mem[t := Table(mem[t].entries[i := e])]
  }

  /** Storing an entry at position (l, p) moves nothing outside the subtree of that entry. */
  lemma {:induction false} StoreElsewhere(mem: seq<Page>, root: nat, l: nat, p: nat, i: nat, e: Pte, l': nat, p': nat)
    requires Tree(mem, root) && Lower(l, p) && TableAt(mem, root, l, p).Some? && i < ENTRIES
    requires Lower(l', p') && (l > 0 ==> !Below(l - 1, p * ENTRIES + i, l', p'))
    ensures TableAt(Store(mem, TableAt(mem, root, l, p).value, i, e), root, l', p') == TableAt(mem, root, l', p')
    decreases 3 - l'
  {
    if l' < 3 {
      var t := TableAt(mem, root, l, p).value;
      LowerUp(l', p');
      if l > 0 && Below(l - 1, p * ENTRIES + i, l' + 1, p' / ENTRIES) {
        ShiftUp(p', l - 1 - (l' + 1));
      }
      StoreElsewhere(mem, root, l, p, i, e, l' + 1, p' / ENTRIES);
      var up := TableAt(mem, root, l' + 1, p' / ENTRIES);
      if up == Some(t) {
        assert SamePlace(mem, root, l, p, l' + 1, p' / ENTRIES);
        assert p' % ENTRIES != i;
      }
    }
  }

  /** Changing a frame that is no table of the space changes no table of it. */
  lemma {:induction false} OutsideTables(mem: seq<Page>, root: nat, mem': seq<Page>, l: nat, p: nat)
    requires |mem'| == |mem| && Lower(l, p)
    requires forall t: nat | t < |mem| && Owns(mem, root, t) :: mem'[t] == mem[t]
    ensures TableAt(mem', root, l, p) == TableAt(mem, root, l, p)
    decreases 3 - l
  {
    if l < 3 {
      LowerUp(l, p);
      OutsideTables(mem, root, mem', l + 1, p / ENTRIES);
      var up := TableAt(mem, root, l + 1, p / ENTRIES);
      if up.Some? && up.value < |mem| { assert Owns(mem, root, up.value); }
    }
  }

  // ---- storing a leaf -------------------------------------------------------

  /** The two memories have the same tables in the lower half of `root`. */
  ghost predicate SameTables(mem: seq<Page>, mem': seq<Page>, root: nat) {
    forall l: nat, p: nat | Lower(l, p) :: TableAt(mem', root, l, p) == TableAt(mem, root, l, p)
  }

  lemma TreeFromSameTables(mem: seq<Page>, mem': seq<Page>, root: nat)
    requires Tree(mem, root) && SameTables(mem, mem', root)
    requires forall t: nat | Owns(mem, root, t) && IsTable(mem, t) :: IsTable(mem', t)
    ensures Tree(mem', root)
    ensures forall t: nat :: Owns(mem', root, t) <==> Owns(mem, root, t)
  {
    forall l: nat, p: nat | Lower(l, p) && TableAt(mem', root, l, p).Some?
      ensures IsTable(mem', TableAt(mem', root, l, p).value)
    {
      assert Owns(mem, root, TableAt(mem, root, l, p).value);
    }
    forall l: nat, p: nat, l': nat, p': nat | Lower(l, p) && Lower(l', p') && SamePlace(mem', root, l, p, l', p')
      ensures l == l' && p == p'
    {
      assert SamePlace(mem, root, l, p, l', p');
    }
    forall t: nat ensures Owns(mem', root, t) <==> Owns(mem, root, t) {
      if Owns(mem', root, t) {
        var l: nat, p: nat :| Lower(l, p) && TableAt(mem', root, l, p) == Some(t);
        assert TableAt(mem, root, l, p) == Some(t);
      }
      if Owns(mem, root, t) {
        var l: nat, p: nat :| Lower(l, p) && TableAt(mem, root, l, p) == Some(t);
        assert TableAt(mem', root, l, p) == Some(t);
      }
    }
  }

  /** Storing a leaf entry retargets exactly one page. */
  lemma StoreLeaf(mem: seq<Page>, root: nat, v: nat, e: Pte)
    requires Tree(mem, root) && v < LOWER_PAGES && TableAt(mem, root, 0, v / ENTRIES).Some?
    ensures Lower(0, v / ENTRIES) && IsTable(mem, TableAt(mem, root, 0, v / ENTRIES).value)
    ensures var mem' := Store(mem, TableAt(mem, root, 0, v / ENTRIES).value, v % ENTRIES, e);
      && SameTables(mem, mem', root) && Tree(mem', root)
      && Leaf(mem', root, v) == Some(e)
      && forall w: nat | w < LOWER_PAGES && w != v :: Leaf(mem', root, w) == Leaf(mem, root, w)
  {
    var t := TableAt(mem, root, 0, v / ENTRIES).value;
    var mem' := Store(mem, t, v % ENTRIES, e);
    forall l: nat, p: nat | Lower(l, p) ensures TableAt(mem', root, l, p) == TableAt(mem, root, l, p) {
      StoreElsewhere(mem, root, 0, v / ENTRIES, v % ENTRIES, e, l, p);
    }
    TreeFromSameTables(mem, mem', root);
    forall w: nat | w < LOWER_PAGES && w != v ensures Leaf(mem', root, w) == Leaf(mem, root, w) {
      assert Lower(0, w / ENTRIES);
      if TableAt(mem, root, 0, w / ENTRIES) == Some(t) {
        assert SamePlace(mem, root, 0, v / ENTRIES, 0, w / ENTRIES);
      }
    }
  }

  // ---- linking a new table -----------------------------------------------------

  lemma {:induction false} NothingBelow(mem: seq<Page>, root: nat, l: nat, p: nat, l': nat, p': nat)
    requires Lower(l, p) && TableAt(mem, root, l, p).None? && Lower(l', p') && Below(l, p, l', p')
    ensures TableAt(mem, root, l', p').None?
    decreases l - l'
  {
    if l' < l {
      LowerUp(l', p');
      ShiftUp(p', l - l' - 1);
      NothingBelow(mem, root, l, p, l' + 1, p' / ENTRIES);
    }
  }

  lemma {:induction false} NothingBelowEmpty(mem: seq<Page>, root: nat, l: nat, p: nat, f: nat, l': nat, p': nat)
    requires Lower(l, p) && TableAt(mem, root, l, p) == Some(f) && f < |mem| && mem[f] == ZeroTable()
    requires Lower(l', p') && Below(l, p, l', p') && l' < l
    ensures TableAt(mem, root, l', p').None?
    decreases l - l'
  {
    LowerUp(l', p');
    ShiftUp(p', l - l' - 1);
    if l' + 1 < l { NothingBelowEmpty(mem, root, l, p, f, l' + 1, p' / ENTRIES); }
  }

  /** Memory after an empty table in frame `f` was linked at index `i` of the table at (l, p). */
  ghost function Link(mem: seq<Page>, t: nat, i: nat, f: nat, flags: Flags): seq<Page>
    requires IsTable(mem, t) && i < ENTRIES && f < |mem| && f != t
  {
    Store(mem[f := ZeroTable()], t, i, Pte(f, flags))
  }

  lemma LinkTables(mem: seq<Page>, root: nat, l: nat, p: nat, i: nat, f: nat, flags: Flags, l': nat, p': nat)
    requires Tree(mem, root) && 0 < l && Lower(l, p) && TableAt(mem, root, l, p).Some? && i < ENTRIES
    requires Lower(l - 1, p * ENTRIES + i) && TableAt(mem, root, l - 1, p * ENTRIES + i).None?
    requires f < |mem| && !Owns(mem, root, f) && flags & PRESENT != 0 && Lower(l', p')
    ensures IsTable(mem, TableAt(mem, root, l, p).value) && f != TableAt(mem, root, l, p).value
    ensures TableAt(Link(mem, TableAt(mem, root, l, p).value, i, f, flags), root, l', p')
         == if l' == l - 1 && p' == p * ENTRIES + i then Some(f) else TableAt(mem, root, l', p')
  {
    hide TableAt, Tree, Owns, Shift, Positions, ZeroTable;
    var t := TableAt(mem, root, l, p).value;
    OwnedTable(mem, root, l, p);
    var m1 := mem[f := ZeroTable()];
    var m2 := Link(mem, t, i, f, flags);
    var q := p * ENTRIES + i;
    ZeroedElsewhere(mem, root, f);
    assert TableAt(m1, root, l, p) == TableAt(mem, root, l, p);
    if !Below(l - 1, q, l', p') {
      StoreElsewhere(m1, root, l, p, i, Pte(f, flags), l', p');
      BelowItself(l - 1, q);
    } else {
      AboveEntry(l, p, i);
      StoreElsewhere(m1, root, l, p, i, Pte(f, flags), l, p);
      EntryLeads(m2, root, l, p, i, Pte(f, flags));
      if l' < l - 1 {
        NothingBelow(mem, root, l - 1, q, l', p');
        NothingBelowEmpty(m2, root, l - 1, q, f, l', p');
      } else {
        BelowSame(l - 1, q, p');
      }
    }
  }

  lemma OwnedTable(mem: seq<Page>, root: nat, l: nat, p: nat)
    requires Tree(mem, root) && Lower(l, p) && TableAt(mem, root, l, p).Some?
    ensures IsTable(mem, TableAt(mem, root, l, p).value) && Owns(mem, root, TableAt(mem, root, l, p).value)
  {
  }

  /** A present entry leads one level down. */
  lemma EntryLeads(mem: seq<Page>, root: nat, l: nat, p: nat, i: nat, e: Pte)
    requires 0 < l < 4 && i < ENTRIES && TableAt(mem, root, l, p).Some? && IsTable(mem, TableAt(mem, root, l, p).value)
    requires mem[TableAt(mem, root, l, p).value].entries[i] == e && Present(e)
    ensures TableAt(mem, root, l - 1, p * ENTRIES + i) == Some(e.frame)
  {
    assert (p * ENTRIES + i) / ENTRIES == p && (p * ENTRIES + i) % ENTRIES == i;
  }

  lemma BelowItself(l: nat, p: nat)
    ensures Below(l, p, l, p)
  {
  }

  lemma BelowSame(l: nat, p: nat, p': nat)
    requires Below(l, p, l, p')
    ensures p' == p
  {
  }

  /** A position is not below one of its own entries. */
  lemma AboveEntry(l: nat, p: nat, i: nat)
    requires l > 0
    ensures !Below(l - 1, p * ENTRIES + i, l, p)
  {
  }

  /** Clearing a frame that is no table of the space. */
  lemma ZeroedElsewhere(mem: seq<Page>, root: nat, f: nat)
    requires Tree(mem, root) && f < |mem| && !Owns(mem, root, f)
    ensures SameTables(mem, mem[f := ZeroTable()], root) && Tree(mem[f := ZeroTable()], root)
  {
    var m1 := mem[f := ZeroTable()];
    forall l: nat, p: nat | Lower(l, p) ensures TableAt(m1, root, l, p) == TableAt(mem, root, l, p) {
      OutsideTables(mem, root, m1, l, p);
    }
    TreeFromSameTables(mem, m1, root);
  }

  /** Linking an empty table keeps the tree, adds one table to it, and moves no page. */
  lemma LinkKeeps(mem: seq<Page>, root: nat, l: nat, p: nat, i: nat, f: nat, flags: Flags)
    requires Tree(mem, root) && 0 < l && Lower(l, p) && TableAt(mem, root, l, p).Some? && i < ENTRIES
    requires Lower(l - 1, p * ENTRIES + i) && TableAt(mem, root, l - 1, p * ENTRIES + i).None?
    requires f < |mem| && !Owns(mem, root, f) && flags & PRESENT != 0
    ensures IsTable(mem, TableAt(mem, root, l, p).value) && f != TableAt(mem, root, l, p).value
    ensures var mem' := Link(mem, TableAt(mem, root, l, p).value, i, f, flags);
      && Tree(mem', root)
      && TableAt(mem', root, l - 1, p * ENTRIES + i) == Some(f)
      && (forall l': nat, p': nat | Lower(l', p') && (l' != l - 1 || p' != p * ENTRIES + i) ::
            TableAt(mem', root, l', p') == TableAt(mem, root, l', p'))
      && (forall t: nat :: Owns(mem', root, t) <==> Owns(mem, root, t) || t == f)
      && forall v: nat | v < LOWER_PAGES :: Translate(mem', root, v) == Translate(mem, root, v)
  {
    hide TableAt, Tree, Owns, Translate, Positions, Link;
    var t := TableAt(mem, root, l, p).value;
    OwnedTable(mem, root, l, p);
    var mem' := Link(mem, t, i, f, flags);
    var q := p * ENTRIES + i;
    LinkShape(mem, t, i, f, flags);
    forall l': nat, p': nat | Lower(l', p')
      ensures TableAt(mem', root, l', p') == if l' == l - 1 && p' == q then Some(f) else TableAt(mem, root, l', p')
    {
      LinkTables(mem, root, l, p, i, f, flags, l', p');
    }
    LinkTree(mem, mem', root, l - 1, q, f);
    forall v: nat | v < LOWER_PAGES ensures Translate(mem', root, v) == Translate(mem, root, v) {
      LowerPage(v);
      LinkTranslate(mem, root, l, p, t, i, f, flags, v);
    }
  }

  lemma LowerPage(v: nat)
    requires v < LOWER_PAGES
    ensures Lower(0, v / ENTRIES)
  {
  }

  lemma LinkShape(mem: seq<Page>, t: nat, i: nat, f: nat, flags: Flags)
    requires IsTable(mem, t) && i < ENTRIES && f < |mem| && f != t
    ensures var mem' := Link(mem, t, i, f, flags);
      && IsTable(mem', f) && (forall u | IsTable(mem, u) :: IsTable(mem', u)) && mem'[f] == ZeroTable()
      && |mem'| == |mem| && (forall u: nat | u < |mem| && u != f && u != t :: mem'[u] == mem[u])
  {
  }

  lemma LinkTree(mem: seq<Page>, mem': seq<Page>, root: nat, l: nat, q: nat, f: nat)
    requires Tree(mem, root) && Lower(l, q) && TableAt(mem, root, l, q).None? && !Owns(mem, root, f)
    requires IsTable(mem', f) && forall t | IsTable(mem, t) :: IsTable(mem', t)
    requires forall l': nat, p': nat | Lower(l', p') ::
      TableAt(mem', root, l', p') == if l' == l && p' == q then Some(f) else TableAt(mem, root, l', p')
    ensures Tree(mem', root)
    ensures forall t: nat :: Owns(mem', root, t) <==> Owns(mem, root, t) || t == f
  {
    forall a: nat, b: nat, c: nat, d: nat | Lower(a, b) && Lower(c, d) && SamePlace(mem', root, a, b, c, d)
      ensures a == c && b == d
    {
      if (a, b) != (l, q) && (c, d) != (l, q) { assert SamePlace(mem, root, a, b, c, d); }
    }
    forall t: nat ensures Owns(mem', root, t) <==> Owns(mem, root, t) || t == f {
      if Owns(mem', root, t) {
        var a: nat, b: nat :| Lower(a, b) && TableAt(mem', root, a, b) == Some(t);
        assert (a, b) != (l, q) ==> TableAt(mem, root, a, b) == Some(t);
      }
      if Owns(mem, root, t) {
        var a: nat, b: nat :| Lower(a, b) && TableAt(mem, root, a, b) == Some(t);
        assert TableAt(mem', root, a, b) == Some(t);
      }
      assert TableAt(mem', root, l, q) == Some(f);
    }
  }

  lemma LinkTranslate(mem: seq<Page>, root: nat, l: nat, p: nat, t: nat, i: nat, f: nat, flags: Flags, v: nat)
    requires Tree(mem, root) && 0 < l && Lower(l, p) && TableAt(mem, root, l, p) == Some(t) && i < ENTRIES
    requires l == 1 ==> Lower(0, p * ENTRIES + i) && TableAt(mem, root, 0, p * ENTRIES + i).None?
    requires IsTable(mem, t) && f != t && f < |mem| && !Owns(mem, root, f) && v < LOWER_PAGES
    requires TableAt(Link(mem, t, i, f, flags), root, 0, v / ENTRIES)
          == if l == 1 && v / ENTRIES == p * ENTRIES + i then Some(f) else TableAt(mem, root, 0, v / ENTRIES)
    ensures Translate(Link(mem, t, i, f, flags), root, v) == Translate(mem, root, v)
  {
    hide TableAt, Tree, Owns, Positions, Link;
    LowerPage(v);
    LinkShape(mem, t, i, f, flags);
    OtherTable(mem, root, l, p, v / ENTRIES);
    var u := TableAt(mem, root, 0, v / ENTRIES);
    if u.Some? { OwnedTable(mem, root, 0, v / ENTRIES); }
  }

  lemma OtherTable(mem: seq<Page>, root: nat, l: nat, p: nat, q: nat)
    requires Tree(mem, root) && 0 < l && Lower(l, p) && Lower(0, q) && TableAt(mem, root, l, p).Some?
    ensures TableAt(mem, root, 0, q) != TableAt(mem, root, l, p)
  {
    hide TableAt;
    assert !SamePlace(mem, root, l, p, 0, q);
  }

  // ---- writing data --------------------------------------------------------------

  /** Writing a frame that is no table of the space moves no page of it. */
  lemma WriteData(mem: seq<Page>, root: nat, f: nat, page: Page)
    requires Tree(mem, root) && f < |mem| && !Owns(mem, root, f)
    ensures var mem' := mem[f := page];
      && Tree(mem', root) && SameTables(mem, mem', root)
      && (forall t: nat :: Owns(mem', root, t) <==> Owns(mem, root, t))
      && forall v: nat | v < LOWER_PAGES :: Leaf(mem', root, v) == Leaf(mem, root, v)
  {
    SameOnTables(mem, mem[f := page], root);
  }

  /** Two memories that agree on the tables of a space describe the same space. */
  lemma SameOnTables(mem: seq<Page>, mem': seq<Page>, root: nat)
    requires Tree(mem, root) && |mem'| == |mem|
    requires forall t: nat | t < |mem| && Owns(mem, root, t) :: mem'[t] == mem[t]
    ensures Tree(mem', root) && SameTables(mem, mem', root)
    ensures forall t: nat :: Owns(mem', root, t) <==> Owns(mem, root, t)
    ensures forall v: nat | v < LOWER_PAGES :: Leaf(mem', root, v) == Leaf(mem, root, v)
  {
    forall l: nat, p: nat | Lower(l, p) ensures TableAt(mem', root, l, p) == TableAt(mem, root, l, p) {
      OutsideTables(mem, root, mem', l, p);
    }
    TreeFromSameTables(mem, mem', root);
    forall v: nat | v < LOWER_PAGES ensures Leaf(mem', root, v) == Leaf(mem, root, v) {
      assert Lower(0, v / ENTRIES);
      var t := TableAt(mem, root, 0, v / ENTRIES);
      if t.Some? { assert Owns(mem, root, t.value); }
    }
  }

  // ---- the entries between the tables ---------------------------------------------

  /** The entry that leads to the table at a position, if there is one. */
  ghost function EntryTo(mem: seq<Page>, root: nat, l: nat, p: nat): Option<Pte>
    requires l < 3
  {
    var up := TableAt(mem, root, l + 1, p / ENTRIES);
    if up.None? || !IsTable(mem, up.value) then None
    else
      var e := mem[up.value].entries[p % ENTRIES];
      if Present(e) then Some(e) else None
  }

  /** The entry to a position is as it was, or it is new and has these flags. */
  ghost predicate EntryStep(mem: seq<Page>, mem': seq<Page>, root: nat, l: nat, p: nat, flags: Flags)
    requires l < 3
  {
    || EntryTo(mem', root, l, p) == EntryTo(mem, root, l, p)
    || (EntryTo(mem, root, l, p).None? && EntryTo(mem', root, l, p).Some?
        && EntryTo(mem', root, l, p).value.flags == flags)
  }

  /** No entry between tables changed; new ones have these flags. */
  ghost predicate EntriesKept(mem: seq<Page>, mem': seq<Page>, root: nat, flags: Flags) {
    forall l: nat, p: nat | l < 3 && Lower(l, p) :: EntryStep(mem, mem', root, l, p, flags)
  }

  lemma EntriesTransitive(a: seq<Page>, b: seq<Page>, c: seq<Page>, root: nat, flags: Flags)
    requires EntriesKept(a, b, root, flags) && EntriesKept(b, c, root, flags)
    ensures EntriesKept(a, c, root, flags)
  {
    hide EntryTo;
    forall l: nat, p: nat | l < 3 && Lower(l, p) ensures EntryStep(a, c, root, l, p, flags) {
      assert EntryStep(a, b, root, l, p, flags) && EntryStep(b, c, root, l, p, flags);
    }
  }

  /** Linking a table adds one entry and changes no other. */
  lemma LinkEntries(mem: seq<Page>, root: nat, l: nat, p: nat, i: nat, f: nat, flags: Flags)
    requires Tree(mem, root) && 0 < l && Lower(l, p) && TableAt(mem, root, l, p).Some? && i < ENTRIES
    requires Lower(l - 1, p * ENTRIES + i) && TableAt(mem, root, l - 1, p * ENTRIES + i).None?
    requires f < |mem| && !Owns(mem, root, f) && flags & PRESENT != 0
    ensures IsTable(mem, TableAt(mem, root, l, p).value) && f != TableAt(mem, root, l, p).value
    ensures EntriesKept(mem, Link(mem, TableAt(mem, root, l, p).value, i, f, flags), root, flags)
  {
    hide TableAt, Tree, Owns, Translate, Positions;
    var t := TableAt(mem, root, l, p).value;
    LinkKeeps(mem, root, l, p, i, f, flags);
    LinkShape(mem, t, i, f, flags);
    var mem' := Link(mem, t, i, f, flags);
    forall k: nat, q: nat | k < 3 && Lower(k, q) ensures EntryStep(mem, mem', root, k, q, flags) {
      LowerUp(k, q);
      EntryLeadsTo(mem, root, k, q);
      var up := TableAt(mem, root, k + 1, q / ENTRIES);
      if up.Some? {
        OwnedTable(mem, root, k + 1, q / ENTRIES);
        if up.value == t {
          OnePlace(mem, root, l, p, k + 1, q / ENTRIES);
          assert q == p * ENTRIES + q % ENTRIES;
        }
      }
    }
  }

  lemma OnePlace(mem: seq<Page>, root: nat, l: nat, p: nat, l': nat, p': nat)
    requires Tree(mem, root) && Lower(l, p) && Lower(l', p')
    requires TableAt(mem, root, l, p).Some? && TableAt(mem, root, l, p) == TableAt(mem, root, l', p')
    ensures l == l' && p == p'
  {
    hide TableAt;
    assert SamePlace(mem, root, l, p, l', p');
  }

  /** Storing a leaf changes no entry between tables. */
  lemma LeafEntries(mem: seq<Page>, root: nat, v: nat, e: Pte, flags: Flags)
    requires Tree(mem, root) && v < LOWER_PAGES && TableAt(mem, root, 0, v / ENTRIES).Some?
    ensures IsTable(mem, TableAt(mem, root, 0, v / ENTRIES).value)
    ensures EntriesKept(mem, Store(mem, TableAt(mem, root, 0, v / ENTRIES).value, v % ENTRIES, e), root, flags)
  {
    hide TableAt, Tree, Owns, Translate, Positions, Leaf;
    LowerPage(v);
    StoreLeaf(mem, root, v, e);
    var t := TableAt(mem, root, 0, v / ENTRIES).value;
    var mem' := Store(mem, t, v % ENTRIES, e);
    forall k: nat, q: nat | k < 3 && Lower(k, q) ensures EntryStep(mem, mem', root, k, q, flags) {
      LowerUp(k, q);
      var up := TableAt(mem, root, k + 1, q / ENTRIES);
      if up.Some? {
        OwnedTable(mem, root, k + 1, q / ENTRIES);
        if up.value == t { OnePlace(mem, root, 0, v / ENTRIES, k + 1, q / ENTRIES); }
      }
    }
  }

  /** Neither does a change outside the tables of the space. */
  lemma OutsideEntries(mem: seq<Page>, mem': seq<Page>, root: nat)
    requires Tree(mem, root) && |mem'| == |mem|
    requires forall t: nat | t < |mem| && Owns(mem, root, t) :: mem'[t] == mem[t]
    ensures forall l: nat, p: nat | l < 3 && Lower(l, p) :: EntryTo(mem', root, l, p) == EntryTo(mem, root, l, p)
  {
    hide TableAt, Tree, Owns, Positions, Leaf;
    SameOnTables(mem, mem', root);
    forall l: nat, p: nat | l < 3 && Lower(l, p) ensures EntryTo(mem', root, l, p) == EntryTo(mem, root, l, p) {
      LowerUp(l, p);
      if TableAt(mem, root, l + 1, p / ENTRIES).Some? { OwnedTable(mem, root, l + 1, p / ENTRIES); }
    }
  }

  /** A table is there exactly when there is an entry to it. */
  lemma EntryLeadsTo(mem: seq<Page>, root: nat, l: nat, p: nat)
    requires l < 3
    ensures var e := EntryTo(mem, root, l, p);
      TableAt(mem, root, l, p) == if e.Some? then Some(e.value.frame) else None
  {
  }
}
