/** pmap_fork: a child space whose pages are private copies of the parent's. */
module PmapFork {
  import opened Options
  import opened Bytes
  import opened Pmm
  import opened PageTables
  import opened Pmap

  /** What an address space depends on: memory, the free frames and the reference counts. */
  datatype World = World(mem: seq<Page>, free: set<nat>, refs: seq<nat>)

  /** Flags of a copied page: as the parent's, writable, not copy-on-write. */
  function ChildFlags(flags: Flags): Flags {
    PRESENT | ((flags & !(WRITE | COW)) | WRITE)
  }

  /** Frame `f` is mapped by some lower-half page. */
  ghost predicate IsLeaf(mem: seq<Page>, root: nat, f: nat) {
    exists v: nat | v < LOWER_PAGES :: Translate(mem, root, v).Some? && Translate(mem, root, v).value.frame == f
  }

  /** Page `v` of the child is a private copy of page `v` of the parent as it was in `w0`, or neither is mapped. */
  ghost predicate CopyOf(w0: World, parent: nat, w: World, child: nat, v: nat) {
    match Translate(w0.mem, parent, v)
    case None => Translate(w.mem, child, v).None?
    case Some(e) =>
      && Translate(w.mem, child, v).Some?
      && var c := Translate(w.mem, child, v).value;
         && c.flags == ChildFlags(e.flags)
         && c.frame in w0.free - w.free && !Owns(w.mem, child, c.frame)
         && e.frame < |w0.mem| && c.frame < |w.mem| && w.mem[c.frame] == w0.mem[e.frame]
         && c.frame < |w.refs| && w.refs[c.frame] == 1
  }

  ghost predicate SharedFrame(mem: seq<Page>, root: nat, v: nat, u: nat) {
    && v != u && Translate(mem, root, v).Some? && Translate(mem, root, u).Some?
    && Translate(mem, root, v).value.frame == Translate(mem, root, u).value.frame
  }

  /** From `w0` to `w` only frames that were free have changed, and the child's tables are among them. */
  ghost predicate Apart(w0: World, w: World, child: nat) {
    && |w.mem| == |w0.mem| && |w.refs| == |w0.refs| && w.free <= w0.free
    && (forall t: nat | t < |w.mem| && t !in w0.free :: w.mem[t] == w0.mem[t])
    && Tree(w.mem, child) && (forall t: nat | Owns(w.mem, child, t) :: t in w0.free - w.free)
  }

  /** The frames taken are the child's tables and pages, each page in its own frame, and only pages are counted. */
  ghost predicate Accounted(w0: World, w: World, child: nat) {
    && (forall f <- w0.free - w.free :: Owns(w.mem, child, f) || IsLeaf(w.mem, child, f))
    && (forall v: nat, u: nat | v < LOWER_PAGES && u < LOWER_PAGES :: !SharedFrame(w.mem, child, v, u))
    && (forall f: nat | f < |w0.refs| && |w.refs| == |w0.refs| && !IsLeaf(w.mem, child, f) :: w.refs[f] == w0.refs[f])
  }

  /** Pages below `n` are copied, the others are not mapped yet. */
  ghost predicate CopiedTo(w0: World, parent: nat, w: World, child: nat, n: nat) {
    && (forall v: nat | v < n && v < LOWER_PAGES :: CopyOf(w0, parent, w, child, v))
    && (forall v: nat | n <= v < LOWER_PAGES :: Translate(w.mem, child, v).None?)
  }

  ghost predicate Forked(w0: World, parent: nat, w: World, child: nat, n: nat) {
    Apart(w0, w, child) && Accounted(w0, w, child) && CopiedTo(w0, parent, w, child, n)
  }

  /** The parent's pages lie in frames that exist and are not free, and so do its tables. */
  ghost predicate ParentOk(w: World, parent: nat) {
    && Tree(w.mem, parent) && (forall t: nat | Owns(w.mem, parent, t) :: t !in w.free)
    && (forall v: nat | v < LOWER_PAGES && Translate(w.mem, parent, v).Some? ::
          Translate(w.mem, parent, v).value.frame < |w.mem| && Translate(w.mem, parent, v).value.frame !in w.free)
    && (forall f <- w.free :: f < |w.mem| && f < |w.refs| && w.refs[f] == 0)
  }

  // ---- one page -----------------------------------------------------------

  /** A free frame is filled and counted, and the child's tables grow. */
  ghost predicate FrameStep(w: World, w': World, child: nat, f: nat, page: Page) {
    && f in w.free && f < |w.mem| && f < |w.refs|
    && Expanded(w.mem[f := page], w.free - {f}, w'.mem, w'.free, child) && Tree(w'.mem, child)
    && w'.refs == w.refs[f := w.refs[f] + 1]
  }

  /** What the frame allocation, the copy, the count and a successful pmap_map do together for page `v`. */
  ghost predicate PageStep(w: World, w': World, child: nat, v: nat, f: nat, page: Page, flags: Flags) {
    FrameStep(w, w', child, f, page) && Retargeted(w.mem[f := page], w'.mem, child, v, Pte(f, flags))
  }

  lemma FrameApart(w0: World, w: World, w': World, child: nat, f: nat, page: Page)
    requires Apart(w0, w, child) && FrameStep(w, w', child, f, page)
    ensures Apart(w0, w', child) && f in w0.free - w'.free && !Owns(w'.mem, child, f) && w'.mem[f] == page
    ensures forall t: nat | t in w0.free - w.free && !Owns(w.mem, child, t) && t < |w.mem| ::
      w'.mem[t] == w.mem[t] && !Owns(w'.mem, child, t)
    ensures forall t <- w0.free - w'.free :: t in w0.free - w.free || t == f || Owns(w'.mem, child, t)
    ensures forall t: nat :: Owns(w.mem, child, t) ==> Owns(w'.mem, child, t)
  {
    WriteData(w.mem, child, f, page);
    hide Tree, Owns;
  }

  lemma StepApart(w0: World, w: World, w': World, child: nat, v: nat, f: nat, page: Page, flags: Flags)
    requires Apart(w0, w, child) && PageStep(w, w', child, v, f, page, flags)
    ensures Apart(w0, w', child) && f in w0.free - w'.free && !Owns(w'.mem, child, f) && w'.mem[f] == page
    ensures forall t: nat | t in w0.free - w.free && !Owns(w.mem, child, t) && t < |w.mem| ::
      w'.mem[t] == w.mem[t] && !Owns(w'.mem, child, t)
    ensures forall u: nat | u < LOWER_PAGES && u != v :: Translate(w'.mem, child, u) == Translate(w.mem, child, u)
    ensures forall t <- w0.free - w'.free :: t in w0.free - w.free || t == f || Owns(w'.mem, child, t)
    ensures forall t: nat :: Owns(w.mem, child, t) ==> Owns(w'.mem, child, t)
  {
    FrameApart(w0, w, w', child, f, page);
    WriteData(w.mem, child, f, page);
  }

  lemma StepCopied(w0: World, parent: nat, w: World, w': World, child: nat, v: nat, f: nat)
    requires ParentOk(w0, parent) && Apart(w0, w, child) && CopiedTo(w0, parent, w, child, v) && v < LOWER_PAGES
    requires Translate(w0.mem, parent, v).Some? && Translate(w0.mem, parent, v).value.frame < |w.mem|
    requires f < |w.refs| && w.refs[f] == 0
    requires var e := Translate(w0.mem, parent, v).value;
      PageStep(w, w', child, v, f, w.mem[e.frame], ChildFlags(e.flags))
    ensures CopiedTo(w0, parent, w', child, v + 1)
  {
    var e := Translate(w0.mem, parent, v).value;
    StepApart(w0, w, w', child, v, f, w.mem[e.frame], ChildFlags(e.flags));
    FlagsPresent(e.flags);
    hide Tree, Owns, Translate, Expanded;
    forall u: nat | u < v + 1 && u < LOWER_PAGES ensures CopyOf(w0, parent, w', child, u) {
      if u < v { assert CopyOf(w0, parent, w, child, u); }
    }
  }

  lemma FlagsPresent(flags: Flags)
    ensures ChildFlags(flags) & PRESENT != 0
  {
  }

  lemma StepAccounted(w0: World, parent: nat, w: World, w': World, child: nat, v: nat, f: nat, page: Page, flags: Flags)
    requires Apart(w0, w, child) && Accounted(w0, w, child) && v < LOWER_PAGES && Translate(w.mem, child, v).None?
    requires PageStep(w, w', child, v, f, page, flags) && flags & PRESENT != 0
    requires forall u: nat | u < LOWER_PAGES && Translate(w.mem, child, u).Some? ::
      Translate(w.mem, child, u).value.frame !in w.free
    ensures Accounted(w0, w', child)
  {
    StepApart(w0, w, w', child, v, f, page, flags);
    assert Translate(w'.mem, child, v) == Some(Pte(f, flags));
    hide Tree, Owns, Translate, Expanded;
    forall t | t in w0.free - w'.free ensures Owns(w'.mem, child, t) || IsLeaf(w'.mem, child, t) {
      if t == f {
        assert Translate(w'.mem, child, v).value.frame == t;
      } else if t in w0.free - w.free && IsLeaf(w.mem, child, t) {
        LeafStays(w, w', child, v, t);
      }
    }
    forall a: nat, b: nat | a < LOWER_PAGES && b < LOWER_PAGES ensures !SharedFrame(w'.mem, child, a, b) {
      assert !SharedFrame(w.mem, child, a, b);
    }
    forall g: nat | g < |w0.refs| && !IsLeaf(w'.mem, child, g) ensures w'.refs[g] == w0.refs[g] {
      assert g != f by { assert Translate(w'.mem, child, v).value.frame == f; }
      if IsLeaf(w.mem, child, g) { LeafStays(w, w', child, v, g); }
    }
  }

  lemma LeafStays(w: World, w': World, child: nat, v: nat, t: nat)
    requires IsLeaf(w.mem, child, t) && Translate(w.mem, child, v).None?
    requires forall u: nat | u < LOWER_PAGES && u != v :: Translate(w'.mem, child, u) == Translate(w.mem, child, u)
    ensures IsLeaf(w'.mem, child, t)
  {
    var u: nat :| u < LOWER_PAGES && Translate(w.mem, child, u).Some? && Translate(w.mem, child, u).value.frame == t;
    assert Translate(w'.mem, child, u).value.frame == t;
  }

  lemma StepForked(w0: World, parent: nat, w: World, w': World, child: nat, v: nat, f: nat)
    requires ParentOk(w0, parent) && Forked(w0, parent, w, child, v) && v < LOWER_PAGES
    requires Translate(w0.mem, parent, v).Some? && Translate(w0.mem, parent, v).value.frame < |w.mem|
    requires f < |w.refs| && w.refs[f] == 0
    requires var e := Translate(w0.mem, parent, v).value;
      PageStep(w, w', child, v, f, w.mem[e.frame], ChildFlags(e.flags))
    ensures Forked(w0, parent, w', child, v + 1)
  {
    var e := Translate(w0.mem, parent, v).value;
    StepApart(w0, w, w', child, v, f, w.mem[e.frame], ChildFlags(e.flags));
    StepCopied(w0, parent, w, w', child, v, f);
    FlagsPresent(e.flags);
    forall u: nat | u < LOWER_PAGES && Translate(w.mem, child, u).Some?
      ensures Translate(w.mem, child, u).value.frame !in w.free
    {
      if u < v { assert CopyOf(w0, parent, w, child, u); }
    }
    StepAccounted(w0, parent, w, w', child, v, f, w.mem[e.frame], ChildFlags(e.flags));
  }

  /** A stretch without pages. */
  lemma SkipForked(w0: World, parent: nat, w: World, child: nat, n: nat, n': nat)
    requires Forked(w0, parent, w, child, n) && n <= n'
    requires forall v: nat | n <= v < n' && v < LOWER_PAGES :: Translate(w0.mem, parent, v).None?
    ensures Forked(w0, parent, w, child, n')
  {
    hide Apart, Accounted, Translate;
    forall v: nat | v < n' && v < LOWER_PAGES ensures CopyOf(w0, parent, w, child, v) {
      if v < n { assert CopyOf(w0, parent, w, child, v); }
    }
  }
}
