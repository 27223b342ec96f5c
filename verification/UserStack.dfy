/**
 elf.c's build_user_stack: the arguments of a new program are written through its page
 tables, and crt0.S finds them again from the stack pointer alone.
 */
module UserStack {
  import opened Options
  import opened Bytes
  import opened ByteOrder
  import opened Pmm
  import opened PageTables
  import opened Pmap
  import opened PmapFork
  import opened PmapRights
  import opened UserMemory

  const STACK_TOP: nat := 0x7000_0000
  const STACK_PAGES: nat := 16
  const STACK_PAGE: nat := STACK_TOP / PAGE_SIZE - STACK_PAGES
  const STACK_BASE: nat := STACK_PAGE * PAGE_SIZE
  const MAX_ARGS: nat := 32
  const MAX_ARG_LEN: nat := 256

  function Words(vec: seq<nat>): (s: seq<byte>)
    ensures |s| == 8 * |vec|
  {
    if vec == [] then [] else Le(vec[0], 8) + Words(vec[1..])
  }

  lemma {:induction false} WordAt(vec: seq<nat>, k: nat)
    requires k < |vec|
    ensures Words(vec)[8 * k..8 * k + 8] == Le(vec[k], 8)
  {
    if k > 0 {
      WordAt(vec[1..], k - 1);
      assert Words(vec)[8 * k..8 * k + 8] == Words(vec[1..])[8 * (k - 1)..8 * (k - 1) + 8];
    }
  }

  // ---- What crt0.S and main read -----------------------------------------------------

  /** `s` lies at address `a`. */
  ghost predicate Holds(mem: seq<Page>, root: nat, a: nat, s: seq<byte>) {
    forall x: nat | a <= x < a + |s| :: ByteAt(mem, root, x) == Some(s[x - a])
  }

  ghost function ReadBytes(mem: seq<Page>, root: nat, a: nat, n: nat): Option<seq<byte>>
    decreases n
  {
    if n == 0 then Some([])
    else match (ByteAt(mem, root, a), ReadBytes(mem, root, a + 1, n - 1))
      case (Some(b), Some(s)) => Some([b] + s)
      case _ => None
  }

  /** The 8-byte word at an address. */
  ghost function ReadWord(mem: seq<Page>, root: nat, a: nat): Option<nat> {
    match ReadBytes(mem, root, a, 8) case Some(s) => Some(LeValue(s)) case None => None
  }

  /** The NUL-terminated string at an address. */
  ghost function ReadString(mem: seq<Page>, root: nat, a: nat): Option<seq<byte>>
    decreases LOWER_BYTES - a
  {
    if a >= LOWER_BYTES then None
    else match ByteAt(mem, root, a)
      case None => None
      case Some(b) =>
        if b == 0 then Some([])
        else match ReadString(mem, root, a + 1) case Some(s) => Some([b] + s) case None => None
  }

  lemma {:induction false} BytesRead(mem: seq<Page>, root: nat, a: nat, s: seq<byte>)
    requires Holds(mem, root, a, s)
    ensures ReadBytes(mem, root, a, |s|) == Some(s)
    decreases |s|
  {
    hide ByteAt;
    if s != [] {
      assert Holds(mem, root, a + 1, s[1..]);
      BytesRead(mem, root, a + 1, s[1..]);
      assert ByteAt(mem, root, a) == Some(s[0]);
      assert [s[0]] + s[1..] == s;
    }
  }

  lemma WordRead(mem: seq<Page>, root: nat, a: nat, n: nat)
    requires Holds(mem, root, a, Le(n, 8)) && n < 0x1_0000_0000
    ensures ReadWord(mem, root, a) == Some(n)
  {
    BytesRead(mem, root, a, Le(n, 8));
    assert Pow256(4) == 0x1_0000_0000;
    assert Pow256(8) == 0x1_0000_0000 * 0x1_0000_0000 by { assert Pow256(6) == 0x1_0000_0000 * 0x1_0000; }
    LeRoundTrip(n, 8);
  }

  lemma {:induction false} StringRead(mem: seq<Page>, root: nat, a: nat, s: seq<byte>)
    requires Holds(mem, root, a, s + [0]) && 0 !in s && a + |s| < LOWER_BYTES
    ensures ReadString(mem, root, a) == Some(s)
    decreases |s|
  {
    hide ByteAt;
    assert ByteAt(mem, root, a) == Some((s + [0])[0]);
    if s != [] {
      assert s[1..] + [0] == (s + [0])[1..];
      forall x: nat | a + 1 <= x < a + 1 + |s[1..] + [0]|
        ensures ByteAt(mem, root, x) == Some((s[1..] + [0])[x - (a + 1)]) {
        assert ByteAt(mem, root, x) == Some((s + [0])[x - a]);
      }
      StringRead(mem, root, a + 1, s[1..]);
      assert [s[0]] + s[1..] == s;
    }
  }

  /** What is copied of an argument: 256 bytes at most, so a longer one loses its terminator. */
  function Copied(s: seq<byte>): (r: seq<byte>)
    ensures |r| <= MAX_ARG_LEN && (|s| < MAX_ARG_LEN ==> r == s + [0]) && (|s| >= MAX_ARG_LEN ==> r == s[..MAX_ARG_LEN])
  {
    if |s| + 1 > MAX_ARG_LEN then (s + [0])[..MAX_ARG_LEN] else s + [0]
  }

  lemma HoldsNew(mem: seq<Page>, mem': seq<Page>, root: nat, va: nat, src: seq<byte>)
    requires Written(mem, mem', root, va, src) && va + |src| <= LOWER_BYTES
    ensures Holds(mem', root, va, src)
  {
    hide ByteAt;
  }

  lemma HoldsKept(mem: seq<Page>, mem': seq<Page>, root: nat, va: nat, src: seq<byte>, a: nat, s: seq<byte>)
    requires Written(mem, mem', root, va, src) && Holds(mem, root, a, s) && a + |s| <= LOWER_BYTES
    requires va + |src| <= a || a + |s| <= va
    ensures Holds(mem', root, a, s)
  {
    hide ByteAt;
  }

  lemma HoldsPart(mem: seq<Page>, root: nat, a: nat, s: seq<byte>, i: nat, j: nat)
    requires Holds(mem, root, a, s) && i <= j <= |s|
    ensures Holds(mem, root, a + i, s[i..j])
  {
    hide ByteAt;
    forall x: nat | a + i <= x < a + i + |s[i..j]| ensures ByteAt(mem, root, x) == Some(s[i..j][x - (a + i)]) {
      assert ByteAt(mem, root, x) == Some(s[x - a]);
    }
  }

  // ---- The builder ----------------------------------------------------------------

  ghost predicate StackMapped(mem: seq<Page>, root: nat) {
    forall u: nat | STACK_PAGE <= u < STACK_PAGE + STACK_PAGES :: Translate(mem, root, u).Some?
  }

  /** Arguments `i` up to `argc` lie, copied, at their addresses between `sp` and the top. */
  ghost predicate Placed(mem: seq<Page>, root: nat, argv: seq<seq<byte>>, addrs: seq<nat>, i: nat, argc: nat, sp: nat) {
    argc <= |argv| && argc <= |addrs| && forall k: nat | i <= k < argc :: PlacedAt(mem, root, argv[k], addrs[k], sp)
  }

  ghost predicate PlacedAt(mem: seq<Page>, root: nat, arg: seq<byte>, a: nat, sp: nat) {
    sp <= a && a + |Copied(arg)| <= STACK_TOP && Holds(mem, root, a, Copied(arg))
  }

  lemma PlacedKept(mem: seq<Page>, mem': seq<Page>, root: nat, argv: seq<seq<byte>>, addrs: seq<nat>, i: nat,
                   argc: nat, sp: nat, va: nat, src: seq<byte>)
    requires Placed(mem, root, argv, addrs, i, argc, sp) && Written(mem, mem', root, va, src) && va + |src| <= sp
    ensures Placed(mem', root, argv, addrs, i, argc, sp)
  {
    hide Holds, Written, Copied;
    forall k: nat | i <= k < argc ensures PlacedAt(mem', root, argv[k], addrs[k], sp) {
      assert PlacedAt(mem, root, argv[k], addrs[k], sp);
      HoldsKept(mem, mem', root, va, src, addrs[k], Copied(argv[k]));
    }
  }

  lemma StackRange(mem: seq<Page>, root: nat, va: nat, len: nat)
    requires StackMapped(mem, root) && STACK_BASE <= va && va + len <= STACK_TOP
    ensures MappedRange(mem, root, va, len)
  {
  }

  /** One write into the stack region.  All its pages are mapped, so the copy does not fail. */
  method Push(m: Memory, root: nat, va: nat, src: seq<byte>)
    requires m.Valid() && Private(m.mem, m.free, root) && StackMapped(m.mem, root)
    requires STACK_BASE <= va && va + |src| <= STACK_TOP
    modifies m`mem
    ensures m.Valid() && Private(m.mem, m.free, root) && StackMapped(m.mem, root)
    ensures Written(old(m.mem), m.mem, root, va, src) && SameRights(old(m.mem), m.mem, root)
  {
    hide Private, Memory.Counted, Written, Translate, MappedRange, SameRights;
    StackRange(m.mem, root, va, |src|);
    var ok := CopyToVa(m, root, va, src);
  }

  /** From `mem` to `mem'` only stack addresses have changed. */
  ghost predicate StackOnly(mem: seq<Page>, mem': seq<Page>, root: nat) {
    forall a: nat | a < LOWER_BYTES && !(STACK_BASE <= a < STACK_TOP) :: ByteAt(mem', root, a) == ByteAt(mem, root, a)
  }

  lemma StackOnlyStep(mem: seq<Page>, a: seq<Page>, b: seq<Page>, root: nat, va: nat, src: seq<byte>)
    requires StackOnly(mem, a, root) && Written(a, b, root, va, src) && STACK_BASE <= va && va + |src| <= STACK_TOP
    ensures StackOnly(mem, b, root)
  {
    hide ByteAt;
  }

  /** The argument strings, from the top downward. */
  method PlaceStrings(m: Memory, root: nat, argv: seq<seq<byte>>, argc: nat) returns (addrs: seq<nat>, sp: nat)
    requires m.Valid() && Private(m.mem, m.free, root) && StackMapped(m.mem, root) && argc <= |argv| && argc <= MAX_ARGS
    modifies m`mem
    ensures m.Valid() && Private(m.mem, m.free, root) && StackMapped(m.mem, root) && StackOnly(old(m.mem), m.mem, root)
    ensures STACK_TOP - MAX_ARG_LEN * argc <= sp <= STACK_TOP
    ensures |addrs| == argc && Placed(m.mem, root, argv, addrs, 0, argc, sp) && SameRights(old(m.mem), m.mem, root)
  {
    hide Private, Memory.Counted, Written, ByteAt, Holds, StackMapped, StackOnly, Grants;
    addrs, sp := seq(argc, _ => 0), STACK_TOP;
    assert StackOnly(m.mem, m.mem, root) by { StackOnlyRefl(m.mem, root); }
    var i := argc;
    while i > 0
      invariant i <= argc && |addrs| == argc && STACK_TOP - MAX_ARG_LEN * (argc - i) <= sp <= STACK_TOP
      invariant m.Valid() && Private(m.mem, m.free, root) && StackMapped(m.mem, root)
      invariant StackOnly(old(m.mem), m.mem, root) && SameRights(old(m.mem), m.mem, root)
      invariant Placed(m.mem, root, argv, addrs, i, argc, sp)
    {
      i := i - 1;
      var arg := argv[i];
      var len := |arg| + 1;
      if len > MAX_ARG_LEN { len := MAX_ARG_LEN; }
      ghost var was, above := m.mem, sp;
      sp := sp - len;
      Push(m, root, sp, (arg + [0])[..len]);
      assert (arg + [0])[..len] == Copied(arg);
      PlacedKept(was, m.mem, root, argv, addrs, i + 1, argc, above, sp, Copied(arg));
      HoldsNew(was, m.mem, root, sp, Copied(arg));
      StackOnlyStep(old(m.mem), was, m.mem, root, sp, Copied(arg));
      addrs := addrs[i := sp];
    }
  }

  lemma StackOnlyRefl(mem: seq<Page>, root: nat)
    ensures StackOnly(mem, mem, root)
  {
  }

  /**
   What a program finds at its entry: argc at the stack pointer, then the argument
   pointers, a null pointer and an empty environment, every pointer leading to its string.
   */
  ghost predicate Entry(mem: seq<Page>, root: nat, rsp: nat, argv: seq<seq<byte>>, argc: nat)
    requires argc <= |argv|
  {
    && STACK_BASE <= rsp && rsp + 8 * argc + 24 <= STACK_TOP
    && ReadWord(mem, root, rsp) == Some(argc)
    && (forall i: nat | i < argc :: Pointed(mem, root, rsp + 8 + 8 * i, argv[i]))
    && ReadWord(mem, root, rsp + 8 + 8 * argc) == Some(0)
    && ReadWord(mem, root, rsp + 16 + 8 * argc) == Some(0)
  }

  /** The word at `a` is the address of a copy of `arg`, inside the stack; short arguments come back whole. */
  ghost predicate Pointed(mem: seq<Page>, root: nat, a: nat, arg: seq<byte>) {
    && ReadWord(mem, root, a).Some?
    && var p := ReadWord(mem, root, a).value;
       && STACK_BASE <= p && p + |Copied(arg)| <= STACK_TOP && Holds(mem, root, p, Copied(arg))
       && (|arg| < MAX_ARG_LEN && 0 !in arg ==> ReadString(mem, root, p) == Some(arg))
  }

  lemma PointedBy(mem: seq<Page>, root: nat, a: nat, arg: seq<byte>, p: nat, sp: nat)
    requires PlacedAt(mem, root, arg, p, sp) && STACK_BASE <= sp && Holds(mem, root, a, Le(p, 8))
    ensures Pointed(mem, root, a, arg)
  {
    hide Holds, ReadString, ReadWord;
    WordRead(mem, root, a, p);
    if |arg| < MAX_ARG_LEN && 0 !in arg { StringRead(mem, root, p, arg); }
  }

  /** Strings above, pointer vector below, argc below that. */
  lemma EntryBuilt(mem: seq<Page>, root: nat, argv: seq<seq<byte>>, addrs: seq<nat>, argc: nat, sp: nat, rsp: nat)
    requires Placed(mem, root, argv, addrs, 0, argc, sp) && |addrs| == argc && STACK_BASE <= rsp
    requires rsp + 8 * argc + 24 <= sp <= STACK_TOP
    requires Holds(mem, root, rsp, Le(argc, 8)) && Holds(mem, root, rsp + 8, Words(addrs + [0, 0])) && argc <= MAX_ARGS
    ensures Entry(mem, root, rsp, argv, argc)
  {
    hide Holds, ReadWord, Pointed, PlacedAt, Words, Le;
    var vec := addrs + [0, 0];
    forall k: nat | k < |vec| ensures Holds(mem, root, rsp + 8 + 8 * k, Le(vec[k], 8)) {
      WordAt(vec, k);
      HoldsPart(mem, root, rsp + 8, Words(vec), 8 * k, 8 * k + 8);
    }
    WordRead(mem, root, rsp, argc);
    assert vec[argc] == 0 && vec[argc + 1] == 0;
    WordRead(mem, root, rsp + 8 + 8 * argc, 0);
    WordRead(mem, root, rsp + 8 + 8 * (argc + 1), 0);
    forall i: nat | i < argc ensures Pointed(mem, root, rsp + 8 + 8 * i, argv[i]) {
      assert vec[i] == addrs[i];
      PointedBy(mem, root, rsp + 8 + 8 * i, argv[i], addrs[i], sp);
    }
  }

  /** How many arguments are passed on. */
  function Count(argv: seq<seq<byte>>): (argc: nat)
    ensures argc <= |argv| && argc <= MAX_ARGS && (|argv| <= MAX_ARGS ==> argc == |argv|)
  {
    if |argv| < MAX_ARGS then |argv| else MAX_ARGS
  }

  /**
   build_user_stack.  It fails exactly when the frames for the 16 pages and the missing
   tables are not there; otherwise the program finds its arguments, nothing outside the
   stack changes, and the stack pointer is 8 modulo 16, which the entry code has to correct.
   */
  method BuildUserStack(m: Memory, root: nat, argv: seq<seq<byte>>) returns (rsp: nat)
    requires m.Valid() && Private(m.mem, m.free, root)
    modifies m`mem, m`free, m.pmm, m.pmm.bitmap
    ensures m.Valid() && Private(m.mem, m.free, root)
    ensures rsp == 0 <==> |old(m.free)| < STACK_PAGES + Missing(old(m.mem), root, STACK_PAGE, 3)
    ensures rsp != 0 ==> rsp % 16 == 8 && Entry(m.mem, root, rsp, argv, Count(argv))
    ensures rsp != 0 ==>
      StackOnly(old(m.mem), m.mem, root) && RangeRights(old(m.mem), m.mem, root, STACK_PAGE, STACK_PAGES)
  {
    hide Private, Memory.Counted, Written, ByteAt, Holds, Missing, Words, Le, Placed, ReadWord, Entry, StackMapped,
      StackOnly, ZeroedPages, Need, RangeRights, SameRights;
    var mapped := MapZeroedRange(m, root, STACK_PAGE, STACK_PAGES);
    if !mapped { return 0; }
    ZeroedStack(old(m.mem), m.mem, root);

    var argc := 0;
    while argc < |argv| && argc < MAX_ARGS
      invariant argc <= Count(argv)
    {
      argc := argc + 1;
    }
    ghost var m1 := m.mem;
    var addrs, sp := PlaceStrings(m, root, argv, argc);
    StackOnlyTrans(old(m.mem), m1, m.mem, root);
    ghost var strings := sp;
    sp := sp - sp % 16;
    var vec := addrs + [0, 0];
    sp := sp - 8 * |vec|;
    sp := sp - sp % 16;
    ghost var m2 := m.mem;
    Push(m, root, sp, Words(vec));
    ghost var m3 := m.mem;
    rsp := sp - 8;
    Push(m, root, rsp, Le(argc, 8));
    VectorKept(m2, m3, m.mem, root, argv, addrs, argc, strings, sp);
    StackOnlyStep(old(m.mem), m2, m3, root, sp, Words(vec));
    StackOnlyStep(old(m.mem), m3, m.mem, root, rsp, Le(argc, 8));
    RightsLast(old(m.mem), m1, m2, root);
    RightsLast(old(m.mem), m2, m3, root);
    RightsLast(old(m.mem), m3, m.mem, root);
  }

  lemma RightsLast(mem: seq<Page>, a: seq<Page>, b: seq<Page>, root: nat)
    requires RangeRights(mem, a, root, STACK_PAGE, STACK_PAGES) && SameRights(a, b, root)
    ensures RangeRights(mem, b, root, STACK_PAGE, STACK_PAGES)
  {
    hide Grants, PathAllows;
  }

  lemma ZeroedStack(mem: seq<Page>, mem': seq<Page>, root: nat)
    requires ZeroedPages(mem, mem', root, STACK_PAGE, STACK_PAGES)
    ensures StackMapped(mem', root) && StackOnly(mem, mem', root)
  {
    hide ByteAt, Translate;
  }

  lemma StackOnlyTrans(a: seq<Page>, b: seq<Page>, c: seq<Page>, root: nat)
    requires StackOnly(a, b, root) && StackOnly(b, c, root)
    ensures StackOnly(a, c, root)
  {
    hide ByteAt;
  }

  /** The two writes below the strings leave the strings and each other alone. */
  lemma VectorKept(m2: seq<Page>, m3: seq<Page>, m4: seq<Page>, root: nat, argv: seq<seq<byte>>, addrs: seq<nat>,
                   argc: nat, strings: nat, sp: nat)
    requires Placed(m2, root, argv, addrs, 0, argc, strings) && |addrs| == argc && argc <= MAX_ARGS
    requires strings <= STACK_TOP
    requires STACK_BASE + 8 <= sp && sp + 8 * argc + 16 <= strings
    requires Written(m2, m3, root, sp, Words(addrs + [0, 0])) && Written(m3, m4, root, sp - 8, Le(argc, 8))
    ensures Entry(m4, root, sp - 8, argv, argc)
  {
    hide Holds, Written, Placed, Entry, Words, Le;
    var words := Words(addrs + [0, 0]);
    PlacedKept(m2, m3, root, argv, addrs, 0, argc, strings, sp, words);
    HoldsNew(m2, m3, root, sp, words);
    PlacedKept(m3, m4, root, argv, addrs, 0, argc, strings, sp - 8, Le(argc, 8));
    HoldsKept(m3, m4, root, sp - 8, Le(argc, 8), sp, words);
    HoldsNew(m3, m4, root, sp - 8, Le(argc, 8));
    EntryBuilt(m4, root, argv, addrs, argc, strings, sp - 8);
  }
}
