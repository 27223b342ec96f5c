/** What header writes do to the block list and to the payloads. */
module HeapEdits {
  import opened Bytes
  import opened HeapBlocks

  /** A list in memory that tiles [lo, hi). */
  ghost predicate Sound(data: seq<byte>, blocks: seq<Block>, lo: nat, hi: nat) {
    0 < lo && hi <= |data| <= WORD && Tiled(blocks, lo, hi) && Linked(data, blocks)
  }

  lemma HeaderFits(blocks: seq<Block>, i: nat, lo: nat, hi: nat)
    requires Tiled(blocks, lo, hi) && i < |blocks| && hi <= WORD
    ensures Fits(HeaderOf(blocks, i))
  {
    TiledBounds(blocks, lo, hi);
    assert forall b <- blocks :: b.addr < WORD;
  }

  /** A header may be written at `x`: there is a block there, or free space, or nothing yet. */
  ghost predicate Safe(blocks: seq<Block>, hi: nat, x: nat) {
    x >= hi || exists j: nat | j < |blocks| :: SafeIn(blocks[j], x)
  }

  ghost predicate SafeIn(b: Block, x: nat) {
    x == b.addr || (b.free && b.addr + HEADER <= x && x + HEADER <= End(b))
  }

  lemma PayloadKept(data: seq<byte>, a: nat, h: Header, b: Block)
    requires a + HEADER <= |data| && End(b) <= |data| && (a <= b.addr || End(b) <= a)
    ensures SamePayload(data, StoreHeader(data, a, h), b)
  {
  }

  lemma LiveKept(data: seq<byte>, blocks: seq<Block>, lo: nat, hi: nat, x: nat, h: Header)
    requires Tiled(blocks, lo, hi) && hi <= |data| && x + HEADER <= |data| && Safe(blocks, hi, x)
    ensures SameBytes(data, StoreHeader(data, x, h), Live(blocks))
  {
    TiledBounds(blocks, lo, hi);
    forall b | b in Live(blocks) ensures SamePayload(data, StoreHeader(data, x, h), b) {
      var k: nat :| k < |blocks| && blocks[k] == b;
      if x < hi {
        var j: nat :| j < |blocks| && SafeIn(blocks[j], x);
        if j < k { TiledApart(blocks, j, k, lo, hi); }
        if k < j { TiledApart(blocks, k, j, lo, hi); }
      }
      PayloadKept(data, x, h, b);
    }
  }

  lemma SameBytesTrans(a: seq<byte>, b: seq<byte>, c: seq<byte>, live: set<Block>)
    requires SameBytes(a, b, live) && SameBytes(b, c, live)
    ensures SameBytes(a, c, live)
  {
    forall x <- live ensures SamePayload(a, c, x) {
      assert SamePayload(a, b, x) && SamePayload(b, c, x);
    }
  }

  /** Header writes at the addresses of a tiling do not disturb each other. */
  lemma Lookup(data: seq<byte>, blocks: seq<Block>, lo: nat, hi: nat, j: nat, h: Header, k: nat)
    requires Tiled(blocks, lo, hi) && hi <= |data| && j < |blocks| && k < |blocks| && Fits(h)
    ensures End(blocks[j]) <= hi && End(blocks[k]) <= hi
    ensures HeaderAt(StoreHeader(data, blocks[j].addr, h), blocks[k].addr)
         == if j == k then h else HeaderAt(data, blocks[k].addr)
  {
    TiledBounds(blocks, lo, hi);
    if j == k {
      StoredHeader(data, blocks[j].addr, h);
    } else {
      if j < k { TiledApart(blocks, j, k, lo, hi); } else { TiledApart(blocks, k, j, lo, hi); }
      OtherHeader(data, blocks[j].addr, h, blocks[k].addr);
    }
  }

  /** Reading the header of the `i`-th block. */
  lemma ReadAt(data: seq<byte>, blocks: seq<Block>, lo: nat, hi: nat, i: nat)
    requires Sound(data, blocks, lo, hi) && i < |blocks|
    ensures 0 < lo <= blocks[i].addr && End(blocks[i]) <= hi <= |data|
    ensures HeaderAt(data, blocks[i].addr) == HeaderOf(blocks, i) && Fits(HeaderOf(blocks, i))
    ensures HeaderOf(blocks, i).next == 0 <==> i + 1 == |blocks|
  {
    hide HeaderAt;
    TiledBounds(blocks, lo, hi);
    HeaderFits(blocks, i, lo, hi);
    assert LinkedAt(data, blocks, i);
    if i + 1 < |blocks| { assert blocks[i + 1] in blocks; }
  }

  /** A header written inside the payload of a block, in use or not, changes no list. */
  lemma StoreInside(data: seq<byte>, blocks: seq<Block>, lo: nat, hi: nat, x: nat, h: Header)
    requires Sound(data, blocks, lo, hi) && x + HEADER <= |data|
    requires exists j: nat | j < |blocks| :: blocks[j].addr + HEADER <= x && x + HEADER <= End(blocks[j])
    ensures Sound(StoreHeader(data, x, h), blocks, lo, hi)
  {
    hide HeaderAt, StoreHeader;
    var j: nat :| j < |blocks| && blocks[j].addr + HEADER <= x && x + HEADER <= End(blocks[j]);
    forall k: nat | k < |blocks| ensures LinkedAt(StoreHeader(data, x, h), blocks, k) {
      ReadAt(data, blocks, lo, hi, k);
      if j < k { TiledApart(blocks, j, k, lo, hi); }
      if k < j { TiledApart(blocks, k, j, lo, hi); }
      OtherHeader(data, x, h, blocks[k].addr);
    }
  }

  /** A header written where no block of the list has its own changes no list and no payload. */
  lemma StoreUnlisted(data: seq<byte>, blocks: seq<Block>, lo: nat, hi: nat, x: nat, h: Header)
    requires Sound(data, blocks, lo, hi) && x + HEADER <= |data|
    requires x >= hi || exists j: nat | j < |blocks| ::
      blocks[j].free && blocks[j].addr + HEADER <= x && x + HEADER <= End(blocks[j])
    ensures Sound(StoreHeader(data, x, h), blocks, lo, hi) && SameBytes(data, StoreHeader(data, x, h), Live(blocks))
  {
    hide HeaderAt, StoreHeader;
    if x < hi {
      var j: nat :| j < |blocks| && blocks[j].free && blocks[j].addr + HEADER <= x && x + HEADER <= End(blocks[j]);
      assert SafeIn(blocks[j], x);
    }
    LiveKept(data, blocks, lo, hi, x, h);
    forall k: nat | k < |blocks| ensures LinkedAt(StoreHeader(data, x, h), blocks, k) {
      ReadAt(data, blocks, lo, hi, k);
      if x < hi {
        var j: nat :| j < |blocks| && blocks[j].free && blocks[j].addr + HEADER <= x && x + HEADER <= End(blocks[j]);
        if j < k { TiledApart(blocks, j, k, lo, hi); }
        if k < j { TiledApart(blocks, k, j, lo, hi); }
      }
      OtherHeader(data, x, h, blocks[k].addr);
    }
  }

  // ---- One block changes its flag --------------------------------------------------

  function Flagged(blocks: seq<Block>, i: nat, free: bool): seq<Block>
    requires i < |blocks|
  {
    blocks[i := blocks[i].(free := free)]
  }

  lemma {:induction false} FlaggedTiles(blocks: seq<Block>, i: nat, free: bool, lo: nat, hi: nat)
    requires Tiled(blocks, lo, hi) && i < |blocks|
    ensures Tiled(Flagged(blocks, i, free), lo, hi)
  {
    if i > 0 {
      FlaggedTiles(blocks[1..], i - 1, free, End(blocks[0]), hi);
      assert Flagged(blocks, i, free)[1..] == Flagged(blocks[1..], i - 1, free);
    } else {
      assert Flagged(blocks, i, free)[1..] == blocks[1..];
    }
  }

  lemma FlagSet(data: seq<byte>, blocks: seq<Block>, lo: nat, hi: nat, i: nat, free: bool)
    requires Sound(data, blocks, lo, hi) && i < |blocks|
    ensures var h := HeaderOf(blocks, i).(free := free);
      && End(blocks[i]) <= |data|
      && Sound(StoreHeader(data, blocks[i].addr, h), Flagged(blocks, i, free), lo, hi)
      && SameBytes(data, StoreHeader(data, blocks[i].addr, h), Live(blocks))
  {
    hide Decode, Encode;
    var h := HeaderOf(blocks, i).(free := free);
    TiledBounds(blocks, lo, hi);
    HeaderFits(blocks, i, lo, hi);
    FlaggedTiles(blocks, i, free, lo, hi);
    assert SafeIn(blocks[i], blocks[i].addr);
    LiveKept(data, blocks, lo, hi, blocks[i].addr, h);
    forall k: nat | k < |blocks| ensures LinkedAt(StoreHeader(data, blocks[i].addr, h), Flagged(blocks, i, free), k) {
      assert LinkedAt(data, blocks, k);
      Lookup(data, blocks, lo, hi, i, h, k);
    }
  }

  // ---- Replacing part of the list ----------------------------------------------------

  function Replaced(blocks: seq<Block>, i: nat, n: nat, mid: seq<Block>): seq<Block>
    requires i + n <= |blocks|
  {
    blocks[..i] + mid + blocks[i + n..]
  }

  lemma ReplacedTiles(blocks: seq<Block>, i: nat, n: nat, mid: seq<Block>, lo: nat, hi: nat)
    requires Tiled(blocks, lo, hi) && i + n <= |blocks|
    requires Tiled(mid, Start(blocks, i, hi), Start(blocks, i + n, hi))
    ensures Tiled(Replaced(blocks, i, n, mid), lo, hi)
  {
    TiledParts(blocks, i, lo, hi);
    TiledParts(blocks, i + n, lo, hi);
    TiledSplit(mid, blocks[i + n..], Start(blocks, i, hi), Start(blocks, i + n, hi), hi);
    TiledSplit(blocks[..i], mid + blocks[i + n..], lo, Start(blocks, i, hi), hi);
    assert Replaced(blocks, i, n, mid) == blocks[..i] + (mid + blocks[i + n..]);
  }

  /** All headers are right but those of the blocks in `bad`. */
  ghost predicate LinkedBut(data: seq<byte>, blocks: seq<Block>, bad: set<int>) {
    forall k: nat | k < |blocks| && k !in bad :: LinkedAt(data, blocks, k)
  }

  /** Writing the right header of block `j`. */
  function Mended(data: seq<byte>, blocks: seq<Block>, j: nat): (r: seq<byte>)
    requires j < |blocks| && End(blocks[j]) <= |data|
  {
    StoreHeader(data, blocks[j].addr, HeaderOf(blocks, j))
  }

  lemma Mend(data: seq<byte>, blocks: seq<Block>, lo: nat, hi: nat, bad: set<int>, j: nat)
    requires Tiled(blocks, lo, hi) && hi <= |data| <= WORD && LinkedBut(data, blocks, bad) && j < |blocks|
    ensures End(blocks[j]) <= |data| && LinkedBut(Mended(data, blocks, j), blocks, bad - {j})
  {
    hide Decode, Encode;
    TiledBounds(blocks, lo, hi);
    HeaderFits(blocks, j, lo, hi);
    forall k: nat | k < |blocks| && k !in bad - {j} ensures LinkedAt(Mended(data, blocks, j), blocks, k) {
      if k != j { assert LinkedAt(data, blocks, k); }
      Lookup(data, blocks, lo, hi, j, HeaderOf(blocks, j), k);
    }
  }

  lemma AllMended(data: seq<byte>, blocks: seq<Block>, bad: set<int>)
    requires LinkedBut(data, blocks, bad) && bad == {}
    ensures Linked(data, blocks)
  {
  }

  // ---- Splitting -----------------------------------------------------------------------

  /** Block `i` cut into a block in use of `size` bytes and a free remainder. */
  function SplitAt(blocks: seq<Block>, i: nat, size: nat): seq<Block>
    requires i < |blocks| && size + HEADER <= blocks[i].size
  {
    var b := blocks[i];
    Replaced(blocks, i, 1, [Block(b.addr, size, false), Block(b.addr + HEADER + size, b.size - size - HEADER, true)])
  }

  lemma SplitTiles(blocks: seq<Block>, i: nat, size: nat, lo: nat, hi: nat)
    requires Tiled(blocks, lo, hi) && i < |blocks| && size + HEADER <= blocks[i].size
    ensures Tiled(SplitAt(blocks, i, size), lo, hi)
  {
    var b := blocks[i];
    var x, y := Block(b.addr, size, false), Block(b.addr + HEADER + size, b.size - size - HEADER, true);
    EndIsNext(blocks, i, lo, hi);
    assert [x, y][1..] == [y] && [y][1..] == [];
    assert Tiled([y], y.addr, End(b));
    ReplacedTiles(blocks, i, 1, [x, y], lo, hi);
  }

  lemma EndIsNext(blocks: seq<Block>, i: nat, lo: nat, hi: nat)
    requires Tiled(blocks, lo, hi) && i < |blocks|
    ensures End(blocks[i]) == Start(blocks, i + 1, hi)
  {
    TiledParts(blocks, i, lo, hi);
    assert blocks[i..][1..] == blocks[i + 1..];
  }

  /** The headers of the other blocks need not change. */
  lemma SplitLinks(data: seq<byte>, blocks: seq<Block>, i: nat, size: nat)
    requires Linked(data, blocks) && i < |blocks| && size + HEADER <= blocks[i].size
    ensures LinkedBut(data, SplitAt(blocks, i, size), {i, i + 1, i + 2})
  {
    hide HeaderAt;
    var next := SplitAt(blocks, i, size);
    forall k: nat | k < |next| && k !in {i, i + 1, i + 2} ensures LinkedAt(data, next, k) {
      var j := if k < i then k else k - 1;
      assert LinkedAt(data, blocks, j) && next[k] == blocks[j];
      assert HeaderOf(next, k) == HeaderOf(blocks, j);
    }
  }

  // ---- Merging -------------------------------------------------------------------------

  function Merge(a: Block, b: Block): Block {
    Block(a.addr, a.size + HEADER + b.size, a.free)
  }

  function MergeAt(blocks: seq<Block>, i: nat): seq<Block>
    requires i + 1 < |blocks|
  {
    Replaced(blocks, i, 2, [Merge(blocks[i], blocks[i + 1])])
  }

  lemma MergeTiles(blocks: seq<Block>, i: nat, lo: nat, hi: nat)
    requires Tiled(blocks, lo, hi) && i + 1 < |blocks|
    ensures Tiled(MergeAt(blocks, i), lo, hi)
  {
    EndIsNext(blocks, i, lo, hi);
    EndIsNext(blocks, i + 1, lo, hi);
    var m := Merge(blocks[i], blocks[i + 1]);
    assert [m][1..] == [];
    ReplacedTiles(blocks, i, 2, [m], lo, hi);
  }

  lemma MergeLinks(data: seq<byte>, blocks: seq<Block>, i: nat)
    requires Linked(data, blocks) && i + 1 < |blocks|
    ensures LinkedBut(data, MergeAt(blocks, i), {i, i + 1})
  {
    hide HeaderAt;
    var next := MergeAt(blocks, i);
    forall k: nat | k < |next| && k !in {i, i + 1} ensures LinkedAt(data, next, k) {
      var j := if k < i then k else k + 1;
      assert LinkedAt(data, blocks, j) && next[k] == blocks[j];
      assert HeaderOf(next, k) == HeaderOf(blocks, j);
    }
  }

  // ---- Appending -----------------------------------------------------------------------

  lemma AppendTiles(blocks: seq<Block>, b: Block, lo: nat, hi: nat)
    requires Tiled(blocks, lo, hi) && b.addr == hi
    ensures Tiled(blocks + [b], lo, End(b))
  {
    assert [b][1..] == [];
    TiledSplit(blocks, [b], lo, hi, End(b));
  }

  lemma AppendLinks(data: seq<byte>, blocks: seq<Block>, b: Block)
    requires Linked(data, blocks)
    ensures LinkedBut(data, blocks + [b], {|blocks| - 1, |blocks|})
  {
    hide HeaderAt;
    var next := blocks + [b];
    forall k: nat | k < |next| && k !in {|blocks| - 1, |blocks|} ensures LinkedAt(data, next, k) {
      assert LinkedAt(data, blocks, k);
      assert HeaderOf(next, k) == HeaderOf(blocks, k);
    }
  }

  // ---- The sequences of writes kheap.c makes -----------------------------------------

  lemma MendStep(data: seq<byte>, blocks: seq<Block>, next: seq<Block>, lo: nat, hi: nat, hi': nat, bad: set<int>,
                 j: nat)
    requires Tiled(blocks, lo, hi) && Tiled(next, lo, hi') && hi <= hi' <= |data| <= WORD && LinkedBut(data, next, bad)
    requires j < |next| && Safe(blocks, hi, next[j].addr)
    ensures End(next[j]) <= |data| && LinkedBut(Mended(data, next, j), next, bad - {j})
    ensures |Mended(data, next, j)| == |data| && SameBytes(data, Mended(data, next, j), Live(blocks))
  {
    hide HeaderAt, StoreHeader;
    TiledBounds(next, lo, hi');
    Mend(data, next, lo, hi', bad, j);
    LiveKept(data, blocks, lo, hi, next[j].addr, HeaderOf(next, j));
  }

  lemma AppendSet(data: seq<byte>, blocks: seq<Block>, lo: nat, hi: nat, b: Block, first: Header)
    requires Sound(data, blocks, lo, hi) && b.addr == hi && End(b) <= |data| && Fits(first)
    ensures var next, n := blocks + [b], |blocks|; var d1 := StoreHeader(data, hi, first);
      && Sound(d1, blocks, lo, hi) && |d1| == |data|
      && (if n == 0 then first == HeaderOf(next, 0) ==> Sound(d1, next, lo, End(b)) && SameBytes(data, d1, Live(blocks))
          else End(next[n - 1]) <= |data| && var d3 := Mended(Mended(d1, next, n - 1), next, n);
            Sound(d3, next, lo, End(b)) && SameBytes(data, d3, Live(blocks)))
  {
    hide HeaderAt, StoreHeader, Tiled, SameBytes, Live;
    var next, n := blocks + [b], |blocks|;
    var d1 := StoreHeader(data, hi, first);
    StoreUnlisted(data, blocks, lo, hi, hi, first);
    AppendTiles(blocks, b, lo, hi);
    AppendLinks(d1, blocks, b);
    if n == 0 {
      if first == HeaderOf(next, 0) {
        Mend(data, next, lo, End(b), {-1, 0}, 0);
        assert d1 == Mended(data, next, 0);
      }
    } else {
      assert SafeIn(blocks[n - 1], next[n - 1].addr);
      MendStep(d1, blocks, next, lo, hi, End(b), {n - 1, n}, n - 1);
      var d2 := Mended(d1, next, n - 1);
      MendStep(d2, blocks, next, lo, hi, End(b), {n - 1, n} - {n - 1}, n);
      AllMended(Mended(d2, next, n), next, {n - 1, n} - {n - 1} - {n});
      SameBytesTrans(data, d1, d2, Live(blocks));
      SameBytesTrans(data, d2, Mended(d2, next, n), Live(blocks));
    }
  }

  lemma SplitSet(data: seq<byte>, blocks: seq<Block>, lo: nat, hi: nat, i: nat, size: nat)
    requires Sound(data, blocks, lo, hi) && i < |blocks| && size + HEADER <= blocks[i].size && blocks[i].free
    ensures var next, n := SplitAt(blocks, i, size), |blocks|;
      && |next| == n + 1 && End(next[i + 1]) <= |data| && End(next[i]) <= |data|
      && var d1 := Mended(data, next, i + 1);
         && |d1| == |data| && Sound(d1, blocks, lo, hi)
         && (i + 1 < n ==> End(next[i + 2]) <= |data|)
         && var d2 := if i + 1 < n then Mended(d1, next, i + 2) else d1;
            && |d2| == |data|
            && var d3 := Mended(d2, next, i);
               Sound(d3, next, lo, hi) && SameBytes(data, d3, Live(blocks))
  {
    hide HeaderAt, StoreHeader, Tiled, SameBytes, Live, HeaderOf;
    var next, n := SplitAt(blocks, i, size), |blocks|;
    SplitTiles(blocks, i, size, lo, hi);
    TiledBounds(next, lo, hi);
    SplitLinks(data, blocks, i, size);
    assert SafeIn(blocks[i], next[i + 1].addr) && SafeIn(blocks[i], next[i].addr);
    StoreUnlisted(data, blocks, lo, hi, next[i + 1].addr, HeaderOf(next, i + 1));
    MendStep(data, blocks, next, lo, hi, hi, {i, i + 1, i + 2}, i + 1);
    var d1 := Mended(data, next, i + 1);
    var bad: set<int> := {i, i + 1, i + 2} - {i + 1};
    if i + 1 < n {
      assert next[i + 2] == blocks[i + 1] && SafeIn(blocks[i + 1], next[i + 2].addr);
      MendStep(d1, blocks, next, lo, hi, hi, bad, i + 2);
      SameBytesTrans(data, d1, Mended(d1, next, i + 2), Live(blocks));
    }
    var d2 := if i + 1 < n then Mended(d1, next, i + 2) else d1;
    assert LinkedBut(d2, next, {i});
    MendStep(d2, blocks, next, lo, hi, hi, {i}, i);
    AllMended(Mended(d2, next, i), next, {i} - {i});
    SameBytesTrans(data, d2, Mended(d2, next, i), Live(blocks));
  }

  lemma MergeSet(data: seq<byte>, blocks: seq<Block>, lo: nat, hi: nat, i: nat)
    requires Sound(data, blocks, lo, hi) && i + 1 < |blocks|
    ensures var next, n := MergeAt(blocks, i), |blocks|;
      && |next| == n - 1 && End(next[i]) <= |data|
      && var d1 := Mended(data, next, i);
         && |d1| == |data|
         && (i + 2 < n ==> End(next[i + 1]) <= |data| && HeaderAt(d1, next[i + 1].addr) == HeaderOf(blocks, i + 2))
         && var d2 := if i + 2 < n then Mended(d1, next, i + 1) else d1;
            Sound(d2, next, lo, hi) && SameBytes(data, d2, Live(blocks))
  {
    hide HeaderAt, StoreHeader, Tiled, SameBytes, Live, HeaderOf;
    var next, n := MergeAt(blocks, i), |blocks|;
    MergeTiles(blocks, i, lo, hi);
    TiledBounds(next, lo, hi);
    MergeLinks(data, blocks, i);
    assert SafeIn(blocks[i], next[i].addr);
    MendStep(data, blocks, next, lo, hi, hi, {i, i + 1}, i);
    var d1 := Mended(data, next, i);
    if i + 2 < n {
      assert next[i + 1] == blocks[i + 2] && SafeIn(blocks[i + 2], next[i + 1].addr);
      ReadAt(data, blocks, lo, hi, i + 2);
      HeaderFits(next, i, lo, hi);
      Lookup(data, blocks, lo, hi, i, HeaderOf(next, i), i + 2);
      MendStep(d1, blocks, next, lo, hi, hi, {i, i + 1} - {i}, i + 1);
      AllMended(Mended(d1, next, i + 1), next, {i, i + 1} - {i} - {i + 1});
      SameBytesTrans(data, d1, Mended(d1, next, i + 1), Live(blocks));
    }
  }

  // ---- Payloads --------------------------------------------------------------------------

  function StoreBytes(data: seq<byte>, a: nat, src: seq<byte>): (r: seq<byte>)
    requires a + |src| <= |data|
    ensures |r| == |data| && r[a..a + |src|] == src
    ensures forall x :: 0 <= x < |data| && !(a <= x < a + |src|) ==> r[x] == data[x]
  {
    data[..a] + src + data[a + |src|..]
  }

  /** Writing inside the payload of block `k` leaves the list and the other payloads alone. */
  lemma PayloadWrite(data: seq<byte>, blocks: seq<Block>, lo: nat, hi: nat, k: nat, a: nat, src: seq<byte>)
    requires Sound(data, blocks, lo, hi) && k < |blocks| && blocks[k].addr + HEADER <= a && a + |src| <= End(blocks[k])
    ensures End(blocks[k]) <= |data| && Sound(StoreBytes(data, a, src), blocks, lo, hi)
    ensures SameBytes(data, StoreBytes(data, a, src), Live(blocks) - {blocks[k]})
  {
    hide HeaderAt, Tiled, StoreBytes;
    TiledBounds(blocks, lo, hi);
    var next := StoreBytes(data, a, src);
    forall j: nat | j < |blocks| ensures LinkedAt(next, blocks, j) && (j != k ==> SamePayload(data, next, blocks[j])) {
      ReadAt(data, blocks, lo, hi, j);
      if j < k { TiledApart(blocks, j, k, lo, hi); }
      if k < j { TiledApart(blocks, k, j, lo, hi); }
      WrittenApart(data, a, src, blocks[j].addr, blocks[j].addr + HEADER);
      SameHeader(data, next, blocks[j].addr);
      if j != k { WrittenApart(data, a, src, blocks[j].addr + HEADER, End(blocks[j])); }
    }
  }

  lemma WrittenApart(data: seq<byte>, a: nat, src: seq<byte>, lo: nat, hi: nat)
    requires a + |src| <= |data| && lo <= hi <= |data| && (hi <= a || a + |src| <= lo)
    ensures StoreBytes(data, a, src)[lo..hi] == data[lo..hi]
  {
  }

  lemma SameHeader(data: seq<byte>, data': seq<byte>, a: nat)
    requires a + HEADER <= |data| == |data'| && data'[a..a + HEADER] == data[a..a + HEADER]
    ensures HeaderAt(data', a) == HeaderAt(data, a)
  {
  }

  /** A block that is freed leaves the blocks in use. */
  lemma FreedLive(blocks: seq<Block>, i: nat, lo: nat, hi: nat)
    requires Tiled(blocks, lo, hi) && i < |blocks|
    ensures Live(Flagged(blocks, i, true)) == Live(blocks) - {blocks[i]}
  {
    var next := Flagged(blocks, i, true);
    forall b | b in Live(next) ensures b in Live(blocks) - {blocks[i]} {
      var k: nat :| k < |next| && next[k] == b;
      if k < i { TiledApart(blocks, k, i, lo, hi); }
      if i < k { TiledApart(blocks, i, k, lo, hi); }
    }
    forall b | b in Live(blocks) - {blocks[i]} ensures b in Live(next) {
      var k: nat :| k < |blocks| && blocks[k] == b;
      assert next[k] == b;
    }
  }
}
