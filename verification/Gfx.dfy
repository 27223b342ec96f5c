/** kernel/src/drivers/gfx.c: rectangles, lines and filled circles drawn into a frame buffer. */
module Gfx {
  import opened Arithmetic

  /** A pixel position; it may lie off the screen. */
  datatype Point = Point(x: int, y: int)

  function Abs(x: int): nat {
    if x < 0 then -x else x
  }

  function Max(a: int, b: int): int {
    if a > b then a else b
  }

  function Clamp(v: int, n: nat): (r: nat)
    requires n > 0
    ensures r < n && (0 <= v < n ==> r == v)
  {
    if v < 0 then 0 else if v >= n then n - 1 else v
  }

  // ---- isqrt -------------------------------------------------------------------------------

  function Square(x: int): int {
    x * x
  }

  /** The bits isqrt tests: even powers of two. */
  function Bit(k: nat): (r: nat)
    ensures r > 0
  {
    Pow2(k) * Pow2(k)
  }

  lemma NextBit(k: nat)
    ensures Bit(k) / 4 == if k > 0 then Bit(k - 1) else 0
    ensures k > 0 ==> Bit(k) == 4 * Bit(k - 1)
    ensures Bit(0) == 1
  {
    if k > 0 {
      var b := Pow2(k - 1);
      assert (2 * b) * (2 * b) == 4 * (b * b);
    }
  }

  lemma TopBit()
    ensures Bit(15) == 0x4000_0000
  {
    assert Pow2(5) == 32;
    assert Pow2(10) == 1024;
    assert Pow2(15) == 32768;
  }

  ghost predicate IsRoot(n: nat, r: int) {
    0 <= r && Square(r) <= n < Square(r + 1)
  }

  /** Digits of the root above the `k`-th are in `root`; `rest` is what its square leaves of `n`. */
  ghost predicate Rooting(n: nat, rest: int, res: int, root: nat, k: nat) {
    rest == n - Square(root) && 0 <= rest && res == 2 * (root * Pow2(k)) && n < Square(root + 2 * Pow2(k))
  }

  lemma RootStart(n: nat, k: nat)
    requires n < 4 * Bit(k)
    ensures Rooting(n, n, 0, 0, k)
  {
    var b := Pow2(k);
    assert (2 * b) * (2 * b) == 4 * (b * b);
  }

  /** One digit: whether the bit fits decides whether the root grows by it. */
  lemma RootStep(n: nat, rest: int, res: int, root: nat, k: nat)
    requires Rooting(n, rest, res, root, k)
    ensures var b, bit := Pow2(k), Bit(k);
      && (rest >= res + bit ==>
            rest - (res + bit) == n - Square(root + b) && res / 2 + bit == (root + b) * b && n < Square(root + b + b))
      && (rest < res + bit ==> n < Square(root + b)) && res / 2 == root * b
  {
    var b := Pow2(k);
    assert (root + b) * (root + b) == root * root + 2 * (root * b) + b * b;
    assert (root + b) * b == root * b + b * b;
  }

  /** With the digit decided, the next lower bit is under test; after the lowest the root is complete. */
  lemma RootNext(n: nat, rest: int, res: int, root: nat, k: nat)
    requires rest == n - Square(root) && 0 <= rest && res == root * Pow2(k) && n < Square(root + Pow2(k))
    ensures if k > 0 then Rooting(n, rest, res, root, k - 1) else IsRoot(n, res)
  {
    if k > 0 {
      var b := Pow2(k - 1);
      assert root * (2 * b) == 2 * (root * b);
    }
  }

  method Isqrt(v: nat) returns (res: nat)
    requires v < 0x8000_0000
    ensures IsRoot(v, res)
  {
    hide Pow2, Bit, Square, Rooting;
    var bit := 0x4000_0000;
    ghost var k: nat := 15;
    TopBit();
    while bit > v
      invariant (bit == Bit(k) && v < 4 * Bit(k)) || (bit == 0 && v == 0)
    {
      NextBit(k);
      if k > 0 { k := k - 1; }
      bit := bit / 4;
    }
    res := 0;
    var rest: int := v;
    ghost var root: nat := 0;
    if bit == 0 { ZeroRoot(); } else { RootStart(v, k); }
    while bit != 0
      invariant if bit == 0 then IsRoot(v, res) else bit == Bit(k) && Rooting(v, rest, res, root, k)
      decreases bit
    {
      RootStep(v, rest, res, root, k);
      RootBounds(v, rest, res, root, k);
      if rest >= res + bit {
        rest := rest - (res + bit);
        res := res / 2 + bit;
        root := root + Pow2(k);
      } else {
        res := res / 2;
      }
      RootNext(v, rest, res, root, k);
      NextBit(k);
      if k > 0 { k := k - 1; }
      bit := bit / 4;
    }
  }

  lemma RootBounds(n: nat, rest: int, res: int, root: nat, k: nat)
    requires Rooting(n, rest, res, root, k)
    ensures 0 <= res && rest == n - Square(root) && 0 <= rest
  {
  }

  lemma ZeroRoot()
    ensures IsRoot(0, 0)
  {
  }

  // ---- Lines -------------------------------------------------------------------------------

  /**
   A point `nx` columns and `ny` rows from the start of a line that spans `dx` columns
   and `dy` rows: within half a pixel of the ideal line along the minor axis.
   */
  ghost predicate NearLine(dx: nat, dy: nat, nx: nat, ny: nat) {
    nx <= dx && ny <= dy && 2 * Abs(dx * ny - dy * nx) <= Max(dx, dy)
  }

  /** Where the loop of gfx_line is after `k` rounds. */
  ghost predicate Tracing(dx: nat, dy: nat, nx: int, ny: int, k: nat, err: int) {
    && 0 <= nx && 0 <= ny && k <= Max(dx, dy) && err == dx - dy + (dx * ny - dy * nx)
    && 2 * Abs(dx * ny - dy * nx) <= Max(dx, dy) && (dx == dy ==> nx == ny)
    && (if dx >= dy then nx == k else ny == k)
  }

  /** The minor coordinate keeps within its span, and reaches the end exactly with the major one. */
  lemma TracingNear(dx: nat, dy: nat, nx: int, ny: int, k: nat, err: int)
    requires Tracing(dx, dy, nx, ny, k, err)
    ensures nx <= dx && ny <= dy && NearLine(dx, dy, nx, ny)
    ensures k == Max(dx, dy) <==> nx == dx && ny == dy
  {
    assert dx == dy ==> nx == ny;
    if dx >= dy { Minor(dx, dy, nx, ny); } else { Minor(dy, dx, ny, nx); }
  }

  lemma Minor(major: nat, minor: nat, m: nat, n: nat)
    requires minor <= major && m <= major && 2 * Abs(major * n - minor * m) <= major
    requires major == 0 ==> n == 0
    ensures n <= minor && (m == major ==> n == minor)
  {
    Product(minor, m, major);
    if n > minor { ProductGap(major, minor, n); }
    if n < minor { ProductGap(major, n, minor); }
  }

  lemma ProductGap(a: nat, x: nat, y: nat)
    requires x < y
    ensures a * x + a <= a * y
  {
    Product(a, x + 1, y);
  }

  /** One round: which coordinates move, and that the deviation stays within bounds. */
  lemma TracingStep(dx: nat, dy: nat, nx: int, ny: int, k: nat, err: int)
    requires Tracing(dx, dy, nx, ny, k, err) && k < Max(dx, dy)
    ensures var right, down := 2 * err > 0 - dy, 2 * err < dx;
      && (if dx >= dy then right else down)
      && Tracing(dx, dy, if right then nx + 1 else nx, if down then ny + 1 else ny, k + 1,
                 err - (if right then dy else 0) + (if down then dx else 0))
  {
    var d := dx * ny - dy * nx;
    assert dx * (ny + 1) == dx * ny + dx && dy * (nx + 1) == dy * nx + dy;
  }

  // ---- The screen ------------------------------------------------------------------------

  ghost predicate Between(a: int, b: int, v: int) {
    if a <= b then a <= v <= b else b <= v <= a
  }

  /** `p` is the `k`-th point of a line: `k` steps along the major axis, near the ideal line, between the ends. */
  ghost predicate OnLine(x0: int, y0: int, x1: int, y1: int, p: Point, k: nat) {
    var dx, dy := Abs(x1 - x0), Abs(y1 - y0);
    && Between(x0, x1, p.x) && Between(y0, y1, p.y) && NearLine(dx, dy, Abs(p.x - x0), Abs(p.y - y0))
    && (if dx >= dy then Abs(p.x - x0) == k else Abs(p.y - y0) == k)
  }

  /** The columns, or rows, that gfx_fill_rect covers: both ends are clamped to the screen. */
  ghost predicate Covers(from: int, len: int, n: nat, i: nat)
    requires n > 0
  {
    Clamp(from, n) <= i <= Clamp(from + len - 1, n)
  }

  class Screen {
    const width: nat
    const height: nat
    const fb: array2<nat>     // one row of pixels after the other; a row may be longer than the screen is wide

    constructor (width: nat, height: nat, fb: array2<nat>)
      ensures this.width == width && this.height == height && this.fb == fb
    {
      this.width, this.height, this.fb := width, height, fb;
    }

    ghost predicate Valid() {
      0 < width <= fb.Length1 && 0 < height == fb.Length0
    }

    /** One run of pixels in a row. */
    method FillRow(y: nat, x0: nat, x1: nat, color: nat)
      requires Valid() && y < height && x1 < width
      modifies fb
      ensures forall j: nat, i: nat | j < fb.Length0 && i < fb.Length1 ::
        fb[j, i] == if j == y && x0 <= i <= x1 then color else old(fb[j, i])
    {
      var xx := x0;
      while xx <= x1
        invariant x0 <= xx && (xx <= x1 + 1 || xx == x0)
        invariant forall j: nat, i: nat | j < fb.Length0 && i < fb.Length1 ::
          fb[j, i] == if j == y && x0 <= i < xx && i <= x1 then color else old(fb[j, i])
      {
        fb[y, xx] := color;
        xx := xx + 1;
      }
    }

    method FillRect(x: int, y: int, w: int, h: int, color: nat)
      requires Valid()
      modifies fb
      ensures forall j: nat, i: nat | j < fb.Length0 && i < fb.Length1 ::
        fb[j, i] == if w > 0 && h > 0 && Covers(x, w, width, i) && Covers(y, h, height, j) then color else old(fb[j, i])
    {
      if w <= 0 || h <= 0 { return; }
      var x0, y0 := Clamp(x, width), Clamp(y, height);
      var x1, y1 := Clamp(x + w - 1, width), Clamp(y + h - 1, height);
      var yy := y0;
      while yy <= y1
        invariant y0 <= yy <= y1 + 1
        invariant forall j: nat, i: nat | j < fb.Length0 && i < fb.Length1 ::
          fb[j, i] == if y0 <= j < yy && x0 <= i <= x1 then color else old(fb[j, i])
      {
        FillRow(yy, x0, x1, color);
        yy := yy + 1;
      }
    }

    /** One row of a disc; the distance from the centre's row is at most `r`, so the root exists. */
    method DiscLine(cx: int, cy: int, r: int, dy: int, color: nat)
      requires Valid() && 0 - r <= dy <= r <= MAX_RADIUS
      modifies fb
      ensures forall j: nat, i: nat | j < fb.Length0 && i < fb.Length1 ::
        fb[j, i] == if RowPaints(cx, cy, r, width, height, cy + dy, i, j) then color else old(fb[j, i])
    {
      hide IsRoot, InDisc, RowPaints;
      RowInside(r, dy);
      var s := Isqrt(r * r - dy * dy);
      ghost var y := cy + dy;
      assert y - cy == dy;
      RowOf(cx, cy, r, y, s);
      forall i: nat, j: nat | i < fb.Length1 && j < height
        ensures RowPaints(cx, cy, r, width, height, y, i, j) <==>
          Covers(cx - s, s * 2 + 1, width, i) && Covers(y, 1, height, j)
      {
        RowCovers(cx, cy, r, width, height, y, s, i, j);
      }
      FillRect(cx - s, cy + dy, s * 2 + 1, 1, color);
    }

    /** gfx_fill_circle paints the disc, every point of it clamped to the screen. */
    method FillCircle(cx: int, cy: int, r: int, color: nat)
      requires Valid() && r <= MAX_RADIUS
      modifies fb
      ensures forall j: nat, i: nat | j < fb.Length0 && i < fb.Length1 ::
        fb[j, i] == if DiscPaints(cx, cy, r, width, height, i, j) then color else old(fb[j, i])
    {
      hide RowPaints;
      var dy := 0 - r;
      forall j: nat, i: nat, y: int | RowPaints(cx, cy, r, width, height, y, i, j) ensures 0 - r <= y - cy <= r {
        PaintedRows(cx, cy, r, width, height, y, i, j);
      }
      while dy <= r
        invariant 0 - r <= dy && (r >= 0 ==> dy <= r + 1)
        invariant forall j: nat, i: nat | j < fb.Length0 && i < fb.Length1 ::
          fb[j, i] == if PaintedAbove(cx, cy, r, width, height, cy + dy, i, j) then color else old(fb[j, i])
      {
        DiscLine(cx, cy, r, dy, color);
        dy := dy + 1;
      }
    }

    predicate OnScreen(p: Point) {
      0 <= p.x < width && 0 <= p.y < height
    }

    method Plot(x: int, y: int, color: nat)
      requires Valid()
      modifies fb
      ensures forall j: nat, i: nat | j < fb.Length0 && i < fb.Length1 ::
        fb[j, i] == if OnScreen(Point(i, j)) && Point(i, j) == Point(x, y) then color else old(fb[j, i])
    {
      if x >= 0 && y >= 0 && x < width && y < height { fb[y, x] := color; }
    }

    /**
     gfx_line.  It visits one point per step of the longer axis and ends at (x1, y1); the
     visited points that are on the screen are painted, and no others.
     */
    method Line(x0: int, y0: int, x1: int, y1: int, color: nat) returns (ghost path: seq<Point>)
      requires Valid()
      modifies fb
      ensures |path| == Max(Abs(x1 - x0), Abs(y1 - y0)) + 1 && path[0] == Point(x0, y0)
      ensures path[|path| - 1] == Point(x1, y1)
      ensures forall k: nat | k < |path| :: OnLine(x0, y0, x1, y1, path[k], k)
      ensures forall j: nat, i: nat | j < fb.Length0 && i < fb.Length1 ::
        fb[j, i] == if OnScreen(Point(i, j)) && Point(i, j) in path then color else old(fb[j, i])
    {
      hide Tracing, OnLine;
      var dx, dy := x1 - x0, y1 - y0;
      var sx, sy := if dx > 0 then 1 else -1, if dy > 0 then 1 else -1;
      if dx < 0 { dx := -dx; }
      if dy < 0 { dy := -dy; }
      var err := dx - dy;
      var x, y := x0, y0;
      ghost var nx, ny, k: nat := 0, 0, 0;
      path := [];
      TracingStart(dx, dy);
      while true
        invariant |path| == k && k <= Max(dx, dy) && Tracing(dx, dy, nx, ny, k, err) && x == x0 + sx * nx
        invariant y == y0 + sy * ny
        invariant path + [Point(x, y)] != [] && (path + [Point(x, y)])[0] == Point(x0, y0)
        invariant forall m: nat | m < k :: OnLine(x0, y0, x1, y1, path[m], m)
        invariant forall j: nat, i: nat | j < fb.Length0 && i < fb.Length1 ::
          fb[j, i] == if OnScreen(Point(i, j)) && Point(i, j) in path then color else old(fb[j, i])
        decreases Max(dx, dy) - k
      {
        Plot(x, y, color);
        TracingOnLine(x0, y0, x1, y1, nx, ny, k, err);
        path := path + [Point(x, y)];
        if x == x1 && y == y1 { break; }
        TracingStep(dx, dy, nx, ny, k, err);
        var e2 := err * 2;
        if e2 > 0 - dy {
          err := err - dy;
          x := x + sx;
          nx := nx + 1;
        }
        if e2 < dx {
          err := err + dx;
          y := y + sy;
          ny := ny + 1;
        }
        k := k + 1;
      }
    }
  }

  lemma TracingStart(dx: nat, dy: nat)
    ensures Tracing(dx, dy, 0, 0, 0, dx - dy)
  {
  }

  /** The point reached is on the line, and it is the end point exactly after the last step. */
  lemma TracingOnLine(x0: int, y0: int, x1: int, y1: int, nx: nat, ny: nat, k: nat, err: int)
    requires Tracing(Abs(x1 - x0), Abs(y1 - y0), nx, ny, k, err)
    ensures var sx, sy := if x1 > x0 then 1 else -1, if y1 > y0 then 1 else -1;
      var p := Point(x0 + sx * nx, y0 + sy * ny);
      && OnLine(x0, y0, x1, y1, p, k)
      && (k == Max(Abs(x1 - x0), Abs(y1 - y0)) <==> p == Point(x1, y1))
  {
    var dx, dy := Abs(x1 - x0), Abs(y1 - y0);
    TracingNear(dx, dy, nx, ny, k, err);
    hide NearLine;
  }

  /** The largest radius whose square fits a C int. */
  const MAX_RADIUS: nat := 46340

  // ---- Discs -------------------------------------------------------------------------------

  ghost predicate InDisc(cx: int, cy: int, r: int, x: int, y: int) {
    r >= 0 && Square(x - cx) + Square(y - cy) <= Square(r)
  }

  /** Squares compare like absolute values. */
  lemma SquareOrder(a: int, b: int)
    ensures Square(a) <= Square(b) <==> Abs(a) <= Abs(b)
    ensures Square(a) == Square(Abs(a)) && Square(a) >= 0
  {
    var x, y := Abs(a), Abs(b);
    assert a * a == x * x && b * b == y * y;
    if x <= y { Product(x, x, y); Product(y, x, y); } else { ProductGap(x, y, x); Product(y, y, x); }
  }

  lemma RowInside(r: int, dy: int)
    requires 0 - r <= dy <= r <= MAX_RADIUS
    ensures 0 <= r * r - dy * dy < 0x8000_0000
  {
    SquareOrder(dy, r);
    SquareOrder(r, MAX_RADIUS);
  }

  lemma RootSmall(r: int, dy: int, s: nat)
    requires r >= 0 && Square(dy) <= Square(r) && IsRoot(Square(r) - Square(dy), s)
    ensures s <= r
  {
    SquareOrder(s, r);
    SquareOrder(dy, 0);
  }

  lemma DiscRow(cx: int, cy: int, r: int, x: int, y: int, s: nat)
    requires r >= 0 && Square(y - cy) <= Square(r) && IsRoot(Square(r) - Square(y - cy), s)
    ensures InDisc(cx, cy, r, x, y) <==> cx - s <= x <= cx + s
  {
    SquareOrder(x - cx, s);
    SquareOrder(s + 1, x - cx);
  }

  lemma RowOf(cx: int, cy: int, r: int, y: int, s: nat)
    requires 0 - r <= y - cy <= r && Square(r) - Square(y - cy) >= 0 && IsRoot(Square(r) - Square(y - cy), s)
    ensures s <= r && forall x: int :: InDisc(cx, cy, r, x, y) <==> cx - s <= x <= cx + s
  {
    RootSmall(r, y - cy, s);
    forall x: int ensures InDisc(cx, cy, r, x, y) <==> cx - s <= x <= cx + s { DiscRow(cx, cy, r, x, y, s); }
  }

  lemma DiscRows(cx: int, cy: int, r: int, x: int, y: int)
    requires InDisc(cx, cy, r, x, y)
    ensures cy - r <= y <= cy + r
  {
    SquareOrder(x - cx, 0);
    SquareOrder(y - cy, r);
  }

  /** Point (x, y) of the disc is painted at column `i` and row `j`. */
  ghost predicate Lands(cx: int, cy: int, r: int, w: nat, h: nat, x: int, y: int, i: nat, j: nat)
    requires w > 0 && h > 0
  {
    InDisc(cx, cy, r, x, y) && Clamp(x, w) == i && Clamp(y, h) == j
  }

  ghost predicate RowPaints(cx: int, cy: int, r: int, w: nat, h: nat, y: int, i: nat, j: nat)
    requires w > 0 && h > 0
  {
    exists x: int :: Lands(cx, cy, r, w, h, x, y, i, j)
  }

  ghost predicate PaintedAbove(cx: int, cy: int, r: int, w: nat, h: nat, limit: int, i: nat, j: nat)
    requires w > 0 && h > 0
  {
    exists y: int | y < limit :: RowPaints(cx, cy, r, w, h, y, i, j)
  }

  /** Some point of the disc is painted at column `i` and row `j`. */
  ghost predicate DiscPaints(cx: int, cy: int, r: int, w: nat, h: nat, i: nat, j: nat)
    requires w > 0 && h > 0
  {
    exists y: int :: RowPaints(cx, cy, r, w, h, y, i, j)
  }

  lemma RowCovers(cx: int, cy: int, r: int, w: nat, h: nat, y: int, s: nat, i: nat, j: nat)
    requires w > 0 && h > 0 && j < h && forall x: int :: InDisc(cx, cy, r, x, y) <==> cx - s <= x <= cx + s
    ensures RowPaints(cx, cy, r, w, h, y, i, j) <==> Covers(cx - s, s * 2 + 1, w, i) && Covers(y, 1, h, j)
  {
    hide InDisc;
    if Covers(cx - s, s * 2 + 1, w, i) && Covers(y, 1, h, j) {
      var x := if i < cx - s then cx - s else if i > cx + s then cx + s else i;
      assert Lands(cx, cy, r, w, h, x, y, i, j);
    }
  }

  lemma PaintedRows(cx: int, cy: int, r: int, w: nat, h: nat, y: int, i: nat, j: nat)
    requires w > 0 && h > 0 && RowPaints(cx, cy, r, w, h, y, i, j)
    ensures 0 - r <= y - cy <= r
  {
    var x: int :| Lands(cx, cy, r, w, h, x, y, i, j);
    DiscRows(cx, cy, r, x, y);
  }

  // ---- Off the screen ----------------------------------------------------------------------

  /** The four extreme points of the disc, clamped to the screen, are still in the disc. */
  ghost predicate ExtremesInside(cx: int, cy: int, r: int, w: nat, h: nat)
    requires w > 0 && h > 0
  {
    && InDisc(cx, cy, r, Clamp(cx - r, w), Clamp(cy, h)) && InDisc(cx, cy, r, Clamp(cx + r, w), Clamp(cy, h))
    && InDisc(cx, cy, r, Clamp(cx, w), Clamp(cy - r, h)) && InDisc(cx, cy, r, Clamp(cx, w), Clamp(cy + r, h))
  }

  /** gfx_fill_circle paints exactly the disc's part of the screen iff the four extreme points clamp into the disc. */
  lemma DiscIsClipped(cx: int, cy: int, r: int, w: nat, h: nat)
    requires w > 0 && h > 0 && r >= 0
    ensures (forall i: nat, j: nat | i < w && j < h :: DiscPaints(cx, cy, r, w, h, i, j) <==> InDisc(cx, cy, r, i, j))
      <==> ExtremesInside(cx, cy, r, w, h)
  {
    hide InDisc;
    forall i: nat, j: nat | i < w && j < h && InDisc(cx, cy, r, i, j) ensures DiscPaints(cx, cy, r, w, h, i, j) {
      assert Lands(cx, cy, r, w, h, i, j, i, j);
      assert RowPaints(cx, cy, r, w, h, j, i, j);
    }
    if ExtremesInside(cx, cy, r, w, h) {
      forall i: nat, j: nat | i < w && j < h && DiscPaints(cx, cy, r, w, h, i, j) ensures InDisc(cx, cy, r, i, j) {
        var y: int :| RowPaints(cx, cy, r, w, h, y, i, j);
        var x: int :| Lands(cx, cy, r, w, h, x, y, i, j);
        ClampStays(cx, cy, r, w, h, x, y);
      }
    } else {
      ExtremePainted(cx, cy, r, w, h);
    }
  }

  /** A clamped point that moved away from the centre's column stands in the column the centre clamps to. */
  lemma ClampAxis(c: int, r: int, v: int, n: nat)
    requires n > 0 && 0 - r <= v - c <= r
    ensures Abs(Clamp(v, n) - c) <= Abs(v - c) || Clamp(v, n) == Clamp(c, n)
    ensures Clamp(c - r, n) <= Clamp(v, n) <= Clamp(c + r, n)
  {
  }

  lemma {:induction false} ClampStays(cx: int, cy: int, r: int, w: nat, h: nat, x: int, y: int)
    requires w > 0 && h > 0 && ExtremesInside(cx, cy, r, w, h) && InDisc(cx, cy, r, x, y)
    ensures InDisc(cx, cy, r, Clamp(x, w), Clamp(y, h))
  {
    DiscRows(cx, cy, r, x, y);
    DiscColumns(cx, cy, r, x, y);
    ClampAxis(cx, r, x, w);
    ClampAxis(cy, r, y, h);
    var i, j := Clamp(x, w), Clamp(y, h);
    hide InDisc, Clamp;
    if i == Clamp(cx, w) {
      Between3(cx, cy, r, i, Clamp(cy - r, h), j, Clamp(cy + r, h));
    } else if j == Clamp(cy, h) {
      Transposed(cx, cy, r, Clamp(cx - r, w), j);
      Transposed(cx, cy, r, Clamp(cx + r, w), j);
      Between3(cy, cx, r, j, Clamp(cx - r, w), i, Clamp(cx + r, w));
      Transposed(cy, cx, r, j, i);
    } else {
      Nearer(cx, cy, r, x, y, i, j);
    }
  }

  lemma DiscColumns(cx: int, cy: int, r: int, x: int, y: int)
    requires InDisc(cx, cy, r, x, y)
    ensures cx - r <= x <= cx + r
  {
    DiscRows(cy, cx, r, y, x);
  }

  lemma Transposed(cx: int, cy: int, r: int, x: int, y: int)
    requires InDisc(cx, cy, r, x, y)
    ensures InDisc(cy, cx, r, y, x)
  {
  }

  lemma Nearer(cx: int, cy: int, r: int, x: int, y: int, i: int, j: int)
    requires InDisc(cx, cy, r, x, y) && Abs(i - cx) <= Abs(x - cx) && Abs(j - cy) <= Abs(y - cy)
    ensures InDisc(cx, cy, r, i, j)
  {
    SquareOrder(i - cx, x - cx);
    SquareOrder(j - cy, y - cy);
  }

  /** A column of the disc has no gaps. */
  lemma Between3(cx: int, cy: int, r: int, x: int, lo: int, y: int, hi: int)
    requires InDisc(cx, cy, r, x, lo) && InDisc(cx, cy, r, x, hi) && lo <= y <= hi
    ensures InDisc(cx, cy, r, x, y)
  {
    if Abs(y - cy) <= Abs(lo - cy) { SquareOrder(y - cy, lo - cy); } else { SquareOrder(y - cy, hi - cy); }
  }

  /** Every extreme point of the disc is painted where it clamps to. */
  lemma ExtremePainted(cx: int, cy: int, r: int, w: nat, h: nat)
    requires w > 0 && h > 0 && r >= 0
    ensures DiscPaints(cx, cy, r, w, h, Clamp(cx - r, w), Clamp(cy, h))
    ensures DiscPaints(cx, cy, r, w, h, Clamp(cx + r, w), Clamp(cy, h))
    ensures DiscPaints(cx, cy, r, w, h, Clamp(cx, w), Clamp(cy - r, h))
    ensures DiscPaints(cx, cy, r, w, h, Clamp(cx, w), Clamp(cy + r, h))
  {
    Paints(cx, cy, r, w, h, cx - r, cy);
    Paints(cx, cy, r, w, h, cx + r, cy);
    Paints(cx, cy, r, w, h, cx, cy - r);
    Paints(cx, cy, r, w, h, cx, cy + r);
  }

  lemma Paints(cx: int, cy: int, r: int, w: nat, h: nat, x: int, y: int)
    requires w > 0 && h > 0 && r >= 0 && ((x == cx && Abs(y - cy) == r) || (y == cy && Abs(x - cx) == r))
    ensures DiscPaints(cx, cy, r, w, h, Clamp(x, w), Clamp(y, h))
  {
    SquareOrder(x - cx, r);
    SquareOrder(y - cy, r);
    assert Lands(cx, cy, r, w, h, x, y, Clamp(x, w), Clamp(y, h));
    assert RowPaints(cx, cy, r, w, h, y, Clamp(x, w), Clamp(y, h));
  }

  /** With its centre on the screen a disc is clipped right, however far it reaches beyond. */
  lemma CentreOnScreen(cx: int, cy: int, r: int, w: nat, h: nat)
    requires 0 <= cx < w && 0 <= cy < h && r >= 0
    ensures ExtremesInside(cx, cy, r, w, h)
  {
    AxisInside(cx, cy, r, r, w, h);
    AxisInside(cx, cy, r, 0 - r, w, h);
  }

  lemma AxisInside(cx: int, cy: int, r: int, d: int, w: nat, h: nat)
    requires 0 <= cx < w && 0 <= cy < h && r >= 0 && 0 - r <= d <= r
    ensures InDisc(cx, cy, r, Clamp(cx + d, w), cy) && InDisc(cx, cy, r, cx, Clamp(cy + d, h))
  {
    SquareOrder(Clamp(cx + d, w) - cx, r);
    SquareOrder(Clamp(cy + d, h) - cy, r);
  }

  /** A single point to the right of the screen is a disc that paints the last column. */
  lemma DiscBeside(w: nat, h: nat)
    requires w > 0 && h > 0
    ensures DiscPaints(w, 0, 0, w, h, w - 1, 0) && !InDisc(w, 0, 0, w - 1, 0)
  {
    Paints(w, 0, 0, w, h, w, 0);
  }

  /** Clamping a run of pixels is clipping it exactly when the run meets the screen. */
  lemma ClampIsClip(from: int, len: int, n: nat)
    requires n > 0 && len > 0
    ensures (forall i: nat | i < n :: Covers(from, len, n, i) <==> from <= i < from + len) <==>
      (from < n && from + len > 0)
  {
    if from >= n { assert Covers(from, len, n, n - 1); }
    if from + len <= 0 { assert Covers(from, len, n, 0); }
  }

  /** A rectangle to the right of the screen paints the last column. */
  lemma OffScreen(n: nat)
    requires n > 0
    ensures Covers(n, 1, n, n - 1)
  {
  }
}
