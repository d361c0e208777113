/** The line loop of the OLED driver, on the display's frame buffer.  Coordinates are mathematical integers. */
module Bresenham {

  const WIDTH: nat := 128
  const HEIGHT: nat := 64
  const BUFFER: nat := 1024

  datatype Point = Point(x: int, y: int)

  // ----- the ideal line, in pixels ---------------------------------------------

  function Abs(x: int): nat { if x < 0 then -x else x }

  function Larger(a: nat, b: nat): nat { if a < b then b else a }

  /** Steps along the longer axis. */
  function Steps(a: Point, b: Point): nat {
    Larger(Abs(b.x - a.x), Abs(b.y - a.y))
  }

  /** `k * minor / major` rounded to the nearest integer, halves up. */
  function Nearest(k: nat, minor: nat, major: nat): int
    requires major > 0
  {
    (2 * (k * minor) + major) / (2 * major)
  }

  /** Pixel `k` of the line: `k` steps along the longer axis, and the nearest pixel on the other. */
  function Pixel(a: Point, b: Point, k: nat): Point {
    var dx, dy := Abs(b.x - a.x), Abs(b.y - a.y);
    if dx == 0 && dy == 0 then a
    else if dx >= dy then Moved(a, b, k, Nearest(k, dy, dx))
    else Moved(a, b, Nearest(k, dx, dy), k)
  }

  /** `i` pixels towards `b` in one direction and `j` in the other. */
  function Moved(a: Point, b: Point, i: int, j: int): Point {
    Point(if a.x < b.x then a.x + i else a.x - i, if a.y < b.y then a.y + j else a.y - j)
  }

  /** The first `count` pixels. */
  ghost function Line(a: Point, b: Point, count: nat): set<Point> {
    set k: nat | k < count :: Pixel(a, b, k)
  }

  lemma Below(a: int, b: int, d: int)
    requires d > 0 && a * d < b * d
    ensures a < b
  {}

  /** Twice the distance of the rounded ordinate from the exact one, times `major`. */
  lemma NearestIsNear(k: nat, minor: nat, major: nat)
    requires major > 0
    ensures var j := Nearest(k, minor, major); 0 <= 2 * (k * minor - j * major) + major < 2 * major
  {
    var n, d := 2 * (k * minor) + major, 2 * major;
    assert n == (n / d) * d + n % d;
  }

  lemma NearestOf(k: nat, minor: nat, major: nat, j: int)
    requires major > 0 && 0 <= 2 * (k * minor - j * major) + major < 2 * major
    ensures Nearest(k, minor, major) == j
  {
    hide Nearest;
    var r := Nearest(k, minor, major);
    NearestIsNear(k, minor, major);
    assert r * major < (j + 1) * major && j * major < (r + 1) * major;
    Below(r, j + 1, major);
    Below(j, r + 1, major);
  }

  /**
   Every plotted position is within half a pixel of the line from `a` to `b` along the shorter axis: the
   vertical (or horizontal) distance is at most 1/2, multiplied out by twice the length of the longer axis.
   */
  lemma WithinHalfAPixel(a: Point, b: Point, k: nat)
    requires k <= Steps(a, b)
    ensures var p := Pixel(a, b, k);
      var cross := (p.x - a.x) * (b.y - a.y) - (p.y - a.y) * (b.x - a.x);
      2 * Abs(cross) <= Steps(a, b)
  {
    var dx, dy := Abs(b.x - a.x), Abs(b.y - a.y);
    if dx >= dy && dx > 0 {
      var j := Nearest(k, dy, dx);
      NearestIsNear(k, dy, dx);
      CrossProduct(a, b, k, j);
    } else if dy > 0 {
      var i := Nearest(k, dx, dy);
      NearestIsNear(k, dx, dy);
      CrossProduct(a, b, i, k);
    }
  }

  lemma CrossProduct(a: Point, b: Point, i: int, j: int)
    ensures var p := Moved(a, b, i, j);
      Abs((p.x - a.x) * (b.y - a.y) - (p.y - a.y) * (b.x - a.x)) == Abs(i * Abs(b.y - a.y) - j * Abs(b.x - a.x))
  {
  }

  /** Pixel `k` is `k` steps from the start, so no position repeats. */
  lemma StepsFromStart(a: Point, b: Point, k: nat)
    requires k <= Steps(a, b)
    ensures Steps(a, Pixel(a, b, k)) == k
  {
    var dx, dy := Abs(b.x - a.x), Abs(b.y - a.y);
    if dx >= dy && dx > 0 {
      NearestBounds(k, dy, dx);
    } else if dy > 0 {
      NearestBounds(k, dx, dy);
    }
  }

  lemma NearestBounds(k: nat, minor: nat, major: nat)
    requires major > 0 && minor <= major
    ensures 0 <= Nearest(k, minor, major) <= k
  {
    var j := Nearest(k, minor, major);
    NearestIsNear(k, minor, major);
    assert 0 <= k * minor <= k * major;
    assert 0 * major < (j + 1) * major && j * major < (k + 1) * major;
    Below(0, j + 1, major);
    Below(j, k + 1, major);
  }

  lemma {:induction false} LineSize(a: Point, b: Point, count: nat)
    requires count <= Steps(a, b) + 1
    ensures |Line(a, b, count)| == count
  {
    hide Pixel, Steps;
    if count == 0 {
      assert Line(a, b, 0) == {};
    } else {
      LineSize(a, b, count - 1);
      OneMorePixel(a, b, count - 1);
      StepsFromStart(a, b, count - 1);
      forall k: nat | k < count - 1 ensures Pixel(a, b, k) != Pixel(a, b, count - 1) {
        StepsFromStart(a, b, k);
      }
    }
  }

  lemma EndsMeet(a: Point, b: Point)
    ensures Pixel(a, b, 0) == a && Pixel(a, b, Steps(a, b)) == b
    ensures forall k: nat :: k < Steps(a, b) ==> Pixel(a, b, k) != b
  {
    var dx, dy := Abs(b.x - a.x), Abs(b.y - a.y);
    if dx >= dy && dx > 0 {
      NearestOf(0, dy, dx, 0);
      NearestOf(dx, dy, dx, dy);
    } else if dy > 0 {
      NearestOf(0, dx, dy, 0);
      NearestOf(dy, dx, dy, dx);
    }
  }

  // ----- the error term --------------------------------------------------------

  /** `i` steps across and `j` steps down are a rounded point of the line. */
  predicate Near(dx: nat, dy: nat, i: int, j: int) {
    if dx == 0 && dy == 0 then i == 0 && j == 0
    else if dx >= dy then 0 <= 2 * (i * dy - j * dx) + dx < 2 * dx
    else 0 <= 2 * (j * dx - i * dy) + dy < 2 * dy
  }

  lemma TrackedPixel(a: Point, b: Point, i: nat, j: nat, err: int)
    requires Tracks(err, Abs(b.x - a.x), Abs(b.y - a.y), i, j)
    ensures Moved(a, b, i, j) == Pixel(a, b, if Abs(b.x - a.x) >= Abs(b.y - a.y) then i else j)
  {
    var dx, dy := Abs(b.x - a.x), Abs(b.y - a.y);
    if dx >= dy && dx > 0 {
      NearestOf(i, dy, dx, j);
    } else if dy > 0 {
      NearestOf(j, dx, dy, i);
    }
  }

  predicate Tracks(err: int, dx: nat, dy: nat, i: int, j: int) {
    err == dx * (j + 1) - dy * (i + 1) && Near(dx, dy, i, j)
  }

  /** The two tests on the error term move along the longer axis always and along the other when rounding says so. */
  lemma NextStep(dx: nat, dy: nat, i: nat, j: nat, err: int)
    requires Tracks(err, dx, dy, i, j) && 0 < dx + dy
    ensures var across, down := 2 * err + dy >= 0, 2 * err <= dx;
      var i', j' := if across then i + 1 else i, if down then j + 1 else j;
      && Tracks(err - (if across then dy else 0) + (if down then dx else 0), dx, dy, i', j')
      && (if dx >= dy then i' == i + 1 else j' == j + 1)
  {
    var e := i * dy - j * dx;
    assert err == dx - dy - e;
    assert (i + 1) * dy == i * dy + dy && (j + 1) * dx == j * dx + dx;
    assert (i + 2) * dy == i * dy + 2 * dy && (j + 2) * dx == j * dx + 2 * dx;
  }

  lemma OneMorePixel(a: Point, b: Point, k: nat)
    ensures Line(a, b, k + 1) == Line(a, b, k) + {Pixel(a, b, k)}
  {
    hide Pixel;
    assert Pixel(a, b, k) in Line(a, b, k + 1);
  }

  // ----- the frame buffer ------------------------------------------------------

  function Mask(k: int): bv8
    requires 0 <= k < 8
  {
    match k
    case 0 => 1
    case 1 => 2
    case 2 => 4
    case 3 => 8
    case 4 => 16
    case 5 => 32
    case 6 => 64
    case 7 => 128
  }

  predicate OnScreen(p: Point) {
    0 <= p.x < WIDTH && 0 <= p.y < HEIGHT
  }

  function Cell(p: Point): (i: nat)
    requires OnScreen(p)
    ensures i < BUFFER
  {
    p.x + p.y / 8 * WIDTH
  }

  predicate Lit(buffer: seq<bv8>, p: Point)
    requires |buffer| == BUFFER && OnScreen(p)
  {
    buffer[Cell(p)] & Mask(p.y % 8) != 0
  }

  function WithBit(byte: bv8, k: int, color: bool): bv8
    requires 0 <= k < 8
  {
    if color then byte | Mask(k) else byte & !Mask(k)
  }

  lemma BitIs(byte: bv8, k: int, color: bool)
    requires 0 <= k < 8
    ensures WithBit(byte, k, color) == if color then byte | Mask(k) else byte & !Mask(k)
  {}

  lemma MaskBits(byte: bv8, i: int, j: int)
    requires 0 <= i < 8 && 0 <= j < 8
    ensures (byte | Mask(i)) & Mask(j) != 0 <==> i == j || byte & Mask(j) != 0
    ensures (byte & !Mask(i)) & Mask(j) != 0 <==> i != j && byte & Mask(j) != 0
  {}

  lemma CellsDiffer(p: Point, q: Point)
    requires OnScreen(p) && OnScreen(q) && Cell(p) == Cell(q) && p.y % 8 == q.y % 8
    ensures p == q
  {}

  /** The on-screen points of `points` show `color`, every other pixel is as it was. */
  ghost predicate Painted(was: seq<bv8>, now: seq<bv8>, points: set<Point>, color: bool) {
    && |was| == |now| == BUFFER
    && forall q :: OnScreen(q) ==> (Lit(now, q) <==> if q in points then color else Lit(was, q))
  }

  lemma BitSeen(was: seq<bv8>, p: Point, q: Point, color: bool)
    requires |was| == BUFFER && OnScreen(p) && OnScreen(q)
    ensures Lit(was[Cell(p) := WithBit(was[Cell(p)], p.y % 8, color)], q) <==> if q == p then color else Lit(was, q)
  {
    hide Mask, Cell;
    if Cell(q) == Cell(p) {
      MaskBits(was[Cell(p)], p.y % 8, q.y % 8);
      if p.y % 8 == q.y % 8 { CellsDiffer(p, q); }
    }
  }

  lemma BitPaints(was: seq<bv8>, p: Point, color: bool)
    requires |was| == BUFFER && OnScreen(p)
    ensures Painted(was, was[Cell(p) := WithBit(was[Cell(p)], p.y % 8, color)], {p}, color)
  {
    hide Mask, Cell, Lit, WithBit;
    var now := was[Cell(p) := WithBit(was[Cell(p)], p.y % 8, color)];
    forall q | OnScreen(q) ensures Lit(now, q) <==> if q in {p} then color else Lit(was, q) {
      BitSeen(was, p, q, color);
    }
  }

  lemma PaintedMore(was: seq<bv8>, then_: seq<bv8>, now: seq<bv8>, first: set<Point>, more: set<Point>, color: bool)
    requires Painted(was, then_, first, color) && Painted(then_, now, more, color)
    ensures Painted(was, now, first + more, color)
  {
    hide Lit;
  }

  lemma OffScreen(buffer: seq<bv8>, p: Point, color: bool)
    requires |buffer| == BUFFER && !OnScreen(p)
    ensures Painted(buffer, buffer, {p}, color)
  {
    hide Lit;
  }

  lemma UnpaintedAtFirst(buffer: seq<bv8>, color: bool)
    requires |buffer| == BUFFER
    ensures Painted(buffer, buffer, {}, color)
  {
    hide Lit;
  }

  class Display {
    const buffer: array<bv8>

    constructor ()
      ensures fresh(buffer) && buffer.Length == BUFFER
      ensures forall i :: 0 <= i < BUFFER ==> buffer[i] == 0
    {
      buffer := new bv8[BUFFER](_ => 0);
    }

    method DrawPixel(p: Point, color: bool)
      requires buffer.Length == BUFFER
      modifies buffer
      ensures Painted(old(buffer[..]), buffer[..], {p}, color)
    {
      hide Mask, Cell, Painted, Lit, WithBit;
      if !OnScreen(p) {
        OffScreen(buffer[..], p, color);
        return;
      }
      var idx, bit := Cell(p), Mask(p.y % 8);
      BitPaints(buffer[..], p, color);
      var byte := if color then buffer[idx] | bit else buffer[idx] & !bit;
      BitIs(buffer[idx], p.y % 8, color);
      buffer[idx] := byte;
      assert buffer[..] == old(buffer[..])[idx := byte];
    }

    /** Paints the pixels of the line and no others. */
    method DrawLine(a: Point, b: Point, color: bool)
      requires buffer.Length == BUFFER
      modifies buffer
      ensures Painted(old(buffer[..]), buffer[..], Line(a, b, Steps(a, b) + 1), color)
    {
      hide Pixel, Tracks, Painted, Line, Steps, Abs;
      var x0, y0 := a.x, a.y;
      var dx, sx := Abs(b.x - x0), if x0 < b.x then 1 else -1;
      var dy, sy := -(Abs(b.y - y0) as int), if y0 < b.y then 1 else -1;
      var err := dx + dy;
      ghost var i: nat, j: nat, k: nat, ady: nat := 0, 0, 0, Abs(b.y - y0);
      Starts(a, b);
      UnpaintedAtFirst(buffer[..], color);
      while true
        invariant k <= Steps(a, b) && Point(x0, y0) == Pixel(a, b, k) == Moved(a, b, i, j)
        invariant k == if dx >= ady then i else j
        invariant Tracks(err, dx, ady, i, j)
        invariant Painted(old(buffer[..]), buffer[..], Line(a, b, k), color)
        decreases Steps(a, b) - k
      {
        ghost var before := buffer[..];
        DrawPixel(Point(x0, y0), color);
        OneMorePixel(a, b, k);
        PaintedMore(old(buffer[..]), before, buffer[..], Line(a, b, k), {Point(x0, y0)}, color);
        EndsMeet(a, b);
        if x0 == b.x && y0 == b.y { break; }
        var e2 := 2 * err;
        StepsExist(a, b, k);
        NextStep(dx, ady, i, j, err);
        if e2 >= dy { err := err + dy; x0 := x0 + sx; i := i + 1; }
        if e2 <= dx { err := err + dx; y0 := y0 + sy; j := j + 1; }
        k := k + 1;
        TrackedPixel(a, b, i, j, err);
      }
    }
  }

  lemma Starts(a: Point, b: Point)
    ensures var dx, dy := Abs(b.x - a.x), Abs(b.y - a.y); Tracks(dx - dy, dx, dy, 0, 0)
    ensures Pixel(a, b, 0) == a == Moved(a, b, 0, 0)
    ensures Line(a, b, 0) == {}
  {
    EndsMeet(a, b);
  }

  lemma StepsExist(a: Point, b: Point, k: nat)
    requires k < Steps(a, b)
    ensures 0 < Abs(b.x - a.x) + Abs(b.y - a.y)
  {}
}
