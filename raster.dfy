/**
  The two point-plotting primitives the game draws everything with.
  Instead of sending each pixel to the graphics backend, both methods
  return the sequence of points they would plot, in plotting order.
*/
module Raster {

  /** An integer pixel position (x, y). */
  type Point = (int, int)

  function Abs(n: int): nat {
    if n < 0 then -n else n
  }

  function Max(a: int, b: int): int {
    if a < b then b else a
  }

  /** The segment from (x1, y1) to (x2, y2) that the line loop rasterises. */
  datatype Segment = Segment(x1: int, y1: int, x2: int, y2: int) {
    function Dx(): int { Abs(x2 - x1) }
    function Dy(): int { Abs(y2 - y1) }
    function Sx(): int { if x2 > x1 then 1 else -1 }
    function Sy(): int { if y2 > y1 then 1 else -1 }
  }

  /** v is u, or u moved by one unit toward target. */
  predicate StepsToward(u: int, v: int, target: int) {
    v == u || (u < target && v == u + 1) || (target < u && v == u - 1)
  }

  /**
    The deviation of p from the ideal segment, measured as dy * i - dx * j
    where (i, j) is the distance p has travelled from the start along each
    axis.  It is zero exactly on the ideal line.
  */
  function Deviation(s: Segment, p: Point): int {
    s.Dy() * Abs(p.0 - s.x1) - s.Dx() * Abs(p.1 - s.y1)
  }

  /**
    p is within half a pixel of the ideal segment along the minor axis:
    the rasterised point is the grid point nearest to the true line.
  */
  predicate NearLine(s: Segment, p: Point) {
    Abs(2 * Deviation(s, p)) <= Max(s.Dx(), s.Dy())
  }

  lemma MulAtLeast(p: int, q: int)
    requires 0 <= p && 1 <= q
    ensures p <= p * q
  {
    assert p * q == p + p * (q - 1);
  }

  /**
    The arithmetic state of the line loop: dx, dy are the total distances,
    a, b the distances still to go, err the accumulated error.  The bounds
    on err depend on which axis dominates.
  */
  ghost predicate LineState(dx: int, dy: int, err: int, a: int, b: int) {
    && 0 <= a <= dx && 0 <= b <= dy
    && err == dx - dy - (dx * b - dy * a)
    && (dx > dy ==> dx - 2 * dy <= 2 * err <= 3 * dx - 2 * dy && b <= a)
    && (dx == dy ==> err == 0 && a == b)
    && (dx < dy ==> 2 * dx - 3 * dy <= 2 * err <= 2 * dx - dy && a <= b)
  }

  /** In every loop state the current point is near the ideal line. */
  lemma LineStateNear(dx: int, dy: int, err: int, a: int, b: int)
    requires LineState(dx, dy, err, a, b)
    ensures Abs(2 * (dx * b - dy * a)) <= Max(dx, dy)
  {
  }

  /** The error update of one loop iteration. */
  function NextErr(dx: int, dy: int, err: int): int {
    err - (if 2 * err > -dy then dy else 0) + (if 2 * err < dx then dx else 0)
  }

  /** What is left along one axis after an iteration that does or does not step it. */
  function NextDist(a: int, step: bool): int {
    if step then a - 1 else a
  }

  /**
    One iteration of the line loop away from the end point: at least one
    axis steps, neither overshoots, the dominant distance drops by exactly
    one, and the loop state is preserved.
  */
  ghost predicate StepOk(dx: int, dy: int, err: int, a: int, b: int) {
    && (2 * err > -dy || 2 * err < dx)
    && LineState(dx, dy, NextErr(dx, dy, err), NextDist(a, 2 * err > -dy), NextDist(b, 2 * err < dx))
    && Max(NextDist(a, 2 * err > -dy), NextDist(b, 2 * err < dx)) == Max(a, b) - 1
  }

  /** x-major line, diagonal step: both axes advance. */
  lemma XMajorBoth(dx: int, dy: int, err: int, a: int, b: int)
    requires LineState(dx, dy, err, a, b) && (a != 0 || b != 0) && dx > dy
    requires 2 * err < dx
    ensures 1 <= a && 1 <= b
    ensures LineState(dx, dy, err - dy + dx, a - 1, b - 1)
  {
    if b == 0 {
      MulAtLeast(dy, a);
    }
    assert dy * (a - 1) == dy * a - dy;
    assert dx * (b - 1) == dx * b - dx;
  }

  /** x-major line, straight step: only x advances. */
  lemma XMajorOnly(dx: int, dy: int, err: int, a: int, b: int)
    requires LineState(dx, dy, err, a, b) && (a != 0 || b != 0) && dx > dy
    requires dx <= 2 * err
    ensures b < a
    ensures LineState(dx, dy, err - dy, a - 1, b)
  {
    if b == a {
      MulAtLeast(dx - dy, a);
    }
    assert dy * (a - 1) == dy * a - dy;
  }

  lemma XMajorStep(dx: int, dy: int, err: int, a: int, b: int)
    requires LineState(dx, dy, err, a, b) && (a != 0 || b != 0) && dx > dy
    ensures StepOk(dx, dy, err, a, b)
  {
    if 2 * err < dx {
      XMajorBoth(dx, dy, err, a, b);
    } else {
      XMajorOnly(dx, dy, err, a, b);
    }
  }

  lemma DiagonalStep(dx: int, dy: int, err: int, a: int, b: int)
    requires LineState(dx, dy, err, a, b) && (a != 0 || b != 0) && dx == dy
    ensures StepOk(dx, dy, err, a, b)
  {
  }

  /** y-major line, diagonal step: both axes advance. */
  lemma YMajorBoth(dx: int, dy: int, err: int, a: int, b: int)
    requires LineState(dx, dy, err, a, b) && (a != 0 || b != 0) && dx < dy
    requires -dy < 2 * err
    ensures 1 <= a && 1 <= b
    ensures LineState(dx, dy, err - dy + dx, a - 1, b - 1)
  {
    if a == 0 {
      MulAtLeast(dx, b);
    }
    assert dy * (a - 1) == dy * a - dy;
    assert dx * (b - 1) == dx * b - dx;
  }

  /** y-major line, straight step: only y advances. */
  lemma YMajorOnly(dx: int, dy: int, err: int, a: int, b: int)
    requires LineState(dx, dy, err, a, b) && (a != 0 || b != 0) && dx < dy
    requires 2 * err <= -dy
    ensures a < b
    ensures LineState(dx, dy, err + dx, a, b - 1)
  {
    if a == b {
      MulAtLeast(dy - dx, b);
    }
    assert dx * (b - 1) == dx * b - dx;
  }

  lemma YMajorStep(dx: int, dy: int, err: int, a: int, b: int)
    requires LineState(dx, dy, err, a, b) && (a != 0 || b != 0) && dx < dy
    ensures StepOk(dx, dy, err, a, b)
  {
    if -dy < 2 * err {
      YMajorBoth(dx, dy, err, a, b);
    } else {
      YMajorOnly(dx, dy, err, a, b);
    }
  }

  lemma LineStep(dx: int, dy: int, err: int, a: int, b: int)
    requires LineState(dx, dy, err, a, b) && (a != 0 || b != 0)
    ensures StepOk(dx, dy, err, a, b)
  {
    if dx > dy {
      XMajorStep(dx, dy, err, a, b);
    } else if dx == dy {
      DiagonalStep(dx, dy, err, a, b);
    } else {
      YMajorStep(dx, dy, err, a, b);
    }
  }

  /** The coordinate a units short of p2 on the way from p1 to p2. */
  function Along(p1: int, p2: int, a: int): int {
    if p2 > p1 then p2 - a else p2 + a
  }

  /** The loop's end test on one axis holds exactly when no distance is left. */
  lemma AlongEnd(p1: int, p2: int, a: int)
    ensures (Along(p1, p2, a) == p2) == (a == 0)
  {
  }

  /** A step by the loop's direction s moves one unit closer to p2. */
  lemma AlongStep(p1: int, p2: int, s: int, a: int)
    requires s == (if p2 > p1 then 1 else -1) && 1 <= a
    ensures Along(p1, p2, a) + s == Along(p1, p2, a - 1)
    ensures StepsToward(Along(p1, p2, a), Along(p1, p2, a - 1), p2)
  {
  }

  /** The distance travelled from p1 is the total minus what is left. */
  lemma AlongFrom(p1: int, p2: int, a: int)
    requires 0 <= a <= Abs(p2 - p1)
    ensures Abs(Along(p1, p2, a) - p1) == Abs(p2 - p1) - a
  {
  }

  /** A point whose travelled distances give a small deviation is near the line. */
  lemma NearFromDistances(s: Segment, p: Point, a: int, b: int)
    requires Abs(p.0 - s.x1) == s.Dx() - a && Abs(p.1 - s.y1) == s.Dy() - b
    requires Abs(2 * (s.Dx() * b - s.Dy() * a)) <= Max(s.Dx(), s.Dy())
    ensures NearLine(s, p)
  {
    var dx, dy := s.Dx(), s.Dy();
    assert dy * (dx - a) == dy * dx - dy * a;
    assert dx * (dy - b) == dx * dy - dx * b;
    assert Deviation(s, p) == dx * b - dy * a;
  }

  /** The variables of the line loop: the current point and the error term. */
  datatype Cursor = Cursor(x: int, y: int, err: int)

  /** The values the line loop fixes before it starts. */
  datatype LoopConsts = LoopConsts(x2: int, y2: int, dx: int, dy: int, sx: int, sy: int)

  function Consts(s: Segment): LoopConsts {
    LoopConsts(s.x2, s.y2, s.Dx(), s.Dy(), s.Sx(), s.Sy())
  }

  function Start(s: Segment): Cursor {
    Cursor(s.x1, s.y1, s.Dx() - s.Dy())
  }

  function Pt(c: Cursor): Point {
    (c.x, c.y)
  }

  /** The loop's exit test. */
  predicate AtEnd(k: LoopConsts, c: Cursor) {
    c.x == k.x2 && c.y == k.y2
  }

  /**
    One iteration of the line loop after the current point is plotted:
    x steps when 2 * err > -dy, y steps when 2 * err < dx, both tests
    made on the error term from before the iteration.
  */
  function Advance(k: LoopConsts, c: Cursor): Cursor {
    var xs, ys := 2 * c.err > -k.dy, 2 * c.err < k.dx;
    Cursor(if xs then c.x + k.sx else c.x,
           if ys then c.y + k.sy else c.y,
           c.err - (if xs then k.dy else 0) + (if ys then k.dx else 0))
  }

  /** The cursor c followed by the cursors of m more iterations. */
  function Run(k: LoopConsts, c: Cursor, m: nat): (r: seq<Cursor>)
    ensures |r| == m + 1 && r[0] == c
    decreases m
  {
    if m == 0 then [c] else [c] + Run(k, Advance(k, c), m - 1)
  }

  /** The cursors the line loop passes through for segment s. */
  function Cursors(s: Segment): (r: seq<Cursor>)
    ensures |r| == Max(s.Dx(), s.Dy()) + 1
  {
    Run(Consts(s), Start(s), Max(s.Dx(), s.Dy()))
  }

  /** The points Bresenham's loop plots for segment s, in plotting order. */
  function Line(s: Segment): seq<Point> {
    var cs := Cursors(s);
    seq(|cs|, j requires 0 <= j < |cs| => Pt(cs[j]))
  }

  /** Each cursor of a run is one iteration after the one before it. */
  lemma {:induction false} RunStep(k: LoopConsts, c: Cursor, m: nat, i: nat)
    requires i < m
    ensures Run(k, c, m)[i + 1] == Advance(k, Run(k, c, m)[i])
    decreases i
  {
    if i > 0 {
      RunStep(k, Advance(k, c), m - 1, i - 1);
    }
  }

  lemma CursorsStep(s: Segment, i: nat)
    requires i < Max(s.Dx(), s.Dy())
    ensures Cursors(s)[i + 1] == Advance(Consts(s), Cursors(s)[i])
  {
    RunStep(Consts(s), Start(s), Max(s.Dx(), s.Dy()), i);
  }

  /**
    A cursor in the middle of the loop, a units short of the end along x
    and b along y.
  */
  ghost predicate Inv(s: Segment, c: Cursor, a: int, b: int) {
    && LineState(s.Dx(), s.Dy(), c.err, a, b)
    && c.x == Along(s.x1, s.x2, a)
    && c.y == Along(s.y1, s.y2, b)
  }

  /** The loop is at its end point exactly when no distance is left. */
  lemma InvAtEnd(s: Segment, c: Cursor, a: int, b: int)
    requires Inv(s, c, a, b)
    ensures AtEnd(Consts(s), c) == (Max(a, b) == 0)
  {
    AlongEnd(s.x1, s.x2, a);
    AlongEnd(s.y1, s.y2, b);
  }

  /** Every point the loop visits is near the ideal line. */
  lemma CursorNear(s: Segment, c: Cursor, a: int, b: int)
    requires Inv(s, c, a, b)
    ensures NearLine(s, Pt(c))
  {
    LineStateNear(s.Dx(), s.Dy(), c.err, a, b);
    AlongFrom(s.x1, s.x2, a);
    AlongFrom(s.y1, s.y2, b);
    NearFromDistances(s, Pt(c), a, b);
  }

  /**
    One iteration away from the end keeps the loop state, moves one unit
    on at least one axis toward the end point, and shortens the dominant
    distance by one.
  */
  lemma CursorStep(s: Segment, c: Cursor, a: int, b: int) returns (a': int, b': int)
    requires Inv(s, c, a, b) && !AtEnd(Consts(s), c)
    ensures var c' := Advance(Consts(s), c);
            && Inv(s, c', a', b') && Max(a', b') == Max(a, b) - 1
            && Pt(c) != Pt(c')
            && StepsToward(c.x, c'.x, s.x2) && StepsToward(c.y, c'.y, s.y2)
  {
    InvAtEnd(s, c, a, b);
    LineStep(s.Dx(), s.Dy(), c.err, a, b);
    a' := NextDist(a, 2 * c.err > -s.Dy());
    b' := NextDist(b, 2 * c.err < s.Dx());
    if 2 * c.err > -s.Dy() {
      AlongStep(s.x1, s.x2, s.Sx(), a);
    }
    if 2 * c.err < s.Dx() {
      AlongStep(s.y1, s.y2, s.Sy(), b);
    }
  }

  /** The segment's start is a loop state with the whole distance left. */
  lemma StartInv(s: Segment)
    ensures Inv(s, Start(s), s.Dx(), s.Dy())
  {
    assert s.Dx() * s.Dy() == s.Dy() * s.Dx();
  }

  /**
    After i iterations the loop is in a loop state whose dominant distance
    left is the number of iterations still to come.
  */
  lemma {:induction false} CursorsInv(s: Segment, i: nat) returns (a: int, b: int)
    requires i <= Max(s.Dx(), s.Dy())
    ensures Inv(s, Cursors(s)[i], a, b) && Max(a, b) == Max(s.Dx(), s.Dy()) - i
  {
    if i == 0 {
      StartInv(s);
      a, b := s.Dx(), s.Dy();
    } else {
      var a0, b0 := CursorsInv(s, i - 1);
      InvAtEnd(s, Cursors(s)[i - 1], a0, b0);
      CursorsStep(s, i - 1);
      a, b := CursorStep(s, Cursors(s)[i - 1], a0, b0);
    }
  }

  /** The loop stops at the end point after exactly Max(dx, dy) iterations, and not before. */
  lemma EndsAt(s: Segment, i: nat)
    requires i <= Max(s.Dx(), s.Dy())
    ensures AtEnd(Consts(s), Cursors(s)[i]) == (i == Max(s.Dx(), s.Dy()))
  {
    var a, b := CursorsInv(s, i);
    InvAtEnd(s, Cursors(s)[i], a, b);
  }

  /**
    The line from (x1, y1) to (x2, y2) runs from its start to its end, one
    point per unit of the longer axis, each a unit step toward the end from
    the one before, and each the grid point nearest the ideal line.
  */
  lemma LineFacts(s: Segment)
    ensures |Line(s)| == Max(s.Dx(), s.Dy()) + 1
    ensures Line(s)[0] == (s.x1, s.y1) && Line(s)[|Line(s)| - 1] == (s.x2, s.y2)
    ensures forall j :: 0 <= j < |Line(s)| - 1 ==>
              && Line(s)[j] != Line(s)[j + 1]
              && StepsToward(Line(s)[j].0, Line(s)[j + 1].0, s.x2)
              && StepsToward(Line(s)[j].1, Line(s)[j + 1].1, s.y2)
    ensures forall j :: 0 <= j < |Line(s)| ==> NearLine(s, Line(s)[j])
  {
    var n := Max(s.Dx(), s.Dy());
    var cs, l := Cursors(s), Line(s);
    EndsAt(s, n);
    forall j | 0 <= j < n
      ensures l[j] != l[j + 1]
      ensures StepsToward(l[j].0, l[j + 1].0, s.x2) && StepsToward(l[j].1, l[j + 1].1, s.y2)
    {
      var a, b := CursorsInv(s, j);
      EndsAt(s, j);
      CursorsStep(s, j);
      var a', b' := CursorStep(s, cs[j], a, b);
    }
    forall j | 0 <= j <= n
      ensures NearLine(s, l[j])
    {
      var a, b := CursorsInv(s, j);
      CursorNear(s, cs[j], a, b);
    }
  }

  /**
    Bresenham's loop: plot the current point, stop at the end point,
    otherwise step x, y or both according to the error term.
  */
  method MidpointLine(x1: int, y1: int, x2: int, y2: int) returns (pts: seq<Point>)
    ensures pts == Line(Segment(x1, y1, x2, y2))
  {
    ghost var s := Segment(x1, y1, x2, y2);
    var dx: int := Abs(x2 - x1);
    var dy: int := Abs(y2 - y1);
    var sx := if x2 > x1 then 1 else -1;
    var sy := if y2 > y1 then 1 else -1;
    var err: int := dx - dy;
    var x, y := x1, y1;
    // the loop's constants and the cursors it passes through
    ghost var k := LoopConsts(x2, y2, dx, dy, sx, sy);
    ghost var cs := Cursors(s);
    ghost var n: nat := Max(dx, dy);
    assert k == Consts(s) && cs[0] == Cursor(x, y, err) && |cs| == n + 1;
    EndsAt(s, n);
    ghost var i: nat := 0;
    pts := [];
    while true
      invariant i <= n
      invariant Cursor(x, y, err) == cs[i]
      invariant |pts| == i
      invariant forall j :: 0 <= j < i ==> pts[j] == Pt(cs[j])
      decreases n - i
    {
      pts := pts + [(x, y)];
      if x == x2 && y == y2 {
        EndsAt(s, i);
        break;
      }
      CursorsStep(s, i);
      ghost var c := Cursor(x, y, err);
      var e2 := 2 * err;
      if e2 > -dy {
        err := err - dy;
        x := x + sx;
      }
      if e2 < dx {
        err := err + dx;
        y := y + sy;
      }
      assert Cursor(x, y, err) == Advance(k, c);
      i := i + 1;
    }
  }

  /**
    The rasterisation depends on direction: the same two end points
    joined in opposite orders give different middle points.
  */
  lemma LineDependsOnDirection()
    ensures Line(Segment(0, 0, 2, 1)) == [(0, 0), (1, 0), (2, 1)]
    ensures Line(Segment(2, 1, 0, 0)) == [(2, 1), (1, 1), (0, 0)]
  {
  }

  /** p lies in the closed disk of radius r around (cx, cy). */
  predicate InDisk(p: Point, cx: int, cy: int, r: int) {
    (p.0 - cx) * (p.0 - cx) + (p.1 - cy) * (p.1 - cy) <= r * r
  }

  /** p comes strictly before q when rows (y) are scanned upward and each row left to right. */
  predicate RowMajorBefore(p: Point, q: Point) {
    p.1 < q.1 || (p.1 == q.1 && p.0 < q.0)
  }

  /** p lies in the square [cx-r, cx+r] x [cy-r, ...] and is scanned before (col, row). */
  predicate ScannedBefore(p: Point, cx: int, cy: int, r: int, col: int, row: int) {
    cx - r <= p.0 <= cx + r && cy - r <= p.1 && RowMajorBefore(p, (col, row))
  }

  lemma SquareLess(r: int, d: int)
    requires 0 <= r < d
    ensures r * r < d * d
  {
    MulAtLeast(r, d - r);
    assert r * d == r * r + r * (d - r);
    assert d * d == r * d + (d - r) * d;
    MulAtLeast(d, d - r);
    assert (d - r) * d == d * (d - r);
  }

  lemma SquareBound(d: int, e: int, r: int)
    requires 0 <= r && d * d + e * e <= r * r
    ensures -r <= d <= r
  {
    assert 0 <= e * e;
    if d > r {
      SquareLess(r, d);
    } else if d < -r {
      assert (-d) * (-d) == d * d;
      SquareLess(r, -d);
    }
  }

  /**
    Scans the bounding square of the disk row by row (dy outer, dx inner,
    both ascending) and plots the points inside it.  The result is exactly
    the set of integer points of the closed disk, each once, in row-major
    order; a negative radius plots nothing and radius 0 only the centre.
  */
  method FillCircle(cx: int, cy: int, r: int) returns (pts: seq<Point>)
    ensures forall p :: p in pts <==> 0 <= r && InDisk(p, cx, cy, r)
    ensures forall i, j :: 0 <= i < j < |pts| ==> RowMajorBefore(pts[i], pts[j])
    ensures r < 0 ==> pts == []
    ensures r == 0 ==> pts == [(cx, cy)]
  {
    pts := [];
    var dy := -r;
    while dy < r + 1
      invariant r < 0 ==> pts == []
      invariant 0 <= r ==> -r <= dy <= r + 1
      invariant r == 0 ==> pts == if dy == 1 then [(cx, cy)] else []
      invariant forall p :: p in pts <==> InDisk(p, cx, cy, r) && ScannedBefore(p, cx, cy, r, cx - r, cy + dy)
      invariant forall i, j :: 0 <= i < j < |pts| ==> RowMajorBefore(pts[i], pts[j])
      invariant forall i :: 0 <= i < |pts| ==> RowMajorBefore(pts[i], (cx - r, cy + dy))
    {
      var dx := -r;
      while dx < r + 1
        invariant -r <= dx <= r + 1
        invariant r == 0 ==> dy == 0 && pts == if dx == 1 then [(cx, cy)] else []
        invariant forall p :: p in pts <==> InDisk(p, cx, cy, r) && ScannedBefore(p, cx, cy, r, cx + dx, cy + dy)
        invariant forall i, j :: 0 <= i < j < |pts| ==> RowMajorBefore(pts[i], pts[j])
        invariant forall i :: 0 <= i < |pts| ==> RowMajorBefore(pts[i], (cx + dx, cy + dy))
      {
        if dx * dx + dy * dy <= r * r {
          pts := pts + [(cx + dx, cy + dy)];
        }
        dx := dx + 1;
      }
      dy := dy + 1;
    }
    forall p | p in pts
      ensures 0 <= r
    {
    }
    forall p | 0 <= r && InDisk(p, cx, cy, r)
      ensures p in pts
    {
      SquareBound(p.0 - cx, p.1 - cy, r);
      SquareBound(p.1 - cy, p.0 - cx, r);
    }
    if r < 0 {
      assert pts == [];
    }
    if r == 0 {
      assert (cx, cy) in pts;
      forall p | p in pts
        ensures p == (cx, cy)
      {
        SquareBound(p.0 - cx, p.1 - cy, r);
        SquareBound(p.1 - cy, p.0 - cx, r);
      }
    }
  }
}
