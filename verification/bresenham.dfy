/**
  The integer Bresenham line walk shared by `DrawingPixelCanvas::draw_line`
  (client) and `AppState::draw_line_on_canvas` (server). Both copies use
  the same stepping rule over signed coordinates:

    dx = |x1 - x0|, dy = -|y1 - y0|, sx = x0 < x1 ? 1 : -1, sy likewise,
    err = dx + dy; repeat: visit (x, y); stop at (x1, y1);
    e2 = 2 * err; if e2 >= dy { err += dy; x += sx }
                  if e2 <= dx { err += dx; y += sy }

  `Trace` is the sequence of points that walk visits. It is the reference
  both drawing loops are proved to follow.
*/
module Bresenham {
  import opened Common

  type Point = (int, int)

  datatype Line = Line(x0: int, y0: int, x1: int, y1: int)

  function Dx(l: Line): nat { Abs(l.x1 - l.x0) }

  /** Non-positive, as in `draw_line`, where `dy = -(y1 - y0).abs()`. */
  function Dy(l: Line): int { 0 - Abs(l.y1 - l.y0) }

  function Sx(l: Line): int { if l.x0 < l.x1 then 1 else -1 }

  function Sy(l: Line): int { if l.y0 < l.y1 then 1 else -1 }

  /** The walk's mutable state: the current point and the error term. */
  datatype Cursor = Cursor(x: int, y: int, err: int)

  function Start(l: Line): Cursor {
    Cursor(l.x0, l.y0, Dx(l) + Dy(l))
  }

  predicate AtEnd(l: Line, c: Cursor) {
    c.x == l.x1 && c.y == l.y1
  }

  /**
    One iteration of the loop body after the end test. Each coordinate
    moves by 0 or by its sign, and since `dy <= 0 <= dx` at least one of
    the two tests on `e2` succeeds, so the point always moves.
  */
  function Step(l: Line, c: Cursor): (r: Cursor)
    ensures r.x == c.x || r.x == c.x + Sx(l)
    ensures r.y == c.y || r.y == c.y + Sy(l)
    ensures r.x != c.x || r.y != c.y
  {
    var e2 := 2 * c.err;
    var x := if e2 >= Dy(l) then c.x + Sx(l) else c.x;
    var err := if e2 >= Dy(l) then c.err + Dy(l) else c.err;
    var y := if e2 <= Dx(l) then c.y + Sy(l) else c.y;
    var err' := if e2 <= Dx(l) then err + Dx(l) else err;
    Cursor(x, y, err')
  }

  /** How far `cur` has moved from `from` in the direction of `to`. */
  function Along(from: int, to: int, cur: int): int {
    if from < to then cur - from else from - cur
  }

  /**
    `a * b` by repeated addition. The walk's invariant is stated with it so
    that callers reason linearly; `MulIsProduct` connects it to `*`.
  */
  function Mul(a: int, b: nat): int {
    if b == 0 then 0 else Mul(a, b - 1) + a
  }

  lemma {:induction false} MulIsProduct(a: int, b: nat)
    ensures Mul(a, b) == a * b
  {
    if b > 0 {
      MulIsProduct(a, b - 1);
    }
  }

  /**
    The walk's invariant: `i` steps taken along x and `j` along y, neither
    past the endpoint, and the error term equals `dx*(j+1) + dy*(i+1)`.
  */
  predicate OnTrack(l: Line, c: Cursor) {
    var i := Along(l.x0, l.x1, c.x);
    var j := Along(l.y0, l.y1, c.y);
    && 0 <= i <= Dx(l)
    && 0 <= j <= -Dy(l)
    && c.err == Mul(Dx(l), j + 1) + Mul(Dy(l), i + 1)
  }

  /** Steps still to take, counted along both axes. */
  function Remaining(l: Line, c: Cursor): nat
    requires OnTrack(l, c)
  {
    (Dx(l) - Along(l.x0, l.x1, c.x)) + (-Dy(l) - Along(l.y0, l.y1, c.y))
  }

  lemma StartOnTrack(l: Line)
    ensures OnTrack(l, Start(l))
    ensures Remaining(l, Start(l)) == Dx(l) - Dy(l)
  {
    MulIsProduct(Dx(l), 1);
    MulIsProduct(Dy(l), 1);
  }

  /** The cursor is at the endpoint exactly when both axes are used up. */
  lemma AtEndIffExhausted(l: Line, c: Cursor)
    requires OnTrack(l, c)
    ensures AtEnd(l, c) <==> Remaining(l, c) == 0
  {
  }

  lemma MulNonPos(a: nat, b: int)
    requires b <= 0
    ensures a * b <= 0
  {
  }

  lemma Distrib(a: int, b: int, c: int)
    ensures a * (b + c) == a * b + a * c
  {
  }

  /** Moving one step toward `to` adds one to the progress along that axis. */
  lemma AlongAdvance(from: int, to: int, cur: int)
    ensures Along(from, to, cur + (if from < to then 1 else -1)) == Along(from, to, cur) + 1
  {
  }

  /** Once x is used up but y is not, the step does not move x. */
  lemma XUsedUp(dx: nat, dy: int, j: int, err: int)
    requires dy <= 0 && 0 <= j < -dy
    requires err == dx * (j + 1) + dy * (dx + 1)
    ensures 2 * err < dy
  {
    Distrib(dy, dx, 1);
    Distrib(dx, j + 1, dy);
    MulNonPos(dx, j + 1 + dy);
  }

  /** Once y is used up but x is not, the step does not move y. */
  lemma YUsedUp(dx: nat, dy: int, i: int, err: int)
    requires dy <= 0 && 0 <= i < dx
    requires err == dx * (-dy + 1) + dy * (i + 1)
    ensures 2 * err > dx
  {
    Distrib(dx, -dy, 1);
    Distrib(-dy, i + 1, 0 - dx);
    MulNonPos(-dy, i + 1 - dx);
  }

  /**
    A step from a cursor that is not at the endpoint keeps the invariant and
    strictly reduces the steps remaining: the x move is suppressed once x is
    used up, the y move once y is, and at least one of them happens.
  */
  lemma StepOnTrack(l: Line, c: Cursor)
    requires OnTrack(l, c) && !AtEnd(l, c)
    ensures OnTrack(l, Step(l, c))
    ensures Remaining(l, Step(l, c)) < Remaining(l, c)
  {
    var dx, dy := Dx(l), Dy(l);
    var i := Along(l.x0, l.x1, c.x);
    var j := Along(l.y0, l.y1, c.y);
    var e2 := 2 * c.err;
    var xMoves, yMoves := e2 >= dy, e2 <= dx;
    MulIsProduct(dx, j + 1);
    MulIsProduct(dy, i + 1);
    if i == dx {
      XUsedUp(dx, dy, j, c.err);
    }
    if j == -dy {
      YUsedUp(dx, dy, i, c.err);
    }
    AlongAdvance(l.x0, l.x1, c.x);
    AlongAdvance(l.y0, l.y1, c.y);
    var i' := if xMoves then i + 1 else i;
    var j' := if yMoves then j + 1 else j;
    Distrib(dx, j + 1, 1);
    Distrib(dy, i + 1, 1);
    assert dx * (j' + 1) == dx * (j + 1) + (if yMoves then dx else 0);
    assert dy * (i' + 1) == dy * (i + 1) + (if xMoves then dy else 0);
    MulIsProduct(dx, j' + 1);
    MulIsProduct(dy, i' + 1);
  }

  /** The points visited by the walk from `c` up to and including the endpoint. */
  function Trace(l: Line, c: Cursor): (path: seq<Point>)
    requires OnTrack(l, c)
    ensures 1 <= |path| <= Remaining(l, c) + 1
    ensures path[0] == (c.x, c.y)
    ensures path[|path| - 1] == (l.x1, l.y1)
    decreases Remaining(l, c)
  {
    if AtEnd(l, c) then
      [(c.x, c.y)]
    else
      StepOnTrack(l, c);
      [(c.x, c.y)] + Trace(l, Step(l, c))
  }

  /** The whole walk of a line. */
  function Path(l: Line): (path: seq<Point>)
    ensures 1 <= |path| <= Dx(l) - Dy(l) + 1
  {
    StartOnTrack(l);
    Trace(l, Start(l))
  }

  /** The walk begins at the start point and ends at the end point. */
  lemma PathEndpoints(l: Line)
    ensures Path(l)[0] == (l.x0, l.y0)
    ensures Path(l)[|Path(l)| - 1] == (l.x1, l.y1)
    ensures (l.x0, l.y0) in Path(l) && (l.x1, l.y1) in Path(l)
  {
    StartOnTrack(l);
  }

  /** A zero-length line visits its single point exactly once. */
  lemma DegeneratePath(l: Line)
    requires l.x0 == l.x1 && l.y0 == l.y1
    ensures Path(l) == [(l.x0, l.y0)]
  {
    StartOnTrack(l);
  }

  /** `p` lies in the closed box spanned by the two endpoints. */
  predicate InBox(l: Line, p: Point) {
    && 0 <= Along(l.x0, l.x1, p.0) <= Dx(l)
    && 0 <= Along(l.y0, l.y1, p.1) <= -Dy(l)
  }

  /**
    One step of the walk: x moves by 0 or `sx`, y by 0 or `sy`, and at
    least one of them moves.
  */
  predicate StepsToward(l: Line, p: Point, q: Point) {
    && (q.0 == p.0 || q.0 == p.0 + Sx(l))
    && (q.1 == p.1 || q.1 == p.1 + Sy(l))
    && p != q
  }

  lemma {:induction false} TraceShape(l: Line, c: Cursor)
    requires OnTrack(l, c)
    ensures forall k :: 0 <= k < |Trace(l, c)| ==> InBox(l, Trace(l, c)[k])
    ensures forall k :: 0 <= k < |Trace(l, c)| - 1 ==> StepsToward(l, Trace(l, c)[k], Trace(l, c)[k + 1])
    decreases Remaining(l, c)
  {
    if !AtEnd(l, c) {
      StepOnTrack(l, c);
      var rest := Trace(l, Step(l, c));
      TraceShape(l, Step(l, c));
      assert Trace(l, c) == [(c.x, c.y)] + rest;
      assert StepsToward(l, (c.x, c.y), rest[0]);
    }
  }

  /**
    Every point of the walk lies between the endpoints (no overshoot), and
    consecutive points differ by one move toward the endpoint on at least
    one axis.
  */
  lemma PathShape(l: Line)
    ensures forall p :: p in Path(l) ==> InBox(l, p)
    ensures forall k :: 0 <= k < |Path(l)| - 1 ==> StepsToward(l, Path(l)[k], Path(l)[k + 1])
  {
    StartOnTrack(l);
    TraceShape(l, Start(l));
  }

  /** With non-negative endpoints, no point of the walk has a negative coordinate. */
  lemma PathNonNegative(l: Line)
    requires l.x0 >= 0 && l.y0 >= 0 && l.x1 >= 0 && l.y1 >= 0
    ensures forall p :: p in Path(l) ==> p.0 >= 0 && p.1 >= 0
  {
    PathShape(l);
  }

  /** The walk unrolled once: the current point, then the walk from the next cursor. */
  lemma TraceUnfold(l: Line, c: Cursor)
    requires OnTrack(l, c) && !AtEnd(l, c)
    ensures OnTrack(l, Step(l, c))
    ensures Trace(l, c) == [(c.x, c.y)] + Trace(l, Step(l, c))
  {
    StepOnTrack(l, c);
  }

  /**
    The ghost bookkeeping of one loop iteration of a line walk: the point
    just visited moves from the unvisited trace to the visited prefix.
  */
  lemma AdvanceWalk(l: Line, c: Cursor, visited: seq<Point>)
    requires OnTrack(l, c) && !AtEnd(l, c)
    requires visited + Trace(l, c) == Path(l)
    ensures OnTrack(l, Step(l, c))
    ensures Remaining(l, Step(l, c)) < Remaining(l, c)
    ensures (visited + [(c.x, c.y)]) + Trace(l, Step(l, c)) == Path(l)
  {
    StepOnTrack(l, c);
    TraceUnfold(l, c);
  }

  /** At the endpoint the visited prefix plus the current point is the whole walk. */
  lemma FinishWalk(l: Line, c: Cursor, visited: seq<Point>)
    requires OnTrack(l, c) && AtEnd(l, c)
    requires visited + Trace(l, c) == Path(l)
    ensures visited + [(c.x, c.y)] == Path(l)
  {
  }
}
