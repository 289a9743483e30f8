/**
  `BitMatrix`, a row-major boolean grid (true = black) with bounds-checked
  access, and `DrawingPixelCanvas`, the drawing API over it: single pixels
  whose out-of-range writes are ignored, Bresenham lines, clearing and an
  ASCII dump.

  The bit vector is modelled as `seq<bool>`; cell `(x, y)` is element
  `y * width + x`.
*/
module Bitmap {
  import opened Common
  import opened Bresenham

  datatype BitMatrix = BitMatrix(width: nat, height: nat, data: seq<bool>)

  /** The representation invariant every constructor establishes. */
  predicate Valid(m: BitMatrix) {
    |m.data| == m.width * m.height
  }

  lemma MulMono(a: nat, b: nat, w: nat)
    requires a <= b
    ensures a * w <= b * w
  {
  }

  /** The row-major position of an in-range cell. */
  function CellIndex(w: nat, h: nat, x: nat, y: nat): (i: nat)
    requires x < w && y < h
    ensures i < w * h
  {
    MulMono(y + 1, h, w);
    y * w + x
  }

  /** Distinct in-range cells occupy distinct positions. */
  lemma CellIndexInjective(w: nat, h: nat, x: nat, y: nat)
    requires x < w && y < h
    ensures forall x': nat, y': nat :: x' < w && y' < h && (x' != x || y' != y) ==>
      CellIndex(w, h, x', y') != CellIndex(w, h, x, y)
  {
    forall x': nat, y': nat | x' < w && y' < h && (x' != x || y' != y)
      ensures CellIndex(w, h, x', y') != CellIndex(w, h, x, y)
    {
      if y < y' {
        MulMono(y + 1, y', w);
      } else if y' < y {
        MulMono(y' + 1, y, w);
      }
    }
  }

  /** `BitMatrix::new`: every cell holds `initial`. */
  function New(width: nat, height: nat, initial: bool): (m: BitMatrix)
    ensures Valid(m)
    ensures Dimensions(m) == (width, height)
    ensures forall x: nat, y: nat :: x < width && y < height ==> Get(m, x, y) == Some(initial)
  {
    BitMatrix(width, height, seq(width * height, _ => initial))
  }

  /** `BitMatrix::dimensions`: `(width, height)`, which account for every stored bit. */
  function Dimensions(m: BitMatrix): (d: (nat, nat))
    ensures Valid(m) ==> d.0 * d.1 == |m.data|
  {
    (m.width, m.height)
  }

  /** `BitMatrix::idx`: the position of `(x, y)`, or `None` outside the grid. */
  function Idx(m: BitMatrix, x: nat, y: nat): (r: Option<nat>)
    ensures r.Some? <==> x < m.width && y < m.height
    ensures r.Some? ==> r.value == CellIndex(m.width, m.height, x, y)
  {
    if x < m.width && y < m.height then Some(y * m.width + x) else None
  }

  /** `BitMatrix::get`. */
  function Get(m: BitMatrix, x: nat, y: nat): (r: Option<bool>)
    requires Valid(m)
    ensures r.None? <==> x >= m.width || y >= m.height
    ensures x < m.width && y < m.height ==> r == Some(m.data[CellIndex(m.width, m.height, x, y)])
  {
    match Idx(m, x, y)
    case Some(i) => Some(m.data[i])
    case None => None
  }

  /**
    `BitMatrix::set`: the new matrix and whether the write happened. An
    in-range write changes exactly one cell; an out-of-range one reports
    `false` and changes nothing.
  */
  function Set(m: BitMatrix, x: nat, y: nat, value: bool): (r: (BitMatrix, bool))
    requires Valid(m)
    ensures Valid(r.0) && Dimensions(r.0) == Dimensions(m)
    ensures r.1 <==> x < m.width && y < m.height
    ensures r.1 ==> Get(r.0, x, y) == Some(value)
    ensures forall x': nat, y': nat :: (x' != x || y' != y) ==> Get(r.0, x', y') == Get(m, x', y')
    ensures !r.1 ==> r.0 == m
  {
    match Idx(m, x, y)
    case Some(i) =>
      CellIndexInjective(m.width, m.height, x, y);
      (m.(data := m.data[i := value]), true)
    case None => (m, false)
  }

  /** `BitMatrix::clear`: every cell becomes false; the dimensions stay. */
  function Clear(m: BitMatrix): (r: BitMatrix)
    requires Valid(m)
    ensures Valid(r) && Dimensions(r) == Dimensions(m)
    ensures forall x: nat, y: nat :: x < m.width && y < m.height ==> Get(r, x, y) == Some(false)
    ensures CountOnes(r) == 0
  {
    var r := m.(data := seq(|m.data|, _ => false));
    CountZero(r.data);
    r
  }

  /** Number of `true` entries. */
  function Count(s: seq<bool>): nat {
    if s == [] then 0 else (if s[0] then 1 else 0) + Count(s[1..])
  }

  /** `BitMatrix::count_ones`: never more than the number of cells. */
  function CountOnes(m: BitMatrix): (n: nat)
    ensures Valid(m) ==> n <= m.width * m.height
  {
    CountBound(m.data);
    Count(m.data)
  }

  /** The count is zero exactly when no entry is set. */
  lemma {:induction false} CountZero(s: seq<bool>)
    ensures Count(s) == 0 <==> forall i :: 0 <= i < |s| ==> !s[i]
  {
    if s != [] {
      CountZero(s[1..]);
      if Count(s) == 0 {
        forall i | 1 <= i < |s| ensures !s[i] {
          assert s[i] == s[1..][i - 1];
        }
      }
    }
  }

  /** The count never exceeds the length. */
  lemma {:induction false} CountBound(s: seq<bool>)
    ensures Count(s) <= |s|
  {
    if s != [] {
      CountBound(s[1..]);
    }
  }

  /** Overwriting one entry changes the count by what left and what came in. */
  lemma {:induction false} CountUpdate(s: seq<bool>, i: nat, v: bool)
    requires i < |s|
    ensures Count(s[i := v]) == Count(s) - (if s[i] then 1 else 0) + (if v then 1 else 0)
  {
    if i == 0 {
      assert s[i := v][1..] == s[1..];
    } else {
      assert s[i := v][1..] == s[1..][i - 1 := v];
      CountUpdate(s[1..], i - 1, v);
    }
  }

  /** `count_ones` after `set`: a cell that turns on adds one, one that turns off removes one. */
  lemma CountAfterSet(m: BitMatrix, x: nat, y: nat, value: bool)
    requires Valid(m)
    ensures CountOnes(Set(m, x, y, value).0) ==
      if x < m.width && y < m.height then
        CountOnes(m) - (if Get(m, x, y) == Some(true) then 1 else 0) + (if value then 1 else 0)
      else
        CountOnes(m)
  {
    if x < m.width && y < m.height {
      CountUpdate(m.data, CellIndex(m.width, m.height, x, y), value);
    }
  }

  /** A fresh all-false matrix has no ones. */
  lemma CountNewFalse(w: nat, h: nat)
    ensures CountOnes(New(w, h, false)) == 0
  {
    CountZero(New(w, h, false).data);
  }

  // ---------------------------------------------------------------------
  // DrawingPixelCanvas
  // ---------------------------------------------------------------------

  datatype DrawingPixelCanvas = DrawingPixelCanvas(bits: BitMatrix)

  /** `DrawingPixelCanvas::new`: an all-white canvas. */
  function NewCanvas(width: nat, height: nat): (c: DrawingPixelCanvas)
    ensures Valid(c.bits) && Dimensions(c.bits) == (width, height)
    ensures forall x: nat, y: nat :: x < width && y < height ==> Get(c.bits, x, y) == Some(false)
  {
    DrawingPixelCanvas(New(width, height, false))
  }

  /**
    `DrawingPixelCanvas::draw_pixel`: `set`'s failure is ignored, so an
    out-of-range pixel changes nothing and only `(x, y)` can change.
  */
  function DrawPixel(c: DrawingPixelCanvas, x: nat, y: nat, black: bool): (r: DrawingPixelCanvas)
    requires Valid(c.bits)
    ensures Valid(r.bits) && Dimensions(r.bits) == Dimensions(c.bits)
    ensures forall x': nat, y': nat :: Get(r.bits, x', y') ==
              if x' == x && y' == y && x < c.bits.width && y < c.bits.height then Some(black) else Get(c.bits, x', y')
  {
    DrawingPixelCanvas(Set(c.bits, x, y, black).0)
  }

  /**
    One visited point of a line: a point with a negative coordinate is
    skipped (not clamped); any other goes to `draw_pixel`.
  */
  function Plot(c: DrawingPixelCanvas, p: Point, black: bool): (r: DrawingPixelCanvas)
    requires Valid(c.bits)
    ensures p.0 < 0 || p.1 < 0 ==> r == c
  {
    if p.0 >= 0 && p.1 >= 0 then DrawPixel(c, p.0, p.1, black) else c
  }

  /** Plotting every point of `path` in order. */
  function PaintPath(c: DrawingPixelCanvas, path: seq<Point>, black: bool): (r: DrawingPixelCanvas)
    requires Valid(c.bits)
    ensures Valid(r.bits) && Dimensions(r.bits) == Dimensions(c.bits)
    decreases |path|
  {
    if path == [] then c
    else Plot(PaintPath(c, path[..|path| - 1], black), path[|path| - 1], black)
  }

  /** Painting a path extended by one point plots that point last. */
  lemma PaintPathSnoc(c: DrawingPixelCanvas, path: seq<Point>, p: Point, black: bool)
    requires Valid(c.bits)
    ensures PaintPath(c, path + [p], black) == Plot(PaintPath(c, path, black), p, black)
  {
    assert (path + [p])[..|path|] == path;
  }

  /**
    Painting a path sets exactly the in-range cells on the path to the pen
    colour; every other cell keeps its value.
  */
  lemma {:induction false} PaintPathEffect(c: DrawingPixelCanvas, path: seq<Point>, black: bool)
    requires Valid(c.bits)
    ensures forall x: nat, y: nat :: Get(PaintPath(c, path, black).bits, x, y) ==
              if (x, y) in path && x < c.bits.width && y < c.bits.height then Some(black) else Get(c.bits, x, y)
    decreases |path|
  {
    if path != [] {
      var init := path[..|path| - 1];
      PaintPathEffect(c, init, black);
      assert forall q :: q in path <==> q in init || q == path[|path| - 1] by {
        assert path == init + [path[|path| - 1]];
      }
    }
  }

  /**
    `DrawingPixelCanvas::draw_line`, modelled as its Rust loop: visit the
    current point, stop at the endpoint, otherwise take one Bresenham
    `Step` (the shared body of both line loops). The coordinates are
    `usize` cast to `isize`; a visited point with a negative coordinate is
    skipped. The result paints exactly the in-range cells of the walk from
    `(x0, y0)` to `(x1, y1)`.
  */
  method DrawLine(c: DrawingPixelCanvas, x0: nat, y0: nat, x1: nat, y1: nat, black: bool)
    returns (r: DrawingPixelCanvas)
    requires Valid(c.bits)
    ensures r == PaintPath(c, Path(Line(x0, y0, x1, y1)), black)
    ensures Valid(r.bits) && Dimensions(r.bits) == Dimensions(c.bits)
    ensures forall x: nat, y: nat :: Get(r.bits, x, y) ==
              if (x, y) in Path(Line(x0, y0, x1, y1)) && x < c.bits.width && y < c.bits.height
              then Some(black) else Get(c.bits, x, y)
  {
    var line := Line(x0, y0, x1, y1);
    var cur := Start(line);
    ghost var visited: seq<Point> := [];
    StartOnTrack(line);
    r := c;
    while true
      invariant OnTrack(line, cur)
      invariant visited + Trace(line, cur) == Path(line)
      invariant r == PaintPath(c, visited, black)
      decreases Remaining(line, cur)
    {
      ghost var prefix := visited;
      if cur.x >= 0 && cur.y >= 0 {
        r := DrawPixel(r, cur.x, cur.y, black);
      }
      PaintPathSnoc(c, prefix, (cur.x, cur.y), black);
      visited := prefix + [(cur.x, cur.y)];
      if AtEnd(line, cur) {
        FinishWalk(line, cur, prefix);
        break;
      }
      AdvanceWalk(line, cur, prefix);
      cur := Step(line, cur);
    }
    PaintPathEffect(c, visited, black);
  }

  /**
    Both endpoints of a drawn line are painted when they lie on the canvas,
    and a zero-length line paints its single point and nothing else.
  */
  lemma LineEndpointsPainted(c: DrawingPixelCanvas, x0: nat, y0: nat, x1: nat, y1: nat, black: bool)
    requires Valid(c.bits)
    ensures var r := PaintPath(c, Path(Line(x0, y0, x1, y1)), black);
      && (x0 < c.bits.width && y0 < c.bits.height ==> Get(r.bits, x0, y0) == Some(black))
      && (x1 < c.bits.width && y1 < c.bits.height ==> Get(r.bits, x1, y1) == Some(black))
      && (x0 == x1 && y0 == y1 ==>
            forall x: nat, y: nat :: (x != x0 || y != y0) ==> Get(r.bits, x, y) == Get(c.bits, x, y))
  {
    var line := Line(x0, y0, x1, y1);
    PathEndpoints(line);
    PaintPathEffect(c, Path(line), black);
    if x0 == x1 && y0 == y1 {
      DegeneratePath(line);
    }
  }

  /** `DrawingPixelCanvas::clear`: all white, same dimensions. */
  function ClearCanvas(c: DrawingPixelCanvas): (r: DrawingPixelCanvas)
    requires Valid(c.bits)
    ensures Valid(r.bits) && Dimensions(r.bits) == Dimensions(c.bits)
    ensures forall x: nat, y: nat :: x < c.bits.width && y < c.bits.height ==> Get(r.bits, x, y) == Some(false)
    ensures CountOnes(r.bits) == 0
  {
    DrawingPixelCanvas(Clear(c.bits))
  }

  /** Position of column `x` of row `y` in the ASCII dump (each row is `w` cells and a newline). */
  function AsciiIndex(w: nat, x: nat, y: nat): nat {
    y * (w + 1) + x
  }

  /** Everything in rows before `y` lies before the start of row `y`. */
  lemma AsciiRowsBefore(w: nat, y: nat)
    ensures forall x: nat, y': nat :: x <= w && y' < y ==> AsciiIndex(w, x, y') < y * (w + 1)
  {
    forall x: nat, y': nat | x <= w && y' < y
      ensures AsciiIndex(w, x, y') < y * (w + 1)
    {
      MulMono(y' + 1, y, w + 1);
    }
  }

  const FullBlock: char := '█'

  /** Appending row `y` and its newline to the first `y` rows puts each character at its index. */
  lemma AppendRow(out: string, row: string, w: nat, y: nat)
    requires |out| == y * (w + 1) && |row| == w
    ensures |out + row + "\n"| == (y + 1) * (w + 1)
    ensures forall x: nat :: x < w ==>
      AsciiIndex(w, x, y) < |out + row + "\n"| && (out + row + "\n")[AsciiIndex(w, x, y)] == row[x]
    ensures AsciiIndex(w, w, y) < |out + row + "\n"| && (out + row + "\n")[AsciiIndex(w, w, y)] == '\n'
    ensures forall i :: 0 <= i < |out| ==> (out + row + "\n")[i] == out[i]
  {
  }

  /** The character the dump uses for cell `(x, y)`. */
  function Glyph(m: BitMatrix, x: nat, y: nat): char
    requires Valid(m)
  {
    if Get(m, x, y) == Some(true) then FullBlock else ' '
  }

  /** The `w` characters of row `y` of the dump, without its newline. */
  method AsciiRow(c: DrawingPixelCanvas, y: nat) returns (row: string)
    requires Valid(c.bits)
    ensures |row| == c.bits.width
    ensures forall x: nat :: x < c.bits.width ==> row[x] == Glyph(c.bits, x, y)
  {
    row := "";
    var x: nat := 0;
    while x < c.bits.width
      invariant x <= c.bits.width
      invariant |row| == x
      invariant forall x': nat :: x' < x ==> row[x'] == Glyph(c.bits, x', y)
    {
      row := row + [if Get(c.bits, x, y).GetOr(false) then FullBlock else ' '];
      x := x + 1;
    }
  }

  /**
    `DrawingPixelCanvas::to_ascii`: `h` lines of `w` characters, each line
    ended by a newline; a character is a full block exactly where the cell
    is set and a space elsewhere.
  */
  method ToAscii(c: DrawingPixelCanvas) returns (out: string)
    requires Valid(c.bits)
    ensures |out| == c.bits.height * (c.bits.width + 1)
    ensures forall x: nat, y: nat :: x < c.bits.width && y < c.bits.height ==>
      AsciiIndex(c.bits.width, x, y) < |out| &&
      out[AsciiIndex(c.bits.width, x, y)] == (if Get(c.bits, x, y) == Some(true) then FullBlock else ' ')
    ensures forall y: nat :: y < c.bits.height ==>
      AsciiIndex(c.bits.width, c.bits.width, y) < |out| &&
      out[AsciiIndex(c.bits.width, c.bits.width, y)] == '\n'
  {
    var (w, h) := Dimensions(c.bits);
    out := "";
    var y: nat := 0;
    while y < h
      invariant y <= h
      invariant |out| == y * (w + 1)
      invariant forall x: nat, y': nat :: x < w && y' < y ==>
        AsciiIndex(w, x, y') < |out| && out[AsciiIndex(w, x, y')] == Glyph(c.bits, x, y')
      invariant forall y': nat :: y' < y ==> AsciiIndex(w, w, y') < |out| && out[AsciiIndex(w, w, y')] == '\n'
    {
      AsciiRowsBefore(w, y);
      var row := AsciiRow(c, y);
      AppendRow(out, row, w, y);
      out := out + row + "\n";
      y := y + 1;
    }
  }
}
