/**
  The two canvases of the system side by side: the server's packed
  `CanvasState` read as a 100 x 100 `BitMatrix`, and the proof that the
  server's clipped Bresenham copy (`draw_line_on_canvas`) draws exactly
  what the client's `DrawingPixelCanvas::draw_line` draws on a canvas of
  that size.
*/
module Consistency {
  import opened Common
  import opened Bresenham
  import opened Bitmap
  import opened Shared
  import opened Server

  /** The packed canvas as a row-major bit matrix. */
  function Unpack(c: CanvasState): (m: BitMatrix)
    requires ValidState(c)
    ensures Valid(m) && Dimensions(m) == (Side, Side)
    ensures forall x: nat, y: nat :: Get(m, x, y) == if x < Side && y < Side then Some(GetPixel(c, x, y)) else None
  {
    BitMatrix(Side, Side, seq(Side * Side, i requires 0 <= i < Side * Side => Bit(c.data[i / 8], i % 8)))
  }

  /** Two 100 x 100 matrices that agree on every cell are equal. */
  lemma MatrixExtensionality(a: BitMatrix, b: BitMatrix)
    requires Valid(a) && Valid(b)
    requires Dimensions(a) == (Side, Side) && Dimensions(b) == (Side, Side)
    requires forall x: nat, y: nat :: x < Side && y < Side ==> Get(a, x, y) == Get(b, x, y)
    ensures a == b
  {
    forall i | 0 <= i < Side * Side
      ensures a.data[i] == b.data[i]
    {
      var x, y := i % Side, i / Side;
      assert CellIndex(Side, Side, x, y) == i;
      assert Get(a, x, y) == Get(b, x, y);
    }
  }

  /** Writing a packed pixel is writing the matrix cell. */
  lemma UnpackSetPixel(c: CanvasState, x: nat, y: nat, isBlack: bool)
    requires ValidState(c)
    ensures Unpack(SetPixel(c, x, y, isBlack)) == Set(Unpack(c), x, y, isBlack).0
  {
    MatrixExtensionality(Unpack(SetPixel(c, x, y, isBlack)), Set(Unpack(c), x, y, isBlack).0);
  }

  /** Clearing the packed canvas is clearing the matrix. */
  lemma UnpackClear(c: CanvasState)
    requires ValidState(c)
    ensures Unpack(ClearState(c)) == Clear(Unpack(c))
  {
    MatrixExtensionality(Unpack(ClearState(c)), Clear(Unpack(c)));
  }

  /**
    Painting any path with the server's clipped plot and unpacking gives the
    same matrix as painting it with the client's plot on the unpacked
    canvas: the client's out-of-range writes fail silently exactly where the
    server's explicit `< 100` test skips them.
  */
  lemma {:induction false} PaintAgrees(c: CanvasState, path: seq<Point>, isBlack: bool)
    requires ValidState(c)
    ensures DrawingPixelCanvas(Unpack(PaintState(c, path, isBlack))) ==
            PaintPath(DrawingPixelCanvas(Unpack(c)), path, isBlack)
    decreases |path|
  {
    if path != [] {
      var init, p := path[..|path| - 1], path[|path| - 1];
      PaintAgrees(c, init, isBlack);
      var before := PaintState(c, init, isBlack);
      if p.0 >= 0 && p.1 >= 0 {
        UnpackSetPixel(before, p.0, p.1, isBlack);
      }
    }
  }

  /**
    A draw-line event applied by the server changes its canvas exactly as
    the client's `draw_line` with the same endpoints and colour changes a
    100 x 100 `DrawingPixelCanvas` holding the same pixels; a clear event
    matches the client's `clear`.
  */
  lemma ServerMatchesClient(c: CanvasState, e: DrawEvent)
    requires ValidState(c)
    ensures e.msgType == MsgDrawLine ==>
      DrawingPixelCanvas(Unpack(ApplyDrawEvent(c, e).0)) ==
      PaintPath(DrawingPixelCanvas(Unpack(c)), Path(EventLine(e)), e.isBlack == 1)
    ensures e.msgType == MsgClear ==>
      DrawingPixelCanvas(Unpack(ApplyDrawEvent(c, e).0)) == ClearCanvas(DrawingPixelCanvas(Unpack(c)))
  {
    PaintAgrees(c, Path(EventLine(e)), e.isBlack == 1);
    UnpackClear(c);
  }
}
