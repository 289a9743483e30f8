/**
  The server's handling of the shared canvas: applying a draw event
  (`AppState::apply_draw_event`), its own copy of the Bresenham loop
  clipped to the 100 x 100 canvas (`draw_line_on_canvas`), the copy handed
  to new clients (`get_canvas_state`), the full-sync frame sent on connect,
  and the filter on inbound socket messages in `handle_socket`.

  The mutex, the broadcast channel and the socket loop are not modelled;
  the bytes the server would broadcast are returned instead.
*/
module Server {
  import opened Common
  import opened Bresenham
  import opened Shared

  /** One visited point of the server's walk: written only when `0 <= x, y < 100`. */
  function PlotState(c: CanvasState, p: Point, isBlack: bool): (r: CanvasState)
    requires ValidState(c)
  {
    if p.0 >= 0 && p.1 >= 0 && p.0 < Side && p.1 < Side then SetPixel(c, p.0, p.1, isBlack) else c
  }

  /** Plotting every point of `path` in order. */
  function PaintState(c: CanvasState, path: seq<Point>, isBlack: bool): (r: CanvasState)
    requires ValidState(c)
    ensures ValidState(r)
    decreases |path|
  {
    if path == [] then c
    else PlotState(PaintState(c, path[..|path| - 1], isBlack), path[|path| - 1], isBlack)
  }

  lemma PaintStateSnoc(c: CanvasState, path: seq<Point>, p: Point, isBlack: bool)
    requires ValidState(c)
    ensures PaintState(c, path + [p], isBlack) == PlotState(PaintState(c, path, isBlack), p, isBlack)
  {
    assert (path + [p])[..|path|] == path;
  }

  /**
    Painting a path sets exactly the on-canvas pixels of the path to the
    colour; every other pixel keeps its value.
  */
  lemma {:induction false} PaintStateEffect(c: CanvasState, path: seq<Point>, isBlack: bool)
    requires ValidState(c)
    ensures forall x: nat, y: nat :: GetPixel(PaintState(c, path, isBlack), x, y) ==
              if (x, y) in path && x < Side && y < Side then isBlack else GetPixel(c, x, y)
    decreases |path|
  {
    if path != [] {
      var init := path[..|path| - 1];
      PaintStateEffect(c, init, isBlack);
      assert forall q :: q in path <==> q in init || q == path[|path| - 1] by {
        assert path == init + [path[|path| - 1]];
      }
    }
  }

  /**
    `AppState::draw_line_on_canvas`: the same walk as the client's
    `draw_line`, but a point is written only when both coordinates are in
    `0..100`. Both endpoints are visited; only on-canvas path pixels change.
  */
  method DrawLineOnCanvas(c: CanvasState, x0: nat, y0: nat, x1: nat, y1: nat, isBlack: bool)
    returns (r: CanvasState)
    requires ValidState(c)
    ensures r == PaintState(c, Path(Line(x0, y0, x1, y1)), isBlack)
    ensures ValidState(r)
    ensures forall x: nat, y: nat :: GetPixel(r, x, y) ==
              if (x, y) in Path(Line(x0, y0, x1, y1)) && x < Side && y < Side then isBlack else GetPixel(c, x, y)
  {
    var line := Line(x0, y0, x1, y1);
    var cur := Start(line);
    ghost var visited: seq<Point> := [];
    StartOnTrack(line);
    r := c;
    while true
      invariant OnTrack(line, cur)
      invariant visited + Trace(line, cur) == Path(line)
      invariant r == PaintState(c, visited, isBlack)
      decreases Remaining(line, cur)
    {
      ghost var prefix := visited;
      if cur.x >= 0 && cur.y >= 0 && cur.x < 100 && cur.y < 100 {
        r := SetPixel(r, cur.x, cur.y, isBlack);
      }
      PaintStateSnoc(c, prefix, (cur.x, cur.y), isBlack);
      visited := prefix + [(cur.x, cur.y)];
      if AtEnd(line, cur) {
        FinishWalk(line, cur, prefix);
        break;
      }
      AdvanceWalk(line, cur, prefix);
      cur := Step(line, cur);
    }
    PaintStateEffect(c, visited, isBlack);
  }

  /** Both endpoints of a line drawn on the server are set when they lie on the canvas. */
  lemma ServerLineEndpoints(c: CanvasState, x0: nat, y0: nat, x1: nat, y1: nat, isBlack: bool)
    requires ValidState(c)
    ensures var r := PaintState(c, Path(Line(x0, y0, x1, y1)), isBlack);
      && (x0 < Side && y0 < Side ==> GetPixel(r, x0, y0) == isBlack)
      && (x1 < Side && y1 < Side ==> GetPixel(r, x1, y1) == isBlack)
  {
    var line := Line(x0, y0, x1, y1);
    PathEndpoints(line);
    PaintStateEffect(c, Path(line), isBlack);
  }

  /** The line an event describes, its `u8` coordinates widened to `usize`. */
  function EventLine(e: DrawEvent): Line {
    Line(e.x0 as int, e.y0 as int, e.x1 as int, e.y1 as int)
  }

  /**
    The canvas update of `AppState::apply_draw_event`, paired with the bytes
    it broadcasts. Type 0 draws the event's line, black only when the colour
    byte is exactly 1; type 2 clears; any other type, 1 included, leaves the
    canvas alone. Every event is broadcast as its own 9 bytes.
  */
  function ApplyDrawEvent(c: CanvasState, e: DrawEvent): (r: (CanvasState, seq<bv8>))
    requires ValidState(c)
    ensures ValidState(r.0)
    ensures e.msgType == MsgDrawLine ==>
      forall x: nat, y: nat :: GetPixel(r.0, x, y) ==
        if (x, y) in Path(EventLine(e)) && x < Side && y < Side then e.isBlack == 1 else GetPixel(c, x, y)
    ensures e.msgType == MsgClear ==> forall x: nat, y: nat :: !GetPixel(r.0, x, y)
    ensures e.msgType != MsgDrawLine && e.msgType != MsgClear ==> r.0 == c
    ensures |r.1| == EventSize && EventFromBytes(r.1) == e
  {
    EventRoundTrip(e);
    PaintStateEffect(c, Path(EventLine(e)), e.isBlack == 1);
    var canvas :=
      match e.msgType
      case 0 => PaintState(c, Path(EventLine(e)), e.isBlack == 1)
      case 2 => ClearState(c)
      case _ => c;
    (canvas, EventToBytes(e))
  }

  /** `AppState::get_canvas_state`: a copy through the byte form, identical to the original. */
  function GetCanvasState(c: CanvasState): (r: CanvasState)
    requires ValidState(c)
    ensures ValidState(r) && r == c
  {
    StateFromBytes(StateToBytes(c))
  }

  /** The header byte of a full-sync frame. */
  const FullSyncHeader: bv8 := 1

  /** The frame `handle_socket` sends a new client: `[1]` then the 1250 canvas bytes. */
  function FullSyncFrame(c: CanvasState): (f: seq<bv8>)
    requires ValidState(c)
    ensures |f| == 1 + StateSize
  {
    [FullSyncHeader] + StateToBytes(c)
  }

  /**
    An inbound binary message: exactly 9 bytes are decoded and applied, and
    the broadcast carries those same bytes; any other length changes nothing
    and broadcasts nothing.
  */
  function HandleBinary(c: CanvasState, data: seq<bv8>): (r: (CanvasState, Option<seq<bv8>>))
    requires ValidState(c)
    ensures ValidState(r.0)
    ensures |data| != EventSize ==> r == (c, None)
    ensures |data| == EventSize ==> r.1 == Some(data) && r.0 == ApplyDrawEvent(c, EventFromBytes(data)).0
  {
    if |data| == 9 then
      var (canvas, broadcast) := ApplyDrawEvent(c, EventFromBytes(data));
      EventBytesInjective(EventFromBytes(broadcast), EventFromBytes(data));
      (canvas, Some(broadcast))
    else
      (c, None)
  }

  /** What the receive loop of `handle_socket` can get from a client. */
  datatype Inbound = Binary(data: seq<bv8>) | Close | SocketError | OtherMessage

  /**
    One turn of the receive loop: the canvas afterwards, the bytes to
    broadcast, and whether the loop goes on. Close and errors end the loop;
    text, ping and pong frames are ignored.
  */
  function Receive(c: CanvasState, msg: Inbound): (r: (CanvasState, Option<seq<bv8>>, bool))
    requires ValidState(c)
    ensures ValidState(r.0)
    ensures r.2 <==> !msg.Close? && !msg.SocketError?
    ensures !msg.Binary? ==> r.0 == c && r.1.None?
    ensures msg.Binary? ==> (r.0, r.1) == HandleBinary(c, msg.data)
  {
    match msg
    case Binary(data) =>
      var (canvas, broadcast) := HandleBinary(c, data);
      (canvas, broadcast, true)
    case Close => (c, None, false)
    case SocketError => (c, None, false)
    case OtherMessage => (c, None, true)
  }
}
