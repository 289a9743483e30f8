/**
  The browser client's side of the protocol: classifying an inbound binary
  message by its length and header (the `onmessage` closure of
  `WebSocketService::connect`) and the bytes `send_draw_event` and
  `send_clear_event` put on the socket.

  The JavaScript closures, signals and connection lifecycle are not
  modelled: whether a socket exists is a parameter, and the signal a
  message would set is the result.
*/
module Websocket {
  import opened Common
  import opened Bresenham
  import opened Shared
  import opened Server

  /** A canvas cell, as the input layer hands it over. */
  datatype GridIndex = GridIndex(x: nat, y: nat)

  /** Which signal an inbound message sets, with the decoded value. */
  datatype Update =
    | EventUpdate(event: DrawEvent)
    | CanvasUpdate(state: CanvasState)
    | NoUpdate

  const FullSyncSize: nat := 1251

  /**
    The message classifier: 9 bytes are a draw event; 1251 bytes starting
    with the full-sync header are a canvas; everything else sets nothing.
  */
  function OnMessage(data: seq<bv8>): (u: Update)
    ensures u.EventUpdate? <==> |data| == EventSize
    ensures u.EventUpdate? ==> EventToBytes(u.event) == data
    ensures u.CanvasUpdate? <==> |data| == FullSyncSize && data[0] == FullSyncHeader
    ensures u.CanvasUpdate? ==> ValidState(u.state) && StateToBytes(u.state) == data[1..]
  {
    if |data| == 9 then
      EventUpdate(EventFromBytes(data))
    else if |data| == 1251 then
      if data[0] == 1 then CanvasUpdate(StateFromBytes(data[1..])) else NoUpdate
    else
      NoUpdate
  }

  /** The server's full-sync frame is read back by the client as exactly the canvas sent. */
  lemma FullSyncFrameRoundTrip(c: CanvasState)
    requires ValidState(c)
    ensures OnMessage(FullSyncFrame(c)) == CanvasUpdate(c)
  {
    assert FullSyncFrame(c)[1..] == StateToBytes(c);
  }

  /** A broadcast event is read back by the client as the same event. */
  lemma BroadcastRoundTrip(e: DrawEvent)
    ensures OnMessage(EventToBytes(e)) == EventUpdate(e)
  {
    EventRoundTrip(e);
  }

  /** `send_draw_event`: the 9 bytes of a draw-line event, when a socket exists. */
  function SendDrawEvent(connected: bool, from: GridIndex, to: GridIndex, isBlack: bool): (sent: Option<seq<bv8>>)
    ensures sent.Some? <==> connected
    ensures sent.Some? ==> |sent.value| == EventSize && sent.value[0] == MsgDrawLine
    ensures sent.Some? ==> sent.value[1] as int == from.x % 256 && sent.value[2] as int == from.y % 256
    ensures sent.Some? ==> sent.value[3] as int == to.x % 256 && sent.value[4] as int == to.y % 256
    ensures sent.Some? ==> sent.value[5] == (if isBlack then 1 else 0) && sent.value[6..] == [0, 0, 0]
  {
    if connected then Some(EventToBytes(DrawLineEvent(from.x, from.y, to.x, to.y, isBlack))) else None
  }

  /** `send_clear_event`: the 9 bytes of a clear event, when a socket exists. */
  function SendClearEvent(connected: bool): (sent: Option<seq<bv8>>)
    ensures sent.Some? <==> connected
    ensures sent.Some? ==> sent.value == [MsgClear, 0, 0, 0, 0, 0, 0, 0, 0]
  {
    if connected then Some(EventToBytes(ClearCanvasEvent())) else None
  }

  /**
    A stroke sent by a client is echoed byte for byte by the server and
    drawn exactly along the walk between the two grid cells in the chosen
    colour, each coordinate taken mod 256 by the `u8` fields of the event:
    a cell at column 300 arrives as column 44.
  */
  lemma StrokeReachesServer(c: CanvasState, from: GridIndex, to: GridIndex, isBlack: bool)
    requires ValidState(c)
    ensures var sent := SendDrawEvent(true, from, to, isBlack).value;
      var (canvas, echo) := HandleBinary(c, sent);
      && echo == Some(sent)
      && forall x: nat, y: nat :: GetPixel(canvas, x, y) ==
           if (x, y) in Path(Line(from.x % 256, from.y % 256, to.x % 256, to.y % 256)) && x < Side && y < Side
           then isBlack else GetPixel(c, x, y)
  {
    var e := DrawLineEvent(from.x, from.y, to.x, to.y, isBlack);
    EventRoundTrip(e);
    assert EventLine(e) == Line(from.x % 256, from.y % 256, to.x % 256, to.y % 256);
  }

  /**
    The wrap made concrete: a dot sent at a column between 256 and 355 is
    drawn 256 columns to the left (so (300, 5) lands on (44, 5)).
  */
  lemma WideStrokeWraps(c: CanvasState, x: nat, y: nat)
    requires ValidState(c)
    requires 256 <= x < 256 + Side && y < Side
    ensures GetPixel(HandleBinary(c, SendDrawEvent(true, GridIndex(x, y), GridIndex(x, y), true).value).0, x - 256, y)
  {
    var from := GridIndex(x, y);
    var line := Line(from.x % 256, from.y % 256, from.x % 256, from.y % 256);
    assert (x - 256, y) in Path(line) by {
      ByteWrap(x, y);
      assert line == Line(x - 256, y, x - 256, y);
      PathEndpoints(line);
    }
    StrokeReachesServer(c, from, from, true);
  }

  lemma ByteWrap(x: nat, y: nat)
    requires 256 <= x < 512 && y < 256
    ensures x % 256 == x - 256 && y % 256 == y
  {
  }

  /** A clear sent by a client blanks the server's canvas. */
  lemma ClearReachesServer(c: CanvasState)
    requires ValidState(c)
    ensures forall x: nat, y: nat :: !GetPixel(HandleBinary(c, SendClearEvent(true).value).0, x, y)
  {
    EventRoundTrip(ClearCanvasEvent());
  }
}
