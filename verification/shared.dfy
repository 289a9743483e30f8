/**
  The wire protocol shared by client and server.

  `DrawEvent` is a 9-byte message whose bytes are its fields in declaration
  order (`#[repr(C)]`, all `u8`): message type (0 = draw line, 1 = full
  sync, 2 = clear), the four coordinates, the colour flag and three padding
  bytes.

  `CanvasState` is a fixed 100 x 100 black-and-white canvas packed into
  1250 bytes: pixel `(x, y)` is bit `(y * 100 + x) % 8` (LSB-first) of byte
  `(y * 100 + x) / 8`.
*/
module Shared {
  import opened Common

  // ---------------------------------------------------------------------
  // DrawEvent
  // ---------------------------------------------------------------------

  const EventSize: nat := 9

  const MsgDrawLine: bv8 := 0
  const MsgFullSync: bv8 := 1
  const MsgClear: bv8 := 2

  datatype DrawEvent = DrawEvent(
    msgType: bv8,
    x0: bv8,
    y0: bv8,
    x1: bv8,
    y1: bv8,
    isBlack: bv8,
    padding: (bv8, bv8, bv8))

  /** The byte whose value is `k`, built by counting up from zero. */
  function ByteOf(k: nat): (b: bv8)
    requires k < 256
    ensures b as int == k
  {
    if k == 0 then 0 else ByteOf(k - 1) + 1
  }

  /** Rust's `n as u8` on a `usize`: keep the low eight bits. */
  function U8(n: nat): (b: bv8)
    ensures b as int == n % 256
  {
    ByteOf(n % 256)
  }

  /** `DrawEvent::draw_line`. */
  function DrawLineEvent(x0: nat, y0: nat, x1: nat, y1: nat, isBlack: bool): (e: DrawEvent)
    ensures e.msgType == MsgDrawLine
    ensures e.x0 as int == x0 % 256 && e.y0 as int == y0 % 256
    ensures e.x1 as int == x1 % 256 && e.y1 as int == y1 % 256
    ensures e.isBlack == (if isBlack then 1 else 0)
    ensures e.padding == (0, 0, 0)
  {
    DrawEvent(MsgDrawLine, U8(x0), U8(y0), U8(x1), U8(y1), if isBlack then 1 else 0, (0, 0, 0))
  }

  /** `DrawEvent::full_sync_request`: type 1, every other byte zero. */
  function FullSyncRequest(): (e: DrawEvent)
    ensures EventToBytes(e) == [MsgFullSync, 0, 0, 0, 0, 0, 0, 0, 0]
  {
    DrawEvent(MsgFullSync, 0, 0, 0, 0, 0, (0, 0, 0))
  }

  /** `DrawEvent::clear_canvas`: type 2, every other byte zero. */
  function ClearCanvasEvent(): (e: DrawEvent)
    ensures EventToBytes(e) == [MsgClear, 0, 0, 0, 0, 0, 0, 0, 0]
  {
    DrawEvent(MsgClear, 0, 0, 0, 0, 0, (0, 0, 0))
  }

  /** `DrawEvent::to_bytes`: the fields in declaration order. */
  function EventToBytes(e: DrawEvent): (b: seq<bv8>)
    ensures |b| == EventSize
  {
    [e.msgType, e.x0, e.y0, e.x1, e.y1, e.isBlack, e.padding.0, e.padding.1, e.padding.2]
  }

  /** `DrawEvent::from_bytes` on a 9-byte array. */
  function EventFromBytes(b: seq<bv8>): (e: DrawEvent)
    requires |b| == EventSize
    ensures EventToBytes(e) == b
  {
    DrawEvent(b[0], b[1], b[2], b[3], b[4], b[5], (b[6], b[7], b[8]))
  }

  /** Decoding the bytes of an event gives the event back. */
  lemma EventRoundTrip(e: DrawEvent)
    ensures EventFromBytes(EventToBytes(e)) == e
  {
  }

  /** Two events with the same bytes are the same event. */
  lemma EventBytesInjective(e: DrawEvent, f: DrawEvent)
    requires EventToBytes(e) == EventToBytes(f)
    ensures e == f
  {
    EventRoundTrip(e);
    EventRoundTrip(f);
  }

  // ---------------------------------------------------------------------
  // CanvasState
  // ---------------------------------------------------------------------

  const Side: nat := 100
  const StateSize: nat := 1250

  datatype CanvasState = CanvasState(data: seq<bv8>)

  /** The `[u8; 1250]` array type. */
  predicate ValidState(c: CanvasState) {
    |c.data| == StateSize
  }

  /** Row-major bit position of an in-range pixel. */
  function BitIndex(x: nat, y: nat): (i: nat)
    requires x < Side && y < Side
    ensures i < Side * Side
  {
    y * Side + x
  }

  /** The byte holding pixel `(x, y)`; always inside the 1250-byte array. */
  function ByteIndex(x: nat, y: nat): (k: nat)
    requires x < Side && y < Side
    ensures k < StateSize
  {
    BitIndex(x, y) / 8
  }

  /** The bit of that byte, counted from the least significant end. */
  function BitOffset(x: nat, y: nat): (k: nat)
    requires x < Side && y < Side
    ensures k < 8
  {
    BitIndex(x, y) % 8
  }

  /** Distinct in-range pixels never share both byte and bit. */
  lemma PixelSlotsDistinct(x: nat, y: nat, x': nat, y': nat)
    requires x < Side && y < Side && x' < Side && y' < Side
    requires x != x' || y != y'
    ensures ByteIndex(x, y) != ByteIndex(x', y') || BitOffset(x, y) != BitOffset(x', y')
  {
    assert BitIndex(x, y) != BitIndex(x', y');
  }

  /** `CanvasState::new`: all 1250 bytes zero. */
  function NewState(): (c: CanvasState)
    ensures ValidState(c)
    ensures forall x: nat, y: nat :: !GetPixel(c, x, y)
  {
    var c := CanvasState(seq(StateSize, _ => 0));
    AllZeroIsBlank(c);
    c
  }

  /** A canvas whose bytes are all zero has no black pixel. */
  lemma AllZeroIsBlank(c: CanvasState)
    requires ValidState(c)
    requires forall k :: 0 <= k < |c.data| ==> c.data[k] == 0
    ensures forall x: nat, y: nat :: !GetPixel(c, x, y)
  {
    forall x: nat, y: nat | x < Side && y < Side
      ensures !GetPixel(c, x, y)
    {
      ZeroByteHasNoBits(BitOffset(x, y));
    }
  }

  /** `CanvasState::get_pixel`: out of range reads white. */
  function GetPixel(c: CanvasState, x: nat, y: nat): (b: bool)
    requires ValidState(c)
    ensures (x >= Side || y >= Side) ==> !b
    ensures x < Side && y < Side ==> b == Bit(c.data[ByteIndex(x, y)], BitOffset(x, y))
  {
    if x >= Side || y >= Side then
      false
    else
      var bitIndex := y * 100 + x;
      Bit(c.data[bitIndex / 8], bitIndex % 8)
  }

  /** Rewriting one bit of one byte affects only the pixel stored there. */
  lemma WriteBitFrame(c: CanvasState, x: nat, y: nat, isBlack: bool)
    requires ValidState(c) && x < Side && y < Side
    ensures var k := ByteIndex(x, y);
      var d := CanvasState(c.data[k := WithBit(c.data[k], BitOffset(x, y), isBlack)]);
      && ValidState(d)
      && GetPixel(d, x, y) == isBlack
      && forall x': nat, y': nat :: (x' != x || y' != y) ==> GetPixel(d, x', y') == GetPixel(c, x', y')
  {
    var k := ByteIndex(x, y);
    var d := CanvasState(c.data[k := WithBit(c.data[k], BitOffset(x, y), isBlack)]);
    forall x': nat, y': nat | (x' != x || y' != y) && x' < Side && y' < Side
      ensures GetPixel(d, x', y') == GetPixel(c, x', y')
    {
      PixelSlotsDistinct(x, y, x', y');
    }
  }

  /**
    `CanvasState::set_pixel`: an in-range write changes exactly that pixel;
    an out-of-range one changes nothing.
  */
  function SetPixel(c: CanvasState, x: nat, y: nat, isBlack: bool): (r: CanvasState)
    requires ValidState(c)
    ensures ValidState(r)
    ensures (x >= Side || y >= Side) ==> r == c
    ensures x < Side && y < Side ==> GetPixel(r, x, y) == isBlack
    ensures forall x': nat, y': nat :: (x' != x || y' != y) ==> GetPixel(r, x', y') == GetPixel(c, x', y')
  {
    if x >= Side || y >= Side then
      c
    else
      WriteBitFrame(c, x, y, isBlack);
      var bitIndex := y * 100 + x;
      var byteIndex := bitIndex / 8;
      CanvasState(c.data[byteIndex := WithBit(c.data[byteIndex], bitIndex % 8, isBlack)])
  }

  /** `CanvasState::clear`: every byte zero, so every pixel white. */
  function ClearState(c: CanvasState): (r: CanvasState)
    requires ValidState(c)
    ensures ValidState(r)
    ensures forall k :: 0 <= k < |r.data| ==> r.data[k] == 0
    ensures forall x: nat, y: nat :: !GetPixel(r, x, y)
  {
    var r := CanvasState(seq(StateSize, _ => 0));
    AllZeroIsBlank(r);
    r
  }

  /** `CanvasState::to_bytes`. */
  function StateToBytes(c: CanvasState): (b: seq<bv8>)
    requires ValidState(c)
    ensures |b| == StateSize
  {
    c.data
  }

  /** `CanvasState::from_bytes` on a 1250-byte array. */
  function StateFromBytes(b: seq<bv8>): (c: CanvasState)
    requires |b| == StateSize
    ensures ValidState(c) && StateToBytes(c) == b
  {
    CanvasState(b)
  }

  /** Decoding the bytes of a canvas gives the canvas back. */
  lemma StateRoundTrip(c: CanvasState)
    requires ValidState(c)
    ensures StateFromBytes(StateToBytes(c)) == c
  {
  }

  /**
    The packing has no spare bits: 10000 pixels fill the 1250 bytes exactly,
    so two canvases that agree on every pixel are equal byte for byte.
  */
  lemma PixelsDetermineState(a: CanvasState, b: CanvasState)
    requires ValidState(a) && ValidState(b)
    requires forall x: nat, y: nat :: x < Side && y < Side ==> GetPixel(a, x, y) == GetPixel(b, x, y)
    ensures a == b
  {
    forall k | 0 <= k < StateSize
      ensures a.data[k] == b.data[k]
    {
      forall off | 0 <= off < 8
        ensures Bit(a.data[k], off) == Bit(b.data[k], off)
      {
        var i := 8 * k + off;
        var x, y := i % 100, i / 100;
        assert BitIndex(x, y) == i;
        assert GetPixel(a, x, y) == GetPixel(b, x, y);
      }
      BitsDetermineByte(a.data[k], b.data[k]);
    }
  }
}
