# Collaborative pixel canvas: drawing engine and wire protocol

A model of the black-and-white pixel engine of a collaborative drawing
application (a Rust web client and server) together with the binary
protocol the two ends speak.

- **`BitMatrix` / `DrawingPixelCanvas`** (`bitmap.dfy`).
  - A row-major grid of booleans (true = black) with bounds-checked `get` and `set`.
  - Drawing operations on top of it: single pixels whose out-of-range writes are ignored, an integer Bresenham `draw_line`, `clear`, and an ASCII dump.
- **The Bresenham walk** (`bresenham.dfy`).
  - The client's `draw_line` and the server's `draw_line_on_canvas` use the same stepping rule.
  - `Trace` / `Path` define the sequence of points the walk visits, with a termination measure and the walk's arithmetic invariant.
  - Both loops are proved to paint exactly that sequence.
- **`DrawEvent` and `CanvasState`** (`shared.dfy`).
  - `DrawEvent` is the 9-byte event message: type, four `u8` coordinates, colour flag, three padding bytes.
  - `CanvasState` is the 100 x 100 canvas packed LSB-first into 1250 bytes.
- **The server** (`server.dfy`).
  - `apply_draw_event`: 0 draws a line, 2 clears, anything else changes nothing.
  - Also modelled: the server's clipped line loop, `get_canvas_state`, the full-sync frame `[1] ++ 1250 bytes`, and the receive loop's 9-byte filter.
- **The client socket layer** (`websocket.dfy`).
  - The `onmessage` classifier: 9 bytes are an event; 1251 bytes with header 1 are a full sync.
  - The bytes that `send_draw_event` and `send_clear_event` put on the wire.
  - End-to-end lemmas: the server echoes a client's stroke byte for byte and draws it with each coordinate taken mod 256 (the `u8` fields of the event), a sent clear blanks the server canvas, and the server's frames decode on the client to the values sent.
- **`BytesPassthrough` and the `basic_usage` test** (`prelude.dfy`).
- **`DrawingTool` and `COLORS`** (`toolbar.dfy`).
- **Cross-checks** (`consistency.dfy`): the server's packed canvas, unpacked into a 100 x 100 `BitMatrix`, changes under a line or clear event exactly as a 100 x 100 `DrawingPixelCanvas` holding the same pixels changes under `draw_line` or `clear`. This compares the two drawing routines; the browser's own canvases are 10 x 10 and draw through a colour API that is not part of this model, and the client only stores a received event in the `on_draw_event` signal (src/services/websocket.rs:68), which src/components/canvas.rs never reads.

Integers are unbounded. The `as u8` casts in `DrawEvent::draw_line` are modelled as `% 256`.

`BitMatrix::set` returns `false` on out-of-range writes and `draw_pixel` discards that result, so drawing clips silently while the matrix itself reports the failure.

A zero-length line needs no special case: the loop draws the start point, sees it is at the end and stops (`Bresenham.DegeneratePath`, `Bitmap.LineEndpointsPainted`).

## Model

| member | source | states |
|---|---|---|
| Bitmap.New | src/prelude/bitmap.rs:14-22 | A new matrix is well-formed, has dimensions `(width, height)`, and every in-range cell reads `Some(initial)`. |
| Bitmap.Dimensions | src/prelude/bitmap.rs:20-22 | `dimensions` is `(width, height)`, and on a well-formed matrix their product is the number of stored bits. |
| Bitmap.Idx | src/prelude/bitmap.rs:24-30 | `idx` is defined exactly for in-range `(x, y)`, and then it is the row-major position `y * width + x`, which is below `width * height`. |
| Bitmap.Get | src/prelude/bitmap.rs:24-38 | `get` is `None` exactly when `x >= width` or `y >= height`; otherwise it reads element `y * width + x` of the bit vector. |
| Bitmap.Set | src/prelude/bitmap.rs:40-47 | `set` reports success exactly when `(x, y)` is in range. On success `(x, y)` then reads `value` and every other cell is unchanged. On failure the matrix is unchanged. Dimensions are always kept. |
| Bitmap.Clear | src/prelude/bitmap.rs:49-51 | After `clear` every in-range cell reads `Some(false)`, the dimensions are kept, and `count_ones` is 0. |
| Bitmap.CountOnes | src/prelude/bitmap.rs:53-55 | `count_ones` never exceeds the number of cells `width * height`. |
| Bitmap.CountZero | src/prelude/bitmap.rs:53-55 | `count_ones` is 0 exactly when no cell is set. |
| Bitmap.CountAfterSet | src/prelude/bitmap.rs:40-55 | An in-range `set` changes `count_ones` by +1, -1 or 0, depending on the old and new value of the cell. |
| Bitmap.CellIndexInjective | src/prelude/bitmap.rs:24-30 | Distinct in-range cells map to distinct positions `y * width + x`. |
| Bitmap.NewCanvas | src/prelude/bitmap.rs:71-73 | A new drawing canvas has the requested dimensions and is all white. |
| Bitmap.DrawPixel | src/prelude/bitmap.rs:76-78 | `draw_pixel` sets `(x, y)` to the pen colour when it is in range. Every other cell, and an out-of-range target, is left unchanged. |
| Bitmap.Plot | src/prelude/bitmap.rs:91-93 | A visited point with a negative coordinate is skipped: the canvas is unchanged. |
| Bitmap.PaintPathEffect | src/prelude/bitmap.rs:90-108 | Plotting a sequence of points colours exactly the in-range cells that occur in it; every other cell keeps its value. |
| Bitmap.DrawLine | src/prelude/bitmap.rs:81-109 | The loop terminates and paints exactly the points of the Bresenham walk from `(x0, y0)` to `(x1, y1)` that are inside the grid. Cells off the walk or outside the grid are untouched. |
| Bitmap.LineEndpointsPainted | src/prelude/bitmap.rs:90-97 | Both endpoints of a line are painted when on the canvas. A zero-length line changes no cell other than its single point. |
| Bitmap.ClearCanvas | src/prelude/bitmap.rs:112-114 | Clearing the canvas makes every cell white, keeps the dimensions, and leaves `count_ones` at 0. |
| Bitmap.AsciiRow | src/prelude/bitmap.rs:121-123 | The inner loop of `to_ascii` yields `w` characters, character `x` being the glyph of cell `(x, y)`. |
| Bitmap.ToAscii | src/prelude/bitmap.rs:117-127 | The dump has `h` lines of `w` characters, each followed by a newline. A character is a full block exactly where the cell is set and a space elsewhere. |
| Bresenham.Step | src/prelude/bitmap.rs:99-107 | One pass of the loop body after the end test (also src/other/server.rs:100-108): x moves by 0 or `sx`, y by 0 or `sy`, and since `dy <= 0 <= dx` at least one of them moves. |
| Bresenham.StepOnTrack | src/prelude/bitmap.rs:99-107 | One step from a non-final point keeps the walk's invariant (progress along each axis within bounds, error term consistent) and strictly decreases the steps remaining. |
| Bresenham.AtEndIffExhausted | src/prelude/bitmap.rs:95-97 | The walk is at the endpoint exactly when both axes are used up. |
| Bresenham.Trace | src/other/server.rs:91-109 | The walk visits at least one and at most `remaining + 1` points. It starts at the current point and ends at `(x1, y1)`. |
| Bresenham.PathEndpoints | src/other/server.rs:83-98 | A line's walk starts at `(x0, y0)` and ends at `(x1, y1)`, so both endpoints are visited. |
| Bresenham.DegeneratePath | src/prelude/bitmap.rs:90-97 | When `(x0, y0) == (x1, y1)` the walk is exactly that one point. |
| Bresenham.PathShape | src/other/server.rs:85-108 | Every visited point lies in the box between the endpoints, so the walk never overshoots. Each step moves x by 0 or `sx` and y by 0 or `sy`, and at least one of them moves. |
| Bresenham.PathNonNegative | src/other/server.rs:83-92 | With non-negative endpoints, as the `usize` arguments guarantee, no visited point has a negative coordinate. |
| Shared.DrawLineEvent | src/shared/mod.rs:26-36 | `draw_line` builds type 0 with each coordinate truncated mod 256, colour byte 1 or 0, and zero padding. |
| Shared.FullSyncRequest | src/shared/mod.rs:39-49 | The full-sync request's bytes are `[1, 0, 0, 0, 0, 0, 0, 0, 0]`. |
| Shared.ClearCanvasEvent | src/shared/mod.rs:52-62 | The clear event's bytes are `[2, 0, 0, 0, 0, 0, 0, 0, 0]`. |
| Shared.EventToBytes | src/shared/mod.rs:5-22 | An event encodes to exactly 9 bytes. |
| Shared.EventFromBytes | src/shared/mod.rs:64-72 | Decoding 9 bytes and re-encoding gives the same 9 bytes. |
| Shared.EventRoundTrip | src/shared/mod.rs:64-72 | `from_bytes(to_bytes(e)) == e`. |
| Shared.EventBytesInjective | src/shared/mod.rs:64-72 | Distinct events have distinct byte forms. |
| Shared.ByteIndex | src/shared/mod.rs:95-97 | The byte holding an in-range pixel is always below 1250. |
| Shared.PixelSlotsDistinct | src/shared/mod.rs:95-102 | Distinct in-range pixels never share both byte and bit offset. |
| Shared.NewState | src/shared/mod.rs:85-87 | A new canvas is 1250 bytes and every pixel reads white. |
| Shared.GetPixel | src/shared/mod.rs:107-117 | Out of range reads `false`. Pixel `(x, y)` is bit `(y*100+x) % 8` (LSB-first) of byte `(y*100+x) / 8`. |
| Shared.SetPixel | src/shared/mod.rs:90-104 | An out-of-range write leaves the data unchanged. An in-range write makes `get_pixel(x, y)` return the colour and changes no other pixel. |
| Shared.ClearState | src/shared/mod.rs:120-122 | `clear` zeroes every byte, so every pixel reads white. |
| Shared.StateToBytes | src/shared/mod.rs:125-127 | `to_bytes` yields exactly the 1250 canvas bytes; with `StateFromBytes` it round-trips both ways. |
| Shared.StateFromBytes | src/shared/mod.rs:125-132 | Re-encoding a decoded canvas gives the same 1250 bytes. |
| Shared.StateRoundTrip | src/shared/mod.rs:125-132 | `from_bytes(to_bytes(c))` equals `c`. |
| Shared.PixelsDetermineState | src/shared/mod.rs:77-117 | The packing has no spare bits: two canvases agreeing on all 10000 pixels are byte-for-byte equal. |
| Server.PaintStateEffect | src/other/server.rs:91-94 | Plotting a sequence of points on the server canvas sets exactly the points with `0 <= x, y < 100`; every other pixel keeps its value. |
| Server.DrawLineOnCanvas | src/other/server.rs:74-110 | The server loop terminates and sets exactly the on-canvas points of the Bresenham walk; every other pixel keeps its value. |
| Server.ServerLineEndpoints | src/other/server.rs:91-98 | Both endpoints of a server-drawn line are set when they lie on the canvas. |
| Server.ApplyDrawEvent | src/other/server.rs:42-71 | Type 0 draws the event's line, black only when the colour byte is exactly 1. Type 2 makes every pixel white. Any other type, 1 included, leaves the canvas unchanged. The broadcast bytes decode to the event itself. |
| Server.GetCanvasState | src/other/server.rs:113-116 | The copy handed to a new client is identical to the shared canvas. |
| Server.FullSyncFrame | src/other/server.rs:181-182 | The full-sync frame is 1251 bytes long. |
| Server.HandleBinary | src/other/server.rs:200-213 | A binary message of exactly 9 bytes is decoded, applied, and broadcast as those same bytes. Any other length changes nothing and broadcasts nothing. |
| Server.Receive | src/other/server.rs:198-227 | Close and errors end the receive loop; everything else continues it. Only binary messages can change the canvas or broadcast. |
| Websocket.OnMessage | src/services/websocket.rs:56-88 | A message is an event exactly when it is 9 bytes, decoded from exactly those bytes. It is a canvas exactly when it is 1251 bytes with first byte 1, decoded from bytes 1..1251. Anything else updates nothing. |
| Websocket.FullSyncFrameRoundTrip | src/services/websocket.rs:70-79 | The server's full-sync frame for any canvas is classified by the client as that canvas, unchanged. |
| Websocket.BroadcastRoundTrip | src/services/websocket.rs:56-68 | An event broadcast by the server is classified by the client as the same event. |
| Websocket.SendDrawEvent | src/services/websocket.rs:122-136 | With an open socket the client sends 9 bytes: type 0, the four coordinates each mod 256, the colour byte 1 or 0, and three zero bytes. Without a socket it sends nothing. |
| Websocket.SendClearEvent | src/services/websocket.rs:139-150 | With an open socket the client sends `[2, 0, 0, 0, 0, 0, 0, 0, 0]`; without one it sends nothing. |
| Websocket.StrokeReachesServer | src/services/websocket.rs:122-125 | Any stroke a client sends is echoed byte for byte by the server and drawn exactly along the walk between the two cells, each coordinate taken mod 256 by the `as u8` casts of src/shared/mod.rs:29-32. |
| Websocket.WideStrokeWraps | src/shared/mod.rs:29-32 | A dot sent at a column `x` in 256..356 is drawn on the server at column `x - 256`, e.g. (300, 5) lands on (44, 5). |
| Websocket.ClearReachesServer | src/services/websocket.rs:139-142 | A clear sent by a client blanks the server canvas. |
| Prelude.Encode | src/prelude/mod.rs:37-41 | `encode` returns a vector equal to its input and has no error case (`Infallible`). |
| Prelude.Decode | src/prelude/mod.rs:43-47 | `decode` returns a vector equal to the input slice and has no error case (`Infallible`). |
| Prelude.PassthroughRoundTrip | src/prelude/mod.rs:36-47 | The passthrough codec cannot fail. Decoding an encoding, or encoding a decoding, returns the input. |
| Prelude.BasicUsage | src/prelude/mod.rs:53-74 | The `basic_usage` test's expectations, all proved: 4 x 3 dimensions, zero count, `Some(false)` at (2, 1), then the successful set and a count of 1, the out-of-range `None` and refused set, a zero count after clearing, and a successful set at (0, 2). |
| Toolbar.DefaultTool | src/components/toolbar.rs:16-20 | The default tool is the black pen, named "Pen". |
| Toolbar.Name | src/components/toolbar.rs:31-37 | `name` is a non-empty label whose first letter (P, E, B) identifies the kind of tool. |
| Toolbar.Icon | src/components/toolbar.rs:23-29 | `icon` is one emoji (the pen's with a variation selector), its first code point identifying the kind of tool. |
| Toolbar.NameAndIconIdentifyKind | src/components/toolbar.rs:23-37 | Two tools have the same name, and likewise the same icon, exactly when they are the same kind. |
| Toolbar.ChangeColor | src/components/toolbar.rs:38-44 | The eraser stays the eraser. A pen or bucket fill takes the new colour. The kind, name and icon never change. |
| Toolbar.ChangeColorIdempotent | src/components/toolbar.rs:38-44 | Changing to the same colour twice equals changing once. |
| Toolbar.ChangeColorLastWins | src/components/toolbar.rs:38-44 | Two colour changes in a row equal the second alone. |
| Toolbar.ColorsHexDistinct | src/components/toolbar.rs:47-56 | No two palette rows share a hex code. |
| Toolbar.ColorsCoverPalette | src/components/toolbar.rs:47-56 | The palette's colours are exactly the eight palette constants. |
| Toolbar.ColorsTable | src/components/toolbar.rs:47-56 | The palette has 8 entries. Its hex codes are pairwise distinct, its colours are pairwise distinct, and together they are all eight palette constants. |
| Consistency.Unpack | src/shared/mod.rs:107-117 | The packed canvas read as a 100 x 100 `BitMatrix`: an in-range cell is `Some(get_pixel)`, anything else `None`. |
| Consistency.UnpackSetPixel | src/shared/mod.rs:90-104 | `set_pixel` on the packed canvas is `set` on its unpacked matrix. |
| Consistency.UnpackClear | src/shared/mod.rs:120-122 | `clear` on the packed canvas is `clear` on its unpacked matrix. |
| Consistency.PaintAgrees | src/other/server.rs:91-94 | Plotting any point sequence on the packed canvas and unpacking gives a 100 x 100 `DrawingPixelCanvas` holding the same pixels plotted with the same points. The server's clip to 0..100 is that canvas's range check. |
| Consistency.ServerMatchesClient | src/other/server.rs:46-63 | For line and clear events, the server canvas after the event, unpacked, equals a 100 x 100 `DrawingPixelCanvas` holding the same pixels after `draw_line` with the same endpoints and colour, or after `clear`. |

## Left out

- Colour compositing (`PixelColor`, layers, `merge_top`, `layer_overlay`, `assign_bytes`, the layered `to_bytes`): `PixelColor` is imported from the `frontend` crate (`use frontend::prelude::PixelColor`, src/components/toolbar.rs:1), and `merge_top`, `layer_overlay`, `assign_bytes` and the layered `to_bytes` are not methods of `DrawingPixelCanvas` in src/prelude/bitmap.rs, so `DrawingTool` is generic over its colour and the palette is eight named tags.
- Float geometry, viewport math, window-size queries and canvas rendering: floating point and browser calls.
- `src/components/canvas.rs` and the toolbar view components: UI event wiring and reactive signals.
- Transport plumbing:
  - axum routing and file serving;
  - the async socket loops and the tokio broadcast channel;
  - the `Arc<Mutex<…>>` around the canvas;
  - JavaScript closures and `is_connected`.

  The model returns the bytes that would be sent, and takes whether a socket exists as a parameter.
- The unchecked `Index` impl of `BitMatrix` (src/prelude/bitmap.rs:58-64): it aliases out-of-row coordinates and panics past the end.
- `get_array`: it only exposes the inner matrix.
- Bitmap.New: `width * height` (src/prelude/bitmap.rs:15-16) is an exact integer here, so a `usize` overflow of that product is not represented.
- Bitmap.DrawLine: the `usize`-to-`isize` casts and `2 * err` are exact integers here, so overflow on enormous coordinates is not represented.
- Server.DrawLineOnCanvas: the same unbounded-integer caveat as `Bitmap.DrawLine`. The server's coordinates come from `u8` fields, so no overflow arises there in practice.
- Bitmap.DrawLine: the loop takes each step through the shared `Bresenham.Step` function rather than the inline statements. Step performs the same updates in the same order: `e2 = 2*err`; then the x update; then the y update, which tests the same `e2`.
- Bitmap.ToAscii: the dump is a sequence of characters, so its length is counted in characters; the Rust `String` holds UTF-8, where each `'█'` takes 3 bytes.
- Common.Abs: `isize::abs` panics or wraps at `isize::MIN`; the model's absolute value is exact.
- The `basic_usage` test calls `set_to_one`, which `BitMatrix` does not define. Following the test's comment and the count it expects afterwards, the model uses `clear`.
