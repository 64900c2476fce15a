// The WS2801 server (src/ws2801_server.c): three colour bytes per pixel, in the colour
// order chosen on the command line, transferred to the SPI device in one piece.
module Ws2801Server {
  import opened Bytes
  import opened ColorOrders

  const WS2801_DEFAULT_SPEED: u32 := 4000000
  const DEFAULT_ORDER := RGB
  /** The static transfer buffer, `1 << 16` bytes. */
  const BUFFER_SIZE := 0x1_0000

  function RgbBytes(p: Pixel): seq<byte> { Channels(RGB, p) }
  function GrbBytes(p: Pixel): seq<byte> { Channels(GRB, p) }
  function BgrBytes(p: Pixel): seq<byte> { Channels(BGR, p) }

  /** The per-pixel encoding of an order. */
  function Encoder(order: ColorOrder): Pixel -> seq<byte>
  {
    match order
    case RGB => RgbBytes
    case GRB => GrbBytes
    case BGR => BgrBytes
  }

  function RgbPixel(bs: seq<byte>): Option<Pixel> { if |bs| == 3 then Some(Unchannel(RGB, bs)) else None }
  function GrbPixel(bs: seq<byte>): Option<Pixel> { if |bs| == 3 then Some(Unchannel(GRB, bs)) else None }
  function BgrPixel(bs: seq<byte>): Option<Pixel> { if |bs| == 3 then Some(Unchannel(BGR, bs)) else None }

  function Decoder(order: ColorOrder): seq<byte> -> Option<Pixel>
  {
    match order
    case RGB => RgbPixel
    case GRB => GrbPixel
    case BGR => BgrPixel
  }

  /** The bytes transferred for `ps`. */
  function Frame(order: ColorOrder, ps: seq<Pixel>): seq<byte>
  {
    ConcatMap(Encoder(order), ps)
  }

  /** A frame is 3 bytes per pixel, pixel i at offset 3i in the chosen order, and reads
      back as the pixels; in RGB order it is the OPC payload itself. */
  lemma FrameLayout(order: ColorOrder, ps: seq<Pixel>)
    ensures |Frame(order, ps)| == 3 * |ps|
    ensures forall i :: 0 <= i < |ps| ==> Frame(order, ps)[3 * i..3 * i + 3] == Channels(order, ps[i])
    ensures Ungroup(Decoder(order), 3, Frame(order, ps)) == Some(ps)
  {
    ConcatMapAt(Encoder(order), 3, ps);
    UngroupConcatMap(Encoder(order), Decoder(order), Same, 3, ps);
    MapSame(ps);
  }

  lemma {:induction false} RgbIsPayload(ps: seq<Pixel>)
    ensures Frame(RGB, ps) == PixelBytes(ps)
  {
    if ps != [] {
      RgbIsPayload(ps[..|ps| - 1]);
    }
  }

  /** `ws2801_put_pixels(fd, spi_data_tx, speed, count, pixels, order)`: fills the buffer and
      returns the transfer length `d - spi_data_tx`. */
  method PutPixels(buffer: array<byte>, pixels: seq<Pixel>, order: ColorOrder) returns (len: nat)
    requires buffer.Length == BUFFER_SIZE && |pixels| <= OPC_MAX_PIXELS_PER_MESSAGE
    modifies buffer
    ensures len == 3 * |pixels|
    ensures buffer[..len] == Frame(order, pixels)
    ensures buffer[len..] == old(buffer[len..])
  {
    ConcatMapAt(Encoder(order), 3, pixels);
    var d := 0;
    var i := 0;
    while i < |pixels|
      invariant 0 <= i <= |pixels| && d == 3 * i
      invariant buffer[..d] == ConcatMap(Encoder(order), pixels[..i])
      invariant forall k :: d <= k < buffer.Length ==> buffer[k] == old(buffer[k])
    {
      var p := pixels[i];
      match order {
        case RGB => d := EmitAll(buffer, d, [p.r, p.g, p.b]);
        case GRB => d := EmitAll(buffer, d, [p.g, p.r, p.b]);
        case BGR => d := EmitAll(buffer, d, [p.b, p.g, p.r]);
      }
      ConcatMapAppend(Encoder(order), pixels[..i], p);
      TakeOneMore(pixels, i);
      i := i + 1;
    }
    assert pixels[..i] == pixels;
    len := d;
  }
}
