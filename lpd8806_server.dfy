// The LPD8806 server (src/lpd8806_server.c): three zero bytes, then per pixel three
// bytes with the high bit set and the colour halved into the low seven bits, then one
// zero byte that latches the last LED.
module Lpd8806Server {
  import opened Bytes
  import opened ColorOrders

  const LPD8806_DEFAULT_SPEED: u32 := 2000000
  const DEFAULT_ORDER := GRB
  /** The static buffer is declared `1 << 16 + 5` bytes, which C reads as `1 << 21`. */
  const BUFFER_SIZE := 0x20_0000

  /** `128 | (v >> 1)`. */
  function Seven(v: byte): byte
  {
    128 + v / 2
  }

  function Halved(p: Pixel): Pixel
  {
    Pixel(p.r / 2 * 2, p.g / 2 * 2, p.b / 2 * 2)
  }

  function RgbBytes(p: Pixel): seq<byte> { [Seven(p.r), Seven(p.g), Seven(p.b)] }
  function GrbBytes(p: Pixel): seq<byte> { [Seven(p.g), Seven(p.r), Seven(p.b)] }
  function BgrBytes(p: Pixel): seq<byte> { [Seven(p.b), Seven(p.g), Seven(p.r)] }

  function Encoder(order: ColorOrder): Pixel -> seq<byte>
  {
    match order
    case RGB => RgbBytes
    case GRB => GrbBytes
    case BGR => BgrBytes
  }

  /** Reads three bytes back, doubling their low seven bits; None without the high bits. */
  function Unseven(order: ColorOrder, bs: seq<byte>): Option<Pixel>
  {
    if |bs| == 3 && bs[0] >= 128 && bs[1] >= 128 && bs[2] >= 128
    then Some(Unchannel(order, [(bs[0] - 128) * 2, (bs[1] - 128) * 2, (bs[2] - 128) * 2]))
    else None
  }

  function RgbPixel(bs: seq<byte>): Option<Pixel> { Unseven(RGB, bs) }
  function GrbPixel(bs: seq<byte>): Option<Pixel> { Unseven(GRB, bs) }
  function BgrPixel(bs: seq<byte>): Option<Pixel> { Unseven(BGR, bs) }

  function Decoder(order: ColorOrder): seq<byte> -> Option<Pixel>
  {
    match order
    case RGB => RgbPixel
    case GRB => GrbPixel
    case BGR => BgrPixel
  }

  lemma EncoderWidth(order: ColorOrder)
    ensures forall p :: |Encoder(order)(p)| == 3
  {
  }

  lemma EncoderDecoder(order: ColorOrder)
    ensures forall p :: Decoder(order)(Encoder(order)(p)) == Some(Halved(p))
  {
    forall p ensures Decoder(order)(Encoder(order)(p)) == Some(Halved(p)) {
      SevenBits(p.r);
      SevenBits(p.g);
      SevenBits(p.b);
    }
  }

  /** The bytes transferred for `ps`. */
  function Frame(order: ColorOrder, ps: seq<Pixel>): seq<byte>
  {
    [0, 0, 0] + ConcatMap(Encoder(order), ps) + [0]
  }

  /** Every colour byte has its high bit set and carries the colour's top seven bits. */
  lemma SevenBits(v: byte)
    ensures Seven(v) >= 128 && Seven(v) - 128 == v / 2
  {
  }

  /** A frame is `3 * count + 4` bytes: three zeros, pixel i's bytes at offset 3 + 3i in the
      chosen order, and the latch zero. */
  lemma FrameLayout(order: ColorOrder, ps: seq<Pixel>)
    ensures |Frame(order, ps)| == 3 * |ps| + 4
    ensures Frame(order, ps)[..3] == [0, 0, 0] && Frame(order, ps)[3 * |ps| + 3] == 0
    ensures forall i :: 0 <= i < |ps| ==> Frame(order, ps)[3 + 3 * i..6 + 3 * i] == Encoder(order)(ps[i])
  {
    var body := ConcatMap(Encoder(order), ps);
    var f := Frame(order, ps);
    assert |body| == 3 * |ps| by {
      EncoderWidth(order);
      ConcatMapAt(Encoder(order), 3, ps);
    }
    assert f == [0, 0, 0] + body + [0];
    forall i | 0 <= i < |ps| ensures f[3 + 3 * i..6 + 3 * i] == Encoder(order)(ps[i]) {
      EncoderWidth(order);
      ConcatMapAt(Encoder(order), 3, ps);
      SliceOfMiddle([0, 0, 0], body, [0], 3 * i, 3 * i + 3);
    }
  }

  /** The pixel bytes of a frame read back as the pixels with their lowest bit dropped. */
  lemma FrameDecodes(order: ColorOrder, ps: seq<Pixel>)
    ensures |Frame(order, ps)| == 3 * |ps| + 4
    ensures Ungroup(Decoder(order), 3, Frame(order, ps)[3..3 * |ps| + 3]) == Some(MapPixels(Halved, ps))
  {
    var body := ConcatMap(Encoder(order), ps);
    EncoderWidth(order);
    EncoderDecoder(order);
    ConcatMapAt(Encoder(order), 3, ps);
    var f := Frame(order, ps);
    assert f[3..3 * |ps| + 3] == body by {
      SliceOfMiddle([0, 0, 0], body, [0], 0, |body|);
    }
    UngroupConcatMap(Encoder(order), Decoder(order), Halved, 3, ps);
  }

  /** `lpd8806_put_pixels(fd, spi_data_tx, speed, count, pixels, order)`: fills the buffer
      and returns the transfer length `d - spi_data_tx`. */
  method PutPixels(buffer: array<byte>, pixels: seq<Pixel>, order: ColorOrder) returns (len: nat)
    requires buffer.Length == BUFFER_SIZE && |pixels| <= OPC_MAX_PIXELS_PER_MESSAGE
    modifies buffer
    ensures len == 3 * |pixels| + 4
    ensures buffer[..len] == Frame(order, pixels)
    ensures buffer[len..] == old(buffer[len..])
  {
    var d := EmitAll(buffer, 0, [0, 0, 0]);
    var i := 0;
    while i < |pixels|
      invariant 0 <= i <= |pixels| && d == 3 + 3 * i
      invariant buffer[..d] == [0, 0, 0] + ConcatMap(Encoder(order), pixels[..i])
      invariant forall k :: d <= k < buffer.Length ==> buffer[k] == old(buffer[k])
    {
      var p := pixels[i];
      ghost var before := buffer[..d];
      d := EmitPixel(buffer, d, p, order);
      ConcatMapStep(Encoder(order), [0, 0, 0], pixels, i, before, buffer[..d]);
      i := i + 1;
    }
    assert pixels[..i] == pixels;
    d := EmitAll(buffer, d, [0]);
    len := d;
  }

  /** The `switch (order)` of the loop: the three bytes of one pixel. */
  method EmitPixel(buffer: array<byte>, d: nat, p: Pixel, order: ColorOrder) returns (next: nat)
    requires d + 3 <= buffer.Length
    modifies buffer
    ensures next == d + 3
    ensures buffer[..next] == old(buffer[..d]) + Encoder(order)(p)
    ensures forall k :: next <= k < buffer.Length ==> buffer[k] == old(buffer[k])
  {
    match order {
      case RGB => next := EmitAll(buffer, d, [128 + p.r / 2, 128 + p.g / 2, 128 + p.b / 2]);
      case GRB => next := EmitAll(buffer, d, [128 + p.g / 2, 128 + p.r / 2, 128 + p.b / 2]);
      case BGR => next := EmitAll(buffer, d, [128 + p.b / 2, 128 + p.g / 2, 128 + p.r / 2]);
    }
  }
}
