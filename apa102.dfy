// The APA102 server (src/apa102_server.c): a start frame of four zero bytes, one
// four-byte LED frame per pixel (brightness byte, then blue, green, red) and an end
// frame of four 0xff bytes, written to the SPI device in blocks.
module Apa102 {
  import opened Bytes
  import Spi

  const APA102_BRIGHTNESS: byte := 31
  /** `4 + OPC_MAX_PIXELS_PER_MESSAGE * 4 + 4`, the size of the static frame buffer. */
  const BUFFER_SIZE := 4 + OPC_MAX_PIXELS_PER_MESSAGE * 4 + 4

  /** The LED frame of one pixel. */
  function Led(p: Pixel): seq<byte>
  {
    [0xe0 + APA102_BRIGHTNESS, p.b, p.g, p.r]
  }

  /** The complete frame for `ps`. */
  function Frame(ps: seq<Pixel>): seq<byte>
  {
    Zeros(4) + ConcatMap(Led, ps) + [0xff, 0xff, 0xff, 0xff]
  }

  /** The layout of a frame: 4 zero bytes, then `0xff, b, g, r` for pixel i at offset
      4 + 4i, then 4 bytes of 0xff, `4 * count + 8` bytes in all. */
  lemma FrameLayout(ps: seq<Pixel>)
    ensures |Frame(ps)| == 4 * |ps| + 8
    ensures Frame(ps)[..4] == [0, 0, 0, 0]
    ensures forall i :: 0 <= i < |ps| ==> Frame(ps)[4 + 4 * i..8 + 4 * i] == [0xff, ps[i].b, ps[i].g, ps[i].r]
    ensures Frame(ps)[4 * |ps| + 4..] == [0xff, 0xff, 0xff, 0xff]
  {
    ConcatMapAt(Led, 4, ps);
    var body := ConcatMap(Led, ps);
    var f := Frame(ps);
    assert f == Zeros(4) + body + [0xff, 0xff, 0xff, 0xff];
    assert f[..4] == Zeros(4);
    assert f[4 * |ps| + 4..] == [0xff, 0xff, 0xff, 0xff];
    forall i | 0 <= i < |ps| ensures f[4 + 4 * i..8 + 4 * i] == [0xff, ps[i].b, ps[i].g, ps[i].r] {
      SliceOfMiddle(Zeros(4), body, [0xff, 0xff, 0xff, 0xff], 4 * i, 4 * i + 4);
    }
  }

  /** Reads one LED frame back as its pixel, or None if it has not the brightness byte. */
  function LedPixel(bs: seq<byte>): Option<Pixel>
  {
    if |bs| == 4 && bs[0] == 0xe0 + APA102_BRIGHTNESS then Some(Pixel(bs[3], bs[2], bs[1])) else None
  }

  /** Reads the pixels back from a frame, or None if it is not shaped like one. */
  function Decode(f: seq<byte>): Option<seq<Pixel>>
  {
    if |f| >= 8 && f[..4] == [0, 0, 0, 0] && f[|f| - 4..] == [0xff, 0xff, 0xff, 0xff]
    then Ungroup(LedPixel, 4, f[4..|f| - 4])
    else None
  }

  /** Every frame reads back as the pixels it was built from. */
  lemma DecodeFrame(ps: seq<Pixel>)
    ensures Decode(Frame(ps)) == Some(ps)
  {
    FrameLayout(ps);
    var f := Frame(ps);
    assert f[4..|f| - 4] == ConcatMap(Led, ps);
    UngroupConcatMap(Led, LedPixel, Same, 4, ps);
    MapSame(ps);
  }

  /** `apa102_put_pixels(fd, buffer, count, pixels)`: fills the static buffer with the frame
      and hands its `4 * count + 8` bytes to `spi_write`; `writes` are the write results. */
  method PutPixels(buffer: array<byte>, pixels: seq<Pixel>, writes: nat -> int)
    returns (len: nat, blocks: seq<seq<byte>>)
    requires buffer.Length == BUFFER_SIZE && |pixels| <= OPC_MAX_PIXELS_PER_MESSAGE
    modifies buffer
    ensures len == 4 * |pixels| + 8
    ensures buffer[..len] == Frame(pixels)
    ensures buffer[len..] == old(buffer[len..])
    ensures blocks == Spi.Blocks(Frame(pixels))
  {
    var d := EmitAll(buffer, 0, Zeros(4));
    var i := 0;
    while i < |pixels|
      invariant 0 <= i <= |pixels| && d == 4 + 4 * i
      invariant buffer[..d] == Zeros(4) + ConcatMap(Led, pixels[..i])
      invariant forall k :: d <= k < buffer.Length ==> buffer[k] == old(buffer[k])
    {
      var p := pixels[i];
      ghost var before := buffer[..d];
      d := EmitAll(buffer, d, [0xe0 + APA102_BRIGHTNESS, p.b, p.g, p.r]);
      ConcatMapStep(Led, Zeros(4), pixels, i, before, buffer[..d]);
      i := i + 1;
    }
    d := EmitAll(buffer, d, [0xff, 0xff, 0xff, 0xff]);
    assert pixels[..i] == pixels;
    len := d;
    assert buffer[len..] == old(buffer[len..]);
    var logged;
    blocks, logged := Spi.SpiWrite(buffer[..len], writes);
  }

  const DEFAULT_DEVICE := "/dev/spidev1.0"

  /** The SPI device `main` opens: `argv[3]` if given, else /dev/spidev1.0. */
  function DevicePath(argv: seq<string>): (path: string)
    ensures |argv| > 3 ==> path == argv[3]
    ensures |argv| <= 3 ==> path == DEFAULT_DEVICE
  {
    if |argv| > 3 then argv[3] else DEFAULT_DEVICE
  }
}
