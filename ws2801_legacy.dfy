// The older WS2801 server (ws2801_server.c at the top of the repository): blue, green,
// red per pixel, always, at 2 MHz by default.
module Ws2801Legacy {
  import opened Bytes
  import opened ColorOrders
  import Ws2801Server

  const DEFAULT_SPEED: u32 := 2000000
  /** The static transfer buffer, `1 << 16` bytes. */
  const BUFFER_SIZE := 0x1_0000

  /** `ws2801_put_pixels(fd, spi_data_tx, speed, count, pixels)`: the bytes are those of the
      newer server in BGR order; returns the transfer length. */
  method PutPixels(buffer: array<byte>, pixels: seq<Pixel>) returns (len: nat)
    requires buffer.Length == BUFFER_SIZE && |pixels| <= OPC_MAX_PIXELS_PER_MESSAGE
    modifies buffer
    ensures len == 3 * |pixels|
    ensures buffer[..len] == Ws2801Server.Frame(BGR, pixels)
    ensures buffer[len..] == old(buffer[len..])
  {
    ConcatMapAt(Ws2801Server.BgrBytes, 3, pixels);
    var d := 0;
    var i := 0;
    while i < |pixels|
      invariant 0 <= i <= |pixels| && d == 3 * i
      invariant buffer[..d] == ConcatMap(Ws2801Server.BgrBytes, pixels[..i])
      invariant forall k :: d <= k < buffer.Length ==> buffer[k] == old(buffer[k])
    {
      var p := pixels[i];
      d := EmitAll(buffer, d, [p.b, p.g, p.r]);
      ConcatMapAppend(Ws2801Server.BgrBytes, pixels[..i], p);
      TakeOneMore(pixels, i);
      i := i + 1;
    }
    assert pixels[..i] == pixels;
    len := d;
  }
}
