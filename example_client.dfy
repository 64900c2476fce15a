// The older example client library (example_clients/opc_client.py): `sendColors` builds
// the same SET_PIXELS message as the Python client library's `put_pixels`, from a
// header piece and one three-byte piece per colour.
module ExampleClient {
  import opened Bytes
  import opened Wire
  import PyOpcClient

  /** `sendColors(sock, channel, colors)`: the byte string handed to `sock.send`, or None
      when `chr` raises ValueError. The header is `[channel, 0, 3n / 256, 3n % 256]`, so the
      command byte is always SET_PIXELS, and each colour contributes its truncated and
      clamped r, g, b in list order. */
  method SendColors(channel: int, colors: seq<PyOpcClient.Triple>) returns (command: Option<seq<byte>>)
    ensures command.None? <==> !(0 <= channel < 256) || 3 * |colors| >= 0x1_0000
    ensures command.Some? ==> |command.value| == 4 + 3 * |colors|
    ensures command.Some? ==> command.value[..4] == HeaderBytes(channel, OPC_SET_PIXELS, 3 * |colors|)
    ensures command.Some? ==> forall i :: 0 <= i < |colors| ==>
      command.value[4 + 3 * i..4 + 3 * i + 3]
        == [PyOpcClient.ComponentByte(colors[i].0), PyOpcClient.ComponentByte(colors[i].1), PyOpcClient.ComponentByte(colors[i].2)]
  {
    command := PyOpcClient.PutPixels(channel, colors);
    if command.Some? {
      forall i | 0 <= i < |colors|
        ensures command.value[4 + 3 * i..4 + 3 * i + 3]
          == [PyOpcClient.ComponentByte(colors[i].0), PyOpcClient.ComponentByte(colors[i].1), PyOpcClient.ComponentByte(colors[i].2)]
      {
        PyOpcClient.MessageComponents(channel, colors, i);
      }
      PyOpcClient.MessageHeader(channel, colors);
    }
  }
}
