// The older single-device TCL server (tcl_server.c at the top of the repository): the
// same per-pixel encoding as the newer TCL server, for all received pixels, and one
// diagnostic pixel sent when the receive loop ends.
module TclLegacy {
  import opened Bytes
  import Spi
  import TclServer
  import Cli

  /** `((1 << 16) / 3) * 4 + 5`, the size of the static transfer buffer. */
  const BUFFER_SIZE := (0x1_0000 / 3) * 4 + 5
  const SPI_DEFAULT_SPEED_HZ: u32 := 8000000

  /** The bytes `spi_put_pixels` writes for `ps`. */
  function Frame(ps: seq<Pixel>): seq<byte>
  {
    Zeros(4) + ConcatMap(TclServer.Led, ps)
  }

  /** They are the bytes the newer server sends to a device covering every pixel from 0. */
  lemma SameAsFullRange(ps: seq<Pixel>)
    ensures Frame(ps) == TclServer.DeviceFrame(ps, 0, -1)
    ensures |Frame(ps)| == 4 + 4 * |ps|
  {
    assert TclServer.Covered(ps, 0, -1) == ps || ps == [];
  }

  /** `spi_put_pixels(fd, count, pixels)`: fills the buffer and hands `4 + 4 * count` bytes
      to `spi_write`, whose blocks are `blocks`. */
  method PutPixels(buffer: array<byte>, pixels: seq<Pixel>, writes: nat -> int)
    returns (len: nat, blocks: seq<seq<byte>>)
    requires buffer.Length == BUFFER_SIZE && |pixels| <= OPC_MAX_PIXELS_PER_MESSAGE
    modifies buffer
    ensures len == 4 + 4 * |pixels|
    ensures buffer[..len] == Frame(pixels)
    ensures buffer[len..] == old(buffer[len..])
    ensures blocks == Spi.Blocks(Frame(pixels))
  {
    var d := EmitAll(buffer, 0, Zeros(4));
    var i := 0;
    while i < |pixels|
      invariant 0 <= i <= |pixels| && d == 4 + 4 * i
      invariant buffer[..d] == Zeros(4) + ConcatMap(TclServer.Led, pixels[..i])
      invariant forall k :: d <= k < buffer.Length ==> buffer[k] == old(buffer[k])
    {
      var p := pixels[i];
      var flag := TclServer.Flag(p);
      ghost var before := buffer[..d];
      d := EmitAll(buffer, d, [255 - flag, p.b, p.g, p.r]);
      ConcatMapStep(TclServer.Led, Zeros(4), pixels, i, before, buffer[..d]);
      i := i + 1;
    }
    assert pixels[..i] == pixels;
    len := d;
    var logged;
    blocks, logged := Spi.SpiWrite(buffer[..len], writes);
  }

  /** The port `main` listens on: `atoi(argv[2])` if given, else the default port. */
  function Port(argv: seq<string>): (port: u16)
    ensures |argv| <= 2 ==> port == OPC_DEFAULT_PORT
  {
    if |argv| > 2 then U16(AtoI(argv[2])) else OPC_DEFAULT_PORT
  }

  lemma PortReadBack(argv: seq<string>, port: u16)
    requires |argv| > 2 && argv[2] == Decimal(port)
    ensures Port(argv) == port
  {
    StrToLDecimal(port);
  }

  /** One `opc_receive` call: what it returns, and the pixels it hands to `handler` when it
      completes a message during the call. */
  datatype Poll = Poll(result: bool, frame: Option<seq<Pixel>>)

  /** The `spi_write` blocks the handler's `spi_put_pixels` produces for the polls `ps`, one
      entry per message, in order. */
  function Sent(ps: seq<Poll>): (r: seq<seq<seq<byte>>>)
    ensures |r| <= |ps|
  {
    if ps == [] then []
    else
      Sent(ps[..|ps| - 1]) + match ps[|ps| - 1].frame
        case Some(px) => [Spi.Blocks(Frame(px))]
        case None => []
  }

  /** A prefix of the polls sends a prefix of the messages. */
  lemma {:induction false} SentPrefix(ps: seq<Poll>, m: nat)
    requires m <= |ps|
    ensures Sent(ps[..m]) <= Sent(ps)
    decreases |ps| - m
  {
    if m < |ps| {
      SentPrefix(ps, m + 1);
      assert ps[..m + 1][..m] == ps[..m];
    } else {
      assert ps[..m] == ps;
    }
  }

  /** A poll that completes a message sends exactly that message's frame, right after the
      messages of the earlier polls; a poll that completes none sends nothing. */
  lemma SentAt(ps: seq<Poll>, q: nat)
    requires q < |ps|
    ensures ps[q].frame.None? ==> Sent(ps[..q + 1]) == Sent(ps[..q])
    ensures ps[q].frame.Some? ==>
      |Sent(ps[..q])| < |Sent(ps)| && Sent(ps)[|Sent(ps[..q])|] == Spi.Blocks(Frame(ps[q].frame.value))
  {
    assert ps[..q + 1][..q] == ps[..q];
    SentPrefix(ps, q + 1);
  }

  /** `main` after the device is open: `while (s >= 0 && opc_receive(s, handler, 1000));`,
      the handler sending each message to the device, then the diagnostic pixel for clock
      reading `t`. */
  method ServerMain(sourceOk: bool, ps: seq<Poll>, t: int, buffer: array<byte>, writes: nat -> int)
    returns (polls: nat, sent: seq<seq<seq<byte>>>, len: nat, blocks: seq<seq<byte>>)
    requires buffer.Length == BUFFER_SIZE
    requires forall k :: 0 <= k < |ps| && ps[k].frame.Some? ==> |ps[k].frame.value| <= OPC_MAX_PIXELS_PER_MESSAGE
    modifies buffer
    ensures !sourceOk ==> polls == 0
    ensures polls <= |ps| && forall k :: 0 <= k < polls - 1 ==> ps[k].result
    ensures sourceOk ==>
      ((polls == |ps| && forall k :: 0 <= k < |ps| ==> ps[k].result) || (0 < polls && !ps[polls - 1].result))
    ensures sent == Sent(ps[..polls])
    ensures len == 8 && buffer[..len] == Frame([Cli.DiagPixel(t)])
    ensures blocks == [Frame([Cli.DiagPixel(t)])]
  {
    polls := 0;
    sent := [];
    if sourceOk {
      var active := true;
      while active && polls < |ps|
        invariant polls <= |ps|
        invariant forall k :: 0 <= k < polls - 1 ==> ps[k].result
        invariant active ==> forall k :: 0 <= k < polls ==> ps[k].result
        invariant !active ==> 0 < polls && !ps[polls - 1].result
        invariant sent == Sent(ps[..polls])
        decreases |ps| - polls, active
      {
        var p := ps[polls];
        assert ps[..polls + 1][..polls] == ps[..polls];
        if p.frame.Some? {
          var n, b := PutPixels(buffer, p.frame.value, writes);
          sent := sent + [b];
        }
        active := p.result;
        polls := polls + 1;
      }
    }
    len, blocks := PutPixels(buffer, [Cli.DiagPixel(t)], writes);
    assert Spi.Blocks(Frame([Cli.DiagPixel(t)])) == [Frame([Cli.DiagPixel(t)])];
  }

  /** The closing frame lights exactly one channel of its pixel at 64 from 1970 on. */
  lemma ClosingFrame(t: int)
    requires t >= 0
    ensures Frame([Cli.DiagPixel(t)])[5..] == [[0, 0, 64], [0, 64, 0], [64, 0, 0]][t % 3]
  {
    Cli.DiagnosticCycle(t);
    ConcatMapAppend(TclServer.Led, [], Cli.DiagPixel(t));
    assert [] + [Cli.DiagPixel(t)] == [Cli.DiagPixel(t)];
  }
}
