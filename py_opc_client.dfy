// The Python client library (python_clients/opc_client.py): `put_pixels` builds one
// SET_PIXELS message from a list of colour triples, `get_socket` splits "host:port",
// and `clamp` bounds a number. The library is Python 2 code, so a message is a byte
// string and `chr` accepts 0..255 only.
module PyOpcClient {
  import opened Bytes
  import opened Wire

  /** A colour as the caller passes it: three numbers, integer or floating-point. */
  type Triple = (real, real, real)

  /** `min(255, max(0, int(x)))`: the component byte put_pixels sends. */
  function ComponentByte(x: real): (b: byte)
    ensures 0 <= PyTrunc(x) <= 255 ==> b == PyTrunc(x)
    ensures PyTrunc(x) < 0 ==> b == 0
    ensures PyTrunc(x) > 255 ==> b == 255
  {
    Min(255, Max(0, PyTrunc(x)))
  }

  function ColourPixel(c: Triple): Pixel
  {
    Pixel(ComponentByte(c.0), ComponentByte(c.1), ComponentByte(c.2))
  }

  /** The pixels put_pixels sends, in list order. */
  function Colours(cs: seq<Triple>): (ps: seq<Pixel>)
    ensures |ps| == |cs|
    ensures forall i :: 0 <= i < |cs| ==> ps[i] == ColourPixel(cs[i])
  {
    seq(|cs|, i requires 0 <= i < |cs| => ColourPixel(cs[i]))
  }

  /** The byte string put_pixels hands to `sock.send`, or None when `chr` raises ValueError:
      for a channel outside 0..255 or a length high byte above 255. */
  function Message(channel: int, cs: seq<Triple>): (m: Option<seq<byte>>)
    ensures m.None? <==> !(0 <= channel < 256) || 3 * |cs| >= 0x1_0000
    ensures m.Some? ==> |m.value| == 4 + 3 * |cs|
  {
    var n := 3 * |cs|;
    if !(0 <= channel < 256) || n / 256 >= 256 then None
    else Some([channel, 0, n / 256, n % 256] + PixelBytes(Colours(cs)))
  }

  /** `''.join(pieces)`. */
  function Join(pieces: seq<seq<byte>>): seq<byte>
  {
    if pieces == [] then [] else Join(pieces[..|pieces| - 1]) + pieces[|pieces| - 1]
  }

  lemma JoinAppend(pieces: seq<seq<byte>>, p: seq<byte>)
    ensures Join(pieces + [p]) == Join(pieces) + p
  {
    assert (pieces + [p])[..|pieces|] == pieces;
  }

  /** `put_pixels(sock, channel, pixels)`: the header piece, then one three-byte piece per
      colour, joined. */
  method PutPixels(channel: int, pixels: seq<Triple>) returns (command: Option<seq<byte>>)
    ensures command == Message(channel, pixels)
  {
    var hi := (|pixels| * 3) / 256;
    var lo := (|pixels| * 3) % 256;
    if !(0 <= channel < 256) || !(0 <= hi < 256) {
      return None;
    }
    var header: seq<byte> := [channel, 0, hi, lo];
    var pieces: seq<seq<byte>> := [header];
    assert Join(pieces) == header by {
      JoinAppend([], header);
      assert [] + [header] == [header];
    }
    var i := 0;
    while i < |pixels|
      invariant 0 <= i <= |pixels|
      invariant Join(pieces) == header + PixelBytes(Colours(pixels[..i]))
    {
      var (r, g, b) := pixels[i];
      var piece: seq<byte> := [ComponentByte(r), ComponentByte(g), ComponentByte(b)];
      PiecesStep(header, pieces, pixels, i, piece);
      pieces := pieces + [piece];
      i := i + 1;
    }
    assert pixels[..i] == pixels;
    command := Some(Join(pieces));
  }

  /** Appending the piece of colour i keeps the joined pieces equal to the header and the
      bytes of the first colours. */
  lemma PiecesStep(header: seq<byte>, pieces: seq<seq<byte>>, cs: seq<Triple>, i: nat, piece: seq<byte>)
    requires i < |cs| && Join(pieces) == header + PixelBytes(Colours(cs[..i]))
    requires piece == [ComponentByte(cs[i].0), ComponentByte(cs[i].1), ComponentByte(cs[i].2)]
    ensures Join(pieces + [piece]) == header + PixelBytes(Colours(cs[..i + 1]))
  {
    JoinAppend(pieces, piece);
    ColoursStep(cs, i);
    PixelBytesAppend(Colours(cs[..i]), ColourPixel(cs[i]));
  }

  lemma ColoursStep(cs: seq<Triple>, i: nat)
    requires i < |cs|
    ensures Colours(cs[..i + 1]) == Colours(cs[..i]) + [ColourPixel(cs[i])]
  {
  }

  /** A message read back by an OPC receiver: a SET_PIXELS frame for `channel` whose data
      are the clamped colours, and it takes exactly `4 + 3n` bytes of the stream. */
  lemma MessageDecodes(channel: int, cs: seq<Triple>, rest: seq<byte>)
    requires Message(channel, cs).Some?
    ensures DecodeOne(Message(channel, cs).value + rest)
         == Some((Frame(channel, OPC_SET_PIXELS, PixelBytes(Colours(cs))), 4 + 3 * |cs|))
    ensures BytesToPixels(PixelBytes(Colours(cs))) == Colours(cs)
  {
    var f := Frame(channel, OPC_SET_PIXELS, PixelBytes(Colours(cs)));
    assert Message(channel, cs).value == Encode(f);
    DecodeOneEncode(f, rest);
    BytesToPixelsOfPixelBytes(Colours(cs));
  }

  /** Byte `4 + 3i + k` of a message is component k of colour i, truncated and clamped. */
  lemma MessageComponents(channel: int, cs: seq<Triple>, i: nat)
    requires Message(channel, cs).Some? && i < |cs|
    ensures Message(channel, cs).value[4 + 3 * i] == ComponentByte(cs[i].0)
    ensures Message(channel, cs).value[4 + 3 * i + 1] == ComponentByte(cs[i].1)
    ensures Message(channel, cs).value[4 + 3 * i + 2] == ComponentByte(cs[i].2)
  {
    PixelBytesAt(Colours(cs), i);
  }

  /** The first four bytes are the OPC header for a SET_PIXELS message of `3n` data bytes. */
  lemma MessageHeader(channel: int, cs: seq<Triple>)
    requires Message(channel, cs).Some?
    ensures Message(channel, cs).value[..4] == HeaderBytes(channel, OPC_SET_PIXELS, 3 * |cs|)
  {
  }

  // ---------------------------------------------------------------------
  // get_socket's address split

  /** The number of colons in `s`. */
  function Colons(s: string): nat
  {
    if s == [] then 0 else (if s[0] == ':' then 1 else 0) + Colons(s[1..])
  }

  lemma {:induction false} ColonsConcat(a: string, b: string)
    ensures Colons(a + b) == Colons(a) + Colons(b)
  {
    if a != [] {
      assert (a + b)[1..] == a[1..] + b;
      ColonsConcat(a[1..], b);
    } else {
      assert a + b == b;
    }
  }

  lemma {:induction false} NoColons(s: string)
    ensures Colons(s) == 0 <==> ':' !in s
  {
    if s != [] {
      NoColons(s[1..]);
      assert s == [s[0]] + s[1..];
    }
  }

  /** `ip, port = ip_port.split(':'); port = int(port)`: the host and port, or None when the
      unpacking raises (not exactly one colon) or `int` raises ValueError. */
  function SocketAddress(ipPort: string): (r: Option<(string, int)>)
    ensures Colons(ipPort) != 1 ==> r.None?
    ensures r.Some? ==> ':' !in r.value.0
  {
    match SplitFirst(ipPort, ':')
    case None => None
    case Some(parts) =>
      if ':' in parts.1 then None
      else match PyInt(parts.1)
        case None => None
        case Some(port) =>
          NoColons(parts.0);
          NoColons(parts.1);
          ColonsConcat(parts.0 + [':'], parts.1);
          ColonsConcat(parts.0, [':']);
          Some((parts.0, port))
  }

  /** The host and port of "host:port" come back out. */
  lemma AddressRoundTrip(host: string, port: nat)
    requires ':' !in host
    ensures SocketAddress(host + [':'] + Decimal(port)) == Some((host, port))
  {
    var s := host + [':'] + Decimal(port);
    SplitAt(host, Decimal(port));
    DecimalDigits(port);
    PyIntDecimal(port);
  }

  lemma {:induction false} SplitAt(host: string, rest: string)
    requires ':' !in host
    ensures SplitFirst(host + [':'] + rest, ':') == Some((host, rest))
  {
    if host != [] {
      assert (host + [':'] + rest)[1..] == host[1..] + [':'] + rest;
      SplitAt(host[1..], rest);
      assert [host[0]] + host[1..] == host;
    } else {
      assert host + [':'] + rest == [':'] + rest;
    }
  }

  lemma {:induction false} DecimalDigits(n: nat)
    ensures ':' !in Decimal(n)
  {
  }

  // ---------------------------------------------------------------------
  // clamp

  /** `clamp(x, minn, maxx)`: `max(minn, min(maxx, x))`. */
  function Clamp(x: real, minn: real, maxx: real): (r: real)
    ensures minn <= maxx ==> minn <= r <= maxx
    ensures minn <= x <= maxx ==> r == x
    ensures x < minn ==> r == minn
    ensures minn <= maxx < x ==> r == maxx
    ensures maxx < minn ==> r == minn
  {
    var m := if maxx <= x then maxx else x;
    if minn >= m then minn else m
  }

  /** put_pixels clamps in the other order, `min(255, max(0, int(x)))`; on the 0..255 range
      the two agree. */
  lemma ComponentIsClamp(x: real)
    ensures ComponentByte(x) as real == Clamp(PyTrunc(x) as real, 0.0, 255.0)
  {
  }
}
