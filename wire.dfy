// The Open Pixel Control message format, shared by every client and server:
// a 4-byte header (channel, command, data length as a big-endian u16)
// followed by the data bytes.
module Wire {
  import opened Bytes

  /** One message as it travels on the wire. */
  datatype Frame = Frame(channel: byte, command: byte, data: seq<byte>)

  /** The header `[channel, command, length >> 8, length & 0xff]`. */
  function HeaderBytes(channel: byte, command: byte, length: u16): (h: seq<byte>)
    ensures |h| == 4 && h[0] == channel && h[1] == command
    ensures DeclaredLength(h) == length
  {
    [channel, command, length / 256, length % 256]
  }

  /** The data length a header announces: `header[2] << 8 | header[3]`. */
  function DeclaredLength(h: seq<byte>): (n: u16)
    requires |h| >= 4
  {
    h[2] as int * 256 + h[3] as int
  }

  /** Two headers that carry the same fields are the same bytes. */
  lemma {:induction false} HeaderBytesInjective(h: seq<byte>)
    requires |h| == 4
    ensures h == HeaderBytes(h[0], h[1], DeclaredLength(h))
  {
    assert DeclaredLength(h) / 256 == h[2];
    assert DeclaredLength(h) % 256 == h[3];
  }

  /** A frame whose data length fits the u16 length field. */
  predicate Encodable(f: Frame) { |f.data| < 0x1_0000 }

  predicate AllEncodable(fs: seq<Frame>) { forall k :: 0 <= k < |fs| ==> Encodable(fs[k]) }

  function Encode(f: Frame): (bs: seq<byte>)
    requires Encodable(f)
    ensures |bs| == 4 + |f.data|
  {
    HeaderBytes(f.channel, f.command, |f.data|) + f.data
  }

  /** The bytes of several frames sent one after another. */
  function Encodes(fs: seq<Frame>): (bs: seq<byte>)
    requires AllEncodable(fs)
    ensures |bs| >= 4 * |fs|
  {
    if fs == [] then [] else Encode(fs[0]) + Encodes(fs[1..])
  }

  lemma {:induction false} EncodesAppend(fs: seq<Frame>, f: Frame)
    requires AllEncodable(fs) && Encodable(f)
    ensures AllEncodable(fs + [f])
    ensures Encodes(fs + [f]) == Encodes(fs) + Encode(f)
  {
    if fs == [] {
      assert [] + [f] == [f];
      assert [f][1..] == [];
    } else {
      assert (fs + [f])[1..] == fs[1..] + [f];
      EncodesAppend(fs[1..], f);
    }
  }

  /** Reading one frame off the front of a byte string: the frame and the bytes it took, or
      None while the header or the announced data are not all there. */
  function DecodeOne(bs: seq<byte>): (r: Option<(Frame, nat)>)
    ensures r.Some? ==> Encodable(r.value.0) && r.value.1 == |Encode(r.value.0)| <= |bs|
    ensures r.Some? ==> bs[..r.value.1] == Encode(r.value.0)
  {
    if |bs| < 4 || |bs| < 4 + DeclaredLength(bs) then None
    else
      var f := Frame(bs[0], bs[1], bs[4..4 + DeclaredLength(bs)]);
      HeaderBytesInjective(bs[..4]);
      Some((f, 4 + DeclaredLength(bs)))
  }

  /** DecodeOne inverts Encode whatever follows the frame. */
  lemma DecodeOneEncode(f: Frame, rest: seq<byte>)
    requires Encodable(f)
    ensures DecodeOne(Encode(f) + rest) == Some((f, 4 + |f.data|))
  {
    var bs := Encode(f) + rest;
    assert bs[..4] == HeaderBytes(f.channel, f.command, |f.data|);
    assert bs[4..4 + |f.data|] == f.data;
  }

  /** What a receiver can be holding between frames: fewer than 4 header bytes, or a
      complete header and fewer data bytes than it announces (a header announcing no data
      counts as incomplete until the receiver acts on it). */
  predicate Partial(p: seq<byte>)
  {
    |p| < 4 || |p| - 4 < DeclaredLength(p) || (DeclaredLength(p) == 0 && |p| == 4)
  }

  /** Encoded frames determine the frames, up to a last frame without data that a
      receiver may still hold as its header: if some frames followed by a partial frame
      spell out the bytes of `ys`, either they are `ys` and nothing is left over, or they
      are `ys` but for a last frame without data, whose four header bytes are left over. */
  lemma {:induction false} EncodesUnique(xs: seq<Frame>, p: seq<byte>, ys: seq<Frame>)
    requires AllEncodable(xs) && AllEncodable(ys)
    requires Partial(p)
    requires Encodes(xs) + p == Encodes(ys)
    ensures (xs == ys && p == []) ||
      (ys != [] && ys[|ys| - 1].data == [] && xs == ys[..|ys| - 1] && p == Encode(ys[|ys| - 1]))
    decreases |ys|
  {
    if ys == [] {
      assert xs == [];
    } else {
      var y := ys[0];
      if xs == [] {
        assert p == Encode(y) + Encodes(ys[1..]);
        PartialFrame(y, Encodes(ys[1..]));
        assert ys[1..] == [];
        assert ys[..|ys| - 1] == [];
      } else {
        var x := xs[0];
        Associate(Encode(x), Encodes(xs[1..]), p);
        HeadsAgree(x, y, Encodes(xs[1..]) + p, Encodes(ys[1..]));
        EncodesUnique(xs[1..], p, ys[1..]);
        assert xs == [x] + xs[1..];
        assert ys == [y] + ys[1..];
        if xs[1..] != ys[1..] || p != [] {
          assert ys[1..][..|ys[1..]| - 1] == ys[1..|ys| - 1];
          assert ys[..|ys| - 1] == [y] + ys[1..|ys| - 1];
        }
      }
    }
  }

  /** A whole frame, and whatever follows it, is a partial frame only when the frame has
      no data and nothing follows. */
  lemma PartialFrame(y: Frame, rest: seq<byte>)
    requires Encodable(y) && Partial(Encode(y) + rest)
    ensures y.data == [] && rest == []
  {
    var s := Encode(y) + rest;
    assert s[..4] == HeaderBytes(y.channel, y.command, |y.data|);
    assert DeclaredLength(s) == |y.data|;
  }

  /** Two encoded frames that start the same bytes are the same frame, followed by the same
      bytes. */
  lemma HeadsAgree(x: Frame, y: Frame, restx: seq<byte>, resty: seq<byte>)
    requires Encodable(x) && Encodable(y)
    requires Encode(x) + restx == Encode(y) + resty
    ensures x == y && restx == resty
  {
    var s := Encode(x) + restx;
    assert s[..4] == HeaderBytes(x.channel, x.command, |x.data|);
    assert s[..4] == HeaderBytes(y.channel, y.command, |y.data|);
    var n := 4 + |x.data|;
    assert s[4..n] == x.data;
    assert s[4..n] == y.data;
    assert s[n..] == restx;
    assert s[n..] == resty;
  }
}
