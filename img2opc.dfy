// The Processing library Img2Opc (Processing/libraries/img2opc/src/Img2Opc.java): it
// keeps one OPC message for a display of zig-zag strips, `w` columns of `h` pixels,
// the first column top to bottom, the next bottom to top and so on, and rewrites the
// message's pixel bytes from each image it is given. Java bytes are kept as their
// unsigned bit patterns.
module Img2Opc {
  import opened Bytes
  import opened Wire

  const JAVA_INT_MAX := 0x7FFF_FFFF

  /** `c >> 16 & 0xFF`, `c >> 8 & 0xFF` and `c & 0xFF` of a 32-bit colour: its red, green
      and blue bytes (Java's `>>` rounds toward minus infinity, as Dafny's `/` does here). */
  function Red(c: int): byte { (c / 0x1_0000) % 0x100 }
  function Green(c: int): byte { (c / 0x100) % 0x100 }
  function Blue(c: int): byte { c % 0x100 }

  /** The strip slot of display position (x, y): columns one after another, even columns
      top to bottom and odd ones bottom to top. */
  function Strip(h: int, x: int, y: int): int
  {
    x * h + if x % 2 == 0 then y else h - 1 - y
  }

  /** `pixelPos`: the offset of the RGB triple for display position (x, y). */
  function PixelPos(h: int, x: int, y: int): int
  {
    4 + 3 * Strip(h, x, y)
  }

  /** Column x holds the slots `x * h` up to `x * h + h`, in the column's own order. */
  lemma StripColumn(h: int, x: int, y: int)
    requires 0 <= x && 0 <= y < h
    ensures x * h <= Strip(h, x, y) < x * h + h
  {
  }

  lemma ColumnsOrdered(h: nat, a: nat, b: nat)
    ensures a <= b ==> a * h <= b * h
    ensures a < b ==> a * h + h <= b * h
  {
    if a <= b {
      MulLe(h, a, b);
      assert h * a == a * h && h * b == b * h;
    }
    if a < b {
      Step(h, a);
      MulLe(h, a + 1, b);
      assert h * (a + 1) == (a + 1) * h && h * a == a * h && h * b == b * h;
    }
  }

  /** Every display position has a triple after the header and inside the message, and
      different positions have different slots. */
  lemma StripInRange(w: int, h: int, x: int, y: int)
    requires 0 <= x < w && 0 <= y < h
    ensures 0 <= Strip(h, x, y) < w * h
    ensures 4 <= PixelPos(h, x, y) && PixelPos(h, x, y) + 3 <= 4 + 3 * (w * h)
  {
    StripColumn(h, x, y);
    ColumnsOrdered(h, 0, x);
    ColumnsOrdered(h, x, w);
  }

  lemma StripInjective(h: int, x1: int, y1: int, x2: int, y2: int)
    requires 0 <= x1 && 0 <= y1 < h && 0 <= x2 && 0 <= y2 < h
    ensures Strip(h, x1, y1) == Strip(h, x2, y2) ==> x1 == x2 && y1 == y2
  {
    StripColumn(h, x1, y1);
    StripColumn(h, x2, y2);
    ColumnsOrdered(h, x1, x2);
    ColumnsOrdered(h, x2, x1);
  }

  /** Every slot of the strips belongs to one display position, so the pixel loop writes
      every byte after the header. */
  lemma StripOnto(w: int, h: int, s: int)
    requires 0 < h && 0 <= w && 0 <= s < w * h
    ensures 0 <= s / h < w && 0 <= s % h < h
    ensures Strip(h, s / h, if (s / h) % 2 == 0 then s % h else h - 1 - s % h) == s
  {
    var x := s / h;
    assert s == x * h + s % h;
    ColumnsOrdered(h, w, x);
  }

  /** The message header: channel 0, command 0, then `numBytes >> 8 & 0xFF` and
      `numBytes & 0xFF`, so the length field holds `numBytes` modulo 2^16. */
  function Header(numBytes: nat): (hd: seq<byte>)
    ensures |hd| == 4 && hd[0] == 0 && hd[1] == 0
    ensures DeclaredLength(hd) == numBytes % 0x1_0000
  {
    [0, 0, (numBytes / 0x100) % 0x100, numBytes % 0x100]
  }

  /** The header announces exactly the data that follows when the display has at most
      21845 pixels; a receiver then reads the whole message as one SET_PIXELS frame for
      channel 0. */
  lemma HeaderReadsBack(numBytes: nat, data: seq<byte>)
    requires |data| == numBytes
    ensures DeclaredLength(Header(numBytes)) == numBytes <==> numBytes < 0x1_0000
    ensures numBytes < 0x1_0000 ==>
      DecodeOne(Header(numBytes) + data) == Some((Frame(0, 0, data), 4 + numBytes))
  {
    if numBytes < 0x1_0000 {
      assert Header(numBytes) == HeaderBytes(0, 0, numBytes);
      DecodeOneEncode(Frame(0, 0, data), []);
      assert Encode(Frame(0, 0, data)) + [] == Header(numBytes) + data;
    }
  }

  /** `setSourceSize(w, h)`'s rectangle (x, y, width, height): an h by h square, starting
      `(w - h) / 2` (Java division) from the left edge. */
  function SourceRect(w: int, h: int): (r: (int, int, int, int))
    ensures r.1 == 0 && r.2 == h && r.3 == h
    ensures w >= h ==> 0 <= r.0 && r.0 + h <= w && 0 <= (w - (r.0 + h)) - r.0 <= 1
    ensures w < h ==> r.0 <= 0 && r.0 + h >= w
  {
    (TruncDiv(w - h, 2), 0, h, h)
  }

  /** The all-black first image the constructor sends. */
  function Blank(n: nat): (f: seq<int>)
    ensures |f| == n && forall i :: 0 <= i < n ==> f[i] == 0
  {
    seq(n, _ => 0)
  }

  /** In message `data` for a `w` by `h` display, the triple of position (x, y) holds the
      gamma-mapped red, green and blue of pixel `x + y * w` of `frame`. */
  predicate Shows(data: seq<byte>, gamma: seq<byte>, frame: seq<int>, w: int, h: int, x: int, y: int)
  {
    if !(0 <= x < w && 0 <= y < h && |gamma| == 256 && |frame| == w * h && |data| == 4 + 3 * (w * h))
    then false
    else
    FrameIndex(w, h, x, y);
    StripInRange(w, h, x, y);
    var c := frame[x + y * w];
    var p := PixelPos(h, x, y);
    data[p] == gamma[Red(c)] && data[p + 1] == gamma[Green(c)] && data[p + 2] == gamma[Blue(c)]
  }

  /** `data` with the triple of (x, y) set to that position's gamma-mapped pixel. */
  function Stored(data: seq<byte>, gamma: seq<byte>, frame: seq<int>, w: int, h: int, x: int, y: int): (d: seq<byte>)
    requires 0 <= x < w && 0 <= y < h && |gamma| == 256 && |frame| == w * h && |data| == 4 + 3 * (w * h)
    ensures |d| == |data|
  {
    FrameIndex(w, h, x, y);
    StripInRange(w, h, x, y);
    var c := frame[x + y * w];
    var p := PixelPos(h, x, y);
    data[p := gamma[Red(c)]][p + 1 := gamma[Green(c)]][p + 2 := gamma[Blue(c)]]
  }

  /** Storing the triple of (x, y) makes it show its pixel, keeps the header, and keeps
      what every other position shows. */
  lemma WriteTriple(data: seq<byte>, gamma: seq<byte>, frame: seq<int>, w: int, h: int, x: int, y: int)
    requires 0 <= x < w && 0 <= y < h && |gamma| == 256 && |frame| == w * h && |data| == 4 + 3 * (w * h)
    ensures Stored(data, gamma, frame, w, h, x, y)[..4] == data[..4]
    ensures Shows(Stored(data, gamma, frame, w, h, x, y), gamma, frame, w, h, x, y)
    ensures forall x', y' :: (x', y') != (x, y) && Shows(data, gamma, frame, w, h, x', y') ==>
      Shows(Stored(data, gamma, frame, w, h, x, y), gamma, frame, w, h, x', y')
  {
    StripInRange(w, h, x, y);
    var data' := Stored(data, gamma, frame, w, h, x, y);
    forall x', y' | (x', y') != (x, y) && Shows(data, gamma, frame, w, h, x', y')
      ensures Shows(data', gamma, frame, w, h, x', y')
    {
      StripInRange(w, h, x', y');
      StripInjective(h, x', y', x, y);
    }
  }

  /** Pixel `x + y * w` of a `w` by `h` image is one of its `w * h` pixels. */
  lemma FrameIndex(w: int, h: int, x: int, y: int)
    requires 0 <= x < w && 0 <= y < h
    ensures 0 <= x + y * w < w * h
  {
    ColumnsOrdered(w, 0, y);
    ColumnsOrdered(w, y, h);
    assert h * w == w * h;
  }

  /** The Img2Opc object; `hasClient` and `hasOutput` say whether `client` and
      `client.output` are non-null, and `sent` lists the messages written to the output. */
  class Img2Opc {
    const dispWidth: int
    const dispHeight: int
    var srcx: int
    var srcy: int
    var srcw: int
    var srch: int
    const opcData: array<byte>
    const gamma: seq<byte>
    var hasClient: bool
    var hasOutput: bool
    var sent: seq<seq<byte>>

    predicate Valid()
      reads this, opcData
    {
      0 <= dispWidth && 0 <= dispHeight && |gamma| == 256 &&
      opcData.Length == 4 + 3 * (dispWidth * dispHeight) &&
      opcData[..4] == Header(3 * (dispWidth * dispHeight))
    }

    /** Every display position shows its pixel of `frame`. */
    predicate ShowsFrame(frame: seq<int>)
      reads this, opcData
    {
      forall x, y :: 0 <= x < dispWidth && 0 <= y < dispHeight ==>
        Shows(opcData[..], gamma, frame, dispWidth, dispHeight, x, y)
    }

    /** `Img2Opc(parent, host, port, w, h)`, with the gamma table's values given and whether
        the connection gave the client an output stream. */
    constructor (w: int, h: int, gamma: seq<byte>, connected: bool)
      requires 0 <= w && 0 <= h && 3 * (w * h) <= JAVA_INT_MAX - 4 && |gamma| == 256
      ensures Valid() && dispWidth == w && dispHeight == h && this.gamma == gamma
      ensures (srcx, srcy, srcw, srch) == SourceRect(w, h)
      ensures ShowsFrame(Blank(w * h))
      ensures sent == if connected then [opcData[..]] else []
    {
      dispWidth := w;
      dispHeight := h;
      this.gamma := gamma;
      var numBytes := w * h * 3;
      opcData := new byte[4 + numBytes];
      hasClient := true;
      hasOutput := connected;
      sent := [];
      new;
      opcData[0] := 0;
      opcData[1] := 0;
      opcData[2] := (numBytes / 0x100) % 0x100;
      opcData[3] := numBytes % 0x100;
      assert opcData[..4] == Header(numBytes);
      SetSourceSize(w, h);
      SendImg(Blank(w * h));
    }

    /** `setSourceSize(w, h)`. */
    method SetSourceSize(w: int, h: int)
      modifies this
      ensures (srcx, srcy, srcw, srch) == SourceRect(w, h)
      ensures hasClient == old(hasClient) && hasOutput == old(hasOutput) && sent == old(sent)
    {
      srch := h;
      srcw := h;
      srcx := TruncDiv(w - srcw, 2);
      srcy := 0;
    }

    /** One iteration of sendImg's inner loop: the gamma-mapped triple of display position
        (x, y) is stored at its place on the zigzag strip. */
    method StorePixel(frame: seq<int>, x: int, y: int)
      requires Valid() && |frame| == dispWidth * dispHeight && 0 <= x < dispWidth && 0 <= y < dispHeight
      modifies opcData
      ensures opcData[..] == Stored(old(opcData[..]), gamma, frame, dispWidth, dispHeight, x, y)
    {
      var w, h := dispWidth, dispHeight;
      FrameIndex(w, h, x, y);
      StripInRange(w, h, x, y);
      var c := frame[x + y * w];
      var pixelPos := 4 + 3 * (x * h + (if x % 2 == 0 then y else h - 1 - y));
      opcData[pixelPos] := gamma[Red(c)];
      opcData[pixelPos + 1] := gamma[Green(c)];
      opcData[pixelPos + 2] := gamma[Blue(c)];
    }

    /** `sendImg(m)`, given `frame`, the pixels of the resized image: every display
        position's triple is rewritten, the header is kept, and the message is written
        when both the client and its output stream exist. */
    method SendImg(frame: seq<int>)
      requires Valid() && |frame| == dispWidth * dispHeight
      modifies this, opcData
      ensures Valid() && ShowsFrame(frame)
      ensures sent == old(sent) + if hasClient && hasOutput then [opcData[..]] else []
      ensures (srcx, srcy, srcw, srch) == old((srcx, srcy, srcw, srch))
      ensures hasClient == old(hasClient) && hasOutput == old(hasOutput)
    {
      var w, h := dispWidth, dispHeight;
      var x := 0;
      while x < w
        invariant 0 <= x <= w && Valid()
        invariant forall x', y' :: 0 <= x' < x && 0 <= y' < h ==> Shows(opcData[..], gamma, frame, w, h, x', y')
        invariant sent == old(sent) && (srcx, srcy, srcw, srch) == old((srcx, srcy, srcw, srch))
        invariant hasClient == old(hasClient) && hasOutput == old(hasOutput)
      {
        var y := 0;
        while y < h
          invariant 0 <= y <= h && Valid()
          invariant forall x', y' :: 0 <= x' < x && 0 <= y' < h ==> Shows(opcData[..], gamma, frame, w, h, x', y')
          invariant forall y' :: 0 <= y' < y ==> Shows(opcData[..], gamma, frame, w, h, x, y')
          invariant sent == old(sent) && (srcx, srcy, srcw, srch) == old((srcx, srcy, srcw, srch))
          invariant hasClient == old(hasClient) && hasOutput == old(hasOutput)
        {
          ghost var before := opcData[..];
          WriteTriple(before, gamma, frame, w, h, x, y);
          StorePixel(frame, x, y);
          y := y + 1;
        }
        x := x + 1;
      }
      if hasClient {
        if hasOutput {
          sent := sent + [opcData[..]];
        }
      }
    }
  }
}
