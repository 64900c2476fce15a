// The TCL server (src/tcl_server.c): up to ten SPI devices, each showing a range of the
// received pixels. Every device frame is four zero bytes followed by, per pixel, a flag
// byte and the blue, green and red bytes.
module TclServer {
  import opened Bytes
  import Spi

  const MAX_DEVICES := 10
  /** `4 + OPC_MAX_PIXELS_PER_MESSAGE * 4`, the size of each static device buffer. */
  const BUFFER_SIZE := 4 + OPC_MAX_PIXELS_PER_MESSAGE * 4

  /** `(r & 0xc0) >> 6 | (g & 0xc0) >> 4 | (b & 0xc0) >> 2`: the top two bits of each
      colour, red lowest. The three fields do not overlap, so the `|` is a sum. */
  function Flag(p: Pixel): byte
  {
    p.r / 64 + (p.g / 64) * 4 + (p.b / 64) * 16
  }

  /** The four bytes of one pixel: `~flag` (as an 8-bit value), blue, green, red. */
  function Led(p: Pixel): seq<byte>
  {
    [255 - Flag(p), p.b, p.g, p.r]
  }

  /** The flag byte always has its top two bits set, and its other bits are the
      complemented top bits of red, green and blue. */
  lemma FlagByte(p: Pixel)
    ensures Led(p)[0] >= 0xc0
    ensures Led(p)[0] == 0xc0 + (3 - p.b / 64) * 16 + (3 - p.g / 64) * 4 + (3 - p.r / 64)
  {
  }

  /** Reads four pixel bytes back, checking the flag byte against the colours. */
  function LedPixel(bs: seq<byte>): Option<Pixel>
  {
    if |bs| == 4 && bs[0] == 255 - Flag(Pixel(bs[3], bs[2], bs[1])) then Some(Pixel(bs[3], bs[2], bs[1]))
    else None
  }

  /** The pixel indices device (first, last) shows out of `count`: from `first` while below
      `count` and, unless `last < 0`, up to `last` inclusive. */
  function RangeEnd(count: nat, last: int): (e: nat)
    ensures e <= count
    ensures last >= 0 && last < count ==> e == last + 1
  {
    if last < 0 || count <= last then count else last + 1
  }

  function Covered(pixels: seq<Pixel>, first: nat, last: int): (ps: seq<Pixel>)
    ensures |ps| == Max(0, RangeEnd(|pixels|, last) - first)
    ensures forall k :: 0 <= k < |ps| ==> ps[k] == pixels[first + k]
  {
    var e := RangeEnd(|pixels|, last);
    if first < e then pixels[first..e] else []
  }

  /** The frame device (first, last) receives. */
  function DeviceFrame(pixels: seq<Pixel>, first: nat, last: int): (f: seq<byte>)
    ensures |f| == 4 + 4 * |Covered(pixels, first, last)| <= 4 + 4 * |pixels|
  {
    ConcatMapLength(Led, 4, Covered(pixels, first, last));
    Zeros(4) + ConcatMap(Led, Covered(pixels, first, last))
  }

  /** A device frame is `4 + 4 * n` bytes for the n pixels the device covers, and reads
      back as exactly those pixels. */
  lemma DeviceFrameLayout(pixels: seq<Pixel>, first: nat, last: int)
    ensures |DeviceFrame(pixels, first, last)| == 4 + 4 * |Covered(pixels, first, last)|
    ensures Decode(DeviceFrame(pixels, first, last)) == Some(Covered(pixels, first, last))
  {
    var ps := Covered(pixels, first, last);
    ConcatMapAt(Led, 4, ps);
    var f := DeviceFrame(pixels, first, last);
    assert f[..4] == [0, 0, 0, 0];
    assert f[4..] == ConcatMap(Led, ps);
    UngroupConcatMap(Led, LedPixel, Same, 4, ps);
    MapSame(ps);
  }

  function Decode(f: seq<byte>): Option<seq<Pixel>>
  {
    if |f| >= 4 && f[..4] == [0, 0, 0, 0] then Ungroup(LedPixel, 4, f[4..]) else None
  }

  /** The inner loop of `tcl_put_pixels` for one device: fills `buf` and returns
      `d - buffers[c]`. */
  method FillDevice(buf: array<byte>, pixels: seq<Pixel>, first: nat, last: int) returns (len: nat)
    requires buf.Length == BUFFER_SIZE && |pixels| <= OPC_MAX_PIXELS_PER_MESSAGE
    modifies buf
    ensures len == |DeviceFrame(pixels, first, last)|
    ensures buf[..len] == DeviceFrame(pixels, first, last)
    ensures buf[len..] == old(buf[len..])
  {
    var d := EmitAll(buf, 0, Zeros(4));
    ghost var ps := Covered(pixels, first, last);
    var i := first;
    while i < |pixels| && (last < 0 || i <= last)
      invariant first <= i && i - first <= |ps| && d == 4 + 4 * (i - first)
      invariant buf[..d] == Zeros(4) + ConcatMap(Led, ps[..i - first])
      invariant forall k :: d <= k < buf.Length ==> buf[k] == old(buf[k])
      decreases |pixels| - i
    {
      var p := pixels[i];
      CoveredAt(pixels, first, last, i);
      d := EmitLed(buf, d, ps, i - first, p);
      i := i + 1;
    }
    CoveredEnd(pixels, first, last, i);
    assert ps[..i - first] == ps;
    len := d;
  }

  /** A pixel the loop reaches is one the device covers. */
  lemma CoveredAt(pixels: seq<Pixel>, first: nat, last: int, i: nat)
    requires first <= i < |pixels| && (last < 0 || i <= last)
    ensures i - first < |Covered(pixels, first, last)| && Covered(pixels, first, last)[i - first] == pixels[i]
  {
  }

  /** Where the loop stops, every covered pixel has been reached. */
  lemma CoveredEnd(pixels: seq<Pixel>, first: nat, last: int, i: nat)
    requires first <= i && i - first <= |Covered(pixels, first, last)|
    requires !(i < |pixels| && (last < 0 || i <= last))
    ensures i - first == |Covered(pixels, first, last)|
  {
  }

  /** One round of that loop: the four bytes of pixel k of the device. */
  method EmitLed(buf: array<byte>, d: nat, ghost ps: seq<Pixel>, k: nat, p: Pixel) returns (next: nat)
    requires buf.Length == BUFFER_SIZE && k < |ps| <= OPC_MAX_PIXELS_PER_MESSAGE && p == ps[k]
    requires d == 4 + 4 * k && buf[..d] == Zeros(4) + ConcatMap(Led, ps[..k])
    modifies buf
    ensures next == d + 4 && buf[..next] == Zeros(4) + ConcatMap(Led, ps[..k + 1])
    ensures forall j :: next <= j < buf.Length ==> buf[j] == old(buf[j])
  {
    MulLe(4, k + 1, |ps|);
    ghost var before := buf[..d];
    next := EmitAll(buf, d, [255 - Flag(p), p.b, p.g, p.r]);
    ConcatMapStep(Led, Zeros(4), ps, k, before, buf[..next]);
  }

  /** The static device tables of src/tcl_server.c. */
  class Devices {
    const buffers: seq<array<byte>>
    const bufferLens: array<int>
    var numSpiFds: nat
    var firsts: seq<int>
    var lasts: seq<int>

    ghost predicate Valid()
      reads this, bufferLens
    {
      |buffers| == MAX_DEVICES && bufferLens.Length == MAX_DEVICES
      && (forall c :: 0 <= c < MAX_DEVICES ==> buffers[c].Length == BUFFER_SIZE)
      && (forall c, c' :: 0 <= c < c' < MAX_DEVICES ==> buffers[c] != buffers[c'])
      && |firsts| == MAX_DEVICES && |lasts| == MAX_DEVICES && numSpiFds <= MAX_DEVICES
    }

    ghost function Buffers(): set<object>
      reads this
    {
      set c | 0 <= c < |buffers| :: buffers[c]
    }

    /** The zero-filled tables. */
    constructor ()
      ensures Valid() && numSpiFds == 0
      ensures fresh(bufferLens) && forall c :: 0 <= c < MAX_DEVICES ==> fresh(buffers[c])
    {
      var bs: seq<array<byte>> := [];
      while |bs| < MAX_DEVICES
        invariant |bs| <= MAX_DEVICES
        invariant forall c :: 0 <= c < |bs| ==> bs[c].Length == BUFFER_SIZE && fresh(bs[c])
        invariant forall c, c' :: 0 <= c < c' < |bs| ==> bs[c] != bs[c']
      {
        var b := new byte[BUFFER_SIZE](_ => 0);
        bs := bs + [b];
      }
      buffers := bs;
      bufferLens := new int[MAX_DEVICES](_ => 0);
      numSpiFds := 0;
      firsts := seq(MAX_DEVICES, _ => 0);
      lasts := seq(MAX_DEVICES, _ => 0);
    }

    /** The table-filling loop of `main`, on the corrected set-up: `ok` is false (exit)
        when SetupDevices refuses the arguments, and then nothing is stored; otherwise
        device c gets the first and last pixel of the c-th spec. */
    method Setup(argv: seq<string>) returns (ok: bool)
      requires Valid()
      modifies this
      ensures Valid()
      ensures ok <==> SetupDevices(argv).Some?
      ensures !ok ==> numSpiFds == old(numSpiFds) && firsts == old(firsts) && lasts == old(lasts)
      ensures ok ==> numSpiFds == |SetupDevices(argv).value|
      ensures ok ==> forall c :: 0 <= c < numSpiFds ==>
        firsts[c] == SetupDevices(argv).value[c].first && lasts[c] == SetupDevices(argv).value[c].last
      ensures ok ==> forall c :: 0 <= c < numSpiFds ==> firsts[c] >= 0
    {
      var ds := SetupDevices(argv);
      if ds.None? {
        return false;
      }
      var devices := ds.value;
      var fs, ls := firsts, lasts;
      var c := 0;
      while c < |devices|
        invariant 0 <= c <= |devices| && |fs| == MAX_DEVICES && |ls| == MAX_DEVICES
        invariant forall k :: 0 <= k < c ==> fs[k] == devices[k].first && ls[k] == devices[k].last
      {
        fs := fs[c := devices[c].first];
        ls := ls[c := devices[c].last];
        c := c + 1;
      }
      firsts, lasts, numSpiFds := fs, ls, |devices|;
      ok := true;
    }

    /** Devices 0 to n - 1 hold their frames for `pixels`. */
    ghost predicate Built(pixels: seq<Pixel>, n: nat)
      requires Valid() && n <= MAX_DEVICES && |pixels| <= OPC_MAX_PIXELS_PER_MESSAGE
      requires forall c :: 0 <= c < n ==> firsts[c] >= 0
      reads this, bufferLens, Buffers()
    {
      forall c :: 0 <= c < n ==>
        bufferLens[c] == |DeviceFrame(pixels, firsts[c], lasts[c])|
        && buffers[c][..bufferLens[c]] == DeviceFrame(pixels, firsts[c], lasts[c])
    }

    /** `tcl_put_pixels(dummy, count, pixels)`: builds every device's frame first, then hands
        them to `spi_write` in device order; `written[c]` holds the blocks written to
        device c. */
    method PutPixels(pixels: seq<Pixel>, writes: nat -> int) returns (written: seq<seq<seq<byte>>>)
      requires Valid() && |pixels| <= OPC_MAX_PIXELS_PER_MESSAGE
      requires forall c :: 0 <= c < numSpiFds ==> firsts[c] >= 0
      modifies Buffers(), bufferLens
      ensures Valid() && Built(pixels, numSpiFds)
      ensures forall c :: numSpiFds <= c < MAX_DEVICES ==>
        bufferLens[c] == old(bufferLens[c]) && buffers[c][..] == old(buffers[c][..])
      ensures |written| == numSpiFds
      ensures forall c :: 0 <= c < numSpiFds ==> written[c] == Spi.Blocks(DeviceFrame(pixels, firsts[c], lasts[c]))
    {
      BuildAll(pixels);
      written := WriteAll(pixels, writes);
    }

    /** The first loop of `tcl_put_pixels`. */
    method BuildAll(pixels: seq<Pixel>)
      requires Valid() && |pixels| <= OPC_MAX_PIXELS_PER_MESSAGE
      requires forall c :: 0 <= c < numSpiFds ==> firsts[c] >= 0
      modifies Buffers(), bufferLens
      ensures Valid() && Built(pixels, numSpiFds)
      ensures forall c :: numSpiFds <= c < MAX_DEVICES ==>
        bufferLens[c] == old(bufferLens[c]) && buffers[c][..] == old(buffers[c][..])
    {
      var c := 0;
      while c < numSpiFds
        invariant 0 <= c <= numSpiFds && Valid() && Built(pixels, c)
        invariant forall c' :: c <= c' < MAX_DEVICES ==>
          bufferLens[c'] == old(bufferLens[c']) && buffers[c'][..] == old(buffers[c'][..])
      {
        BuildOne(pixels, c);
        c := c + 1;
      }
    }

    /** One round of the first loop: device c's frame. */
    method BuildOne(pixels: seq<Pixel>, c: nat)
      requires Valid() && |pixels| <= OPC_MAX_PIXELS_PER_MESSAGE && c < numSpiFds
      requires forall c' :: 0 <= c' < numSpiFds ==> firsts[c'] >= 0
      requires Built(pixels, c)
      modifies buffers[c], bufferLens
      ensures Valid() && Built(pixels, c + 1)
      ensures forall c' :: 0 <= c' < MAX_DEVICES && c' != c ==>
        bufferLens[c'] == old(bufferLens[c']) && buffers[c'][..] == old(buffers[c'][..])
    {
      var buf := buffers[c];
      var len := FillDevice(buf, pixels, firsts[c], lasts[c]);
      bufferLens[c] := len;
      assert buffers[c][..bufferLens[c]] == DeviceFrame(pixels, firsts[c], lasts[c]);
      forall c' | 0 <= c' < c
        ensures bufferLens[c'] == |DeviceFrame(pixels, firsts[c'], lasts[c'])|
        ensures buffers[c'][..bufferLens[c']] == DeviceFrame(pixels, firsts[c'], lasts[c'])
      {
        assert buffers[c'] != buf;
        assert buffers[c'][..] == old(buffers[c'][..]);
      }
    }

    /** The second loop of `tcl_put_pixels`. */
    method WriteAll(pixels: seq<Pixel>, writes: nat -> int) returns (written: seq<seq<seq<byte>>>)
      requires Valid() && |pixels| <= OPC_MAX_PIXELS_PER_MESSAGE
      requires forall c :: 0 <= c < numSpiFds ==> firsts[c] >= 0
      requires Built(pixels, numSpiFds)
      ensures |written| == numSpiFds
      ensures forall c :: 0 <= c < numSpiFds ==> written[c] == Spi.Blocks(DeviceFrame(pixels, firsts[c], lasts[c]))
    {
      written := [];
      var c := 0;
      while c < numSpiFds
        invariant 0 <= c <= numSpiFds && |written| == c
        invariant forall c' :: 0 <= c' < c ==> written[c'] == Spi.Blocks(DeviceFrame(pixels, firsts[c'], lasts[c']))
      {
        ghost var frame := DeviceFrame(pixels, firsts[c], lasts[c]);
        assert bufferLens[c] == |frame| && buffers[c][..bufferLens[c]] == frame;
        var blocks, logged := Spi.SpiWrite(buffers[c][..bufferLens[c]], writes);
        assert blocks == Spi.Blocks(frame);
        written := written + [blocks];
        c := c + 1;
      }
    }
  }

  /** `parse_int(str, fallback)`: `atoi(str)` if `str` starts with a digit, else `fallback`. */
  function ParseInt(s: string, fallback: int): (v: int)
    ensures |s| > 0 && IsDigit(s[0]) ==> v == AtoI(s)
    ensures (|s| == 0 || !IsDigit(s[0])) ==> v == fallback
  {
    if |s| > 0 && IsDigit(s[0]) then AtoI(s) else fallback
  }

  /** `parse_channel_spec(spec, &path, &first, &last)`: the path is the text before the
      first `:`; `first` is read from what follows it (0 by default) and `last` from what
      follows the first `-` there (-1 by default). */
  function ParseChannelSpec(spec: string): (string, int, int)
  {
    var (path, f, l) := SpecFields(spec);
    (path, ParseInt(f, 0), ParseInt(l, -1))
  }

  /** The texts `parse_channel_spec` cuts `spec` into: the path before the first `:`, the
      text after it, and the text after the first `-` in that. */
  function SpecFields(spec: string): (string, string, string)
  {
    var (path, f) := match SplitFirst(spec, ':')
      case None => (spec, "")
      case Some(parts) => parts;
    var l := match SplitFirst(f, '-')
      case None => ""
      case Some(parts) => parts.1;
    (path, f, l)
  }

  /** A number text `parse_int` reads without leaving the `int` range: it does not start
      with a digit (the fallback is used), or strtol's value is at most INT_MAX. */
  predicate FitsInt(s: string)
  {
    !(|s| > 0 && IsDigit(s[0])) || StrToL(s, 10) <= 0x7FFF_FFFF
  }

  /** Text that starts with a digit has no sign, so strtol reads a non-negative number. */
  lemma DigitLedNonNegative(s: string)
    requires |s| > 0 && IsDigit(s[0])
    ensures StrToL(s, 10) >= 0
  {
    assert SpaceRun(s) == 0;
  }

  /** Where the number fits, `parse_int` gives the fallback or strtol's value, which is
      then in `[0, INT_MAX]`. */
  lemma ParseIntFits(s: string, fallback: int)
    requires FitsInt(s)
    ensures |s| > 0 && IsDigit(s[0]) ==> 0 <= ParseInt(s, fallback) == StrToL(s, 10) <= 0x7FFF_FFFF
  {
    if |s| > 0 && IsDigit(s[0]) {
      DigitLedNonNegative(s);
    }
  }

  /** The corrected `parse_channel_spec`: None when first or last does not fit an `int`;
      otherwise the spec as written, with first at least 0 and last at least -1. */
  function ParseChannelSpecChecked(spec: string): (r: Option<(string, int, int)>)
    ensures r.None? <==> !FitsInt(SpecFields(spec).1) || !FitsInt(SpecFields(spec).2)
    ensures r.Some? ==> r.value == ParseChannelSpec(spec) && r.value.1 >= 0 && r.value.2 >= -1
  {
    var (path, f, l) := SpecFields(spec);
    if FitsInt(f) && FitsInt(l) then
      ParseIntFits(f, 0);
      ParseIntFits(l, -1);
      Some(ParseChannelSpec(spec))
    else None
  }

  /** Specs written as `path`, `path:first` and `path:first-last` read back as written. */
  lemma ChannelSpecPath(path: string)
    requires ':' !in path
    ensures ParseChannelSpec(path) == (path, 0, -1)
  {
  }

  lemma ChannelSpecFirst(path: string, first: nat)
    requires ':' !in path && first < 0x8000_0000
    ensures ParseChannelSpec(path + ":" + Decimal(first)) == (path, first, -1)
  {
    SplitFirstAt(path, ':', Decimal(first));
    NoDigitSign(Decimal(first));
    StrToLDecimal(first);
  }

  lemma ChannelSpecRange(path: string, first: nat, last: nat)
    requires ':' !in path && first < 0x8000_0000 && last < 0x8000_0000
    ensures ParseChannelSpec(path + ":" + Decimal(first) + "-" + Decimal(last)) == (path, first, last)
  {
    var tail := "-" + Decimal(last);
    var f := Decimal(first) + tail;
    var spec := path + ":" + Decimal(first) + "-" + Decimal(last);
    assert spec == path + [':'] + f;
    SplitFirstAt(path, ':', f);
    NoDigitSign(Decimal(first));
    assert f == Decimal(first) + ['-'] + Decimal(last);
    SplitFirstAt(Decimal(first), '-', Decimal(last));
    ChannelSpecParts(spec, path, f, Decimal(first), Decimal(last));
    StrToLDecimalThen(first, tail);
    assert ParseInt(f, 0) == first by {
      assert f[0] == Decimal(first)[0];
    }
    StrToLDecimal(last);
  }

  lemma ChannelSpecParts(spec: string, path: string, f: string, x: string, l: string)
    requires SplitFirst(spec, ':') == Some((path, f)) && SplitFirst(f, '-') == Some((x, l))
    ensures ParseChannelSpec(spec) == (path, ParseInt(f, 0), ParseInt(l, -1))
  {
  }

  lemma NoDigitSign(s: string)
    requires forall k :: 0 <= k < |s| ==> IsDigit(s[k])
    ensures '-' !in s
  {
  }

  lemma {:induction false} SplitFirstAt(a: string, sep: char, b: string)
    requires sep !in a
    ensures SplitFirst(a + [sep] + b, sep) == Some((a, b))
  {
    if a != [] {
      assert (a + [sep] + b)[1..] == a[1..] + [sep] + b;
      SplitFirstAt(a[1..], sep, b);
      assert a == [a[0]] + a[1..];
    }
  }

  const DEFAULT_DEVICE := "/dev/spidev1.0"

  /** One device to open: its path and pixel range. */
  datatype Device = Device(path: string, first: int, last: int)

  /** The devices `main` sets up, as written: one per argument after the speed and port,
      with no check against the ten table slots. */
  function DevicesAsWritten(argv: seq<string>): (ds: seq<Device>)
    ensures |argv| > 3 ==> |ds| == |argv| - 3
    ensures |argv| <= 3 ==> ds == [Device(DEFAULT_DEVICE, 0, -1)]
  {
    if |argv| > 3 then
      seq(|argv| - 3, c requires 0 <= c < |argv| - 3 =>
        var spec := ParseChannelSpec(argv[c + 3]);
        Device(spec.0, spec.1, spec.2))
    else [Device(DEFAULT_DEVICE, 0, -1)]
  }

  /** Fourteen arguments give eleven devices, one more than the tables hold. */
  lemma TooManyDevices(argv: seq<string>)
    requires |argv| == 14
    ensures |DevicesAsWritten(argv)| == MAX_DEVICES + 1
  {
  }

  /** As written, a first pixel from 2^31 to 2^32 - 1 wraps in `atoi` to a negative
      `int`, and `main` hands the device on: `tcl_put_pixels` then starts reading at
      `pixels + firsts[c]`, before the array. The corrected set-up refuses it. */
  lemma WrappedFirst(argv: seq<string>, path: string, n: nat)
    requires |argv| == 4 && ':' !in path && 0x8000_0000 <= n < 0x1_0000_0000
    requires argv[3] == path + ":" + Decimal(n)
    ensures n - 0x1_0000_0000 < 0
    ensures ParseChannelSpec(argv[3]) == (path, n - 0x1_0000_0000, -1)
    ensures DevicesAsWritten(argv) == [Device(path, n - 0x1_0000_0000, -1)]
    ensures ParseChannelSpecChecked(argv[3]).None? && SetupDevices(argv).None?
  {
    SplitFirstAt(path, ':', Decimal(n));
    NoDigitSign(Decimal(n));
    StrToLDecimal(n);
    assert I32(n) == n - 0x1_0000_0000;
  }

  /** The device set-up with the table bound and the `int` range respected: None (exit)
      when more than ten devices are named or a spec's number does not fit an `int`;
      otherwise the same devices as written, every one starting at a pixel index of at
      least 0. */
  function SetupDevices(argv: seq<string>): (r: Option<seq<Device>>)
    ensures r.None? <==>
      (|argv| - 3 > MAX_DEVICES || exists c :: 3 <= c < |argv| && ParseChannelSpecChecked(argv[c]).None?)
    ensures r.Some? ==> 1 <= |r.value| <= MAX_DEVICES && r.value == DevicesAsWritten(argv)
    ensures r.Some? ==> forall k :: 0 <= k < |r.value| ==> r.value[k].first >= 0 && r.value[k].last >= -1
  {
    if |argv| - 3 > MAX_DEVICES || exists c :: 3 <= c < |argv| && ParseChannelSpecChecked(argv[c]).None? then None
    else
      SpecsInRange(argv);
      Some(DevicesAsWritten(argv))
  }

  lemma SpecsInRange(argv: seq<string>)
    requires forall c :: 3 <= c < |argv| ==> ParseChannelSpecChecked(argv[c]).Some?
    ensures forall k :: 0 <= k < |DevicesAsWritten(argv)| ==>
      DevicesAsWritten(argv)[k].first >= 0 && DevicesAsWritten(argv)[k].last >= -1
  {
    if |argv| > 3 {
      forall k | 0 <= k < |argv| - 3
        ensures DevicesAsWritten(argv)[k].first >= 0 && DevicesAsWritten(argv)[k].last >= -1
      {
        assert ParseChannelSpecChecked(argv[k + 3]).Some?;
      }
    }
  }
}
