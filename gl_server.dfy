// The pixel bookkeeping of the OpenGL simulator (src/gl_server.c): each `-l` layout
// file becomes one channel whose pixels follow those of the channels loaded before it
// in one shared pixel array; a SET_PIXELS frame for channel c (1-based) writes that
// channel's pixels and a frame for channel 0 writes every channel.
//
// The layout files are given already parsed, as the list of their items (the JSON
// library is not part of this model); drawing, the camera and the colour transfer
// table are left out.
module GlServer {
  import opened Bytes

  const MAX_CHANNELS := 10
  const MAX_PIXELS := 30000

  /** The brightness a freshly loaded layout's pixels are set to. */
  const Dim := Pixel(1, 1, 1)

  // ---------------------------------------------------------------------
  // handler

  /** One assignment `pixels[index] = colour`. */
  datatype Write = Write(index: nat, colour: Pixel)

  /** The offsets of the channels a frame for `channel` writes: every configured channel
      for the broadcast channel 0, else channel `channel - 1` alone. */
  function Targets(channel: nat, offs: seq<nat>): (os: seq<nat>)
    requires channel <= |offs|
  {
    if channel == 0 then offs else [offs[channel - 1]]
  }

  /** The assignments of iteration `i` of the handler's outer loop, in order. */
  function Row(os: seq<nat>, p: seq<Pixel>, i: nat): (r: seq<Write>)
    requires i < |p|
  {
    seq(|os|, j requires 0 <= j < |os| => Write(i + os[j], p[i]))
  }

  /** The assignments of the first `n` iterations. */
  function Writes(os: seq<nat>, p: seq<Pixel>, n: nat): seq<Write>
    requires n <= |p|
  {
    if n == 0 then [] else Writes(os, p, n - 1) + Row(os, p, n - 1)
  }

  /** All assignments the handler makes for a frame of `p` on `channel`, `offs` being the
      offsets of the configured channels: none when the channel is not configured. */
  function HandlerWrites(channel: byte, offs: seq<nat>, p: seq<Pixel>): seq<Write>
  {
    if channel > |offs| then [] else Writes(Targets(channel, offs), p, |p|)
  }

  /** The array `px` after the assignments `ws`, one after another. */
  function Apply(px: seq<Pixel>, ws: seq<Write>): (r: seq<Pixel>)
    ensures |r| == |px|
  {
    if ws == [] then px
    else
      var w := ws[|ws| - 1];
      var before := Apply(px, ws[..|ws| - 1]);
      if w.index < |px| then before[w.index := w.colour] else before
  }

  /** The pixel array has room for every pixel the frame writes. */
  predicate InBounds(channel: nat, offs: seq<nat>, count: nat, size: nat)
  {
    channel <= |offs| ==> forall j :: 0 <= j < |offs| && (channel == 0 || j == channel - 1) ==> offs[j] + count <= size
  }

  /** The last of the first `n` iterations that writes pixel `k`, the channels written
      starting at the offsets `os`. */
  function LastRow(os: seq<nat>, n: nat, k: nat): (r: Option<nat>)
    ensures r.Some? ==> r.value < n
  {
    if n == 0 then None
    else if n - 1 <= k && k - (n - 1) in os then Some(n - 1)
    else LastRow(os, n - 1, k)
  }

  /** Pixel `k` after a frame: unchanged when the channel is not configured or no written
      channel covers it, else the frame's pixel of the last iteration that wrote it. */
  lemma HandlerAt(px: seq<Pixel>, channel: byte, offs: seq<nat>, p: seq<Pixel>, k: nat)
    requires k < |px|
    ensures channel > |offs| ==> Apply(px, HandlerWrites(channel, offs, p))[k] == px[k]
    ensures channel <= |offs| ==> (Apply(px, HandlerWrites(channel, offs, p))[k] ==
      match LastRow(Targets(channel, offs), |p|, k) case Some(i) => p[i] case None => px[k])
  {
    if channel <= |offs| {
      WritesAt(px, Targets(channel, offs), p, |p|, k);
    }
  }

  lemma {:induction false} WritesAt(px: seq<Pixel>, os: seq<nat>, p: seq<Pixel>, n: nat, k: nat)
    requires n <= |p| && k < |px|
    ensures Apply(px, Writes(os, p, n))[k] == match LastRow(os, n, k) case Some(i) => p[i] case None => px[k]
  {
    if n > 0 {
      WritesAt(px, os, p, n - 1, k);
      ApplyConcat(px, Writes(os, p, n - 1), Row(os, p, n - 1));
      RowAt(Apply(px, Writes(os, p, n - 1)), os, p, n - 1, k);
    }
  }

  /** One iteration sets pixel `k` to `p[i]` exactly when a written channel starts at
      `k - i`. */
  lemma {:induction false} RowAt(q: seq<Pixel>, os: seq<nat>, p: seq<Pixel>, i: nat, k: nat)
    requires i < |p| && k < |q|
    ensures Apply(q, Row(os, p, i))[k] == if i <= k && k - i in os then p[i] else q[k]
    decreases |os|
  {
    if os != [] {
      var init := os[..|os| - 1];
      var row := Row(os, p, i);
      assert row[..|row| - 1] == Row(init, p, i);
      RowAt(q, init, p, i, k);
      assert os == init + [os[|os| - 1]];
    }
  }

  lemma {:induction false} ApplyConcat(px: seq<Pixel>, a: seq<Write>, b: seq<Write>)
    ensures Apply(px, a + b) == Apply(Apply(px, a), b)
    decreases |b|
  {
    if b == [] {
      assert a + b == a;
    } else {
      var init := b[..|b| - 1];
      assert (a + b)[..|a + b| - 1] == a + init;
      ApplyConcat(px, a, init);
    }
  }

  lemma ApplySnoc(px: seq<Pixel>, ws: seq<Write>, w: Write)
    requires w.index < |px|
    ensures Apply(px, ws + [w]) == Apply(px, ws)[w.index := w.colour]
  {
    assert (ws + [w])[..|ws|] == ws;
  }

  /** The last iteration writing pixel `k` is the one of the lowest-starting written
      channel that covers `k`, and there is none when no written channel covers it. */
  lemma {:induction false} LastRowMeaning(os: seq<nat>, n: nat, k: nat)
    ensures LastRow(os, n, k).None? <==> forall o :: o in os ==> !(o <= k < o + n)
    ensures LastRow(os, n, k).Some? ==> (LastRow(os, n, k).value <= k && k - LastRow(os, n, k).value in os
      && forall o :: o in os && o <= k < o + n ==> k - LastRow(os, n, k).value <= o)
  {
    if n > 0 {
      LastRowMeaning(os, n - 1, k);
    }
  }

  /** The channels the frame writes do not overlap. */
  predicate Disjoint(os: seq<nat>, count: nat)
  {
    forall j1, j2 :: 0 <= j1 < j2 < |os| ==> os[j1] + count <= os[j2] || os[j2] + count <= os[j1]
  }

  /** When the written channels do not overlap, pixel `k` of channel `j` gets the frame's
      pixel `k - offs[j]`: for any channel other than 0 this always holds. */
  lemma DisjointRow(os: seq<nat>, n: nat, k: nat, j: nat)
    requires Disjoint(os, n) && j < |os| && os[j] <= k < os[j] + n
    ensures LastRow(os, n, k) == Some(k - os[j])
  {
    LastRowMeaning(os, n, k);
    var i := LastRow(os, n, k).value;
    var j' :| 0 <= j' < |os| && os[j'] == k - i;
    assert os[j'] == os[j];
  }

  // ---------------------------------------------------------------------
  // load_layout

  /** One item of a layout file: its `index` member, if any, and whether it has a `point`
      with three coordinates and a `line` whose two ends have three coordinates each. */
  datatype Item = Item(index: Option<int>, point: bool, line: bool)

  datatype Kind = PointShape | LineShape

  /** A shape to draw and the pixel whose colour it shows. */
  datatype Shape = Shape(kind: Kind, index: int)

  /** The shapes of one item whose number is `i`, for a channel at `offset`. */
  function ItemShapes(item: Item, offset: nat, i: int): seq<Shape>
  {
    (if item.point then [Shape(PointShape, offset + i)] else []) + (if item.line then [Shape(LineShape, offset + i)] else [])
  }

  /** The shapes of `items`, the first of them numbered `next` unless it says otherwise;
      each item is numbered one more than the item before it, unless it has an `index`. */
  function Shapes(items: seq<Item>, offset: nat, next: int): seq<Shape>
  {
    if items == [] then []
    else
      var i := if items[0].index.Some? then items[0].index.value else next;
      ItemShapes(items[0], offset, i) + Shapes(items[1..], offset, i + 1)
  }

  lemma ShapesStep(items: seq<Item>, k: nat, offset: nat, next: int)
    requires k < |items|
    ensures Shapes(items[k..], offset, next) ==
      var i := if items[k].index.Some? then items[k].index.value else next;
      ItemShapes(items[k], offset, i) + Shapes(items[k + 1..], offset, i + 1)
  {
    assert items[k..][0] == items[k] && items[k..][1..] == items[k + 1..];
  }

  /** The number of geometries in `items`. */
  function Geometries(items: seq<Item>): nat
  {
    if items == [] then 0
    else (if items[0].point then 1 else 0) + (if items[0].line then 1 else 0) + Geometries(items[1..])
  }

  /** One shape per geometry, whatever the numbering. */
  lemma {:induction false} ShapeCount(items: seq<Item>, offset: nat, next: int)
    ensures |Shapes(items, offset, next)| == Geometries(items) <= 2 * |items|
  {
    if items != [] {
      var i := if items[0].index.Some? then items[0].index.value else next;
      ShapeCount(items[1..], offset, i + 1);
    }
  }

  /** A layout of items without `index` members, each a point or a line but not both,
      puts shape m on pixel `offset + next + m`: the channel's shapes cover its pixels in
      order. */
  lemma {:induction false} ConsecutiveShapes(items: seq<Item>, offset: nat, next: int)
    requires forall k :: 0 <= k < |items| ==> items[k].index.None? && items[k].point != items[k].line
    ensures |Shapes(items, offset, next)| == |items|
    ensures forall m :: 0 <= m < |items| ==> Shapes(items, offset, next)[m].index == offset + next + m
  {
    if items != [] {
      ConsecutiveShapes(items[1..], offset, next + 1);
      var rest := Shapes(items[1..], offset, next + 1);
      var s := Shapes(items, offset, next);
      assert s == ItemShapes(items[0], offset, next) + rest;
      forall m | 0 <= m < |items| ensures s[m].index == offset + next + m {
        if m > 0 {
          assert s[m] == rest[m - 1];
        }
      }
    }
  }

  /** The pixels after a layout of `n` shapes was loaded at `offset`: its pixels are dim
      and the others unchanged. */
  function Lit(px: seq<Pixel>, offset: nat, n: nat): (r: seq<Pixel>)
    ensures |r| == |px|
  {
    seq(|px|, k requires 0 <= k < |px| => if offset <= k < offset + n then Dim else px[k])
  }

  /** The pixels after the initialisation loop as written: it runs from the channel's
      offset up to the layout's shape count, not up to offset plus shape count. */
  function LitAsWritten(px: seq<Pixel>, offset: nat, n: nat): (r: seq<Pixel>)
    ensures |r| == |px|
  {
    seq(|px|, k requires 0 <= k < |px| => if offset <= k < n then Dim else px[k])
  }

  /** Both agree on the first channel; for a later channel no larger than the channels
      before it the loop as written lights none of its pixels, while every shape of a
      consecutive layout shows a lit pixel once the loop runs to offset plus count. */
  lemma LaterChannelUnlit(px: seq<Pixel>, items: seq<Item>, offset: nat)
    requires forall k :: 0 <= k < |items| ==> items[k].index.None? && items[k].point != items[k].line
    requires offset + |items| <= |px|
    ensures LitAsWritten(px, 0, |items|) == Lit(px, 0, |items|)
    ensures |items| <= offset ==> LitAsWritten(px, offset, |items|) == px
    ensures forall m :: 0 <= m < |Shapes(items, offset, 0)| ==>
      0 <= Shapes(items, offset, 0)[m].index < |px| && Lit(px, offset, |items|)[Shapes(items, offset, 0)[m].index] == Dim
  {
    ConsecutiveShapes(items, offset, 0);
  }

  /** The offsets of channels 0, 1, ... when layouts `ls` are loaded one after another
      from pixel `base` on; a layout that cannot be read counts no shapes. */
  function Offsets(base: nat, ls: seq<seq<Item>>): (r: seq<nat>)
    ensures |r| == |ls|
    decreases |ls|
  {
    if ls == [] then [] else [base] + Offsets(base + Geometries(ls[0]), ls[1..])
  }

  function TotalGeometries(ls: seq<seq<Item>>): nat
  {
    if ls == [] then 0 else Geometries(ls[0]) + TotalGeometries(ls[1..])
  }

  /** The channels follow each other without overlapping: channel c covers
      `[offs[c], offs[c] + Geometries(ls[c]))` and the next one starts where it ends. */
  lemma {:induction false} OffsetsFollow(base: nat, ls: seq<seq<Item>>)
    ensures forall c :: 0 <= c < |ls| ==> Offsets(base, ls)[c] + Geometries(ls[c]) <= base + TotalGeometries(ls)
    ensures forall c1, c2 :: 0 <= c1 < c2 < |ls| ==> Offsets(base, ls)[c1] + Geometries(ls[c1]) <= Offsets(base, ls)[c2]
    ensures forall c :: 0 <= c < |ls| ==> base <= Offsets(base, ls)[c]
    decreases |ls|
  {
    if ls != [] {
      var next := base + Geometries(ls[0]);
      OffsetsFollow(next, ls[1..]);
      var offs := Offsets(base, ls);
      var rest := Offsets(next, ls[1..]);
      assert offs == [base] + rest;
      forall c | 0 < c < |ls| ensures offs[c] == rest[c - 1] && ls[c] == ls[1..][c - 1] {}
    }
  }

  /** A broadcast no longer than the smallest loaded layout writes channels that do not
      overlap, so each channel shows the start of the frame. */
  lemma BroadcastDisjoint(base: nat, ls: seq<seq<Item>>, count: nat)
    requires forall c :: 0 <= c < |ls| ==> count <= Geometries(ls[c])
    ensures Disjoint(Offsets(base, ls), count)
  {
    OffsetsFollow(base, ls);
  }

  // ---------------------------------------------------------------------
  // main's options

  /** An option `getopt(argc, argv, ":l:p:")` returns: `-l <file>`, `-p <port>`, or an
      unknown option or one missing its argument. */
  datatype Opt = LayoutOpt(path: string) | PortOpt(arg: string) | BadOpt

  /** The layout files named by the options, in order. */
  function LayoutPaths(opts: seq<Opt>): seq<string>
  {
    if opts == [] then []
    else LayoutPaths(opts[..|opts| - 1]) + (if opts[|opts| - 1].LayoutOpt? then [opts[|opts| - 1].path] else [])
  }

  /** The options make `main` exit with status 1: an unknown option, more than ten
      layouts, or none. */
  predicate UsageError(opts: seq<Opt>)
  {
    BadOpt in opts || |LayoutPaths(opts)| > MAX_CHANNELS || |LayoutPaths(opts)| == 0
  }

  /** `port` after the options, starting from `start`: the last `-p` argument, as a u16. */
  function PortValue(opts: seq<Opt>, start: u16): u16
  {
    if opts == [] then start
    else if opts[|opts| - 1].PortOpt? then U16(StrToL(opts[|opts| - 1].arg, 10))
    else PortValue(opts[..|opts| - 1], start)
  }

  /** The port the source listens on, as written: `port` is never initialised, so with
      no `-p` option it is whatever the stack held (`junk`); a zero port means 7890. */
  function ListenPortAsWritten(opts: seq<Opt>, junk: u16): u16
  {
    var p := PortValue(opts, junk);
    if p != 0 then p else OPC_DEFAULT_PORT
  }

  /** The port the source listens on, `port` starting at 0. */
  function ListenPort(opts: seq<Opt>): u16
  {
    ListenPortAsWritten(opts, 0)
  }

  /** Without `-p` the uninitialised port is used as it is: a stack value of 1234 makes
      the simulator listen on port 1234. */
  lemma UninitialisedPort()
    ensures ListenPortAsWritten([LayoutOpt("layout.json")], 1234) == 1234 != OPC_DEFAULT_PORT
  {
    assert [LayoutOpt("layout.json")][..0] == [];
  }

  /** With `port` starting at 0: no `-p` gives 7890, and a last `-p n` gives n for
      `0 < n < 65536`, whatever options follow. */
  lemma {:induction false} PortChoice(pre: seq<Opt>, n: nat, post: seq<Opt>)
    requires forall k :: 0 <= k < |post| ==> !post[k].PortOpt?
    requires 0 < n < 0x1_0000
    ensures (forall k :: 0 <= k < |pre| ==> !pre[k].PortOpt?) ==> ListenPort(pre) == OPC_DEFAULT_PORT
    ensures ListenPort(pre + [PortOpt(Decimal(n))] + post) == n
  {
    NoPort(pre, 0);
    LastPort(pre + [PortOpt(Decimal(n))], post);
    StrToLDecimal(n);
  }

  lemma {:induction false} NoPort(opts: seq<Opt>, start: u16)
    ensures (forall k :: 0 <= k < |opts| ==> !opts[k].PortOpt?) ==> PortValue(opts, start) == start
  {
    if opts != [] && forall k :: 0 <= k < |opts| ==> !opts[k].PortOpt? {
      var init := opts[..|opts| - 1];
      assert forall k :: 0 <= k < |init| ==> init[k] == opts[k];
      NoPort(init, start);
    }
  }

  lemma {:induction false} LastPort(opts: seq<Opt>, post: seq<Opt>)
    requires opts != [] && opts[|opts| - 1].PortOpt?
    requires forall k :: 0 <= k < |post| ==> !post[k].PortOpt?
    ensures PortValue(opts + post, 0) == U16(StrToL(opts[|opts| - 1].arg, 10))
  {
    if post != [] {
      var s := opts + post;
      assert s[..|s| - 1] == opts + post[..|post| - 1];
      assert s[|s| - 1] == post[|post| - 1];
      LastPort(opts, post[..|post| - 1]);
    } else {
      assert opts + post == opts;
    }
  }

  /** main's `getopt` loop, with `port` starting at 0: Some(1) when the options are a
      usage error, else the layout files and the port. */
  method ParseOptions(opts: seq<Opt>) returns (status: Option<int>, layouts: seq<string>, port: u16)
    ensures status.Some? <==> UsageError(opts)
    ensures status.Some? ==> status.value == 1
    ensures status.None? ==> layouts == LayoutPaths(opts) && 1 <= |layouts| <= MAX_CHANNELS
    ensures status.None? ==> port == ListenPort(opts)
  {
    var numChannels := 0;
    var value: u16 := 0;
    layouts := [];
    var k := 0;
    while k < |opts|
      invariant 0 <= k <= |opts|
      invariant layouts == LayoutPaths(opts[..k]) && numChannels == |layouts| <= MAX_CHANNELS
      invariant BadOpt !in opts[..k]
      invariant value == PortValue(opts[..k], 0)
    {
      assert opts[..k + 1][..k] == opts[..k];
      assert opts[..k + 1] == opts[..k] + [opts[k]];
      match opts[k] {
        case LayoutOpt(path) =>
          numChannels := numChannels + 1;
          layouts := layouts + [path];
          if numChannels > MAX_CHANNELS {
            PathsGrow(opts, k + 1);
            return Some(1), [], 0;
          }
        case PortOpt(arg) =>
          value := U16(StrToL(arg, 10));
        case BadOpt =>
          assert BadOpt in opts;
          return Some(1), [], 0;
      }
      k := k + 1;
    }
    assert opts[..k] == opts;
    if numChannels == 0 {
      return Some(1), [], 0;
    }
    status := None;
    port := if value != 0 then value else OPC_DEFAULT_PORT;
  }

  /** The layouts of a prefix are a prefix of the layouts. */
  lemma {:induction false} PathsGrow(opts: seq<Opt>, n: nat)
    requires n <= |opts|
    ensures |LayoutPaths(opts[..n])| <= |LayoutPaths(opts)|
    decreases |opts|
  {
    if n < |opts| {
      var init := opts[..|opts| - 1];
      assert init[..n] == opts[..n];
      PathsGrow(init, n);
    } else {
      assert opts[..n] == opts;
    }
  }

  // ---------------------------------------------------------------------
  // The simulator's globals

  class Simulator {
    var pixels: array<Pixel>
    var channelOffsets: array<nat>
    var numChannels: nat
    var numPixels: nat
    var shapes: seq<Shape>

    ghost predicate Valid()
      reads this
    {
      pixels.Length == MAX_PIXELS && channelOffsets.Length == MAX_CHANNELS && numChannels <= MAX_CHANNELS
    }

    /** The globals as the program starts: all zero. */
    constructor ()
      ensures Valid() && fresh(pixels) && fresh(channelOffsets)
      ensures pixels[..] == seq(MAX_PIXELS, _ => Black) && channelOffsets[..] == seq(MAX_CHANNELS, _ => 0)
      ensures numChannels == 0 && numPixels == 0 && shapes == []
    {
      pixels := new Pixel[MAX_PIXELS](_ => Black);
      channelOffsets := new nat[MAX_CHANNELS](_ => 0);
      numChannels := 0;
      numPixels := 0;
      shapes := [];
    }

    /** `handler(channel, count, p)`: the frame's pixels go to the channel's pixels, or to
        every channel's for channel 0. The C code does not check the bounds. */
    method Handler(channel: byte, count: u16, p: seq<Pixel>)
      requires Valid() && |p| == count
      requires InBounds(channel, channelOffsets[..numChannels], count, MAX_PIXELS)
      modifies pixels
      ensures pixels[..] == Apply(old(pixels[..]), HandlerWrites(channel, channelOffsets[..numChannels], p))
    {
      if channel > numChannels {
        return;
      }
      WriteFrame(channel, count, p, Targets(channel, channelOffsets[..numChannels]));
    }

    /** The outer loop of the handler, over the frame's pixels. */
    method WriteFrame(channel: byte, count: u16, p: seq<Pixel>, ghost os: seq<nat>)
      requires Valid() && |p| == count && channel <= numChannels
      requires os == Targets(channel, channelOffsets[..numChannels])
      requires InBounds(channel, channelOffsets[..numChannels], |p|, MAX_PIXELS)
      modifies pixels
      ensures pixels[..] == Apply(old(pixels[..]), Writes(os, p, |p|))
    {
      ghost var px := pixels[..];
      var i := 0;
      while i < count
        invariant 0 <= i <= count
        invariant pixels[..] == Apply(px, Writes(os, p, i))
      {
        ApplyConcat(px, Writes(os, p, i), Row(os, p, i));
        WriteRow(channel, p, i, os);
        i := i + 1;
      }
    }

    /** One iteration of the handler's outer loop: pixel `i` of the frame to the targets. */
    method WriteRow(channel: byte, p: seq<Pixel>, i: nat, ghost os: seq<nat>)
      requires Valid() && i < |p| && channel <= numChannels
      requires os == Targets(channel, channelOffsets[..numChannels])
      requires InBounds(channel, channelOffsets[..numChannels], |p|, MAX_PIXELS)
      modifies pixels
      ensures pixels[..] == Apply(old(pixels[..]), Row(os, p, i))
    {
      ghost var offs := channelOffsets[..numChannels];
      if channel == 0 {
        assert forall j :: 0 <= j < numChannels ==> channelOffsets[j] + |p| <= MAX_PIXELS by {
          forall j | 0 <= j < numChannels ensures channelOffsets[j] + |p| <= MAX_PIXELS {
            assert offs[j] == channelOffsets[j];
          }
        }
        WriteBroadcast(p, i, os);
      } else {
        assert offs[channel - 1] == channelOffsets[channel - 1];
        WriteChannel(p, i, channel as nat, os);
      }
    }

    /** The inner loop of the broadcast channel: pixel `i` of the frame to every channel. */
    method WriteBroadcast(p: seq<Pixel>, i: nat, ghost os: seq<nat>)
      requires Valid() && i < |p| && os == channelOffsets[..numChannels]
      requires forall j :: 0 <= j < numChannels ==> channelOffsets[j] + |p| <= MAX_PIXELS
      modifies pixels
      ensures pixels[..] == Apply(old(pixels[..]), Row(os, p, i))
    {
      ghost var q := pixels[..];
      ghost var row := Row(os, p, i);
      var j := 0;
      while j < numChannels
        invariant 0 <= j <= numChannels
        invariant pixels[..] == Apply(q, row[..j])
      {
        assert row[j] == Write(i + channelOffsets[j], p[i]);
        ApplySnoc(q, row[..j], row[j]);
        TakeOneMore(row, j);
        pixels[i + channelOffsets[j]] := p[i];
        j := j + 1;
      }
      assert row[..j] == row;
    }

    /** The single assignment of a frame for channel `channel` ≥ 1. */
    method WriteChannel(p: seq<Pixel>, i: nat, channel: nat, ghost os: seq<nat>)
      requires Valid() && i < |p| && 1 <= channel <= numChannels && os == [channelOffsets[channel - 1]]
      requires channelOffsets[channel - 1] + |p| <= MAX_PIXELS
      modifies pixels
      ensures pixels[..] == Apply(old(pixels[..]), Row(os, p, i))
    {
      ghost var row := Row(os, p, i);
      assert row == [] + [Write(i + channelOffsets[channel - 1], p[i])];
      ApplySnoc(pixels[..], [], row[0]);
      pixels[i + channelOffsets[channel - 1]] := p[i];
    }

    /** `load_layout(filename, channel)` with the file's items, or None when it cannot be
        read or parsed (the program then exits with status 1 and nothing changes). The
        channel starts at the first pixel not yet used; its shapes are appended and its
        pixels set dim. The C code checks neither array's bounds. */
    method LoadLayout(layout: Option<seq<Item>>, channel: nat) returns (ok: bool)
      requires Valid() && channel < MAX_CHANNELS
      requires layout.Some? ==> numPixels + Geometries(layout.value) <= MAX_PIXELS
      modifies this, pixels, channelOffsets
      ensures Valid() && pixels == old(pixels) && channelOffsets == old(channelOffsets) && numChannels == old(numChannels)
      ensures ok <==> layout.Some?
      ensures !ok ==> unchanged(this, pixels, channelOffsets)
      ensures ok ==> channelOffsets[..] == old(channelOffsets[..])[channel := old(numPixels)]
      ensures ok ==> shapes == old(shapes) + Shapes(layout.value, old(numPixels), 0)
      ensures ok ==> numPixels == old(numPixels) + Geometries(layout.value)
      ensures ok ==> pixels[..] == Lit(old(pixels[..]), old(numPixels), Geometries(layout.value))
    {
      if layout.None? {
        return false;
      }
      var offset := numPixels;
      channelOffsets[channel] := offset;
      var shapeCount := AddShapes(layout.value, offset);
      numPixels := numPixels + shapeCount;
      LightPixels(offset, shapeCount);
      ok := true;
    }

    /** The loop over the layout's items: their shapes appended, numbered from 0. */
    method AddShapes(items: seq<Item>, offset: nat) returns (shapeCount: nat)
      modifies this
      ensures shapes == old(shapes) + Shapes(items, offset, 0) && shapeCount == Geometries(items)
      ensures pixels == old(pixels) && channelOffsets == old(channelOffsets)
      ensures numChannels == old(numChannels) && numPixels == old(numPixels)
    {
      var added := ReadItems(items, offset);
      shapes := shapes + added;
      shapeCount := |added|;
      ShapeCount(items, offset, 0);
    }

    /** The shapes of the items, in order: a point, then a line, for each item that has
        them; `i` counts the items and an `index` member resets it. */
    static method ReadItems(items: seq<Item>, offset: nat) returns (added: seq<Shape>)
      ensures added == Shapes(items, offset, 0)
    {
      added := [];
      var i := 0;
      var k := 0;
      while k < |items|
        invariant 0 <= k <= |items|
        invariant Shapes(items, offset, 0) == added + Shapes(items[k..], offset, i)
      {
        var item := items[k];
        ShapesStep(items, k, offset, i);
        if item.index.Some? {
          i := item.index.value;
        }
        Associate(added, ItemShapes(item, offset, i), Shapes(items[k + 1..], offset, i + 1));
        added := AddItem(added, item, offset, i);
        k := k + 1;
        i := i + 1;
      }
      assert items[k..] == [];
    }

    /** One round of that loop: the item's point, then its line. */
    static method AddItem(added: seq<Shape>, item: Item, offset: nat, i: int) returns (more: seq<Shape>)
      ensures more == added + ItemShapes(item, offset, i)
    {
      more := added;
      if item.point {
        more := more + [Shape(PointShape, offset + i)];
      }
      if item.line {
        more := more + [Shape(LineShape, offset + i)];
      }
    }

    /** The initialisation loop, run over the channel's own pixels. */
    method LightPixels(offset: nat, n: nat)
      requires Valid() && offset + n <= MAX_PIXELS
      modifies pixels
      ensures pixels[..] == Lit(old(pixels[..]), offset, n)
    {
      var q := offset;
      while q < offset + n
        invariant offset <= q <= offset + n
        invariant forall k :: 0 <= k < pixels.Length ==> pixels[k] == if offset <= k < q then Dim else old(pixels[k])
      {
        pixels[q] := Dim;
        q := q + 1;
      }
    }

    /** `init(filenames, total_channels)` with the layouts' items: loads them as channels
        0, 1, ... in order; Some(1) when one of them cannot be read. */
    method Init(layouts: seq<Option<seq<Item>>>) returns (status: Option<int>)
      requires Valid() && |layouts| <= MAX_CHANNELS
      requires numPixels + TotalGeometries(Loaded(layouts)) <= MAX_PIXELS
      modifies this, pixels, channelOffsets
      ensures Valid() && pixels == old(pixels) && channelOffsets == old(channelOffsets) && numChannels == old(numChannels)
      ensures status.Some? <==> None in layouts
      ensures status.None? ==> channelOffsets[..|layouts|] == Offsets(old(numPixels), Loaded(layouts))
      ensures status.None? ==> numPixels == old(numPixels) + TotalGeometries(Loaded(layouts))
    {
      ghost var base := numPixels;
      var c := 0;
      while c < |layouts|
        invariant 0 <= c <= |layouts| && Valid() && pixels == old(pixels) && channelOffsets == old(channelOffsets)
        invariant numChannels == old(numChannels)
        invariant None !in layouts[..c]
        invariant channelOffsets[..c] == Offsets(base, Loaded(layouts[..c]))
        invariant numPixels == base + TotalGeometries(Loaded(layouts[..c]))
      {
        var ok := InitChannel(layouts, c, base);
        if !ok {
          return Some(1);
        }
        c := c + 1;
      }
      assert layouts[..c] == layouts;
      status := None;
    }

    /** One pass of `init`'s loop: channel `c` loaded after channels 0 to c - 1. */
    method InitChannel(layouts: seq<Option<seq<Item>>>, c: nat, ghost base: nat) returns (ok: bool)
      requires Valid() && c < |layouts| && c < MAX_CHANNELS
      requires base + TotalGeometries(Loaded(layouts)) <= MAX_PIXELS
      requires channelOffsets[..c] == Offsets(base, Loaded(layouts[..c]))
      requires numPixels == base + TotalGeometries(Loaded(layouts[..c]))
      modifies this, pixels, channelOffsets
      ensures Valid() && pixels == old(pixels) && channelOffsets == old(channelOffsets) && numChannels == old(numChannels)
      ensures ok <==> layouts[c].Some?
      ensures !ok ==> None in layouts
      ensures ok ==> channelOffsets[..c + 1] == Offsets(base, Loaded(layouts[..c + 1]))
      ensures ok ==> numPixels == base + TotalGeometries(Loaded(layouts[..c + 1]))
      ensures ok && None !in layouts[..c] ==> None !in layouts[..c + 1]
    {
      if layouts[c].Some? {
        LoadedStep(base, layouts, c);
        LoadedFits(layouts, c);
      }
      ghost var before := channelOffsets[..];
      ok := LoadLayout(layouts[c], c);
      if !ok {
        assert layouts[c] in layouts;
        return;
      }
      assert channelOffsets[..c + 1] == before[..c] + [channelOffsets[c]];
      assert layouts[..c + 1] == layouts[..c] + [layouts[c]];
    }

    /** `main`'s set-up: the options, then one channel per `-l` file, `files` being the
        files' items in the same order; Some(1) when the options or a file are unusable.
        Otherwise `port` is the port the source is opened on. */
    method Start(opts: seq<Opt>, files: seq<Option<seq<Item>>>) returns (status: Option<int>, port: u16)
      requires Valid() && |files| == |LayoutPaths(opts)|
      requires numPixels + TotalGeometries(Loaded(files)) <= MAX_PIXELS
      modifies this, pixels, channelOffsets
      ensures Valid() && pixels == old(pixels) && channelOffsets == old(channelOffsets)
      ensures UsageError(opts) ==> status == Some(1) && unchanged(this, pixels, channelOffsets)
      ensures !UsageError(opts) ==> numChannels == |files| && (status.Some? <==> None in files)
      ensures !UsageError(opts) && status.None? ==> (port == ListenPort(opts)
        && channelOffsets[..numChannels] == Offsets(old(numPixels), Loaded(files))
        && numPixels == old(numPixels) + TotalGeometries(Loaded(files)))
    {
      var layouts;
      status, layouts, port := ParseOptions(opts);
      if status.Some? {
        return;
      }
      numChannels := |layouts|;
      status := Init(files);
    }
  }

  /** The items of the layouts, all of which were read. */
  function Loaded(ls: seq<Option<seq<Item>>>): (r: seq<seq<Item>>)
    ensures |r| <= |ls|
  {
    if ls == [] then []
    else Loaded(ls[..|ls| - 1]) + (if ls[|ls| - 1].Some? then [ls[|ls| - 1].value] else [])
  }

  /** Loading one more layout: it is appended to those loaded, its channel starts where
      the others end and the pixel count grows by its shapes. */
  lemma LoadedStep(base: nat, ls: seq<Option<seq<Item>>>, c: nat)
    requires c < |ls| && ls[c].Some?
    ensures Loaded(ls[..c + 1]) == Loaded(ls[..c]) + [ls[c].value]
    ensures TotalGeometries(Loaded(ls[..c + 1])) == TotalGeometries(Loaded(ls[..c])) + Geometries(ls[c].value)
    ensures Offsets(base, Loaded(ls[..c + 1])) == Offsets(base, Loaded(ls[..c])) + [base + TotalGeometries(Loaded(ls[..c]))]
  {
    assert ls[..c + 1] == ls[..c] + [ls[c]];
    LoadedSnoc(ls[..c], ls[c].value);
    TotalSnoc(Loaded(ls[..c]), ls[c].value);
    OffsetsSnoc(base, Loaded(ls[..c]), ls[c].value);
  }

  /** The layouts loaded before channel c, and channel c's own, are part of all of them. */
  lemma LoadedFits(ls: seq<Option<seq<Item>>>, c: nat)
    requires c < |ls| && ls[c].Some?
    ensures TotalGeometries(Loaded(ls[..c])) + Geometries(ls[c].value) <= TotalGeometries(Loaded(ls))
  {
    LoadedSplit(ls, c + 1);
    TotalConcat(Loaded(ls[..c + 1]), Loaded(ls[c + 1..]));
    LoadedStep(0, ls, c);
  }

  lemma {:induction false} LoadedSplit(ls: seq<Option<seq<Item>>>, n: nat)
    requires n <= |ls|
    ensures Loaded(ls) == Loaded(ls[..n]) + Loaded(ls[n..])
    decreases |ls|
  {
    if n == |ls| {
      assert ls[..n] == ls && ls[n..] == [];
    } else {
      var init := ls[..|ls| - 1];
      LoadedSplit(init, n);
      assert init[..n] == ls[..n];
      assert init[n..] == ls[n..][..|ls[n..]| - 1];
      assert ls[n..][|ls[n..]| - 1] == ls[|ls| - 1];
      Associate(Loaded(ls[..n]), Loaded(init[n..]), if ls[|ls| - 1].Some? then [ls[|ls| - 1].value] else []);
    }
  }

  lemma {:induction false} TotalConcat(a: seq<seq<Item>>, b: seq<seq<Item>>)
    ensures TotalGeometries(a + b) == TotalGeometries(a) + TotalGeometries(b)
  {
    if a == [] {
      assert a + b == b;
    } else {
      assert (a + b)[1..] == a[1..] + b;
      TotalConcat(a[1..], b);
    }
  }

  lemma LoadedSnoc(ls: seq<Option<seq<Item>>>, items: seq<Item>)
    ensures Loaded(ls + [Some(items)]) == Loaded(ls) + [items]
  {
    assert (ls + [Some(items)])[..|ls|] == ls;
  }

  lemma {:induction false} TotalSnoc(ls: seq<seq<Item>>, items: seq<Item>)
    ensures TotalGeometries(ls + [items]) == TotalGeometries(ls) + Geometries(items)
  {
    if ls != [] {
      assert (ls + [items])[1..] == ls[1..] + [items];
      TotalSnoc(ls[1..], items);
    }
  }

  lemma {:induction false} OffsetsSnoc(base: nat, ls: seq<seq<Item>>, items: seq<Item>)
    ensures Offsets(base, ls + [items]) == Offsets(base, ls) + [base + TotalGeometries(ls)]
    decreases |ls|
  {
    if ls != [] {
      assert (ls + [items])[1..] == ls[1..] + [items];
      OffsetsSnoc(base + Geometries(ls[0]), ls[1..], items);
    }
  }
}
