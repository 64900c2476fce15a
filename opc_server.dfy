// The receiving side of Open Pixel Control (src/opc_server.c): a table of up to
// 64 sources, each listening on a TCP port or connected to one peer, and the
// incremental reassembly of the frames that peer sends.
//
// The socket calls are an oracle: each call of Receive is told whether the
// watched descriptor became readable before the timeout, what accept returned,
// which bytes the peer has made available to recv (none: end of stream or
// error), and what a fresh listen on the source's port returns.
module OpcServer {
  import opened Bytes
  import opened Wire

  /** Size of the payload buffer of a source (`u8 payload[1 << 16]`). */
  const PAYLOAD_CAPACITY := 0x1_0000

  /** The fields of one source, as values. */
  datatype SourceState = SourceState(
    port: u16,
    listenSock: int,
    sock: int,
    headerLength: u16,
    header: seq<byte>,
    payloadLength: u16,
    payload: seq<byte>)

  predicate Shaped(s: SourceState) { |s.header| == 4 && |s.payload| == PAYLOAD_CAPACITY }

  /** The payload length announced by the header bytes of `s`. */
  function Expected(s: SourceState): u16
    requires Shaped(s)
  {
    DeclaredLength(s.header)
  }

  /** The invariant every reachable source keeps: it never both listens and is connected,
      at most 4 header bytes are held, payload bytes are held only behind a complete
      header, and never as many as the header announces (such a frame has been dispatched). */
  predicate Inv(s: SourceState)
  {
    Shaped(s)
    && !(s.listenSock >= 0 && s.sock >= 0)
    && s.headerLength <= 4
    && (s.headerLength < 4 ==> s.payloadLength == 0)
    && (s.headerLength == 4 ==> s.payloadLength < Expected(s) || s.payloadLength == 0)
  }

  /** The bytes of the frame in progress that the source holds. */
  function Pending(s: SourceState): seq<byte>
    requires Shaped(s) && s.headerLength <= 4
  {
    s.header[..s.headerLength] + (if s.headerLength == 4 then s.payload[..s.payloadLength] else [])
  }

  /** A source keeps its invariant exactly when what it holds is an unfinished frame. */
  lemma PendingPartial(s: SourceState)
    requires Shaped(s) && s.headerLength <= 4 && (s.headerLength < 4 ==> s.payloadLength == 0)
    ensures Inv(s) <==> Partial(Pending(s)) && !(s.listenSock >= 0 && s.sock >= 0)
  {
    var p := Pending(s);
    if s.headerLength == 4 {
      assert p[..4] == s.header;
    }
  }

  /** The table slot as static storage leaves it: every field zero. */
  const Zeroed := SourceState(0, 0, 0, 0, Zeros(4), 0, Zeros(PAYLOAD_CAPACITY))

  /** What one call of `opc_receive` learns from the operating system. */
  datatype RecvIo = RecvIo(
    ready: bool,          // select found the watched descriptor readable before the timeout
    accepted: int,        // the result of accept
    avail: seq<byte>,     // the bytes recv can return; empty for end of stream or an error
    relisten: int)        // the result of listening on the source's port again

  /** The bytes one recv call asking for at most `want` bytes returns. */
  function Recv(avail: seq<byte>, want: nat): (got: seq<byte>)
    ensures |got| <= want && got <= avail
    ensures |got| == 0 <==> want == 0 || avail == []
  {
    avail[..Min(|avail|, want)]
  }

  /** The outcome of one receive call: the new state, the value returned (1 or 0), the frame
      completed by this call, if any, the descriptors closed, and the bytes read. */
  datatype Step = Step(state: SourceState, result: bool, frame: Option<Frame>, closed: seq<int>, consumed: seq<byte>)

  /** What the handler is called with for a completed frame. */
  datatype Delivery = Delivery(channel: byte, count: nat, pixels: seq<Pixel>)

  /** The handler runs for a completed SET_PIXELS frame only, with the channel, a pixel
      count of the payload length divided by 3 (rounded down), and the payload as pixels. */
  function Dispatch(f: Frame): (d: Option<Delivery>)
    ensures d.Some? <==> f.command == OPC_SET_PIXELS
    ensures d.Some? ==> d.value.channel == f.channel && d.value.count == |f.data| / 3 == |d.value.pixels|
    ensures d.Some? ==> forall i :: 0 <= i < d.value.count ==>
              d.value.pixels[i] == Pixel(f.data[3 * i], f.data[3 * i + 1], f.data[3 * i + 2])
  {
    if f.command == OPC_SET_PIXELS then
      var ps := BytesToPixels(f.data);
      BytesToPixelsAt(f.data);
      Some(Delivery(f.channel, |f.data| / 3, ps))
    else None
  }

  lemma BytesToPixelsAt(bs: seq<byte>)
    ensures forall i :: 0 <= i < |bs| / 3 ==> BytesToPixels(bs)[i] == Pixel(bs[3 * i], bs[3 * i + 1], bs[3 * i + 2])
  {
    forall i | 0 <= i < |bs| / 3 ensures BytesToPixels(bs)[i] == Pixel(bs[3 * i], bs[3 * i + 1], bs[3 * i + 2]) {
      BytesToPixelAt(bs, i);
    }
  }

  lemma {:induction false} BytesToPixelAt(bs: seq<byte>, i: nat)
    requires i < |bs| / 3
    ensures BytesToPixels(bs)[i] == Pixel(bs[3 * i], bs[3 * i + 1], bs[3 * i + 2])
    decreases i
  {
    if i > 0 {
      var rest := bs[3..];
      BytesToPixelAt(rest, i - 1);
      assert rest[3 * (i - 1)] == bs[3 * i] && rest[3 * (i - 1) + 1] == bs[3 * i + 1] && rest[3 * (i - 1) + 2] == bs[3 * i + 2];
    }
  }

  /** A frame built from pixels is delivered as exactly those pixels. */
  lemma DispatchPixels(channel: byte, ps: seq<Pixel>)
    ensures Dispatch(Frame(channel, OPC_SET_PIXELS, PixelBytes(ps))) == Some(Delivery(channel, |ps|, ps))
  {
    BytesToPixelsOfPixelBytes(ps);
  }

  /** One read on a connected source: the new state, whether recv was called, the bytes it
      returned, and the frame completed, if any. The header is read first, at most the
      4 - header_length bytes still missing; then at most the payload bytes still missing;
      a complete frame resets both counters. */
  function Read(s: SourceState, avail: seq<byte>): (r: (SourceState, bool, seq<byte>, Option<Frame>))
    requires Shaped(s)
    ensures Shaped(r.0) && r.2 <= avail
    ensures !r.1 ==> r.2 == []
  {
    if s.headerLength < 4 then
      var got := Recv(avail, 4 - s.headerLength);
      (s.(header := Splice(s.header, s.headerLength, got), headerLength := s.headerLength + |got|), true, got, None)
    else
      var expected := Expected(s);
      var issued := s.payloadLength < expected;
      var got := if issued then Recv(avail, expected - s.payloadLength) else [];
      var s1 := s.(payload := Splice(s.payload, s.payloadLength, got), payloadLength := s.payloadLength + |got|);
      if s1.headerLength == 4 && s1.payloadLength == expected then
        (s1.(headerLength := 0, payloadLength := 0), issued, got, Some(Frame(s.header[0], s.header[1], s1.payload[..expected])))
      else
        (s1, issued, got, None)
  }

  /** One call of `opc_receive` on a source. A listening source that becomes readable
      accepts its peer, stops listening and starts with empty counters; a connected source
      that becomes readable reads once; a read that returns no bytes closes the peer and
      listens again. Without readiness nothing changes and 0 is returned. This is the
      corrected behaviour; ReceiveAsWritten follows the code as written. */
  function ReceiveStep(s: SourceState, io: RecvIo): (st: Step)
    requires Shaped(s)
    ensures Shaped(st.state) && st.consumed <= io.avail
  {
    if s.listenSock >= 0 then
      if !io.ready then Step(s, false, None, [], [])
      else if io.accepted < 0 then Step(s, true, None, [], [])
      else Step(s.(sock := io.accepted, listenSock := -1, headerLength := 0, payloadLength := 0), true, None, [s.listenSock], [])
    else if s.sock >= 0 && io.ready then
      var (s1, issued, got, frame) := Read(s, io.avail);
      if issued && got == [] then Step(s1.(sock := -1, listenSock := io.relisten), true, frame, [s.sock], got)
      else Step(s1, true, frame, [], got)
    else Step(s, false, None, [], [])
  }

  /** `opc_receive` as written: a failed accept is stored as the connection and the listening
      socket is closed anyway, and the connection is closed whenever no bytes were received
      in this call, including when no recv was issued because the frame was already complete. */
  function ReceiveAsWritten(s: SourceState, io: RecvIo): (st: Step)
    requires Shaped(s)
  {
    if s.listenSock >= 0 then
      if !io.ready then Step(s, false, None, [], [])
      else Step(s.(sock := io.accepted, listenSock := -1, headerLength := 0, payloadLength := 0), true, None, [s.listenSock], [])
    else if s.sock >= 0 && io.ready then
      var (s1, issued, got, frame) := Read(s, io.avail);
      if got == [] then Step(s1.(sock := -1, listenSock := io.relisten), true, frame, [s.sock], got)
      else Step(s1, true, frame, [], got)
    else Step(s, false, None, [], [])
  }

  /** `opc_reset_source` on a valid source: a connected peer is closed and the source
      listens again; the reassembly counters are left as they are. */
  function ResetStep(s: SourceState, relisten: int): (r: (SourceState, seq<int>))
  {
    if s.sock >= 0 then (s.(sock := -1, listenSock := relisten), [s.sock]) else (s, [])
  }

  /** A table slot that no source has used yet: as static storage left it, except for the
      port and listening socket a failed `opc_new_source` may have stored. */
  predicate Untouched(s: SourceState)
  {
    s == Zeroed.(port := s.port, listenSock := s.listenSock)
  }

  /** A source right after a successful `opc_new_source`, as corrected: not connected. */
  function Fresh(port: u16, listenSock: int): SourceState
  {
    Zeroed.(port := port, listenSock := listenSock, sock := -1)
  }

  /** A source right after `opc_new_source` as written: `sock` keeps its static zero. */
  function FreshAsWritten(port: u16, listenSock: int): SourceState
  {
    Zeroed.(port := port, listenSock := listenSock)
  }

  // ---------------------------------------------------------------------
  // Properties of one call

  /** Without readiness, or with neither a listening nor a connected socket, a call
      returns 0 and changes nothing; every handled accept or read returns 1. */
  lemma ReceiveResult(s: SourceState, io: RecvIo)
    requires Shaped(s)
    ensures var st := ReceiveStep(s, io);
      st.result <==> io.ready && (s.listenSock >= 0 || s.sock >= 0)
    ensures var st := ReceiveStep(s, io);
      !st.result ==> st.state == s && st.frame.None? && st.closed == [] && st.consumed == []
  {
  }

  /** Accepting resets the counters, so a new peer starts with nothing pending, whatever the
      previous peer left unfinished. */
  lemma AcceptStartsClean(s: SourceState, io: RecvIo)
    requires Inv(s) && s.listenSock >= 0 && io.ready && io.accepted >= 0
    ensures var t := ReceiveStep(s, io).state;
      t.listenSock == -1 && t.sock == io.accepted && t.headerLength == 0 && t.payloadLength == 0
      && Pending(t) == [] && Inv(t)
  {
  }

  /** A read asks for no more than the header bytes still missing, or else no more than the
      payload bytes still missing. */
  lemma ReadBounds(s: SourceState, io: RecvIo)
    requires Inv(s) && s.listenSock < 0 && s.sock >= 0 && io.ready
    ensures var st := ReceiveStep(s, io);
      if s.headerLength < 4 then |st.consumed| <= 4 - s.headerLength
      else |st.consumed| <= Expected(s) - s.payloadLength
  {
  }

  /** Every call keeps the invariant. */
  lemma {:induction false} ReceiveKeepsInv(s: SourceState, io: RecvIo)
    requires Inv(s)
    ensures Inv(ReceiveStep(s, io).state)
  {
    if s.listenSock < 0 && s.sock >= 0 && io.ready {
      ReadConserves(s, io.avail);
    }
  }

  /** What a read takes in is accounted for: the bytes held before, followed by the bytes
      read, are the completed frame (if any) followed by the bytes held afterwards. */
  lemma {:induction false} ReadConserves(s: SourceState, avail: seq<byte>)
    requires Inv(s)
    ensures var (t, issued, got, frame) := Read(s, avail);
      Inv(t.(listenSock := s.listenSock, sock := s.sock))
      && (frame.Some? ==> Encodable(frame.value))
      && Pending(s) + got == (if frame.Some? then Encode(frame.value) else []) + Pending(t)
  {
    if s.headerLength < 4 {
      HeaderReadConserves(s, avail);
    } else {
      PayloadReadConserves(s, avail);
    }
  }

  lemma HeaderReadConserves(s: SourceState, avail: seq<byte>)
    requires Inv(s) && s.headerLength < 4
    ensures var (t, issued, got, frame) := Read(s, avail);
      Inv(t) && frame.None? && Pending(s) + got == Pending(t)
  {
    var (t, issued, got, frame) := Read(s, avail);
    assert t.header[..t.headerLength] == s.header[..s.headerLength] + got;
    if t.headerLength == 4 {
      assert t.payload[..0] == [];
    }
  }

  lemma PayloadReadConserves(s: SourceState, avail: seq<byte>)
    requires Inv(s) && s.headerLength == 4
    ensures var (t, issued, got, frame) := Read(s, avail);
      Inv(t)
      && (frame.Some? ==> Encodable(frame.value))
      && Pending(s) + got == (if frame.Some? then Encode(frame.value) else []) + Pending(t)
  {
    var (t, issued, got, frame) := Read(s, avail);
    var pl := s.payloadLength;
    var full := s.payload[..pl] + got;
    assert t.header == s.header;
    assert Pending(s) + got == s.header + full by {
      Associate(s.header, s.payload[..pl], got);
    }
    assert Splice(s.payload, pl, got)[..pl + |got|] == full by {
      SplicePrefix(s.payload, pl, got);
    }
    if frame.Some? {
      var f := frame.value;
      assert f.data == full;
      assert s.header == HeaderBytes(f.channel, f.command, |f.data|) by {
        HeaderBytesInjective(s.header);
      }
      assert Pending(t) == [];
    } else {
      assert Pending(t) == s.header + full;
    }
  }

  /** A call on a source that is not listening keeps the stream accounted for. */
  lemma {:induction false} StepConserves(s: SourceState, io: RecvIo)
    requires Inv(s) && s.listenSock < 0
    ensures var st := ReceiveStep(s, io);
      Inv(st.state) && (st.state.listenSock == s.listenSock || st.state.listenSock == io.relisten)
    ensures var st := ReceiveStep(s, io);
      (st.frame.Some? ==> Encodable(st.frame.value))
      && Pending(s) + st.consumed == (if st.frame.Some? then Encode(st.frame.value) else []) + Pending(st.state)
    ensures var st := ReceiveStep(s, io); st.consumed <= io.avail
  {
    if s.sock >= 0 && io.ready {
      ReadConserves(s, io.avail);
    }
  }

  // ---------------------------------------------------------------------
  // Findings

  /** As written, a frame that announces no data is dispatched and then the connection is
      dropped although the peer is still sending; the corrected step keeps it. */
  lemma ZeroLengthFrameDropsPeer(s: SourceState, io: RecvIo)
    requires Inv(s) && s.listenSock < 0 && s.sock >= 0 && io.ready && io.avail != []
    requires s.headerLength == 4 && Expected(s) == 0
    ensures ReceiveAsWritten(s, io).frame == Some(Frame(s.header[0], s.header[1], []))
    ensures ReceiveAsWritten(s, io).state.sock == -1 && ReceiveAsWritten(s, io).closed == [s.sock]
    ensures ReceiveStep(s, io).frame == Some(Frame(s.header[0], s.header[1], []))
    ensures ReceiveStep(s, io).state.sock == s.sock && ReceiveStep(s, io).closed == []
  {
  }

  /** As written, a failed accept leaves a source with neither a listening socket nor a
      peer, and every later call returns 0 without changing it; the corrected step keeps
      listening. */
  lemma FailedAcceptKillsSource(s: SourceState, io: RecvIo, later: RecvIo)
    requires Inv(s) && s.listenSock >= 0 && io.ready && io.accepted == -1
    ensures var t := ReceiveAsWritten(s, io).state;
      t.listenSock == -1 && t.sock == -1
      && ReceiveAsWritten(t, later) == Step(t, false, None, [], [])
    ensures ReceiveStep(s, io).state == s
  {
  }

  /** The code as written and the corrected step differ on exactly the two inputs of the
      findings: a failed accept, and a readable peer whose frame is already complete so that
      no recv is issued. On every other input they agree. */
  lemma AsWrittenDiffersOnlyThere(s: SourceState, io: RecvIo)
    requires Shaped(s)
    ensures ReceiveAsWritten(s, io) != ReceiveStep(s, io) <==>
      ((s.listenSock >= 0 && io.ready && io.accepted < 0)
       || (s.listenSock < 0 && s.sock >= 0 && io.ready && !Read(s, io.avail).1))
  {
  }

  /** As written, a new source has `sock == 0`, so resetting it before any peer connects
      closes descriptor 0 and replaces the listening socket without closing it; the
      corrected source starts with `sock == -1` and the reset does nothing. */
  lemma ResetOfFreshSource(port: u16, listenSock: int, relisten: int)
    requires listenSock >= 0
    ensures ResetStep(FreshAsWritten(port, listenSock), relisten).1 == [0]
    ensures ResetStep(FreshAsWritten(port, listenSock), relisten).0.listenSock == relisten
    ensures !Inv(FreshAsWritten(port, listenSock))
    ensures Inv(Fresh(port, listenSock)) && Pending(Fresh(port, listenSock)) == []
    ensures ResetStep(Fresh(port, listenSock), relisten) == (Fresh(port, listenSock), [])
  {
  }

  // ---------------------------------------------------------------------
  // A whole connection

  /** The calls made on a connected source while a peer sends `stream`: call k finds
      `sizes[k]` of the remaining bytes available (fewer if fewer remain). Returns the final
      state, the bytes consumed and the frames completed, in order. */
  function Feed(s: SourceState, stream: seq<byte>, sizes: seq<nat>): (r: (SourceState, seq<byte>, seq<Frame>))
    requires Shaped(s)
    decreases |sizes|
  {
    if sizes == [] then (s, [], [])
    else
      var st := ReceiveStep(s, RecvIo(true, -1, stream[..Min(sizes[0], |stream|)], -1));
      var rest := Feed(st.state, stream[|st.consumed|..], sizes[1..]);
      (rest.0, st.consumed + rest.1, (if st.frame.Some? then [st.frame.value] else []) + rest.2)
  }

  /** Feeding a connected source keeps the invariant, consumes a prefix of the stream, and
      accounts for every byte: what was pending, then what was consumed, is the frames
      completed, then what is pending afterwards. */
  lemma {:induction false} FeedConserves(s: SourceState, stream: seq<byte>, sizes: seq<nat>)
    requires Inv(s) && s.listenSock < 0
    ensures var r := Feed(s, stream, sizes);
      Inv(r.0) && r.0.listenSock < 0 && r.1 <= stream && AllEncodable(r.2)
      && Pending(s) + r.1 == Encodes(r.2) + Pending(r.0)
    decreases |sizes|
  {
    if sizes == [] {
      assert Pending(s) + [] == Encodes([]) + Pending(s);
    } else {
      var io := RecvIo(true, -1, stream[..Min(sizes[0], |stream|)], -1);
      var st := ReceiveStep(s, io);
      StepConserves(s, io);
      var rest := Feed(st.state, stream[|st.consumed|..], sizes[1..]);
      FeedConserves(st.state, stream[|st.consumed|..], sizes[1..]);
      var mine := if st.frame.Some? then [st.frame.value] else [];
      assert Encodes(mine) == if st.frame.Some? then Encode(st.frame.value) else [];
      EncodesConcat(mine, rest.2);
      PrefixThen(st.consumed, rest.1, stream);
      AccountThen(Pending(s), st.consumed, Encodes(mine), Pending(st.state), rest.1, Encodes(rest.2), Pending(rest.0));
    }
  }

  lemma PrefixThen<T>(a: seq<T>, b: seq<T>, s: seq<T>)
    requires a <= s && b <= s[|a|..]
    ensures a + b <= s
  {
    assert s == s[..|a|] + s[|a|..];
  }

  lemma AccountThen<T>(p: seq<T>, c: seq<T>, e: seq<T>, q: seq<T>, c2: seq<T>, e2: seq<T>, q2: seq<T>)
    requires p + c == e + q && q + c2 == e2 + q2
    ensures p + (c + c2) == (e + e2) + q2
  {
    calc {
      p + (c + c2);
      (p + c) + c2;
      (e + q) + c2;
      e + (q + c2);
      e + (e2 + q2);
    }
  }

  lemma {:induction false} EncodesConcat(xs: seq<Frame>, ys: seq<Frame>)
    requires AllEncodable(xs) && AllEncodable(ys)
    ensures AllEncodable(xs + ys) && Encodes(xs + ys) == Encodes(xs) + Encodes(ys)
    decreases |xs|
  {
    if xs != [] {
      assert (xs + ys)[1..] == xs[1..] + ys;
      EncodesConcat(xs[1..], ys);
    } else {
      assert xs + ys == ys;
    }
  }

  /** Frames survive any fragmentation: when a freshly accepted peer sends frames and the
      source has consumed all of it, the frames it completed are exactly the frames sent, in
      order, and nothing is left pending. The one exception is a last frame without data:
      it may still be held as a complete header, to be dispatched by the next call. */
  lemma FeedRecoversFrames(s: SourceState, frames: seq<Frame>, sizes: seq<nat>)
    requires Inv(s) && s.listenSock < 0 && Pending(s) == []
    requires AllEncodable(frames)
    requires Feed(s, Encodes(frames), sizes).1 == Encodes(frames)
    ensures Inv(Feed(s, Encodes(frames), sizes).0)
    ensures var (t, _, got) := Feed(s, Encodes(frames), sizes);
      (got == frames && Pending(t) == []) ||
      (frames != [] && frames[|frames| - 1].data == [] && got == frames[..|frames| - 1] &&
       Pending(t) == Encode(frames[|frames| - 1]))
    ensures frames == [] || frames[|frames| - 1].data != [] ==>
      Feed(s, Encodes(frames), sizes).2 == frames && Pending(Feed(s, Encodes(frames), sizes).0) == []
  {
    var (t, consumed, got) := Feed(s, Encodes(frames), sizes);
    FeedConserves(s, Encodes(frames), sizes);
    PendingPartial(t);
    assert [] + consumed == consumed;
    EncodesUnique(got, Pending(t), frames);
  }

  // ---------------------------------------------------------------------
  // The state held in place

  /** One entry of the source table, updated in place by each call. */
  class SourceInfo {
    var port: u16
    var listenSock: int
    var sock: int
    var headerLength: u16
    const header: array<byte>
    var payloadLength: u16
    const payload: array<byte>

    ghost function State(): SourceState
      reads this, header, payload
    {
      SourceState(port, listenSock, sock, headerLength, header[..], payloadLength, payload[..])
    }

    ghost predicate Valid()
      reads this, header, payload
    {
      header.Length == 4 && payload.Length == PAYLOAD_CAPACITY && Inv(State())
    }

    /** Static storage: every field zero. */
    constructor ()
      ensures header.Length == 4 && payload.Length == PAYLOAD_CAPACITY
      ensures fresh(header) && fresh(payload) && State() == Zeroed
    {
      port, listenSock, sock, headerLength, payloadLength := 0, 0, 0, 0, 0;
      header := new byte[4](_ => 0);
      payload := new byte[PAYLOAD_CAPACITY](_ => 0);
      new;
      assert header[..] == Zeros(4);
      assert payload[..] == Zeros(PAYLOAD_CAPACITY);
    }

    /** One call of `opc_receive` on this source. */
    method Receive(io: RecvIo) returns (result: bool, frame: Option<Frame>, closed: seq<int>, consumed: seq<byte>)
      requires Valid()
      modifies this, header, payload
      ensures Valid()
      ensures var st := ReceiveStep(old(State()), io);
        State() == st.state && result == st.result && frame == st.frame
        && closed == st.closed && consumed == st.consumed
    {
      ReceiveKeepsInv(State(), io);
      if listenSock >= 0 {
        if !io.ready {
          return false, None, [], [];
        }
        if io.accepted < 0 {
          return true, None, [], [];
        }
        closed := [listenSock];
        sock := io.accepted;
        listenSock := -1;
        headerLength := 0;
        payloadLength := 0;
        return true, None, closed, [];
      }
      if sock < 0 || !io.ready {
        return false, None, [], [];
      }
      var issued, got;
      issued, got, frame := ReadOnce(io.avail);
      closed := [];
      if issued && got == [] {
        closed := [sock];
        sock := -1;
        listenSock := io.relisten;
      }
      result := true;
      consumed := got;
    }

    /** The read of one `opc_receive` call on a connected source: first the missing header
        bytes, then the missing payload bytes; a completed frame resets both counters. */
    method ReadOnce(avail: seq<byte>) returns (issued: bool, got: seq<byte>, frame: Option<Frame>)
      requires Valid()
      modifies this, header, payload
      ensures (State(), issued, got, frame) == Read(old(State()), avail)
    {
      if headerLength < 4 {
        issued, got, frame := true, Recv(avail, 4 - headerLength), None;
        ReadHeader(got);
      } else {
        issued, got, frame := ReadPayload(avail);
      }
    }

    /** Appends the header bytes received. */
    method ReadHeader(got: seq<byte>)
      requires header.Length == 4 && headerLength + |got| <= 4
      modifies this, header
      ensures header[..] == Splice(old(header[..]), old(headerLength), got)
      ensures headerLength == old(headerLength) + |got|
      ensures port == old(port) && listenSock == old(listenSock) && sock == old(sock)
      ensures payloadLength == old(payloadLength)
    {
      CopyInto(header, headerLength, got);
      headerLength := headerLength + |got|;
    }

    /** The payload half of a read: the missing payload bytes, then the frame if complete. */
    method ReadPayload(avail: seq<byte>) returns (issued: bool, got: seq<byte>, frame: Option<Frame>)
      requires Valid() && headerLength == 4
      modifies this, payload
      ensures (State(), issued, got, frame) == Read(old(State()), avail)
    {
      var expected: u16 := header[2] as int * 256 + header[3] as int;
      assert expected == Expected(State());
      issued := payloadLength < expected;
      got := [];
      if issued {
        got := Recv(avail, expected - payloadLength);
        CopyInto(payload, payloadLength, got);
        payloadLength := payloadLength + |got|;
      }
      frame := None;
      if payloadLength == expected {
        frame := Some(Frame(header[0], header[1], payload[..expected]));
        headerLength := 0;
        payloadLength := 0;
      }
    }

    /** The stores of `opc_new_source`: the port and the listening socket, and, as corrected,
        no connection once listening succeeded. */
    method Listen(p: u16, listenResult: int)
      modifies this
      ensures State() == old(State()).(port := p, listenSock := listenResult,
                                       sock := if listenResult < 0 then old(sock) else -1)
    {
      port := p;
      listenSock := listenResult;
      if listenResult >= 0 {
        sock := -1;
      }
    }

    /** `opc_reset_source` on this source. */
    method Reset(relisten: int) returns (closed: seq<int>)
      requires Valid()
      modifies this
      ensures Valid()
      ensures (State(), closed) == ResetStep(old(State()), relisten)
    {
      closed := [];
      if sock >= 0 {
        closed := [sock];
        sock := -1;
        listenSock := relisten;
      }
    }
  }

  /** The table `opc_sources` and the counter `opc_next_source`. */
  class SourceRegistry {
    const slots: seq<SourceInfo>
    var next: int

    ghost function Repr(): set<object>
    {
      (set i | 0 <= i < |slots| :: slots[i] as object)
      + (set i | 0 <= i < |slots| :: slots[i].header as object)
      + (set i | 0 <= i < |slots| :: slots[i].payload as object)
    }

    ghost predicate Valid()
      reads this, Repr()
    {
      |slots| == OPC_MAX_SOURCES && 0 <= next <= OPC_MAX_SOURCES
      && (forall i :: 0 <= i < |slots| ==> slots[i].header.Length == 4 && slots[i].payload.Length == PAYLOAD_CAPACITY)
      && (forall i, j :: 0 <= i < j < |slots| ==>
            slots[i] != slots[j] && slots[i].header != slots[j].header && slots[i].payload != slots[j].payload)
      && (forall i :: 0 <= i < next ==> slots[i].Valid())
      && (forall i :: next <= i < |slots| ==> Untouched(slots[i].State()))
    }

    /** The value of every entry of the table. */
    ghost function States(): (r: seq<SourceState>)
      reads this, Repr()
      ensures |r| == |slots|
    {
      seq(|slots|, i reads this, Repr() requires 0 <= i < |slots| => slots[i].State())
    }

    constructor ()
      ensures Valid() && next == 0
      ensures forall i :: 0 <= i < OPC_MAX_SOURCES ==> States()[i] == Zeroed
    {
      var ss: seq<SourceInfo> := [];
      while |ss| < OPC_MAX_SOURCES
        invariant |ss| <= OPC_MAX_SOURCES
        invariant forall i :: 0 <= i < |ss| ==>
          ss[i].header.Length == 4 && ss[i].payload.Length == PAYLOAD_CAPACITY && ss[i].State() == Zeroed
        invariant forall i, j :: 0 <= i < j < |ss| ==>
          ss[i] != ss[j] && ss[i].header != ss[j].header && ss[i].payload != ss[j].payload
      {
        var info := new SourceInfo();
        ss := ss + [info];
      }
      slots := ss;
      next := 0;
    }

    /** `opc_new_source(port)`, given what listening on `port` returned. */
    method NewSource(port: u16, listenResult: int) returns (source: int)
      requires Valid()
      modifies this, Repr()
      ensures Valid()
      ensures source == (if old(next) >= OPC_MAX_SOURCES || listenResult < 0 then -1 else old(next))
      ensures next == (if source >= 0 then old(next) + 1 else old(next))
      ensures old(next) >= OPC_MAX_SOURCES ==> States() == old(States())
      ensures old(next) < OPC_MAX_SOURCES && source < 0 ==>
        States() == old(States())[old(next) := old(States())[old(next)].(port := port, listenSock := listenResult)]
      ensures source >= 0 ==> States() == old(States())[source := Fresh(port, listenResult)]
    {
      if next >= OPC_MAX_SOURCES {
        return -1;
      }
      ListenAt(port, listenResult);
      if listenResult < 0 {
        assert Untouched(States()[next]);
        StatesValid();
        return -1;
      }
      assert States()[next] == Fresh(port, listenResult) && Inv(Fresh(port, listenResult));
      source := next;
      next := next + 1;
      StatesValid();
    }

    /** The stores of `opc_new_source` into the next free entry. */
    method ListenAt(port: u16, listenResult: int)
      requires Valid() && next < OPC_MAX_SOURCES
      modifies slots[next]
      ensures States() == old(States())[next := old(States())[next].(port := port, listenSock := listenResult,
                                          sock := if listenResult < 0 then old(States())[next].sock else -1)]
    {
      var info := slots[next];
      ghost var before := States();
      assert forall i :: 0 <= i < |slots| && i != next ==> slots[i] != info;
      info.Listen(port, listenResult);
      forall i | 0 <= i < |slots| && i != next ensures slots[i].State() == old(slots[i].State()) {
      }
      forall i | 0 <= i < |slots| ensures States()[i] == before[next := info.State()][i] {
      }
    }

    /** The table is valid when its entries have the right sizes and are distinct, the
        entries in use keep the source invariant and the others are untouched. */
    lemma StatesValid()
      requires |slots| == OPC_MAX_SOURCES && 0 <= next <= OPC_MAX_SOURCES
      requires forall i :: 0 <= i < |slots| ==> slots[i].header.Length == 4 && slots[i].payload.Length == PAYLOAD_CAPACITY
      requires forall i, j :: 0 <= i < j < |slots| ==>
        slots[i] != slots[j] && slots[i].header != slots[j].header && slots[i].payload != slots[j].payload
      requires forall i :: 0 <= i < next ==> Inv(States()[i])
      requires forall i :: next <= i < |slots| ==> Untouched(States()[i])
      ensures Valid()
    {
      forall i | 0 <= i < |slots| ensures States()[i] == slots[i].State() {
      }
    }

    /** `opc_receive(source, handler, timeout)`; the handler's call is `Dispatch(frame)`. */
    method Receive(source: int, io: RecvIo) returns (result: bool, frame: Option<Frame>)
      requires Valid()
      modifies Repr()
      ensures Valid() && next == old(next)
      ensures !(0 <= source < next) ==> !result && frame.None? && States() == old(States())
      ensures 0 <= source < next ==>
        var st := ReceiveStep(old(States())[source], io);
        States() == old(States())[source := st.state] && result == st.result && frame == st.frame
    {
      if source < 0 || source >= next {
        return false, None;
      }
      var info := slots[source];
      ghost var before := States();
      assert forall i :: 0 <= i < |slots| && i != source ==>
        slots[i] != info && slots[i].header != info.header && slots[i].payload != info.payload;
      var closed, consumed;
      result, frame, closed, consumed := info.Receive(io);
      forall i | 0 <= i < |slots| ensures States()[i] == before[source := info.State()][i] {
        if i != source {
          assert slots[i].State() == old(slots[i].State());
        }
      }
      assert States() == before[source := info.State()];
    }

    /** `opc_reset_source(source)`. */
    method Reset(source: int, relisten: int)
      requires Valid()
      modifies Repr()
      ensures Valid() && next == old(next)
      ensures !(0 <= source < next) ==> States() == old(States())
      ensures 0 <= source < next ==> States() == old(States())[source := ResetStep(old(States())[source], relisten).0]
    {
      if source < 0 || source >= next {
        return;
      }
      var closed := slots[source].Reset(relisten);
    }
  }
}
