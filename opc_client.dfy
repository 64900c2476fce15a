// The sending side of Open Pixel Control (src/opc_client.c): a table of up to 64
// sinks (TCP peers or files), each connected lazily by the first send that needs
// it and closed again by any send that fails.
//
// Name lookup, connecting, opening and writing are an oracle: a send is told the
// outcome of the one connection attempt it may make, the result of opening the
// file, and what each successive send/write system call returns.
module OpcClient {
  import opened Bytes
  import opened Wire

  const OPC_MAX_PATH := 1024
  /** `PF_INET`, the only address family opc_resolve accepts. */
  const PF_INET := 2

  /** One entry of the getaddrinfo result list: its family and its address bytes. */
  datatype AddrInfo = AddrInfo(family: int, addr: seq<byte>)

  /** A resolved IPv4 peer: the address bytes and the port. */
  datatype Address = Address(host: seq<byte>, port: u16)

  // ---------------------------------------------------------------------
  // Resolving "host:port"

  /** The name opc_resolve passes to getaddrinfo: the text before the first colon, or
      "localhost" when the text starts with the colon. */
  function LookupName(s: string): string
  {
    match SplitFirst(s, ':')
    case None => s
    case Some(parts) => if parts.0 == [] then "localhost" else parts.0
  }

  /** The port opc_resolve stores: the number after the first colon, converted to u16 by
      `htons`, or the default when there is no colon or the number is 0. */
  function ResolvedPort(s: string, defaultPort: u16): u16
  {
    var port := match SplitFirst(s, ':') case None => 0 case Some(parts) => StrToL(parts.1, 10);
    U16(if port != 0 then port else defaultPort)
  }

  /** The position of the first IPv4 entry of a getaddrinfo result list. */
  function FirstInet(results: seq<AddrInfo>): (r: Option<nat>)
    ensures r.Some? ==> r.value < |results| && results[r.value].family == PF_INET
    ensures r.Some? ==> forall k :: 0 <= k < r.value ==> results[k].family != PF_INET
    ensures r.None? ==> forall k :: 0 <= k < |results| ==> results[k].family != PF_INET
  {
    if results == [] then None
    else if results[0].family == PF_INET then Some(0)
    else match FirstInet(results[1..])
      case None => None
      case Some(k) => Some(k + 1)
  }

  /** `opc_resolve` as written: it finds the first IPv4 entry but copies the address of the
      first entry of the list, whatever its family. */
  function ResolveAsWritten(s: string, results: seq<AddrInfo>, defaultPort: u16): Option<Address>
  {
    if FirstInet(results).Some? then Some(Address(results[0].addr, ResolvedPort(s, defaultPort))) else None
  }

  /** `opc_resolve(s, &address, default_port)`, corrected to copy the entry it found;
      `results` is what getaddrinfo returned for `LookupName(s)`. */
  method Resolve(s: string, results: seq<AddrInfo>, defaultPort: u16) returns (r: Option<Address>)
    ensures r.None? <==> forall k :: 0 <= k < |results| ==> results[k].family != PF_INET
    ensures r.Some? ==> (exists k :: 0 <= k < |results| && results[k].family == PF_INET
                          && (forall j :: 0 <= j < k ==> results[j].family != PF_INET)
                          && r.value == Address(results[k].addr, ResolvedPort(s, defaultPort)))
  {
    var i := 0;
    while i < |results|
      invariant 0 <= i <= |results|
      invariant forall j :: 0 <= j < i ==> results[j].family != PF_INET
    {
      if results[i].family == PF_INET {
        return Some(Address(results[i].addr, ResolvedPort(s, defaultPort)));
      }
      i := i + 1;
    }
    return None;
  }

  /** An empty host name resolves as localhost. */
  lemma LookupEmptyHost(port: string)
    ensures LookupName(":" + port) == "localhost"
  {
    assert (":" + port)[0] == ':';
  }

  /** "host:port" splits into the host and its port, for a host without a colon and a
      port in 1..65535; without a colon the whole text is the host and the default port
      is used. */
  lemma {:induction false} ResolveHostPort(host: string, port: nat, defaultPort: u16)
    requires ':' !in host && host != [] && 0 < port < 0x1_0000
    ensures LookupName(host + ":" + Decimal(port)) == host
    ensures ResolvedPort(host + ":" + Decimal(port), defaultPort) == port
    ensures LookupName(host) == host && ResolvedPort(host, defaultPort) == defaultPort
  {
    var s := host + ":" + Decimal(port);
    SplitAtFirst(host, Decimal(port));
    StrToLDecimal(port);
  }

  lemma {:induction false} SplitAtFirst(a: string, b: string)
    requires ':' !in a
    ensures SplitFirst(a + ":" + b, ':') == Some((a, b))
  {
    if a != [] {
      assert (a + ":" + b)[1..] == a[1..] + ":" + b;
      SplitAtFirst(a[1..], b);
      assert [a[0]] + a[1..] == a;
    }
  }

  /** A zero port falls back to the default. */
  lemma ZeroPortDefaults(host: string, defaultPort: u16)
    requires ':' !in host
    ensures ResolvedPort(host + ":0", defaultPort) == defaultPort
  {
    SplitAtFirst(host, "0");
    assert host + ":0" == host + ":" + "0";
    assert Decimal(0) == "0";
    StrToLDecimal(0);
  }

  /** The finding in opc_resolve: with an IPv6 entry ahead of the IPv4 one, the stored
      address is the IPv6 entry's, while the corrected Resolve returns the IPv4 address. */
  lemma ResolveCopiesFirstEntry(s: string, v6: seq<byte>, v4: seq<byte>, defaultPort: u16)
    ensures ResolveAsWritten(s, [AddrInfo(10, v6), AddrInfo(PF_INET, v4)], defaultPort).Some?
    ensures ResolveAsWritten(s, [AddrInfo(10, v6), AddrInfo(PF_INET, v4)], defaultPort).value.host == v6
    ensures FirstInet([AddrInfo(10, v6), AddrInfo(PF_INET, v4)]) == Some(1)
  {
    var results := [AddrInfo(10, v6), AddrInfo(PF_INET, v4)];
    assert results[1..] == [AddrInfo(PF_INET, v4)];
    assert FirstInet(results).Some?;
    assert results[0].addr == v6;
    assert ResolveAsWritten(s, results, defaultPort) == Some(Address(results[0].addr, ResolvedPort(s, defaultPort)));
  }

  // ---------------------------------------------------------------------
  // Write loops

  /** The loop of `opc_send_socket` and `opc_write_file` from `total` bytes sent and `k`
      calls made: each call is asked for the rest and returns at most that much; a result
      of 0 or less stops the loop with failure. Returns success, bytes sent, calls made. */
  function Transmit(len: nat, writes: nat -> int, k: nat, total: nat): (r: (bool, nat, nat))
    requires total <= len
    ensures r.1 <= len && r.2 >= k
    ensures r.0 <==> r.1 == len
    decreases len - total
  {
    if total == len then (true, total, k)
    else
      var sent := Min(writes(k), len - total);
      if sent <= 0 then (false, total, k + 1)
      else Transmit(len, writes, k + 1, total + sent)
  }

  /** The loop fails exactly at the first call that returns 0 or less. */
  lemma {:induction false} TransmitFails(len: nat, writes: nat -> int, k: nat, total: nat)
    requires total <= len && !Transmit(len, writes, k, total).0
    ensures var c := Transmit(len, writes, k, total).2;
      c > k && writes(c - 1) <= 0 && forall j :: k <= j < c - 1 ==> writes(j) > 0
    decreases len - total
  {
    var sent := Min(writes(k), len - total);
    if sent > 0 {
      TransmitFails(len, writes, k + 1, total + sent);
    }
  }

  /** When every call writes something the loop sends everything. */
  lemma {:induction false} TransmitSucceeds(len: nat, writes: nat -> int, k: nat, total: nat)
    requires total <= len
    requires forall j :: j >= k ==> writes(j) > 0
    ensures Transmit(len, writes, k, total) .0
    decreases len - total
  {
    if total < len {
      TransmitSucceeds(len, writes, k + 1, total + Min(writes(k), len - total));
    }
  }

  /** The write loop itself. */
  method WriteAll(len: nat, writes: nat -> int) returns (ok: bool, sent: nat)
    ensures (ok, sent) == (Transmit(len, writes, 0, 0).0, Transmit(len, writes, 0, 0).1)
    ensures ok <==> sent == len
  {
    var total := 0;
    var k := 0;
    while total < len
      invariant 0 <= total <= len
      invariant Transmit(len, writes, k, total) == Transmit(len, writes, 0, 0)
      decreases len - total
    {
      var n := Min(writes(k), len - total);
      if n <= 0 {
        return false, total;
      }
      total := total + n;
      k := k + 1;
    }
    return true, total;
  }

  // ---------------------------------------------------------------------
  // Sinks

  datatype SinkKind = SocketSink | FileSink

  /** The fields of one sink, as values; `handle` is the socket or the file descriptor,
      non-negative exactly when the sink is connected. */
  datatype SinkState = SinkState(kind: SinkKind, address: Address, path: string, handle: int)

  /** The outcome of one connection attempt of opc_connect_socket. */
  datatype ConnectOutcome = Connected(sock: nat) | ConnectFailed

  /** What one send learns from the operating system. */
  datatype SendIo = SendIo(connect: ConnectOutcome, openResult: int, writes: nat -> int)

  /** `opc_connect` on a valid sink, corrected for files: a connected sink is left alone and
      reported connected; otherwise one attempt is made and its socket or descriptor is
      stored only when it succeeded. */
  function ConnectStep(s: SinkState, io: SendIo): (r: (bool, SinkState))
    ensures r.0 <==> r.1.handle >= 0
    ensures s.handle >= 0 ==> r == (true, s)
    ensures s.handle < 0 && !r.0 ==> r.1 == s
  {
    if s.handle >= 0 then (true, s)
    else match s.kind
      case SocketSink =>
        (match io.connect
         case Connected(sock) => (true, s.(handle := sock))
         case ConnectFailed => (false, s))
      case FileSink =>
        if io.openResult < 0 then (false, s) else (true, s.(handle := io.openResult))
  }

  /** `opc_open_file` as written: it opens the file on every send, replacing the stored
      descriptor without closing it. */
  function OpenFileAsWritten(s: SinkState, openResult: int): (bool, SinkState)
  {
    if openResult < 0 then (false, s) else (true, s.(handle := openResult))
  }

  /** The finding in opc_open_file: as written, a connected file sink loses its descriptor
      (never closed) to a new one on the next send; the corrected ConnectStep keeps it. */
  lemma ReopenLeaksDescriptor(s: SinkState, io: SendIo)
    requires s.kind == FileSink && s.handle >= 0 && io.openResult >= 0 && io.openResult != s.handle
    ensures OpenFileAsWritten(s, io.openResult).1.handle != s.handle
    ensures ConnectStep(s, io) == (true, s)
  {
  }

  /** `opc_close` on a valid sink. */
  function CloseStep(s: SinkState): (t: SinkState)
    ensures t.handle < 0 && t.(handle := s.handle) == s
    ensures s.handle < 0 ==> t == s
  {
    if s.handle >= 0 then s.(handle := -1) else s
  }

  /** `opc_send` on a valid sink: connect once, write everything, close on failure.
      Returns the new state, success and the bytes delivered. */
  function SendStep(s: SinkState, data: seq<byte>, io: SendIo): (r: (SinkState, bool, seq<byte>))
    ensures r.1 ==> r.2 == data && r.0.handle >= 0
    ensures !r.1 ==> r.0.handle < 0 && r.2 <= data && |r.2| < |data| + (if data == [] then 1 else 0)
  {
    var (connected, s1) := ConnectStep(s, io);
    if !connected then (s1, false, [])
    else
      var t := Transmit(|data|, io.writes, 0, 0);
      if t.0 then (s1, true, data) else (CloseStep(s1), false, data[..t.1])
  }

  /** A send on a connected sink makes no connection attempt: it does not depend on the
      connect or open outcome. */
  lemma SendWhenConnected(s: SinkState, data: seq<byte>, io: SendIo, other: ConnectOutcome, openResult: int)
    requires s.handle >= 0
    ensures SendStep(s, data, io) == SendStep(s, data, io.(connect := other, openResult := openResult))
  {
  }

  /** A connected sink whose every write call writes something delivers all the data. */
  lemma SendDelivers(s: SinkState, data: seq<byte>, io: SendIo)
    requires ConnectStep(s, io).0
    requires forall j :: j >= 0 ==> io.writes(j) > 0
    ensures SendStep(s, data, io).1 && SendStep(s, data, io).2 == data
  {
    TransmitSucceeds(|data|, io.writes, 0, 0);
  }

  /** One entry of `opc_sinks`. */
  class SinkInfo {
    var kind: SinkKind
    var address: Address
    var path: string
    var handle: int

    ghost function State(): SinkState
      reads this
    {
      SinkState(kind, address, path, handle)
    }

    /** Static storage: type 0 (a socket sink) and every field zero. */
    constructor ()
      ensures State() == SinkState(SocketSink, Address([], 0), [], 0)
    {
      kind, address, path, handle := SocketSink, Address([], 0), [], 0;
    }

    method Connect(io: SendIo) returns (ok: bool)
      modifies this
      ensures (ok, State()) == ConnectStep(old(State()), io)
    {
      if handle >= 0 {
        return true;
      }
      match kind
      case SocketSink =>
        match io.connect {
          case Connected(sock) =>
            handle := sock;
            return true;
          case ConnectFailed =>
            return false;
        }
      case FileSink =>
        if io.openResult < 0 {
          return false;
        }
        handle := io.openResult;
        return true;
    }

    method Close()
      modifies this
      ensures State() == CloseStep(old(State()))
    {
      if handle >= 0 {
        handle := -1;
      }
    }

    method Send(data: seq<byte>, io: SendIo) returns (ok: bool, written: seq<byte>)
      modifies this
      ensures (State(), ok, written) == SendStep(old(State()), data, io)
    {
      var connected := Connect(io);
      if !connected {
        return false, [];
      }
      var sent;
      ok, sent := WriteAll(|data|, io.writes);
      written := data[..sent];
      assert ok ==> written == data;
      if !ok {
        Close();
      }
    }
  }

  /** The table `opc_sinks` and the counter `opc_next_sink`. */
  class SinkRegistry {
    const slots: seq<SinkInfo>
    var next: int

    ghost function Repr(): set<object>
    {
      set i | 0 <= i < |slots| :: slots[i] as object
    }

    ghost predicate Valid()
      reads this, Repr()
    {
      |slots| == OPC_MAX_SINKS && 0 <= next <= OPC_MAX_SINKS
      && forall i, j :: 0 <= i < j < |slots| ==> slots[i] != slots[j]
    }

    ghost function States(): (r: seq<SinkState>)
      reads this, Repr()
      ensures |r| == |slots|
    {
      seq(|slots|, i reads this, Repr() requires 0 <= i < |slots| => slots[i].State())
    }

    constructor ()
      ensures Valid() && next == 0
      ensures forall i :: 0 <= i < OPC_MAX_SINKS ==> States()[i].handle == 0
    {
      var ss: seq<SinkInfo> := [];
      while |ss| < OPC_MAX_SINKS
        invariant |ss| <= OPC_MAX_SINKS
        invariant forall i :: 0 <= i < |ss| ==> ss[i].handle == 0
        invariant forall i, j :: 0 <= i < j < |ss| ==> ss[i] != ss[j]
      {
        var info := new SinkInfo();
        ss := ss + [info];
      }
      slots := ss;
      next := 0;
    }

    /** `opc_new_sink_socket(hostport)`; `results` is what getaddrinfo returned for
        `LookupName(hostport)`. A new sink starts disconnected. */
    method NewSinkSocket(hostport: string, results: seq<AddrInfo>) returns (sink: int)
      requires Valid()
      modifies Repr(), this
      ensures Valid()
      ensures old(next) >= OPC_MAX_SINKS ==> sink == -1 && States() == old(States())
      ensures old(next) < OPC_MAX_SINKS && FirstInet(results).None? ==>
        sink == -1 && States() == old(States())[old(next) := old(States())[old(next)].(kind := SocketSink, handle := -1)]
      ensures old(next) < OPC_MAX_SINKS && FirstInet(results).Some? ==>
        sink == old(next)
        && States() == old(States())[sink := SinkState(SocketSink,
             Address(results[FirstInet(results).value].addr, ResolvedPort(hostport, OPC_DEFAULT_PORT)),
             old(States())[sink].path, -1)]
      ensures next == if sink >= 0 then old(next) + 1 else old(next)
    {
      if next >= OPC_MAX_SINKS {
        return -1;
      }
      var info := slots[next];
      info.kind := SocketSink;
      info.handle := -1;
      var address := Resolve(hostport, results, OPC_DEFAULT_PORT);
      if address.None? {
        return -1;
      }
      ResolveFindsFirst(hostport, results, address.value);
      info.address := address.value;
      sink := next;
      next := next + 1;
    }

    /** `opc_new_sink_file(path)`: a path longer than 1024 characters is refused before a
        slot is used. A new sink starts disconnected. */
    method NewSinkFile(path: string) returns (sink: int)
      requires Valid()
      modifies Repr(), this
      ensures Valid()
      ensures sink == if |path| > OPC_MAX_PATH || old(next) >= OPC_MAX_SINKS then -1 else old(next)
      ensures next == if sink >= 0 then old(next) + 1 else old(next)
      ensures sink < 0 ==> States() == old(States())
      ensures sink >= 0 ==> States() == old(States())[sink := SinkState(FileSink, old(States())[sink].address, path, -1)]
    {
      if |path| > OPC_MAX_PATH {
        return -1;
      }
      if next >= OPC_MAX_SINKS {
        return -1;
      }
      var info := slots[next];
      info.kind := FileSink;
      info.handle := -1;
      info.path := path;
      sink := next;
      next := next + 1;
    }

    /** `opc_close(sink)`; an invalid handle changes nothing. */
    method Close(sink: int)
      requires Valid()
      modifies Repr()
      ensures Valid() && next == old(next)
      ensures States() == if 0 <= sink < next then old(States())[sink := CloseStep(old(States())[sink])] else old(States())
    {
      if sink < 0 || sink >= next {
        return;
      }
      slots[sink].Close();
    }

    /** `opc_send(sink, data, len, timeout)`: nothing is written through an invalid handle. */
    method Send(sink: int, data: seq<byte>, io: SendIo) returns (ok: bool, written: seq<byte>)
      requires Valid()
      modifies Repr()
      ensures Valid() && next == old(next)
      ensures !(0 <= sink < next) ==> !ok && written == [] && States() == old(States())
      ensures 0 <= sink < next ==>
        var (t, sent, bytes) := SendStep(old(States())[sink], data, io);
        States() == old(States())[sink := t] && ok == sent && written == bytes
    {
      if sink < 0 || sink >= next {
        return false, [];
      }
      ok, written := slots[sink].Send(data, io);
    }

    /** `opc_send_header(sink, channel, command, len)`. */
    method SendHeader(sink: int, channel: byte, command: byte, len: u16, io: SendIo) returns (ok: bool, written: seq<byte>)
      requires Valid()
      modifies Repr()
      ensures Valid() && next == old(next)
      ensures !(0 <= sink < next) ==> !ok && written == [] && States() == old(States())
      ensures 0 <= sink < next ==>
        var (t, sent, bytes) := SendStep(old(States())[sink], HeaderBytes(channel, command, len), io);
        States() == old(States())[sink := t] && ok == sent && written == bytes
    {
      ok, written := Send(sink, [channel, command, len / 256, len % 256], io);
    }

    /** `opc_put_pixels(sink, channel, count, pixels)`: the header announces `count * 3`
        reduced to 16 bits, the payload is all `count * 3` bytes, and it is sent only after
        the header was. `io2` serves the second send. */
    method PutPixels(sink: int, channel: byte, count: u16, pixels: seq<Pixel>, io: SendIo, io2: SendIo)
      returns (ok: bool, written: seq<byte>)
      requires count <= |pixels|
      requires Valid()
      modifies Repr()
      ensures Valid() && next == old(next)
      ensures !(0 <= sink < next) ==> !ok && written == [] && States() == old(States())
      ensures 0 <= sink < next ==>
        var (t, sent, bytes) := PutPixelsStep(old(States())[sink], channel, count, pixels, io, io2);
        States() == old(States())[sink := t] && ok == sent && written == bytes
    {
      var len := count * 3;
      var headerOk, headerBytes := SendHeader(sink, channel, OPC_SET_PIXELS, U16(len), io);
      if !headerOk {
        return false, headerBytes;
      }
      var payloadBytes;
      ok, payloadBytes := Send(sink, PixelBytes(pixels[..count]), io2);
      written := headerBytes + payloadBytes;
    }
  }

  lemma ResolveFindsFirst(s: string, results: seq<AddrInfo>, a: Address)
    requires exists k :: 0 <= k < |results| && results[k].family == PF_INET
                        && (forall j :: 0 <= j < k ==> results[j].family != PF_INET)
                        && a == Address(results[k].addr, ResolvedPort(s, OPC_DEFAULT_PORT))
    ensures FirstInet(results).Some? && a == Address(results[FirstInet(results).value].addr, ResolvedPort(s, OPC_DEFAULT_PORT))
  {
    var k :| 0 <= k < |results| && results[k].family == PF_INET
             && (forall j :: 0 <= j < k ==> results[j].family != PF_INET)
             && a == Address(results[k].addr, ResolvedPort(s, OPC_DEFAULT_PORT));
    var f := FirstInet(results);
    assert f.Some?;
    assert !(f.value < k) && !(k < f.value);
  }

  /** `opc_put_pixels` on a valid sink. */
  function PutPixelsStep(s: SinkState, channel: byte, count: u16, pixels: seq<Pixel>, io: SendIo, io2: SendIo)
    : (r: (SinkState, bool, seq<byte>))
    requires count <= |pixels|
  {
    var (t, headerOk, headerBytes) := SendStep(s, HeaderBytes(channel, OPC_SET_PIXELS, U16(count * 3)), io);
    if !headerOk then (t, false, headerBytes)
    else
      var (t2, ok, payloadBytes) := SendStep(t, PixelBytes(pixels[..count]), io2);
      (t2, ok, headerBytes + payloadBytes)
  }

  /** A successful put of at most 21845 pixels delivers exactly one encoded SET_PIXELS
      frame holding those pixels; a failure leaves the sink disconnected. */
  lemma PutPixelsFrame(s: SinkState, channel: byte, count: u16, pixels: seq<Pixel>, io: SendIo, io2: SendIo)
    requires count <= |pixels|
    ensures var (t, ok, bytes) := PutPixelsStep(s, channel, count, pixels, io, io2);
      (ok && count <= OPC_MAX_PIXELS_PER_MESSAGE ==>
         bytes == Encode(Frame(channel, OPC_SET_PIXELS, PixelBytes(pixels[..count]))))
      && (!ok ==> t.handle < 0)
  {
  }

  /** Above 21845 pixels the header's 16-bit length wraps: it announces
      `count * 3 mod 65536` bytes while all `count * 3` are sent. */
  lemma PutPixelsLengthWraps(channel: byte, count: u16)
    requires count > OPC_MAX_PIXELS_PER_MESSAGE
    ensures DeclaredLength(HeaderBytes(channel, OPC_SET_PIXELS, U16(count * 3))) == (count * 3) % 0x1_0000
    ensures DeclaredLength(HeaderBytes(channel, OPC_SET_PIXELS, U16(count * 3))) != |PixelBytes(seq(count, _ => Black))|
  {
  }
}
