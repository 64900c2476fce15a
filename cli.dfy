// The common main loop of the SPI servers (src/cli.c): argument parsing, the handler
// that forwards each SET_PIXELS message to the device's put_pixels function, and the
// serve loop that blinks a diagnostic pixel while no client sends and gives up after a
// minute of silence.
module Cli {
  import opened Bytes
  import opened Wire
  import opened OpcServer
  import Spi

  const INACTIVITY_TIMEOUT_MS := 60000
  const DIAGNOSTIC_TIMEOUT_MS := 1000

  /** `get_speed_and_port(speed, port, argc, argv)`; `speedGiven` and `portGiven` say whether
      the pointer is non-null. A value is changed only when its pointer is non-null and its
      argument is present. */
  method GetSpeedAndPort(speedGiven: bool, speed: u32, portGiven: bool, port: u16, argv: seq<string>)
    returns (newSpeed: u32, newPort: u16)
    ensures newSpeed == (if |argv| > 1 && speedGiven then Spi.SpeedArg(argv[1]) else speed)
    ensures newPort == (if |argv| > 2 && portGiven then Spi.PortArg(argv[2]) else port)
  {
    newSpeed, newPort := speed, port;
    if |argv| > 1 && speedGiven {
      newSpeed := Spi.SpeedArg(argv[1]);
    }
    if |argv| > 2 && portGiven {
      newPort := Spi.PortArg(argv[2]);
    }
  }

  /** `opc_open_spi`: the descriptor `init_spidev` returned, or the process exit status 1. */
  function OpenSpi(initResult: int): (r: Result)
    ensures r.Exit? <==> initResult < 0
    ensures r.Exit? ==> r.status == 1
    ensures r.Open? ==> r.fd == initResult
  {
    if initResult < 0 then Exit(1) else Open(initResult)
  }

  datatype Result = Open(fd: nat) | Exit(status: int)

  /** One call of the device's put_pixels function. */
  datatype DeviceCall = DeviceCall(buffer: nat, count: nat, pixels: seq<Pixel>)

  /** `opc_serve_handler`: the pixels of a delivery go to put_pixels with the shared buffer,
      count and pixels unchanged; the channel is not passed on. */
  function ServeHandler(buffer: nat, d: Delivery): DeviceCall
  {
    DeviceCall(buffer, d.count, d.pixels)
  }

  /** The diagnostic pixel for clock reading `t`: channel `t % 3` (C remainder) at 64. */
  function DiagPixel(t: int): Pixel
  {
    var k := TruncRem(t, 3);
    Pixel(if k == 0 then 64 else 0, if k == 1 then 64 else 0, if k == 2 then 64 else 0)
  }

  /** The five diagnostic pixels sent while idle. */
  function DiagFrame(t: int): seq<Pixel>
  {
    [DiagPixel(t), Black, Black, Black, Black]
  }

  /** From 1970 on the diagnostic pixel cycles red, green, blue, one second each; before
      1970 two readings in three leave it dark, because the C remainder is then negative. */
  lemma DiagnosticCycle(t: int)
    ensures t >= 0 ==> DiagPixel(t) == [Pixel(64, 0, 0), Pixel(0, 64, 0), Pixel(0, 0, 64)][t % 3]
    ensures t >= 0 ==> DiagPixel(t + 1) == [Pixel(0, 64, 0), Pixel(0, 0, 64), Pixel(64, 0, 0)][t % 3]
    ensures t < 0 && t % 3 != 0 ==> DiagPixel(t) == Black
    ensures t < 0 && t % 3 == 0 ==> DiagPixel(t) == Pixel(64, 0, 0)
  {
    if t >= 0 {
      RemOfNonNegative(t);
      RemOfNonNegative(t + 1);
      assert (t + 1) % 3 == (t % 3 + 1) % 3;
    } else {
      RemOfNegative(t);
    }
  }

  lemma RemOfNonNegative(t: int)
    requires t >= 0
    ensures TruncRem(t, 3) == t % 3
  {
    assert TruncDiv(t, 3) == t / 3;
  }

  lemma RemOfNegative(t: int)
    requires t < 0
    ensures TruncRem(t, 3) == 0 <==> t % 3 == 0
  {
    var q := TruncDiv(t, 3);
    var r := TruncRem(t, 3);
    assert t == 3 * q + r;
    if r == 0 {
      assert t == 3 * q;
    } else {
      assert t == 3 * (q - 1) + (r + 3) && 0 < r + 3 < 3;
    }
  }

  /** What one poll of the source returns: a message received (and the frame it completed,
      if any), or a timeout, at clock reading `time`. */
  datatype Poll = Active(frame: Option<Frame>) | Idle(time: int)

  /** The device calls one poll makes. */
  function PollCalls(buffer: nat, p: Poll): seq<DeviceCall>
  {
    match p
    case Active(f) =>
      if f.Some? && Dispatch(f.value).Some? then [ServeHandler(buffer, Dispatch(f.value).value)] else []
    case Idle(t) => [DeviceCall(buffer, 5, DiagFrame(t))]
  }

  function Calls(buffer: nat, ps: seq<Poll>): seq<DeviceCall>
  {
    if ps == [] then [] else Calls(buffer, ps[..|ps| - 1]) + PollCalls(buffer, ps[|ps| - 1])
  }

  /** The number of timeouts in a row at the end of `ps`. */
  function TrailingIdle(ps: seq<Poll>): (n: nat)
    ensures n <= |ps|
  {
    if ps == [] || ps[|ps| - 1].Active? then 0 else 1 + TrailingIdle(ps[..|ps| - 1])
  }

  /** `opc_serve_main(port, put, buffer)`, run on the polls `polls`. `sourceOk` says whether
      `opc_new_source` succeeded; `status` is the exit status, or None when the polls run out
      while the loop still serves; `used` is the number of polls made. */
  method ServeMain(sourceOk: bool, polls: seq<Poll>, buffer: nat)
    returns (status: Option<int>, used: nat, calls: seq<DeviceCall>)
    ensures !sourceOk ==> status == Some(1) && used == 0 && calls == []
    ensures sourceOk ==> used <= |polls| && calls == Calls(buffer, polls[..used])
    ensures sourceOk ==> forall m :: 0 <= m < used ==> TrailingIdle(polls[..m]) < 60
    ensures sourceOk ==> (status == Some(0) <==> TrailingIdle(polls[..used]) == 60)
    ensures sourceOk ==> status == Some(0) || (status == None && used == |polls|)
  {
    if !sourceOk {
      return Some(1), 0, [];
    }
    var diag := new Pixel[5](_ => Black);
    var inactivity: u16 := 0;
    used := 0;
    calls := [];
    while inactivity < INACTIVITY_TIMEOUT_MS && used < |polls|
      invariant 0 <= used <= |polls|
      invariant inactivity as int == DIAGNOSTIC_TIMEOUT_MS * TrailingIdle(polls[..used])
      invariant TrailingIdle(polls[..used]) <= 60
      invariant forall m :: 0 <= m < used ==> TrailingIdle(polls[..m]) < 60
      invariant calls == Calls(buffer, polls[..used])
      invariant diag[1..] == [Black, Black, Black, Black]
      decreases |polls| - used
    {
      CallsStep(buffer, polls, used);
      TrailingIdleStep(polls, used);
      var more := ServeOnce(diag, buffer, polls[used]);
      calls := calls + more;
      inactivity := if polls[used].Active? then 0 else inactivity + DIAGNOSTIC_TIMEOUT_MS;
      used := used + 1;
    }
    status := if inactivity >= INACTIVITY_TIMEOUT_MS then Some(0) else None;
  }

  lemma CallsStep(buffer: nat, ps: seq<Poll>, n: nat)
    requires n < |ps|
    ensures Calls(buffer, ps[..n + 1]) == Calls(buffer, ps[..n]) + PollCalls(buffer, ps[n])
  {
    assert ps[..n + 1][..n] == ps[..n];
  }

  lemma TrailingIdleStep(ps: seq<Poll>, n: nat)
    requires n < |ps|
    ensures TrailingIdle(ps[..n + 1]) == if ps[n].Active? then 0 else 1 + TrailingIdle(ps[..n])
  {
    assert ps[..n + 1][..n] == ps[..n];
  }

  /** The calls of the first polls are the first calls. */
  lemma {:induction false} CallsPrefix(buffer: nat, ps: seq<Poll>, m: nat)
    requires m <= |ps|
    ensures Calls(buffer, ps[..m]) <= Calls(buffer, ps)
    decreases |ps| - m
  {
    if m < |ps| {
      CallsPrefix(buffer, ps, m + 1);
      CallsStep(buffer, ps, m);
    } else {
      assert ps[..m] == ps;
    }
  }

  /** The calls poll `q` makes sit in the calls of the whole trace right after those of the
      polls before it. */
  lemma PollCallsAt(buffer: nat, ps: seq<Poll>, q: nat)
    requires q < |ps|
    ensures |Calls(buffer, ps[..q])| + |PollCalls(buffer, ps[q])| <= |Calls(buffer, ps)|
    ensures forall k :: 0 <= k < |PollCalls(buffer, ps[q])| ==>
      Calls(buffer, ps)[|Calls(buffer, ps[..q])| + k] == PollCalls(buffer, ps[q])[k]
  {
    CallsPrefix(buffer, ps, q + 1);
    CallsStep(buffer, ps, q);
  }

  /** A poll that completed a SET_PIXELS frame makes one device call, in trace order: the
      shared buffer, the payload's length divided by 3 as the count, and the payload's bytes
      taken three at a time as the pixels. The channel is not passed on. */
  lemma ForwardedCall(buffer: nat, ps: seq<Poll>, q: nat, f: Frame)
    requires q < |ps| && ps[q] == Active(Some(f)) && f.command == OPC_SET_PIXELS
    ensures |Calls(buffer, ps[..q + 1])| == |Calls(buffer, ps[..q])| + 1
    ensures |Calls(buffer, ps[..q])| < |Calls(buffer, ps)|
    ensures var c := Calls(buffer, ps)[|Calls(buffer, ps[..q])|];
      c.buffer == buffer && c.count == |f.data| / 3 == |c.pixels| &&
      forall i :: 0 <= i < c.count ==> c.pixels[i] == Pixel(f.data[3 * i], f.data[3 * i + 1], f.data[3 * i + 2])
  {
    PollCallsAt(buffer, ps, q);
    CallsStep(buffer, ps, q);
    assert PollCalls(buffer, ps[q])[0] == DeviceCall(buffer, Dispatch(f).value.count, Dispatch(f).value.pixels);
  }

  /** A timeout makes one device call with the five diagnostic pixels of its clock reading. */
  lemma DiagnosticCall(buffer: nat, ps: seq<Poll>, q: nat, t: int)
    requires q < |ps| && ps[q] == Idle(t)
    ensures |Calls(buffer, ps[..q + 1])| == |Calls(buffer, ps[..q])| + 1
    ensures |Calls(buffer, ps[..q])| < |Calls(buffer, ps)|
    ensures Calls(buffer, ps)[|Calls(buffer, ps[..q])|] == DeviceCall(buffer, 5, DiagFrame(t))
  {
    PollCallsAt(buffer, ps, q);
    CallsStep(buffer, ps, q);
  }

  /** A received message that completed no frame, or a frame of another command, makes no
      device call. */
  lemma SilentPoll(buffer: nat, ps: seq<Poll>, q: nat)
    requires q < |ps| && ps[q].Active?
    requires ps[q].frame.None? || ps[q].frame.value.command != OPC_SET_PIXELS
    ensures Calls(buffer, ps[..q + 1]) == Calls(buffer, ps[..q])
  {
    CallsStep(buffer, ps, q);
  }

  /** One pass of the loop: a received message goes to the handler; a timeout sends the
      diagnostic pixels, updating the first entry of `diag` in place. */
  method ServeOnce(diag: array<Pixel>, buffer: nat, p: Poll) returns (calls: seq<DeviceCall>)
    requires diag.Length == 5 && diag[1..] == [Black, Black, Black, Black]
    modifies diag
    ensures diag[1..] == [Black, Black, Black, Black]
    ensures calls == PollCalls(buffer, p)
  {
    match p {
      case Active(f) =>
        calls := [];
        if f.Some? {
          var d := Dispatch(f.value);
          if d.Some? {
            calls := [ServeHandler(buffer, d.value)];
          }
        }
      case Idle(t) =>
        var k := TruncRem(t, 3);
        diag[0] := Pixel(if k == 0 then 64 else 0, if k == 1 then 64 else 0, if k == 2 then 64 else 0);
        assert diag[..] == DiagFrame(t) by {
          assert diag[..] == [diag[0]] + diag[1..];
        }
        calls := [DeviceCall(buffer, 5, diag[..])];
    }
  }

  /** Only the timeouts after the last received message count. */
  lemma {:induction false} TrailingIdleBelow(ps: seq<Poll>, q: nat)
    requires q < |ps| && ps[q].Active?
    ensures TrailingIdle(ps) < |ps| - q
    decreases |ps|
  {
    if q < |ps| - 1 {
      var init := ps[..|ps| - 1];
      assert init[q] == ps[q];
      TrailingIdleBelow(init, q);
    }
  }

  /** Some poll among the 60 from `ps[lo]` on received a message. */
  predicate ActiveWithin(ps: seq<Poll>, lo: nat)
    requires lo + 60 <= |ps|
  {
    exists q :: lo <= q < lo + 60 && ps[q].Active?
  }

  /** A client that sends at least once in every 60 polls keeps the server serving: no
      prefix of the polls ends in 60 timeouts, so the loop consumes all of them. */
  lemma KeepsServing(polls: seq<Poll>)
    requires forall j: nat :: j + 60 <= |polls| ==> ActiveWithin(polls, j)
    ensures forall m :: 0 <= m <= |polls| ==> TrailingIdle(polls[..m]) < 60
  {
    forall m | 0 <= m <= |polls| ensures TrailingIdle(polls[..m]) < 60 {
      var ps := polls[..m];
      if m >= 60 {
        assert ActiveWithin(polls, m - 60);
        var q :| m - 60 <= q < m && polls[q].Active?;
        assert ps[q] == polls[q];
        TrailingIdleBelow(ps, q);
      }
    }
  }

  /** Sixty timeouts in a row after a received message (or from the start) end the loop
      exactly at the sixtieth. */
  lemma {:induction false} SixtyTimeoutsExit(ps: seq<Poll>, idle: seq<Poll>)
    requires ps == [] || ps[|ps| - 1].Active?
    requires |idle| == 60 && forall j :: 0 <= j < 60 ==> idle[j].Idle?
    ensures TrailingIdle(ps + idle) == 60
    ensures forall k :: 0 <= k < 60 ==> TrailingIdle(ps + idle[..k]) < 60
  {
    TrailingIdleOfIdle(ps, idle, 60);
    assert idle[..60] == idle;
    forall k | 0 <= k < 60 ensures TrailingIdle(ps + idle[..k]) < 60 {
      TrailingIdleOfIdle(ps, idle, k);
    }
  }

  lemma {:induction false} TrailingIdleOfIdle(ps: seq<Poll>, idle: seq<Poll>, k: nat)
    requires k <= |idle| && forall j :: 0 <= j < |idle| ==> idle[j].Idle?
    ensures TrailingIdle(ps + idle[..k]) == TrailingIdle(ps) + k
    decreases k
  {
    if k > 0 {
      var s := ps + idle[..k];
      assert s[..|s| - 1] == ps + idle[..k - 1];
      assert s[|s| - 1] == idle[k - 1];
      TrailingIdleOfIdle(ps, idle, k - 1);
    } else {
      assert ps + idle[..0] == ps;
    }
  }
}
