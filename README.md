# Open Pixel Control, modelled in Dafny

Open Pixel Control (OPC) is a small protocol for driving strings of RGB LEDs over TCP.
A message is a 4-byte header (channel, command, 16-bit big-endian length) followed by the
data. For the SET_PIXELS command the data is three bytes per pixel.

This project models the core of the reference implementation:

- **C library.**
  - The server side serves one peer per source at a time and reassembles its messages, one read at a time (`src/opc_server.c`).
  - The client side keeps a table of sinks, connects them, writes them and closes them (`src/opc_client.c`).
  - The common server main loop and argument parsing (`src/cli.c`, `src/spi.c`).
- **LED servers.** Each one encodes a frame for its device into an SPI buffer:
  - APA102, WS2801, LPD8806 and Total Control Lighting;
  - this includes the older stand-alone servers at the top level (`ws2801_server.c`, `tcl_server.c`).
- **Dummy clients.** Read colour lines from standard input and send them.
- **OpenGL simulator.** Its frame handler and its layout loading.
- **OBJ model library.** The reader and writer (`models/objfile.c`).
- **Python side.** The client library, the older example client library, the matrix drivers, and the pong and Game of Life demos.
- **Processing.** The `Img2Opc` library.

How the model is built:

- **The wire format.** Module `Wire` defines it once. Client-side encoders are proved to produce messages the server-side decoder reads back.
- **Imperative code.** Code that updates tables, buffers or object fields in place is modelled as classes with `modifies` clauses, or as methods over arrays. Each such method is proved against a function that specifies it.
- **Pure code.** Parsers and choices over arguments are functions, with lemmas relating them to their inverses or to independent definitions.
- **I/O.** Sockets, files, devices, clocks and random numbers are parameters:
  - select readiness, `accept`, `recv` and `write` results;
  - `time(NULL)`;
  - `random.random()` draws;
  - the lines `fgets` returns.
- **C integers and Python semantics.** C `unsigned` arithmetic, Python's truncating `int()` and Python 2's `chr` are written out where the code depends on them.
- **Shared helpers.** Module `Bytes` holds bytes, 16- and 32-bit values, pixels and the C and Python string-to-number conversions.

## Model

| member | source | states |
|---|---|---|
| Wire.HeaderBytes | src/opc_client.c:331-339 | the four header bytes carry the channel, the command and the length, and the length read back from bytes 2-3 is the length written |
| Wire.HeaderBytesInjective | src/opc_server.c:130 | any four header bytes are the header of the channel, command and length they announce |
| Wire.Encode | src/opc_client.c:341-352 | an encoded frame is four bytes longer than its data |
| Wire.EncodesAppend | src/opc_client.c:341-352 | sending one more frame appends exactly its encoding to the stream |
| Wire.DecodeOne | src/opc_server.c:123-146 | a frame read off a stream is a prefix of the stream, and that prefix is its own encoding |
| Wire.DecodeOneEncode | src/opc_server.c:123-146 | reading back an encoded frame returns that frame and its length, whatever follows it |
| Wire.EncodesUnique | src/opc_server.c:123-146 | frames followed by an unfinished frame can be spelled in one way only: the frames are determined and nothing is left over, except that a last frame without data may be left over as its four header bytes |
| Wire.HeadsAgree | src/opc_server.c:123-146 | two encoded frames that begin the same byte stream are the same frame followed by the same bytes |
| OpcServer.PendingPartial | src/opc_server.c:23-32 | a source keeps its invariant exactly when the bytes it holds are an unfinished frame and it is never both listening and connected |
| OpcServer.Recv | src/opc_server.c:124-125 | one recv returns a prefix of the available bytes, no longer than requested, and returns nothing only when nothing was requested or nothing is available |
| OpcServer.Dispatch | src/opc_server.c:138-143 | the handler runs exactly for SET_PIXELS frames, with the frame's channel, a count of the payload length divided by 3 and the payload's pixels in order |
| OpcServer.DispatchPixels | src/opc_server.c:140-142 | a SET_PIXELS frame built from pixels is delivered as exactly those pixels |
| OpcServer.Read | src/opc_server.c:121-147 | a read returns a prefix of what is available, and nothing when recv was not called |
| OpcServer.ReceiveStep | src/opc_server.c:99-159 | one `opc_receive` call, as corrected, consumes only bytes that were available |
| OpcServer.ReceiveResult | src/opc_server.c:94-159 | corrected step (as written, see `OpcServer.ReceiveAsWritten`): without readiness, or with no socket to watch, a call returns 0 and changes nothing; each handled accept or read returns 1 |
| OpcServer.AcceptStartsClean | src/opc_server.c:111-120 | corrected step (as written, see `OpcServer.ReceiveAsWritten`): an accept stops listening, stores the peer and clears both counters, so nothing is pending |
| OpcServer.ReadBounds | src/opc_server.c:123-137 | corrected step (as written, see `OpcServer.ReceiveAsWritten`): a read asks for at most the missing header bytes, or else at most the missing payload bytes |
| OpcServer.ReceiveKeepsInv | src/opc_server.c:99-159 | corrected step (as written, see `OpcServer.ReceiveAsWritten`): every call keeps the invariant: at most 4 header bytes, payload only behind a full header and always short of the announced length |
| OpcServer.ReadConserves | src/opc_server.c:121-147 | the bytes held before and the bytes read are the completed frame followed by the bytes held afterwards |
| OpcServer.HeaderReadConserves | src/opc_server.c:123-128 | the same accounting for a header read |
| OpcServer.PayloadReadConserves | src/opc_server.c:129-146 | the same accounting for a payload read and dispatch |
| OpcServer.StepConserves | src/opc_server.c:121-154 | corrected step (as written, see `OpcServer.ReceiveAsWritten`): a call on a connected source consumes a prefix of the stream and accounts for every byte |
| OpcServer.AsWrittenDiffersOnlyThere | src/opc_server.c:101-154 | `opc_receive` as written and the corrected step differ exactly on a failed accept and on a readable peer whose frame is complete before any recv |
| OpcServer.ZeroLengthFrameDropsPeer | src/opc_server.c:131-154 | as written, a frame announcing no data is dispatched and then the peer is closed; the corrected step dispatches it and keeps the peer |
| OpcServer.FailedAcceptKillsSource | src/opc_server.c:111-120 | as written, a failed accept leaves neither a listening socket nor a peer, and every later call changes nothing; the corrected step keeps listening |
| OpcServer.ResetOfFreshSource | src/opc_server.c:34-175 | as written, resetting a new source closes descriptor 0 and replaces the listening socket; a source that starts disconnected is left alone |
| OpcServer.FeedConserves | src/opc_server.c:83-159 | corrected step (as written, see `OpcServer.ReceiveAsWritten`): repeated calls on a connected source keep the invariant, consume a prefix of the stream and account for every byte |
| OpcServer.FeedRecoversFrames | src/opc_server.c:83-159 | corrected step (as written, see `OpcServer.ReceiveAsWritten`): however the peer's stream is split across reads, and whether or not frames carry data, the frames completed are exactly the frames sent, in order, with nothing pending; the only exception is a last frame without data, which may still be pending as its complete header |
| OpcServer.SourceInfo.Receive | src/opc_server.c:99-159 | corrected step (as written, see `OpcServer.ReceiveAsWritten`): the method on the C fields returns and stores exactly what `ReceiveStep` gives |
| OpcServer.SourceInfo.ReadOnce | src/opc_server.c:121-147 | the method's read stores exactly what `Read` gives |
| OpcServer.SourceInfo.ReadHeader | src/opc_server.c:124-128 | the header bytes received are stored after those already held, and only `header_length` grows |
| OpcServer.SourceInfo.ReadPayload | src/opc_server.c:129-146 | the payload read and dispatch store exactly what `Read` gives |
| OpcServer.SourceInfo.Listen | src/opc_server.c:72-73 | the port and listening socket are stored and, as corrected, the source is not connected |
| OpcServer.SourceInfo.Reset | src/opc_server.c:169-174 | a connected peer is closed and the source listens again; the counters are kept |
| OpcServer.SourceRegistry.constructor | src/opc_server.c:34-35 | every slot starts zeroed and the counter at 0 |
| OpcServer.SourceRegistry.NewSource | src/opc_server.c:61-81 | corrected (as written, `sock` keeps its static 0; see `OpcServer.ResetOfFreshSource`): -1 when 64 sources exist or listening fails, with the counter kept; otherwise the next index, with that slot a fresh, disconnected source and the counter one higher |
| OpcServer.SourceRegistry.ListenAt | src/opc_server.c:69-73 | the next free entry takes the port and the listening socket, and, as corrected, no connection once listening succeeded; no other entry changes |
| OpcServer.SourceRegistry.Receive | src/opc_server.c:83-160 | corrected step (as written, see `OpcServer.ReceiveAsWritten`): a handle outside the sources created returns 0 and changes nothing; otherwise that slot makes one `ReceiveStep` and no other slot changes |
| OpcServer.SourceRegistry.Reset | src/opc_server.c:162-175 | an invalid handle changes nothing; otherwise only that slot takes its `ResetStep` |
| OpcClient.FirstInet | src/opc_client.c:74-81 | the position found is the first IPv4 entry of the getaddrinfo list, and there is none exactly when no entry is IPv4 |
| OpcClient.Resolve | src/opc_client.c:60-84 | corrected: fails exactly when no entry is IPv4, and otherwise stores the first IPv4 entry's address with the parsed port |
| OpcClient.ResolveFindsFirst | src/opc_client.c:74-80 | the corrected address is that of the first IPv4 entry, with the port from the text or the default |
| OpcClient.LookupEmptyHost | src/opc_client.c:72 | an empty host (":port") is looked up as localhost |
| OpcClient.ResolveHostPort | src/opc_client.c:65-77 | "host:port" splits into the host and that port; text without a colon is all host, with the default port |
| OpcClient.ZeroPortDefaults | src/opc_client.c:77 | a zero port falls back to the default |
| OpcClient.ResolveCopiesFirstEntry | src/opc_client.c:74-77 | as written, with an IPv6 entry before the IPv4 one the IPv6 address is stored, though the loop found the IPv4 entry |
| OpcClient.Transmit | src/opc_client.c:269-298 | the write loop never sends more than asked, and succeeds exactly when everything was sent |
| OpcClient.TransmitFails | src/opc_client.c:273-295 | a failing loop stops at the first call that returns 0 or less |
| OpcClient.TransmitSucceeds | src/opc_client.c:269-279 | when every call writes something, the loop sends everything |
| OpcClient.WriteAll | src/opc_client.c:262-298 | the loop's result and byte count are `Transmit`'s: success exactly when `total_sent == len` |
| OpcClient.ConnectStep | src/opc_client.c:143-254 | corrected for file sinks (as written, `opc_open_file` reopens a connected file sink): a connected sink is reported connected and left alone; otherwise one attempt is made, and the socket or descriptor is stored only on success |
| OpcClient.ReopenLeaksDescriptor | src/opc_client.c:194-249 | as written, a connected file sink is reopened on the next send and its old descriptor is replaced without being closed; the corrected step keeps it |
| OpcClient.CloseStep | src/opc_client.c:208-234 | a closed sink has handle -1 and only that field changes; closing a closed sink changes nothing |
| OpcClient.SendStep | src/opc_client.c:304-329 | corrected for file sinks (as written, see `OpcClient.ReopenLeaksDescriptor`): a successful send delivers all the data and leaves the sink connected; a failed one delivers a strict prefix and leaves it closed |
| OpcClient.SendWhenConnected | src/opc_client.c:150-312 | corrected for file sinks (as written, see `OpcClient.ReopenLeaksDescriptor`): a send on a connected sink makes no connection attempt |
| OpcClient.SendDelivers | src/opc_client.c:312-328 | corrected for file sinks (as written, see `OpcClient.ReopenLeaksDescriptor`): a sink that connects and whose every write call writes something delivers all the data |
| OpcClient.SinkInfo.constructor | src/opc_client.c:57 | a static slot starts as a socket sink with every field zero |
| OpcClient.SinkInfo.Connect | src/opc_client.c:238-254 | corrected for file sinks (as written, see `OpcClient.ReopenLeaksDescriptor`): the method stores exactly what `ConnectStep` gives |
| OpcClient.SinkInfo.Close | src/opc_client.c:215-233 | the method stores exactly what `CloseStep` gives |
| OpcClient.SinkInfo.Send | src/opc_client.c:312-328 | corrected for file sinks (as written, see `OpcClient.ReopenLeaksDescriptor`): the method stores and returns exactly what `SendStep` gives |
| OpcClient.SinkRegistry.constructor | src/opc_client.c:57-58 | the table starts zeroed and the counter at 0 |
| OpcClient.SinkRegistry.NewSinkSocket | src/opc_client.c:86-111 | corrected (as written, the address copied is the list's first entry; see `OpcClient.ResolveCopiesFirstEntry`): -1 when 64 sinks exist or no IPv4 address is found; otherwise the next index, a disconnected socket sink, and the counter one higher |
| OpcClient.SinkRegistry.NewSinkFile | src/opc_client.c:113-135 | -1 for a path over 1024 characters or a full table, before any slot is used; otherwise the next index, a disconnected file sink holding the path |
| OpcClient.SinkRegistry.Close | src/opc_client.c:208-234 | an invalid handle changes nothing; otherwise only that slot is closed |
| OpcClient.SinkRegistry.Send | src/opc_client.c:304-329 | corrected for file sinks (as written, see `OpcClient.ReopenLeaksDescriptor`): an invalid handle returns 0 and writes nothing; otherwise only that slot takes its `SendStep` |
| OpcClient.SinkRegistry.SendHeader | src/opc_client.c:331-339 | sends exactly the header bytes of the channel, command and length through `SendStep` |
| OpcClient.SinkRegistry.PutPixels | src/opc_client.c:341-352 | the header announces `count * 3` mod 65536, and the `count * 3` payload bytes are sent only after the header was |
| OpcClient.PutPixelsFrame | src/opc_client.c:341-352 | a successful put of at most 21845 pixels delivers exactly one encoded SET_PIXELS frame of those pixels; a failed one leaves the sink disconnected |
| OpcClient.PutPixelsLengthWraps | src/opc_client.c:344-350 | above 21845 pixels only a warning is printed: the header announces `count * 3` mod 65536 bytes while all `count * 3` are sent |
| Cli.GetSpeedAndPort | src/cli.c:16-23 | the speed is set from `argv[1]` only when there is one and its pointer is non-null, the port from `argv[2]` likewise; otherwise each keeps its value |
| Cli.OpenSpi | src/cli.c:34-39 | a negative descriptor from `init_spidev` exits with status 1; otherwise that descriptor is returned |
| Cli.ForwardedCall | src/cli.c:28-32 | a poll that completed a SET_PIXELS frame makes exactly one device call, placed after the calls of the earlier polls, with the shared buffer, the payload length divided by 3 as the count, and the payload's bytes three at a time as the pixels; the channel is not passed on |
| Cli.DiagnosticCall | src/cli.c:63-70 | a timeout makes exactly one device call, placed after the calls of the earlier polls, with the five diagnostic pixels of its clock reading |
| Cli.SilentPoll | src/cli.c:61-62 | a received message that completed no frame, or a frame of another command, makes no device call |
| Cli.CallsPrefix | src/cli.c:60-71 | the device calls of the first polls are the first device calls of the whole run |
| Cli.PollCallsAt | src/cli.c:60-71 | the calls of one poll follow, in the whole run, directly after the calls of the polls before it |
| Cli.DiagnosticCycle | src/cli.c:65-68 | from 1970 on the diagnostic pixel has exactly one channel at 64, chosen by `t % 3` and cycling each second; before 1970 the negative C remainder leaves it dark two readings in three |
| Cli.TrailingIdle | src/cli.c:60-64 | the count of timeouts in a row at the end of the polls is at most their number |
| Cli.ServeMain | src/cli.c:41-75 | with no source: status 1, no poll, no call; otherwise the device calls are those of the polls made, the loop never passes 60 timeouts in a row, and it returns 0 exactly when the polls made end in 60 timeouts |
| Cli.CallsStep | src/cli.c:60-71 | one more poll adds exactly that poll's device calls |
| Cli.TrailingIdleStep | src/cli.c:61-64 | a received message resets the inactivity count and a timeout adds one second to it |
| Cli.ServeOnce | src/cli.c:61-70 | one pass forwards a message to the handler, or sends the five diagnostic pixels with only the first one lit, keeping the other four black |
| Cli.TrailingIdleBelow | src/cli.c:62 | only the timeouts after the last received message count |
| Cli.KeepsServing | src/cli.c:60-71 | a client that sends once in every 60 polls keeps the server serving through all of them |
| Cli.SixtyTimeoutsExit | src/cli.c:60-74 | sixty timeouts in a row after a message end the loop exactly at the sixtieth |
| Cli.TrailingIdleOfIdle | src/cli.c:63-64 | each further timeout adds one to the inactivity count |
| MainLoop.ReceiveWhileActive | src/ws2801_server.c:86 | no call without a source; otherwise every call but the last returned 1, and the loop ends at the first 0 or when the calls run out |
| Spi.SpeedReadBack | src/spi.c:6 | a speed written in MHz is read back as that many million hertz, reduced to 32 bits |
| Spi.PortReadBack | src/spi.c:9 | a port written in decimal is read back unchanged |
| Spi.ParseArgs | src/spi.c:4-11 | `argv[1]` sets the speed and `argv[2]` the port; a value whose argument is missing keeps its value |
| Spi.BlocksCover | src/spi.c:31-38 | the blocks are non-empty, at most 4096 bytes, ceil(len / 4096) in number, and one after another exactly the data |
| Spi.SpiWrite | src/spi.c:28-39 | the loop hands exactly `Blocks(data)` to write, whatever the writes return, and logs one message per short write |
| Apa102.FrameLayout | src/apa102_server.c:25-40 | four zero bytes, then `0xff, b, g, r` for pixel i at offset 4 + 4i, then four bytes of 0xff: `4 * count + 8` bytes in all |
| Apa102.DecodeFrame | src/apa102_server.c:25-39 | every frame reads back as the pixels it was built from |
| Apa102.PutPixels | src/apa102_server.c:17-41 | the static buffer, sized for 21845 pixels, receives the frame in its first `4 * count + 8` bytes, the rest is untouched, and exactly those bytes go to `spi_write` |
| Apa102.DevicePath | src/apa102_server.c:46-51 | the device is `argv[3]` when given, else /dev/spidev1.0 |
| ColorOrders.Channels | src/ws2801_server.c:28-45 | each order gives three bytes |
| ColorOrders.UnchannelChannels | src/ws2801_server.c:28-45 | each of RGB, GRB and BGR is a permutation of the channels: reading back in the same order gives the pixel |
| ColorOrders.GetOrder | src/ws2801_server.c:59-73 | `argv[3]` equal to exactly "rgb", "grb" or "bgr" selects that order; anything else, or no `argv[3]`, gives the default |
| Ws2801Server.FrameLayout | src/ws2801_server.c:26-46 | three bytes per pixel, pixel i at offset 3i in the chosen order, and the frame reads back as the pixels |
| Ws2801Server.RgbIsPayload | src/ws2801_server.c:30-34 | in RGB order the frame is the OPC payload itself |
| Ws2801Server.PutPixels | src/ws2801_server.c:16-49 | the 65536-byte buffer receives the frame, the bytes after it are unchanged, and the transfer length is `3 * count` |
| Ws2801Legacy.PutPixels | ws2801_server.c:7-27 | the buffer receives `b, g, r` per pixel, the BGR frame of the newer server, the bytes after it are unchanged, and the transfer length is `3 * count` |
| Lpd8806Server.EncoderWidth | src/lpd8806_server.c:43-60 | each order gives three bytes per pixel |
| Lpd8806Server.EncoderDecoder | src/lpd8806_server.c:43-60 | the three bytes read back as the pixel with the lowest bit of each channel dropped |
| Lpd8806Server.SevenBits | src/lpd8806_server.c:46-58 | every colour byte `128 \| (v >> 1)` has its high bit set and `v / 2` in its low seven bits |
| Lpd8806Server.FrameLayout | src/lpd8806_server.c:29-67 | three zero bytes, pixel i's bytes at offset 3 + 3i in the chosen order, one zero latch byte: `3 * count + 4` bytes |
| Lpd8806Server.FrameDecodes | src/lpd8806_server.c:42-61 | the pixel bytes read back as the pixels with their lowest bit dropped |
| Lpd8806Server.PutPixels | src/lpd8806_server.c:19-68 | the buffer receives the frame, the bytes after it are unchanged, and the transfer length is `3 * count + 4` |
| Lpd8806Server.EmitPixel | src/lpd8806_server.c:43-60 | one switch arm appends the pixel's three bytes in the chosen order and touches nothing after them |
| TclServer.FlagByte | src/tcl_server.c:41-42 | the flag byte `~flag` always has its top two bits set, and its other bits are the complemented top two bits of blue, green and red |
| TclServer.RangeEnd | src/tcl_server.c:38-40 | a device's range stops at `count`, and at `last + 1` when `last` is set and below `count` |
| TclServer.Covered | src/tcl_server.c:38-40 | device (first, last) covers the pixels from `first` in increasing order, as many as the range allows |
| TclServer.DeviceFrame | src/tcl_server.c:33-47 | a device frame is `4 + 4 * n` bytes for the n pixels covered, at most `4 + 4 * count` |
| TclServer.DeviceFrameLayout | src/tcl_server.c:33-47 | a device frame reads back, flags checked, as exactly the pixels the device covers |
| TclServer.FillDevice | src/tcl_server.c:33-47 | the device buffer receives its frame, `buffer_lens[c]` is its length, and the bytes of the buffer past the frame are unchanged |
| TclServer.EmitLed | src/tcl_server.c:41-45 | one round appends the next covered pixel's complemented flag, blue, green and red bytes to the frame built so far |
| TclServer.Devices.constructor | src/tcl_server.c:18-23 | the static tables start zeroed, with no device |
| TclServer.Devices.PutPixels | src/tcl_server.c:25-52 | every device's frame is built before any write, devices without a number keep their buffers and lengths, and device c's writes are the blocks of its frame, in device order |
| TclServer.Devices.BuildAll | src/tcl_server.c:32-48 | the first loop leaves every device holding its frame, and the buffers and lengths of devices without a number unchanged |
| TclServer.Devices.BuildOne | src/tcl_server.c:33-47 | one round builds device c's frame and changes no other device's buffer or length |
| TclServer.Devices.WriteAll | src/tcl_server.c:49-51 | the second loop writes each device's frame, in device order |
| TclServer.ParseInt | src/tcl_server.c:54-56 | `atoi(str)` when the text starts with a digit, else the fallback |
| TclServer.ChannelSpecPath | src/tcl_server.c:58-75 | a spec without a colon is all path, first 0 and last -1 |
| TclServer.ChannelSpecFirst | src/tcl_server.c:67-74 | "path:first" reads back as the path, that first and last -1 |
| TclServer.ChannelSpecRange | src/tcl_server.c:67-74 | "path:first-last" reads back as written |
| TclServer.ChannelSpecParts | src/tcl_server.c:67-74 | the path is the text before the first colon, first is read after it and last after the first hyphen there |
| TclServer.DevicesAsWritten | src/tcl_server.c:83-101 | with specs, one device per argument after the port; without, exactly one device /dev/spidev1.0 from pixel 0 onward |
| TclServer.TooManyDevices | src/tcl_server.c:18-87 | as written, fourteen arguments give eleven devices, one more than the ten-slot tables hold |
| TclServer.SetupDevices | src/tcl_server.c:83-101 | corrected: more than ten specs, or a spec whose first or last pixel does not fit an `int`, are refused; otherwise one to ten devices, the same as written, each starting at a pixel index of at least 0 |
| TclServer.SpecsInRange | src/tcl_server.c:83-101 | when every spec's numbers fit an `int`, every device set up starts at a pixel index of at least 0 and ends at -1 or later |
| TclServer.ParseChannelSpecChecked | src/tcl_server.c:58-75 | corrected: a spec is refused exactly when its first or last text overflows an `int`; otherwise it reads as written, with first at least 0 and last at least -1 |
| TclServer.DigitLedNonNegative | src/tcl_server.c:54-56 | a number text that starts with a digit has no sign, so strtol reads it as non-negative |
| TclServer.ParseIntFits | src/tcl_server.c:54-56 | when the number fits an `int`, `parse_int` of a digit-led text is strtol's value, between 0 and INT_MAX |
| TclServer.WrappedFirst | src/tcl_server.c:54-88 | as written, a spec `path:n` with n from 2^31 to 2^32 - 1 gives a device whose first pixel is the negative `n - 2^32`, and `main` keeps it; the corrected set-up refuses it |
| TclServer.Devices.Setup | src/tcl_server.c:83-88 | the table-filling loop on the corrected set-up: it fails, storing nothing, exactly when the set-up refuses; otherwise device c gets the c-th spec's first and last, so every first is at least 0 |
| TclLegacy.SameAsFullRange | tcl_server.c:61-72 | the legacy frame is the newer server's frame for a device covering every pixel: four zeros and `~flag, b, g, r` per pixel, `4 + 4 * count` bytes |
| TclLegacy.PutPixels | tcl_server.c:25-74 | the buffer, sized for 21845 pixels, receives the frame, the bytes after it are unchanged, and `4 + 4 * count` bytes go to `spi_write` in its blocks |
| TclLegacy.Port | tcl_server.c:113 | without `argv[2]` the port is 7890 |
| TclLegacy.PortReadBack | tcl_server.c:113 | a port given in decimal is read back unchanged |
| TclLegacy.Sent | tcl_server.c:76-79 | the handler sends at most one frame per poll |
| TclLegacy.SentPrefix | tcl_server.c:76-120 | a prefix of the polls sends a prefix of the frames |
| TclLegacy.SentAt | tcl_server.c:76-120 | a poll that completes a message sends exactly that message's frame, right after the earlier polls' frames; a poll that completes none sends nothing |
| TclLegacy.ServerMain | tcl_server.c:76-126 | no poll without a source; otherwise the loop stops after the first receive that returns 0, or when the polls run out all returning 1; every message completed during the polls made goes through `spi_put_pixels` to `spi_write`, in order; then one frame of a single diagnostic pixel is written |
| TclLegacy.ClosingFrame | tcl_server.c:122-126 | from 1970 on that pixel has exactly one channel at 64, chosen by `t % 3` |
| DummyClient.NextTokenShape | src/dummy_client.c:46-62 | the next `strtok` token follows delimiters only, holds no delimiter and ends at one or at the end of the text; when there is none only delimiters are left |
| DummyClient.TokensAreWords | src/dummy_client.c:46-63 | no token is empty or holds a blank, tab, carriage return or newline |
| DummyClient.StrToLHex | src/dummy_client.c:50-55 | `strtol(token, NULL, 16)` reads a token of hex digits as the number they spell |
| DummyClient.TokenHex | src/dummy_client.c:49-58 | a token of 3 or 6 hex digits is read, as a u32, as the number it spells |
| DummyClient.SixDigitToken | src/dummy_client.c:54-58 | a 6-digit token sets red, green and blue to bits 16-23, 8-15 and 0-7: its first, middle and last two digits |
| DummyClient.ThreeDigitToken | src/dummy_client.c:49-53 | a 3-digit token sets each channel to its digit times 0x11 |
| DummyClient.HexTextRoundTrip | src/dummy_client.c:54-58 | every pixel written as `rrggbb` is read back as itself |
| DummyClient.StoreAt | src/dummy_client.c:47-63 | corrected token loop (as written, tokens past the array are stored past it; see `DummyClient.StoresPastArray`): slot i holds token i's pixel when that token sets one, keeps what it held when the token has another length, and slots past the tokens are untouched |
| DummyClient.LineStep | src/dummy_client.c:41-76 | corrected token loop (as written, tokens past the array are stored past it; see `DummyClient.StoresPastArray`): a line that does not start with an integer makes no call and changes nothing; every line keeps the array's size |
| DummyClient.LineStepSends | src/dummy_client.c:45-75 | corrected token loop (as written, tokens past the array are stored past it; see `DummyClient.StoresPastArray`): the count sent is the number of tokens, every token counting, and each slot sent holds its token's pixel or, for another length, what it held before |
| DummyClient.Run | src/dummy_client.c:40-77 | corrected token loop (as written, tokens past the array are stored past it; see `DummyClient.StoresPastArray`): the lines in turn keep the array's size |
| DummyClient.RunSnoc | src/dummy_client.c:40-77 | corrected token loop (as written, tokens past the array are stored past it; see `DummyClient.StoresPastArray`): one more line adds exactly that line's call, if any |
| DummyClient.RunCallCount | src/dummy_client.c:42-75 | corrected token loop (as written, tokens past the array are stored past it; see `DummyClient.StoresPastArray`): one `opc_put_pixels` call per line that starts with an integer, in order, with that integer as channel |
| DummyClient.ReadLine | src/dummy_client.c:41-76 | corrected token loop (as written, tokens past the array are stored past it; see `DummyClient.StoresPastArray`): the body of the line loop computes exactly `LineStep`, in place on the array |
| DummyClient.ReadTokens | src/dummy_client.c:45-63 | corrected: the token loop fills one slot per token from slot 0 and stops when the tokens or the slots run out |
| DummyClient.TokensTaken | src/dummy_client.c:47-63 | when the loop stops it has taken exactly the first Min(tokens, slots) tokens |
| DummyClient.SetSlot | src/dummy_client.c:51-58 | the three field stores set the slot to the token's pixel, or leave it for another length |
| DummyClient.ReadLines | src/dummy_client.c:40-77 | corrected token loop (as written, tokens past the array are stored past it; see `DummyClient.StoresPastArray`): while the sink handle is valid the lines go through `LineStep` in turn; with an invalid handle nothing is sent or changed |
| DummyClient.ClientMain | src/dummy_client.c:20-78 | corrected token loop (as written, tokens past the array are stored past it; see `DummyClient.StoresPastArray`): fewer than 2 arguments return 1 and send nothing; otherwise status 0 and, if the sink was created, the calls and array of `Run` |
| DummyClient.OverflowWrites | src/dummy_client.c:45-63 | as written, the only slot stored for the line `0 f f … f fff` with n short tokens is slot n |
| DummyClient.OverflowScan | src/dummy_client.c:42 | that line starts with channel 0, one character in |
| DummyClient.StoresPastArray | src/dummy_client.c:17-63 | as written, a line that fits the `fgets` buffer makes the loop store a pixel in slot 21845, one past the end of `pixels` |
| DummyLegacy.LegacyMain | dummy_client.c:5-63 | corrected token loop (as written, see `DummyLegacy.StoresPastArray`): fewer than 2 arguments return 1 and send nothing; otherwise, while the sink is valid, each line starting with an address is read and sent as in the newer client |
| DummyLegacy.StoresPastArray | dummy_client.c:7-48 | as written, a line that fits the 240000-character buffer stores a pixel in slot 60000, one past the end of `pixels` |
| GlServer.Apply | src/gl_server.c:268-277 | the assignments keep the pixel array's size |
| GlServer.HandlerAt | src/gl_server.c:265-277 | after a frame, a pixel is unchanged when the channel is above `num_channels` or no written channel covers it, and otherwise holds the frame's pixel of the last iteration that wrote it |
| GlServer.WritesAt | src/gl_server.c:268-277 | after the first n iterations a pixel holds the frame pixel of the last iteration that wrote it, or its old value |
| GlServer.RowAt | src/gl_server.c:269-276 | iteration i sets pixel k to `p[i]` exactly when a written channel starts at `k - i` |
| GlServer.ApplyConcat | src/gl_server.c:268-277 | doing two runs of assignments one after the other is doing their concatenation |
| GlServer.LastRow | src/gl_server.c:268-277 | the last iteration writing a pixel is one of the iterations made |
| GlServer.LastRowMeaning | src/gl_server.c:268-277 | no iteration writes a pixel exactly when no written channel covers it; otherwise the last one is that of the lowest-starting channel covering it |
| GlServer.DisjointRow | src/gl_server.c:268-277 | when the written channels do not overlap, a pixel of channel j holds frame pixel `k - offset[j]`; a frame for one channel always does |
| GlServer.ShapesStep | src/gl_server.c:347-379 | one item adds its shapes ahead of the shapes of the items after it |
| GlServer.ShapeCount | src/gl_server.c:346-380 | one shape per point or line geometry, at most two per item |
| GlServer.ConsecutiveShapes | src/gl_server.c:347-379 | items without `index`, each a point or a line, put shape m on pixel `offset + next + m` |
| GlServer.Lit | src/gl_server.c:381-383 | the intended initialisation keeps the array's size |
| GlServer.LitAsWritten | src/gl_server.c:381-383 | the initialisation as written keeps the array's size |
| GlServer.LaterChannelUnlit | src/gl_server.c:340-383 | as written, the loop from the offset to the shape count agrees with the intended one on the first channel, but lights none of a later channel that is no larger than the channels before it |
| GlServer.Offsets | src/gl_server.c:340-390 | one offset per channel loaded |
| GlServer.OffsetsFollow | src/gl_server.c:340-390 | the channels follow each other without overlapping, each starting at or after the base and ending within the total |
| GlServer.BroadcastDisjoint | src/gl_server.c:269-273 | a broadcast no longer than the smallest layout writes channels that do not overlap |
| GlServer.UninitialisedPort | src/gl_server.c:402-435 | as written, without `-p` the port is whatever the stack held: a value of 1234 makes the simulator listen on 1234 |
| GlServer.PortChoice | src/gl_server.c:424-435 | corrected, with `port` starting at 0: no `-p` gives 7890, and the last `-p n` gives n |
| GlServer.NoPort | src/gl_server.c:412-430 | without `-p` the port keeps its starting value |
| GlServer.LastPort | src/gl_server.c:424-426 | the last `-p` decides the port |
| GlServer.ParseOptions | src/gl_server.c:412-433 | corrected, with `port` starting at 0 (as written, it is uninitialised; see `GlServer.UninitialisedPort`): status 1 exactly for an unknown option, more than ten layouts or none; otherwise the layout files in order, one to ten, and the port |
| GlServer.PathsGrow | src/gl_server.c:416-423 | the layouts of a prefix of the options are a prefix of the layouts |
| GlServer.Simulator.constructor | src/gl_server.c:46-126 | the globals start zero: black pixels, zero offsets, no channel, pixel or shape |
| GlServer.Simulator.Handler | src/gl_server.c:248-278 | the pixel array becomes exactly the frame's assignments applied in order: every channel's pixels for channel 0, channel c's for c ≥ 1 |
| GlServer.Simulator.WriteFrame | src/gl_server.c:268-277 | the loop over the frame's pixels applies every iteration's assignments in order |
| GlServer.Simulator.WriteRow | src/gl_server.c:269-276 | one iteration writes pixel i of the frame to every channel for channel 0, or to channel c's pixels for c ≥ 1 |
| GlServer.Simulator.WriteBroadcast | src/gl_server.c:271-273 | pixel i of the frame goes to every channel |
| GlServer.Simulator.WriteChannel | src/gl_server.c:275 | pixel i of the frame goes to its channel |
| GlServer.Simulator.LoadLayout | src/gl_server.c:317-384 | corrected lighting (as written, only pixels below the shape count are lit; see `GlServer.LitAsWritten` and `GlServer.LaterChannelUnlit`): an unreadable layout exits and changes nothing; otherwise the channel's offset is the old pixel count, the shapes are appended, the pixel count grows by the shapes added, and those pixels are lit |
| GlServer.Simulator.AddShapes | src/gl_server.c:346-379 | the items' shapes are appended, numbered from 0, and their number is returned |
| GlServer.Simulator.LightPixels | src/gl_server.c:381-383 | corrected: the channel's own pixels are dimly lit and no others change |
| GlServer.Simulator.Init | src/gl_server.c:386-390 | the layouts load as channels 0, 1, … in order; status 1 exactly when one cannot be read; the offsets and pixel count are those of `Offsets` |
| GlServer.Simulator.InitChannel | src/gl_server.c:388-390 | one pass loads channel c right after channels 0 to c - 1 |
| GlServer.Simulator.Start | src/gl_server.c:401-436 | corrected, with `port` starting at 0 (as written, it is uninitialised; see `GlServer.UninitialisedPort`): a usage error exits with status 1 and changes nothing; otherwise one channel per `-l` file, status 1 when a file cannot be read, else the port opened |
| GlServer.LoadedStep | src/gl_server.c:340-380 | loading one more layout appends it, starts its channel where the others end, and adds its shapes to the pixel count |
| ObjFile.CapacityBounds | models/objfile.c:16-22 | after n appends the capacity holds the n items, is a multiple of 16, and is at most 16 or twice what is needed |
| ObjFile.Growable.constructor | models/objfile.c:8-14 | `array_new` gives an empty array of the element size, with no storage |
| ObjFile.Growable.Append | models/objfile.c:16-22 | the item is stored after the others, the count grows by one, and a full array gets capacity 16 or double |
| ObjFile.Growable.Set | models/objfile.c:210 | an assignment through the items pointer changes only that item |
| ObjFile.FirstInMeaning | models/objfile.c:128 | the position found is the first delimiter after `i`, and none is found exactly when there is no delimiter |
| ObjFile.Strsep | models/objfile.c:128 | a NULL string gives a NULL token and remainder; otherwise the token is never NULL |
| ObjFile.StrsepSplits | models/objfile.c:128 | `strsep` on delimiter-free text, a delimiter and more text returns that text and leaves the rest |
| ObjFile.StrsepWhole | models/objfile.c:128 | text without a delimiter is returned whole and the remainder becomes NULL |
| ObjFile.StrsepRejoins | models/objfile.c:128 | token, the delimiter that ended it and the remainder make up the text, and the token holds no delimiter |
| ObjFile.CommandPrefix | models/objfile.c:129-173 | `v`, `vt`, `vn`, `f`, `mtllib`, `g` and `usemtl` select their branches, and only the first two characters of a command decide the branch |
| ObjFile.RefOf | models/objfile.c:151-153 | an index read as 0 gives a NULL pointer; any other index x points at element x - 1 |
| ObjFile.SlashFields | models/objfile.c:148-150 | a corner token's fields give exactly the requested count of numbers |
| ObjFile.ParseCorners | models/objfile.c:146-154 | when the three corner tokens parse, there are exactly three corners |
| ObjFile.Lookup | models/objfile.c:164-172 | the material found is an index into the material array |
| ObjFile.LookupMeaning | models/objfile.c:164-172 | the material selected is the first with the name, and none is selected exactly when no material has that name |
| ObjFile.RunStep | models/objfile.c:126-175 | reading one more line applies that line's step to the state so far |
| ObjFile.NumberedAppend | models/objfile.c:130-144 | appending a vector numbered `count + 1` keeps every element numbered by its 1-based position |
| ObjFile.ReadStepWellFormed | models/objfile.c:129-173 | every branch of the line switch keeps indices 1-based, faces at three corners, and material pointers inside the material array |
| ObjFile.RunWellFormed | models/objfile.c:126-175 | an object read from any lines has 1-based indices, three corners per face, and materials that point into the material array |
| ObjFile.LibStaysUndefined | models/objfile.c:41-85 | once a library line is undefined, reading more lines does not make the library defined again |
| ObjFile.LibraryCount | models/objfile.c:41-86 | `mtllib_read` appends one material per `newmtl` line, including the last one, which is stored after the loop |
| ObjFile.Obj.constructor | models/objfile.c:118-124 | a new object has no library name and five empty arrays |
| ObjFile.Obj.ReadLine | models/objfile.c:126-174 | one pass of the line loop applies that line's step to the object, and it reports when the line is undefined |
| ObjFile.Obj.ReadFace | models/objfile.c:145-157 | an `f` line appends one face with the current material |
| ObjFile.Obj.ReadMtlLib | models/objfile.c:158-161 | an `mtllib` line stores the library name and appends the library's materials |
| ObjFile.Obj.ReadMaterial | models/objfile.c:162-173 | a `g` or `usemtl` line selects the first material with that name, or none |
| ObjFile.Obj.FirstFaceWithoutVertex | models/objfile.c:179-193 | finds the first face with one of its first three corner vertex pointers NULL or outside the vertex array, where the normals loop would read through an invalid pointer, or none when there is no such face |
| ObjFile.FacePastVertices | models/objfile.c:145-185 | an `f` line naming vertices past those read so far (`f 5 6 7` after three `v` lines) is stored as a face, and that face is one whose vertex pointers the normals loop cannot follow |
| ObjFile.ReadCorners | models/objfile.c:146-154 | the corner loop gives the three corners, or None when a token is NULL |
| ObjFile.CornersLoopStep | models/objfile.c:146-154 | one pass of the corner loop keeps the rest of the parse equal to the whole |
| ObjFile.FindMaterial | models/objfile.c:165-172 | the search loop finds the first material with the name, or none |
| ObjFile.ReadLibrary | models/objfile.c:29-88 | `mtllib_read` appends the names of the library's materials in file order, and fails on an undefined line: a `newmtl` without a name, or a colour, alpha, exponent or texture-map line that ends without a newline right after its command, so that NULL goes to `sscanf` or `strdup` |
| ObjFile.BareColourLine | models/objfile.c:41-61 | a bare `Kd` as the last line of a library, without its newline, makes the library undefined, while the same line with its newline changes nothing |
| ObjFile.ObjRead | models/objfile.c:101-195 | an unopenable file gives NULL; otherwise the object holds the state the lines build, reading stops at the first undefined line, and the object is loaded only when each face's first three vertex pointers point into the vertex array; otherwise the normals loop reports the first face whose pointer is NULL or out of range |
| ObjFile.CoordLines | models/objfile.c:207-221 | one coordinate line per vector, in order |
| ObjFile.Positions | models/objfile.c:207-221 | after renumbering, element i has index i + 1 |
| ObjFile.NullMaterialSwitch | models/objfile.c:222-227 | a face without a material after a face with one makes obj_write as written follow a NULL material pointer, while the corrected version writes both faces |
| ObjFile.SampleFaceText | models/objfile.c:228-241 | three corners that name vertex 1 only are printed as ` 1 1 1` |
| ObjFile.WrittenDefined | models/objfile.c:197-244 | the corrected obj_write is defined for every object whose corners and materials name entries inside their arrays |
| ObjFile.FacesDefined | models/objfile.c:222-242 | the face loop is defined on in-range faces |
| ObjFile.CornersDefined | models/objfile.c:229-240 | the corner loop is defined on in-range corners |
| ObjFile.Renumber | models/objfile.c:207-221 | the loop writes one coordinate line per vector and gives each vector its 1-based position as index |
| ObjFile.WriteCorners | models/objfile.c:229-240 | the corner loop prints the renumbered indices, or stops at a NULL or stray pointer |
| ObjFile.CornersStayUndefined | models/objfile.c:229-240 | once the corner loop dereferences a bad pointer, the face's text stays undefined |
| ObjFile.FacesStayUndefined | models/objfile.c:222-242 | once a face is undefined, the file stays undefined |
| ObjFile.WriteCoords | models/objfile.c:206-221 | writes the library line and the coordinate lines, and renumbers all three vector arrays |
| ObjFile.SwitchMaterial | models/objfile.c:224-227 | corrected (as written, a switch to no material dereferences NULL; see `ObjFile.NullMaterialSwitch`): a `usemtl`/`g` pair is written exactly when the face's material differs from the last one, and a switch to no material writes nothing, so a face without a material that follows one with a material reads back with that earlier material |
| ObjFile.WriteFace | models/objfile.c:224-241 | one face's lines are its material switch and then its corner text |
| ObjFile.ObjWrite | models/objfile.c:197-244 | obj_write renumbers the vectors in place and writes the lines of the corrected file function |
| ObjFile.WriteFaces | models/objfile.c:222-242 | the face loop writes the lines of every face in order |
| ObjFile.RefOfDecimal | models/objfile.c:148-153 | an index printed with `%d` reads back through `atoi` as the element it names |
| ObjFile.FieldsFull | models/objfile.c:148-150 | a `v/vt/vn` token gives all three fields |
| ObjFile.FieldsTexture | models/objfile.c:148-150 | a `v/vt` token gives no normal |
| ObjFile.FieldsNormal | models/objfile.c:148-150 | a `v//vn` token gives no texture coordinate |
| ObjFile.FieldsVertex | models/objfile.c:148-150 | a plain `v` token gives only the vertex |
| ObjFile.TokenShape | models/objfile.c:231-239 | the four shapes of a printed corner: `v/vt/vn`, `v/vt`, `v//vn` and `v` |
| ObjFile.FullReadsBack | models/objfile.c:148-153 | printed `p/q/r` reads back as vertex p - 1, texture q - 1 and normal r - 1 |
| ObjFile.TextureReadsBack | models/objfile.c:148-153 | printed `p/q` reads back with no normal |
| ObjFile.NormalReadsBack | models/objfile.c:148-153 | printed `p//r` reads back with no texture coordinate |
| ObjFile.VertexReadsBack | models/objfile.c:148-153 | printed `p` reads back as vertex p - 1 only |
| ObjFile.CornerReadsBack | models/objfile.c:148-153 | a corner token obj_write prints reads back as the same corner |
| ObjFile.TokenAvoidsSpaces | models/objfile.c:231-239 | a printed corner token holds no white space |
| ObjFile.ParseCornersFrom | models/objfile.c:146-154 | a list of corner tokens parses as its first token's corner, then the rest |
| ObjFile.TokensSplit | models/objfile.c:146-154 | three tokens separated by spaces and ended by a newline parse as their three corners |
| ObjFile.CommandLine | models/objfile.c:128 | `strsep` cuts a command from the rest of its line at the first space |
| ObjFile.FaceCommand | models/objfile.c:145-157 | an `f` line whose corners parse appends that face with the current material |
| ObjFile.CornerTextToken | models/objfile.c:229-240 | the text printed for an in-range corner is a space and the corner's token |
| ObjFile.ThreeCornersText | models/objfile.c:229-240 | three in-range corners are printed as their tokens, each after a space |
| ObjFile.FaceLineReadsBack | models/objfile.c:145-157 | a face line obj_write prints reads back as a face with the same three corners and the current material |
| ObjFile.MaterialLineReadsBack | models/objfile.c:162-173 | the `usemtl` and `g` lines obj_write prints select the first material with that name when read back |
| ObjFile.MaterialKeyword | models/objfile.c:162-173 | either keyword followed by a name and a newline selects the first material with that name |
| PyOpcClient.ComponentByte | python_clients/opc_client.py:66-68 | a component is truncated toward zero, then sent as that value when it is in 0..255, as 0 below and as 255 above |
| PyOpcClient.Colours | python_clients/opc_client.py:65-69 | one clamped pixel per colour, in list order |
| PyOpcClient.Message | python_clients/opc_client.py:61-70 | the message fails exactly when the channel is outside 0..255 or the length high byte is above 255, and has 4 + 3n bytes otherwise |
| PyOpcClient.JoinAppend | python_clients/opc_client.py:70 | joining the pieces with one more appended is the old join followed by that piece |
| PyOpcClient.PutPixels | python_clients/opc_client.py:61-70 | the loop builds exactly the message of the header and the clamped colours, or fails where `chr` raises |
| PyOpcClient.PiecesStep | python_clients/opc_client.py:65-69 | appending colour i's piece keeps the joined pieces equal to the header and the first i + 1 colours |
| PyOpcClient.MessageDecodes | python_clients/opc_client.py:61-70 | an OPC receiver reads the message back as one SET_PIXELS frame for the channel carrying the clamped colours, taking exactly 4 + 3n bytes |
| PyOpcClient.MessageComponents | python_clients/opc_client.py:65-69 | byte 4 + 3i + k is component k of colour i, truncated and clamped |
| PyOpcClient.MessageHeader | python_clients/opc_client.py:61-63 | the first four bytes are the OPC header for SET_PIXELS with 3n data bytes |
| PyOpcClient.ColonsConcat | python_clients/opc_client.py:39 | the colons of a concatenation are those of its parts |
| PyOpcClient.NoColons | python_clients/opc_client.py:39 | a count of zero colons means the text holds no colon, and back |
| PyOpcClient.SocketAddress | python_clients/opc_client.py:39-40 | the split fails unless there is exactly one colon, and the host it gives holds no colon |
| PyOpcClient.AddressRoundTrip | python_clients/opc_client.py:39-40 | "host:port" with a colon-free host gives the host and the port back |
| PyOpcClient.SplitAt | python_clients/opc_client.py:39 | the split at the first colon gives the colon-free host and the rest |
| PyOpcClient.Clamp | python_clients/opc_client.py:87-89 | the result is x inside the range, minn below it and maxx above it; minn wins when the range is empty |
| PyOpcClient.ComponentIsClamp | python_clients/opc_client.py:66-68 | put_pixels' `min(255, max(0, int(x)))` is `clamp(int(x), 0, 255)` |
| ExampleClient.SendColors | example_clients/opc_client.py:35-45 | the command fails exactly when `chr` raises; otherwise it is the SET_PIXELS header for 3n bytes and then each colour's components truncated and clamped, and it is the message put_pixels builds |
| OpcMatrix.VikTetrisRaises | python_clients/opcmatrix/__init__.py:24-38 | as written, constructing a VikTetrisMatrixDriver always raises, because the inherited Tetris `__init__` resolves `super(self.__class__, self)` back to itself and calls itself with two arguments; every other class constructs as intended |
| OpcMatrix.DriverSizes | python_clients/opcmatrix/__init__.py:12-52 | corrected (as written, `VikTetrisMatrixDriver()` raises; see `OpcMatrix.VikTetrisRaises`): a MatrixDriver takes any width and height, the Tetris drivers are 10 by 20, the Freespace driver is 25 by 25, and other argument counts raise |
| OpcMatrix.GetIdxAsWritten | python_clients/opcmatrix/__init__.py:18-21 | IndexError is raised exactly when x is above the width or y above the height |
| OpcMatrix.GetIdx | python_clients/opcmatrix/__init__.py:18-21 | corrected `>=` guard: IndexError is raised exactly for positions past the last column or row |
| OpcMatrix.Index | python_clients/opcmatrix/__init__.py:18-52 | every grid position maps to one of the `width * height` pixels |
| OpcMatrix.StripBounds | python_clients/opcmatrix/__init__.py:21-52 | each of the four index expressions stays inside the pixels for grid positions |
| OpcMatrix.ColumnBounds | python_clients/opcmatrix/__init__.py:21 | row r of column c counted column after column is one of the `w * h` pixels |
| OpcMatrix.EdgeAliases | python_clients/opcmatrix/__init__.py:18-21 | with `>`, the position one past the last row of column 0 is let through and names the same pixel as the first row of column 1 |
| OpcMatrix.SlotIndex | python_clients/opcmatrix/__init__.py:32-52 | each driver's index is a column-after-column slot inside the grid |
| OpcMatrix.SlotInjective | python_clients/opcmatrix/__init__.py:32-52 | different grid positions occupy different slots |
| OpcMatrix.ColumnRow | python_clients/opcmatrix/__init__.py:21 | column-after-column numbering never lets a row reach the next column |
| OpcMatrix.IndexInRange | python_clients/opcmatrix/__init__.py:18-52 | on the grid both guards agree, never raise, and give an index in `[0, w * h)` |
| OpcMatrix.IndexDistinct | python_clients/opcmatrix/__init__.py:18-52 | different grid positions get different pixel indices, for every driver |
| OpcMatrix.Entry | python_clients/opcmatrix/__init__.py:84 | indexing the list raises exactly when getidx raised or the index is outside `[-n, n)`, and otherwise gives one of the pixels |
| OpcMatrix.Store | python_clients/opcmatrix/__init__.py:88 | assigning through an index succeeds exactly where reading it does, keeps the length, and the entry then reads back as the new pixel |
| OpcMatrix.Read | python_clients/opcmatrix/__init__.py:83-84 | as written, through the `>` guard: past the width or height it raises, and a pixel read is one of the matrix's pixels |
| OpcMatrix.ReadOnGrid | python_clients/opcmatrix/__init__.py:83-84 | on the grid a read never raises and gives the entry at the driver's index, and the written and the corrected guards read and write alike |
| OpcMatrix.Write | python_clients/opcmatrix/__init__.py:86-91 | as written, through the `>` guard: a write keeps the length, the position then reads back as the new pixel, and it succeeds exactly when a read at the same position does |
| OpcMatrix.ReadChecked | python_clients/opcmatrix/__init__.py:83-84 | corrected read through the `>=` guard: every position past the last column or row raises |
| OpcMatrix.WriteChecked | python_clients/opcmatrix/__init__.py:86-91 | corrected write through the `>=` guard: positions past the last column or row raise; otherwise the pixel reads back and the length stays |
| OpcMatrix.EdgeWriteAliases | python_clients/opcmatrix/__init__.py:18-21 | as written, `setpixel(0, height)` on a matrix at least two columns wide succeeds and overwrites the first pixel of column 1; the corrected write refuses it |
| OpcMatrix.ReadAfterWrite | python_clients/opcmatrix/__init__.py:83-91 | a pixel written on the grid reads back, and every other grid pixel keeps its colour |
| OpcMatrix.Matrix.constructor | python_clients/opcmatrix/__init__.py:59-65 | a new matrix has the driver's size and `width * height` black pixels |
| OpcMatrix.Matrix.Fill | python_clients/opcmatrix/__init__.py:67-69 | every pixel becomes the colour and the count stays |
| OpcMatrix.Matrix.Clear | python_clients/opcmatrix/__init__.py:77-78 | every pixel becomes black |
| OpcMatrix.Matrix.GetPixel | python_clients/opcmatrix/__init__.py:83-84 | through the `>` guard as written: on the grid the read gives the pixel at the driver's index, past the width or height it raises, and it raises exactly where a write would |
| OpcMatrix.Matrix.SetPixel | python_clients/opcmatrix/__init__.py:86-91 | through the `>` guard as written: the pixel list becomes the written list; on IndexError nothing changes and the error is reported |
| OpcMatrix.FrameDelay | python_clients/opcmatrix/__init__.py:111-131 | `renderloop` raises exactly when `fps <= 0`; otherwise the pauses of one update add up to `1 / fps` |
| Pong.ColumnMajorAt | python_clients/pong.py:72-77 | with every column h cells long, the rendered list has `w * h` pixels and cell y of column x is pixel `x * h + y` |
| Pong.ColumnMajorStep | python_clients/pong.py:74-76 | rendering one more column appends that column's cells |
| Pong.Matrix.constructor | python_clients/pong.py:54-59 | a new matrix has `width` columns of `height` black cells |
| Pong.Matrix.Fill | python_clients/pong.py:61-64 | every cell becomes the colour |
| Pong.Matrix.Clear | python_clients/pong.py:66-67 | every cell becomes black |
| Pong.Matrix.Test | python_clients/pong.py:69-70 | every cell becomes red |
| Pong.Matrix.Render | python_clients/pong.py:72-77 | the pixels handed to `put_pixels` are the columns one after another, so pixel `x * height + y` is cell y of column x |
| Pong.Fade | python_clients/pong.py:107 | a non-negative component fades to a smaller non-negative one, and never grows |
| Pong.Rain | python_clients/pong.py:100-108 | the update keeps the number of columns |
| Pong.RainScrolls | python_clients/pong.py:100-108 | columns at least two cells long scroll up by one and keep their length: a green drop or a faded copy of the last cell enters at the bottom, and no error is raised |
| Pong.RainShortColumns | python_clients/pong.py:102-106 | an empty column raises IndexError at `pop`, and a one-cell column raises at `[-1]` unless the draw makes a green drop |
| Pong.MatrixMatrix.constructor | python_clients/pong.py:81-84 | the rain matrix starts with a grid of the given size |
| Pong.MatrixMatrix.Update | python_clients/pong.py:100-108 | the loop leaves the columns the rain function gives, and reports when IndexError ends it |
| Pong.StartRow | python_clients/pong.py:120-121 | the paddles start centred: `(height - 4) / 2` rounded down, inside the column, with at most one row more below than above |
| Pong.PlayerStepInPlay | python_clients/pong.py:123-129 | a paddle in play stays inside the column and moves by exactly its new direction |
| Pong.PlayerBounces | python_clients/pong.py:125-129 | a paddle turns round exactly when the next step would leave the column |
| Pong.Player.constructor | python_clients/pong.py:114-116 | a player holds its row and direction |
| Pong.PongMatrix.constructor | python_clients/pong.py:81-84 | both paddles start at the centred row, the first moving down and the second up, on a black grid; they are in play when the column is longer than a paddle |
| Pong.PongMatrix.UpdatePlayers | python_clients/pong.py:123-129 | each paddle takes one step, first then second |
| Pong.PongMatrix.Update | python_clients/pong.py:131-141 | the paddles step, the end columns show white on exactly the paddles' rows and black elsewhere, and the other columns keep their cells |
| Pong.PongMatrix.BlankEnds | python_clients/pong.py:135-137 | every cell of the first and last columns becomes black, and the columns between keep their cells |
| Pong.PongMatrix.PaintPaddles | python_clients/pong.py:139-141 | on black end columns, exactly the first paddle's rows of the first column and the second paddle's rows of the last become white; a single column shows both paddles |
| Conway.Drawn | python_clients/conway.py:40-46 | the board the draws determine: cell (x, y) is 1 when its draw is 0 and the fill value otherwise, on all 625 cells |
| Conway.RandBoard | python_clients/conway.py:40-46 | as written: a 25 by 25 board whose cell (x, y) is 1 when its draw is 0 and keeps the string '0' otherwise, which is `Drawn` with the string '0' as fill |
| Conway.RandBoardChecked | python_clients/conway.py:40-46 | corrected (as written, see `Conway.RandBoard`): the list starts filled with 0, so the board is `Drawn` with 0 as fill and every cell whose draw is not 0 is dead |
| Conway.InNeighbourhood | python_clients/conway.py:48-58 | the square counted is the live on-board cells within one column and one row of (x, y) |
| Conway.VisitedAll | python_clients/conway.py:50-57 | after the nine offsets the loop has visited the whole square |
| Conway.VisitStep | python_clients/conway.py:53-57 | visiting an offset adds its cell when that cell is live and on the board, and the cell was not counted before |
| Conway.VisitCount | python_clients/conway.py:56-57 | the count grows by one exactly when the visited cell is live |
| Conway.SkipColumn | python_clients/conway.py:51-52 | a column of the square that lies off the board adds nothing |
| Conway.CountCellNeighbor | python_clients/conway.py:48-58 | on the board, the count is the number of live cells in the 3 by 3 square centred on the cell, the cell itself included, and never reads off the board |
| Conway.CountsItself | python_clients/conway.py:48-58 | a cell is in its own count exactly when it holds 1 |
| Conway.NextCell | python_clients/conway.py:65-68 | a cell becomes 1 exactly for a count of 3, or 2 on a live cell; it keeps the string '0' exactly for a count of 2 on a cell that is not alive; every other count gives 0 |
| Conway.Tick | python_clients/conway.py:60-69 | the new board has the same size, and every cell is its next state from the old board's count |
| Conway.TickCell | python_clients/conway.py:64-68 | one round stores the cell's next state from its count at the cell's own entry, which still holds the string '0', and leaves every other entry as it was |
| Conway.LonelyCellSurvives | python_clients/conway.py:64-68 | a live cell with one live neighbour survives, because its own cell is counted, where the Game of Life lets it die |
| Conway.LifeNeighbours | python_clients/conway.py:48-58 | a cell is never its own neighbour |
| Conway.LifeRule | python_clients/conway.py:60-69 | the corrected rule is B3/S23: a live cell lives on with 2 or 3 live neighbours, a dead one comes alive with exactly 3, and every other cell is 0 and shown dark |
| Conway.CountIsLifeCountPlusSelf | python_clients/conway.py:48-58 | the count tick uses is the Game of Life neighbour count plus one for a live cell |
| Conway.PixelifyBoard | python_clients/conway.py:71-75 | one pixel per cell, lit for every true cell and black otherwise |
| Conway.RandBoardAllLit | python_clients/conway.py:41-75 | as written, the first frame is lit on every one of the 625 cells, whatever the draws, because every cell of a `rand_board` board is true |
| Conway.CheckedBoardShownLive | python_clients/conway.py:40-75 | corrected: the first frame of the corrected board is lit exactly at the cells whose draw is 0, which are its live cells, and black everywhere else |
| Conway.PlaceholderDrawnLit | python_clients/conway.py:41-74 | the string '0' is true, so a placeholder cell left by rand_board or by tick with a count of 2 is drawn lit |
| Conway.PixelifyTriboard | python_clients/conway.py:77-83 | one pixel per position up to the shortest board, each component 130 where its board's cell is true and 0 elsewhere |
| Img2Opc.StripColumn | Processing/libraries/img2opc/src/Img2Opc.java:78 | column x of the display holds the strip slots `x * h` up to `x * h + h` |
| Img2Opc.ColumnsOrdered | Processing/libraries/img2opc/src/Img2Opc.java:78 | later columns start at later slots, a whole column further on |
| Img2Opc.StripInRange | Processing/libraries/img2opc/src/Img2Opc.java:75-81 | every display position has a triple after the header and inside the message |
| Img2Opc.StripInjective | Processing/libraries/img2opc/src/Img2Opc.java:78 | different display positions have different strip slots |
| Img2Opc.StripOnto | Processing/libraries/img2opc/src/Img2Opc.java:75-81 | every strip slot belongs to one display position, so the loops rewrite every byte after the header |
| Img2Opc.Header | Processing/libraries/img2opc/src/Img2Opc.java:46-54 | the header is channel 0, command 0 and a length field holding `numBytes` modulo 2^16 |
| Img2Opc.HeaderReadsBack | Processing/libraries/img2opc/src/Img2Opc.java:46-54 | the length field announces exactly the data that follows when `numBytes` is below 2^16, and then a receiver reads the message as one SET_PIXELS frame for channel 0 |
| Img2Opc.SourceRect | Processing/libraries/img2opc/src/Img2Opc.java:64-70 | the source square is `h` by `h` at the top, centred horizontally when the image is wider than tall, and covering the image otherwise |
| Img2Opc.Blank | Processing/libraries/img2opc/src/Img2Opc.java:61 | the first image sent has every pixel black |
| Img2Opc.Stored | Processing/libraries/img2opc/src/Img2Opc.java:79-81 | storing one position's triple keeps the message length |
| Img2Opc.WriteTriple | Processing/libraries/img2opc/src/Img2Opc.java:77-81 | storing position (x, y)'s triple makes it show its gamma-mapped pixel, keeps the header, and keeps what every other position shows |
| Img2Opc.FrameIndex | Processing/libraries/img2opc/src/Img2Opc.java:77 | pixel `x + y * w` of a `w` by `h` image is one of its pixels |
| Img2Opc.Img2Opc.constructor | Processing/libraries/img2opc/src/Img2Opc.java:30-62 | the message holds the header for `3 * w * h` bytes and shows a black image; the source square is set; the blank image is written when the client has an output stream |
| Img2Opc.Img2Opc.SetSourceSize | Processing/libraries/img2opc/src/Img2Opc.java:64-70 | the source rectangle becomes the centred square, and nothing else changes |
| Img2Opc.Img2Opc.SendImg | Processing/libraries/img2opc/src/Img2Opc.java:72-96 | every display position's triple holds its gamma-mapped pixel of the frame, the header is kept, and the message is written exactly when both the client and its output stream exist |
| Img2Opc.Img2Opc.StorePixel | Processing/libraries/img2opc/src/Img2Opc.java:77-81 | one iteration stores the gamma-mapped red, green and blue of position (x, y) at that position's place on the zigzag strip and changes no other byte |

## Left out

- **I/O.** The sockets, files and devices themselves are not modelled: `socket`, `connect`, `select`, `accept`, `recv`, `send`, `open`, `write`, `getaddrinfo`, `setsockopt`, `ioctl`, `fopen` and `fgets`. Each call's result is a parameter of the operation that makes it.
- **Timing.** Timeout values, `usleep`, `time.sleep` and `time(NULL)` are left out; the time is an input. The `tv_usec` computation beside the timeouts is not modelled.
- **Signals.** Saving and restoring the SIGPIPE handler is a process-level concern and is not modelled.
- **Undefined frame helpers.** `opc_frame_start`, `opc_frame_end` and `opc_stream_sync` use macros that no header defines, so they cannot be given a meaning.
- **SPI device setup.** `init_spidev`, `spi_transfer`, the `exit` in `opc_open_spi` and `atof` are thin device calls or floating point. The integer speed arguments are modelled.
- **Graphics.** All OpenGL and GLUT drawing, the camera, mouse handling and vector maths are graphics and floating point. The layout JSON parser is a library that is not shown: a layout is a list of items.
- **GlServer shape table.** The shape table's bound MAX_SHAPES (30000) is not modelled. Shapes are kept as a sequence, and a layout is only required to fit the pixel array.
- **OBJ numbers.** Coordinates, colours and texture values that `sscanf` and `%.12lg` read and print are not modelled; a vector is its index. The face normals (`sqrt`) are not modelled either. The model only reports the first face whose vertex pointer is NULL or outside the vertex array, where the normals loop would read through an invalid pointer.
- **OBJ memory.** `realloc` and `memcpy` are modelled as a sequence that grows, and pointers into arrays as positions. `fgets`' 99-character chunks of longer lines are not modelled; lines are given whole.
- ObjFile.ObjRead: `array_append` moves the vector and material arrays with `realloc`. The face corner and material pointers taken earlier then dangle, and the model does not capture this: it keeps positions, which stay valid. The model also leaves out that glibc's `dirname` rewrites `obj_read`'s path in place. A second `mtllib` line therefore looks for its library one directory higher, while the model's library oracle is keyed by the file name only.
- ObjFile.ObjWrite: the result of `fopen(path, "wt")` is not checked, and writing through a NULL stream is undefined. The model assumes the file opens.
- **OBJ frees.** `array_free`, `mtllib_free` and `obj_free` only release memory and are not modelled.
- **Colour helpers.** The `remap` helpers are float maths and are not modelled.
- **Python connections.** The socket `get_socket` opens, and `sock.send`, are I/O. `get_socket` is modelled up to the host and port it connects to.
- **opcmatrix.** `Matrix.render`, `opc.Client`, `AutoMatrix` loops and the interpolated frames of `renderloop` are not modelled: the client is not shown, and the interpolation is float maths. `renderloop` is modelled up to its guard and its pauses. `ImageMatrix` is image code (PIL) and is not modelled.
- OpcClient.ConnectStep: every failed attempt is one outcome, `ConnectFailed`. When `select` times out, `opc_connect_socket` returns 0 without closing the socket it created, so each timed-out attempt leaks a descriptor. The model does not track descriptors that are never stored in the sink table. The other failure paths close the socket.
- OpcClient.Resolve: the return value of `getaddrinfo` is not checked (src/opc_client.c:72). After a failed lookup `addr` is uninitialised, and both the loop and `freeaddrinfo` use it. The model treats a failed lookup as an empty list of entries, so Resolve, OpcClient.ResolveAsWritten and OpcClient.SinkRegistry.NewSinkSocket all fail cleanly there.
- **Dummy client output.** The dummy clients' `printf` prompts and messages are console output and are not modelled.
- **Demo scripts.** The main loops of the pong and Game of Life demos run until killed and only call the operations above. `print_board`, and the `print` inside `pixelify_triboard`, are console output.
- **Pong.Fade.** Floating-point multiplication is modelled as exact rational multiplication followed by truncation. Products that a double would round across an integer boundary are not distinguished.
- **Img2Opc.Img2Opc.constructor.** The gamma table (`Math.pow`) is a parameter. The constructor requires `3 * w * h` to fit a Java `int` beside the header, because the model does not give Java's wrap-around a meaning for the array size.
- **Img2Opc.Img2Opc.SendImg.** `PImage.copy` resizing is not modelled: the frame is given already resized. The returned image is not modelled.
- **Img2Opc.Img2Opc.SetSourceSize.** Java `int` overflow of `w - h` is not modelled.
- **Lpd8806Server.BUFFER_SIZE.** The LPD8806 buffer is declared `1 << 16 + 5` bytes. C parses this as `1 << 21`, which is the size modelled.
- **Encoder preconditions.** The encoders of the LED servers require buffers of their declared size and at most OPC_MAX_PIXELS_PER_MESSAGE pixels. These are the only frames `opc_receive` can deliver.
- **GlServer.Simulator.Handler.** It requires every pixel written to lie inside the pixel array. The C code does not check this and would write past the array.
- **GlServer.Simulator.LoadLayout.** It requires the layout's geometries to fit the pixel array, for the same reason.
- **Pong.PongMatrix.Update.** It requires both paddles to be in play, inside columns longer than a paddle. On a shorter column the paddle leaves the list and Python raises IndexError or writes through negative indices; the model does not follow that.
- **Pong dimensions.** Pong's matrix sizes are natural numbers; negative sizes are not modelled.
- TclServer.Devices.PutPixels: it requires every device's first pixel to be at least 0, and so do TclServer.FillDevice, TclServer.Devices.Built, TclServer.Devices.BuildAll, TclServer.Devices.BuildOne and TclServer.Devices.WriteAll. The corrected set-up (TclServer.Devices.Setup) guarantees it. The as-written negative start that an overflowing `atoi` gives (TclServer.WrappedFirst) makes the C loop read before the pixel array and write past the device buffer, which the model does not give a meaning.
- **Cli signatures.** src/cli.h:27 declares `put_pixels_func` with a leading `int fd` argument, and src/cli.h:31-32 declares `opc_serve_main` with the device path and speed. src/cli.c:31 calls `put_pixels` with three arguments, and src/cli.c:41 defines `opc_serve_main(port, put, buffer)`. The model follows src/cli.c: Cli.ForwardedCall and Cli.ServeMain use the three-argument call.
- OpcServer.SourceRegistry.NewSource: when `bind` or `listen` fails, `opc_listen` returns -1 without closing the socket it made (src/opc_server.c:48-57), so that descriptor leaks. The model does not track descriptors that are never stored in the source table.
- OpcServer.ReceiveResult: when neither the listening socket nor the connection is open, `nfds` is never set before `select` (src/opc_server.c:100-110). The model does not give that `select` a meaning: the call returns 0 and changes nothing.
- **Conway.CountCellNeighbor.** It requires the cell to be on the board, as every caller in the demo passes.

## Findings

| source | as written | input that shows it | evidently intended | confidence | as-written member | corrected member |
|---|---|---|---|---|---|---|
| src/opc_server.c:138-154 | `received` stays 0 when a complete header announces no data, so the frame is dispatched and then the peer is closed as if it had hung up | a connected peer sends the header `00 00 00 00` followed by more messages | a zero-length message is dispatched and the connection stays open | high, not executed | OpcServer.ZeroLengthFrameDropsPeer | OpcServer.ReceiveKeepsInv |
| src/opc_server.c:34, src/opc_server.c:162-175 | an unused table entry has `sock == 0`, so `opc_reset_source` on a source without a peer closes descriptor 0 and opens a second listening socket without closing the first | `opc_new_source(7890)` and then `opc_reset_source` at once | a new source starts with `sock == -1`, and a reset without a peer does nothing | high, not executed | OpcServer.ResetOfFreshSource | OpcServer.SourceRegistry.NewSource |
| src/opc_server.c:111-120 | a failed `accept` (-1) still closes the listening socket, so the source has neither a listener nor a peer and every later call times out | `accept` returns -1 once | the source keeps listening after a failed accept | medium, not executed | OpcServer.FailedAcceptKillsSource | OpcServer.ReceiveStep |
| src/opc_client.c:74-77 | the loop finds the first IPv4 entry but copies the first entry of the list | `getaddrinfo` returns an IPv6 entry ahead of an IPv4 one | the address of the IPv4 entry the loop found is stored | high, not executed | OpcClient.ResolveCopiesFirstEntry | OpcClient.ResolveFindsFirst |
| src/opc_client.c:194-205, src/opc_client.c:248-249 | `opc_open_file` opens the file on every send, even when the sink already has a descriptor, and the old descriptor is never closed | two sends to the same file sink | an open file sink keeps its descriptor, as a connected socket sink does | high, not executed | OpcClient.ReopenLeaksDescriptor | OpcClient.ConnectStep |
| src/tcl_server.c:83-95 | the number of devices is `argc - 3` with no bound, but the device tables hold 10 entries | 14 command-line arguments, naming 11 devices | more than 10 devices are refused | high, not executed | TclServer.TooManyDevices | TclServer.SetupDevices |
| src/tcl_server.c:54-56 | `parse_int` narrows strtol's value to an `int`, so a first pixel of 2^31 or more wraps, to a negative index for values below 2^32, and `tcl_put_pixels` then reads from `pixels + firsts[c]`, before the pixel array, and writes past the device buffer | the argument `dev:3000000000` after the speed and port | a pixel number that does not fit an `int` is refused | medium, not executed | TclServer.WrappedFirst | TclServer.SetupDevices |
| src/dummy_client.c:24, src/dummy_client.c:45-61 | the token loop stores into `pixels[count]` with no bound on `count` | a line `0` followed by 21845 one-character tokens and the token `fff`, which fits the input buffer | tokens beyond the array are not stored | high, not executed | DummyClient.StoresPastArray | DummyClient.ReadTokens |
| dummy_client.c:9, dummy_client.c:30-46 | the same unbounded store into an array of 60000 pixels | a line `0` followed by 60000 one-character tokens and the token `fff` | tokens beyond the array are not stored | high, not executed | DummyLegacy.StoresPastArray | DummyClient.ReadTokens |
| src/gl_server.c:381-383 | the initialisation loop runs from the channel's offset up to the layout's shape count, so a later channel's pixels are not lit | a second layout of at most as many shapes as the first | the pixels `[offset, offset + shape_count)` are lit | high, not executed | GlServer.LaterChannelUnlit | GlServer.Simulator.LightPixels |
| src/gl_server.c:402-435 | `port` is never initialised, so without a port option the simulator listens on whatever the stack held | no `-p` option with 1234 on the stack | port 7890 is used when no port is given | high, not executed | GlServer.UninitialisedPort | GlServer.PortChoice |
| python_clients/conway.py:48-58, python_clients/conway.py:64-68 | the neighbour count includes the cell itself, so a live cell with one live neighbour survives | a live cell whose only live neighbour is one adjacent cell | the Game of Life rule B3/S23, which counts neighbours only | medium, not executed | Conway.LonelyCellSurvives | Conway.LifeRule |
| python_clients/conway.py:41, python_clients/conway.py:61, python_clients/conway.py:74 | the boards are created filled with the string `'0'`, which is true, so cells that are not alive are drawn lit | any board from `rand_board` with a cell whose draw is not 0 | dead cells are 0 and drawn dark | medium, not executed | Conway.RandBoardAllLit | Conway.CheckedBoardShownLive |
| python_clients/opcmatrix/__init__.py:18-21 | the bounds check uses `>`, so the position one past the last row of a column reads and writes the first pixel of the next column | `setpixel(0, height, p)` on a matrix at least two columns wide | positions outside the grid raise IndexError | high, not executed | OpcMatrix.EdgeWriteAliases | OpcMatrix.WriteChecked |
| python_clients/opcmatrix/__init__.py:24-30 | `super(self.__class__, self)` in the Tetris `__init__` resolves, for a VikTetrisMatrixDriver, back to the Tetris class, which then calls its own `__init__` with two arguments and raises TypeError | `VikTetrisMatrixDriver()` | a 10 by 20 VikTetris driver | high, not executed | OpcMatrix.VikTetrisRaises | OpcMatrix.DriverSizes |
| models/objfile.c:224-226 | a face without a material after one with a material makes `m` NULL, and `m->name` is then printed | a face using material `red` followed by a face with no material | no material lines are written for a face without a material | high, not executed | ObjFile.NullMaterialSwitch | ObjFile.WrittenDefined |
