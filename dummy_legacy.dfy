// The older dummy client at the top of the repository (dummy_client.c): the same line
// format and the same loop as src/dummy_client.c, with a 240000-character line buffer and
// room for 60000 pixels, and the first number of a line called the address.
module DummyLegacy {
  import opened Bytes
  import DummyClient

  /** The size of the `pixels` array. */
  const PIXELS := 60000
  /** The size of the line buffer handed to `fgets`. */
  const BUFFER := 240000

  /** `main(argc, argv)`: with no server argument it returns 1 and sends nothing; otherwise
      each line that starts with an address is read into `pixels` and sent, while the sink
      handle `sink` is valid. */
  method LegacyMain(argv: seq<string>, sink: int, lines: seq<string>, pixels: array<Pixel>)
    returns (status: int, calls: seq<DummyClient.Put>)
    requires |argv| >= 1 && pixels.Length == PIXELS
    modifies pixels
    ensures status == (if |argv| < 2 then 1 else 0)
    ensures |argv| < 2 || sink < 0 ==> calls == [] && pixels[..] == old(pixels[..])
    ensures |argv| >= 2 && sink >= 0 ==> (calls, pixels[..]) == DummyClient.Run(old(pixels[..]), lines)
  {
    if |argv| < 2 {
      return 1, [];
    }
    calls := DummyClient.ReadLines(sink, lines, pixels);
    status := 0;
  }

  /** A line that fits in the 240000-character buffer makes the C loop store a pixel in
      slot 60000, one past the end of `pixels`. */
  lemma StoresPastArray()
    ensures |DummyClient.OverflowLine(PIXELS)| < BUFFER
    ensures PIXELS in DummyClient.WritesAsWritten(DummyClient.OverflowLine(PIXELS))
  {
    DummyClient.OverflowWrites(PIXELS);
  }
}
