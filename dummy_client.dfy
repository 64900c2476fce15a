// The dummy client (src/dummy_client.c): reads lines of the form
// `<channel> <hex> <hex> ...` from standard input and sends each as one SET_PIXELS
// message. A 3-digit token `rgb` stands for `rrggbb`; a 6-digit token gives the three
// bytes; any other token takes a pixel slot without setting it.
module DummyClient {
  import opened Bytes

  /** 65535 / 3, the size of the `pixels` array. */
  const MAX_PIXELS := 65535 / 3
  /** The size of the line buffer handed to `fgets`. */
  const MAX_INPUT_LENGTH := MAX_PIXELS * 8

  // ---------------------------------------------------------------------
  // strtok(..., " \t\r\n")

  predicate IsDelim(c: char) { c == ' ' || c == '\t' || c == '\r' || c == '\n' }

  /** The end of the run of non-delimiters that starts at `pos`. */
  function TokenEnd(s: string, pos: nat): (e: nat)
    requires pos <= |s|
    ensures pos <= e <= |s|
    decreases |s| - pos
  {
    if pos == |s| || IsDelim(s[pos]) then pos else TokenEnd(s, pos + 1)
  }

  lemma {:induction false} TokenEndShape(s: string, pos: nat)
    requires pos <= |s|
    ensures forall k :: pos <= k < TokenEnd(s, pos) ==> !IsDelim(s[k])
    ensures TokenEnd(s, pos) == |s| || IsDelim(s[TokenEnd(s, pos)])
    decreases |s| - pos
  {
    if pos < |s| && !IsDelim(s[pos]) {
      TokenEndShape(s, pos + 1);
    }
  }

  /** Where the next `strtok` token after position `pos` starts and ends, or None when only
      delimiters are left. */
  function NextToken(s: string, pos: nat): (r: Option<(nat, nat)>)
    requires pos <= |s|
    ensures r.Some? ==> pos <= r.value.0 < r.value.1 <= |s|
    decreases |s| - pos
  {
    if pos == |s| then None
    else if IsDelim(s[pos]) then NextToken(s, pos + 1)
    else Some((pos, TokenEnd(s, pos)))
  }

  /** The next token is preceded by delimiters only, holds none, and ends at a delimiter or
      the end of the text; when there is none, only delimiters are left. */
  lemma {:induction false} NextTokenShape(s: string, pos: nat)
    requires pos <= |s|
    ensures NextToken(s, pos).None? ==> forall k :: pos <= k < |s| ==> IsDelim(s[k])
    ensures NextToken(s, pos).Some? ==>
      var (a, b) := NextToken(s, pos).value;
      (forall k :: pos <= k < a ==> IsDelim(s[k])) && (forall k :: a <= k < b ==> !IsDelim(s[k]))
      && (b == |s| || IsDelim(s[b]))
    decreases |s| - pos
  {
    if pos < |s| && IsDelim(s[pos]) {
      NextTokenShape(s, pos + 1);
    } else if pos < |s| {
      TokenEndShape(s, pos);
    }
  }

  /** All tokens of `s` from position `pos` on, in order. */
  function Tokens(s: string, pos: nat): seq<string>
    requires pos <= |s|
    decreases |s| - pos
  {
    match NextToken(s, pos)
    case None => []
    case Some(bounds) => [s[bounds.0..bounds.1]] + Tokens(s, bounds.1)
  }

  /** No token is empty or holds a delimiter. */
  lemma {:induction false} TokensAreWords(s: string, pos: nat)
    requires pos <= |s|
    ensures forall i :: 0 <= i < |Tokens(s, pos)| ==> Tokens(s, pos)[i] != []
    ensures forall i, k :: 0 <= i < |Tokens(s, pos)| && 0 <= k < |Tokens(s, pos)[i]| ==> !IsDelim(Tokens(s, pos)[i][k])
    decreases |s| - pos
  {
    var r := NextToken(s, pos);
    NextTokenShape(s, pos);
    if r.Some? {
      var (a, b) := r.value;
      TokensAreWords(s, b);
      var ts := Tokens(s, pos);
      assert ts == [s[a..b]] + Tokens(s, b);
      forall i | 0 <= i < |ts| ensures ts[i] != [] && forall k :: 0 <= k < |ts[i]| ==> !IsDelim(ts[i][k]) {
        if i > 0 {
          assert ts[i] == Tokens(s, b)[i - 1];
        } else {
          assert ts[0] == s[a..b];
          assert forall k :: 0 <= k < b - a ==> s[a..b][k] == s[a + k];
        }
      }
    }
  }

  // ---------------------------------------------------------------------
  // Hex tokens

  /** The pixel a token sets: for 3 characters, each of the three low nibbles of
      (u32) strtol(token, NULL, 16) times 0x11; for 6 characters, its three low bytes from
      high to low; any other length sets nothing. */
  function TokenPixel(t: string): Option<Pixel>
  {
    var hex := U32(StrToL(t, 16));
    if |t| == 3 then Some(Pixel((hex / 0x100) % 0x10 * 0x11, (hex / 0x10) % 0x10 * 0x11, hex % 0x10 * 0x11))
    else if |t| == 6 then Some(Pixel((hex / 0x1_0000) % 0x100, (hex / 0x100) % 0x100, hex % 0x100))
    else None
  }

  predicate AllHex(t: string) { forall k :: 0 <= k < |t| ==> IsHexDigit(t[k]) }

  /** strtol reads a run of hex digits that starts the string as its value. */
  lemma StrToLHex(t: string)
    requires 2 <= |t| <= 6 && AllHex(t)
    ensures StrToL(t, 16) == DigitsValue(t, 16) < 0x100_0000
  {
    ScanHex(t);
    assert t[0..|t|] == t;
    HexValueBelow(t);
    Pow16AtMostSix(|t|);
  }

  lemma Pow16AtMostSix(n: nat)
    requires 2 <= n <= 6
    ensures Pow16(n) <= 0x100_0000
  {
    Pow16Values();
  }

  lemma ScanHex(t: string)
    requires 2 <= |t| && AllHex(t)
    ensures ScanNumber(t, 16) == Scan(false, 0, |t|)
  {
    assert !IsSpace(t[0]) && t[0] != '+' && t[0] != '-';
    assert SpaceRun(t) == 0;
    assert t[1] != 'x' && t[1] != 'X';
    DigitRunAll(t, 16);
    assert t[0..] == t;
  }

  lemma Pow16Values()
    ensures Pow16(2) == 0x100 && Pow16(3) == 0x1000 && Pow16(4) == 0x1_0000
    ensures Pow16(5) == 0x10_0000 && Pow16(6) == 0x100_0000
  {
    assert Pow16(1) == 16;
    assert Pow16(2) == 0x100;
    assert Pow16(3) == 0x1000;
    assert Pow16(4) == 0x1_0000;
    assert Pow16(5) == 0x10_0000;
  }

  function Pow16(n: nat): (p: nat)
    ensures p >= 1
  {
    if n == 0 then 1 else 16 * Pow16(n - 1)
  }

  lemma {:induction false} HexValueBelow(t: string)
    requires AllHex(t)
    ensures DigitsValue(t, 16) < Pow16(|t|)
  {
    if t != [] {
      var init := t[..|t| - 1];
      HexValueBelow(init);
      assert DigitsValue(t, 16) == DigitsValue(init, 16) * 16 + DigitValue(t[|t| - 1]);
    }
  }

  lemma DigitsValueSnoc(s: string, c: char)
    requires AllHex(s) && IsHexDigit(c)
    ensures DigitsValue(s + [c], 16) == DigitsValue(s, 16) * 16 + DigitValue(c)
  {
    assert (s + [c])[..|s|] == s;
  }

  /** The value of the first k + 1 hex digits from that of the first k. */
  lemma PrefixValue(t: string, k: nat)
    requires k < |t| && AllHex(t)
    ensures DigitsValue(t[..k + 1], 16) == DigitsValue(t[..k], 16) * 16 + DigitValue(t[k])
  {
    assert t[..k + 1] == t[..k] + [t[k]];
    DigitsValueSnoc(t[..k], t[k]);
  }

  lemma ThreeHexDigits(t: string)
    requires |t| == 3 && AllHex(t)
    ensures DigitsValue(t, 16) == DigitValue(t[0]) * 0x100 + DigitValue(t[1]) * 0x10 + DigitValue(t[2])
  {
    assert t[..0] == [];
    PrefixValue(t, 0);
    PrefixValue(t, 1);
    PrefixValue(t, 2);
    assert t[..3] == t;
  }

  lemma SixHexDigits(t: string)
    requires |t| == 6 && AllHex(t)
    ensures DigitsValue(t, 16) == (DigitValue(t[0]) * 0x10 + DigitValue(t[1])) * 0x1_0000
      + (DigitValue(t[2]) * 0x10 + DigitValue(t[3])) * 0x100 + DigitValue(t[4]) * 0x10 + DigitValue(t[5])
  {
    assert t[..0] == [];
    PrefixValue(t, 0);
    PrefixValue(t, 1);
    PrefixValue(t, 2);
    PrefixValue(t, 3);
    PrefixValue(t, 4);
    PrefixValue(t, 5);
    assert t[..6] == t;
  }

  lemma ByteFields(hi: nat, mid: nat, lo: nat)
    requires hi < 0x100 && mid < 0x100 && lo < 0x100
    ensures var h := hi * 0x1_0000 + mid * 0x100 + lo;
      (h / 0x1_0000) % 0x100 == hi && (h / 0x100) % 0x100 == mid && h % 0x100 == lo
  {
    var h := hi * 0x1_0000 + mid * 0x100 + lo;
    assert h / 0x1_0000 == hi;
    assert h / 0x100 == hi * 0x100 + mid;
  }

  lemma NibbleFields(x: nat, y: nat, z: nat)
    requires x < 0x10 && y < 0x10 && z < 0x10
    ensures var h := x * 0x100 + y * 0x10 + z;
      (h / 0x100) % 0x10 == x && (h / 0x10) % 0x10 == y && h % 0x10 == z
  {
    var h := x * 0x100 + y * 0x10 + z;
    assert h / 0x100 == x;
    assert h / 0x10 == x * 0x10 + y;
  }

  /** A token of 3 or 6 hex digits is read as the number they spell. */
  lemma TokenHex(t: string)
    requires (|t| == 3 || |t| == 6) && AllHex(t)
    ensures U32(StrToL(t, 16)) == DigitsValue(t, 16)
  {
    StrToLHex(t);
    U32Fits(DigitsValue(t, 16));
  }

  /** A 6-digit hex token sets red, green and blue to its first, middle and last two digits. */
  lemma SixDigitToken(t: string)
    requires |t| == 6 && AllHex(t)
    ensures TokenPixel(t).Some?
    ensures TokenPixel(t).value.r == DigitValue(t[0]) * 0x10 + DigitValue(t[1])
    ensures TokenPixel(t).value.g == DigitValue(t[2]) * 0x10 + DigitValue(t[3])
    ensures TokenPixel(t).value.b == DigitValue(t[4]) * 0x10 + DigitValue(t[5])
  {
    TokenHex(t);
    SixHexDigits(t);
    ByteFields(DigitValue(t[0]) * 0x10 + DigitValue(t[1]), DigitValue(t[2]) * 0x10 + DigitValue(t[3]),
               DigitValue(t[4]) * 0x10 + DigitValue(t[5]));
  }

  /** A 3-digit hex token sets each channel to its digit times 0x11 (`f` gives 0xff). */
  lemma ThreeDigitToken(t: string)
    requires |t| == 3 && AllHex(t)
    ensures TokenPixel(t) == Some(Pixel(DigitValue(t[0]) * 0x11, DigitValue(t[1]) * 0x11, DigitValue(t[2]) * 0x11))
  {
    TokenHex(t);
    ThreeHexDigits(t);
    NibbleFields(DigitValue(t[0]), DigitValue(t[1]), DigitValue(t[2]));
  }

  /** The lower-case hex digit of `v`. */
  function HexChar(v: nat): (c: char)
    requires v < 16
    ensures IsHexDigit(c) && DigitValue(c) == v
  {
    if v < 10 then '0' + v as char else 'a' + (v - 10) as char
  }

  /** The 6-digit text `rrggbb` of a pixel. */
  function HexText(p: Pixel): (t: string)
    ensures |t| == 6 && AllHex(t)
  {
    [HexChar(p.r / 16), HexChar(p.r % 16), HexChar(p.g / 16), HexChar(p.g % 16), HexChar(p.b / 16), HexChar(p.b % 16)]
  }

  /** Every pixel written as `rrggbb` is read back as itself. */
  lemma HexTextRoundTrip(p: Pixel)
    ensures TokenPixel(HexText(p)) == Some(p)
  {
    var t := HexText(p);
    SixDigitToken(t);
    var q := TokenPixel(t).value;
    assert q.r == p.r by {
      assert DigitValue(t[0]) == p.r / 16 && DigitValue(t[1]) == p.r % 16;
    }
    assert q.g == p.g by {
      assert DigitValue(t[2]) == p.g / 16 && DigitValue(t[3]) == p.g % 16;
    }
    assert q.b == p.b by {
      assert DigitValue(t[4]) == p.b / 16 && DigitValue(t[5]) == p.b % 16;
    }
  }

  // ---------------------------------------------------------------------
  // One line

  /** The pixel array after the tokens `toks` were read into it from slot 0 on, `decode`
      giving the pixel a token sets, if any: a token that sets none leaves its slot as it
      was. */
  function Store(px: seq<Pixel>, toks: seq<string>, decode: string -> Option<Pixel>): (r: seq<Pixel>)
    requires |toks| <= |px|
    ensures |r| == |px|
  {
    if toks == [] then px
    else SetSlotTo(Store(px, toks[..|toks| - 1], decode), |toks| - 1, decode(toks[|toks| - 1]))
  }

  function SetSlotTo(px: seq<Pixel>, i: nat, d: Option<Pixel>): (r: seq<Pixel>)
    requires i < |px|
    ensures |r| == |px|
  {
    match d
    case Some(p) => px[i := p]
    case None => px
  }

  lemma StoreSnoc(px: seq<Pixel>, done: seq<string>, t: string, decode: string -> Option<Pixel>)
    requires |done| < |px|
    ensures Store(px, done + [t], decode) == SetSlotTo(Store(px, done, decode), |done|, decode(t))
  {
    assert (done + [t])[..|done|] == done;
  }

  /** Slot i holds the pixel of token i when that token sets one, and keeps its earlier
      content otherwise; slots past the last token are untouched. */
  lemma {:induction false} StoreAt(px: seq<Pixel>, toks: seq<string>, decode: string -> Option<Pixel>, i: nat)
    requires |toks| <= |px| && i < |px|
    ensures Store(px, toks, decode)[i] == if i < |toks| && decode(toks[i]).Some? then decode(toks[i]).value else px[i]
  {
    if toks != [] {
      var init := toks[..|toks| - 1];
      StoreAt(px, init, decode, i);
      if i < |init| {
        assert init[i] == toks[i];
      }
    }
  }

  /** One `opc_put_pixels(s, channel, count, pixels)` call: the channel as a u8 and the
      `count` pixels it sends. */
  datatype Put = Put(channel: byte, count: u16, pixels: seq<Pixel>)

  /** What one line read by `fgets` does to the pixel array `px` (of capacity |px|), and the
      call it makes: none when the line does not start with an integer. Tokens beyond the
      capacity are ignored. */
  function LineStep(px: seq<Pixel>, line: string): (r: (Option<Put>, seq<Pixel>))
    requires |px| < 0x1_0000
    ensures |r.1| == |px|
    ensures r.0.None? <==> ScanInt(line).None?
    ensures r.0.None? ==> r.1 == px
  {
    match ScanInt(line)
    case None => (None, px)
    case Some(scanned) =>
      var toks := Tokens(line, scanned.1);
      var n := Min(|toks|, |px|);
      var after := Store(px, toks[..n], TokenPixel);
      (Some(Put(U8(scanned.0), n, after[..n])), after)
  }

  /** A line that fits in the array: the count is its number of tokens, and the pixel sent
      for each token is that token's pixel when it has 3 or 6 characters and otherwise
      whatever the slot held before. */
  lemma LineStepSends(px: seq<Pixel>, line: string, channel: int, c: nat)
    requires |px| < 0x1_0000 && ScanInt(line) == Some((channel, c))
    requires |Tokens(line, c)| <= |px|
    ensures var (put, _) := LineStep(px, line);
      put == Some(Put(U8(channel), |Tokens(line, c)|, put.value.pixels))
      && forall i :: 0 <= i < |Tokens(line, c)| ==>
        put.value.pixels[i] == if TokenPixel(Tokens(line, c)[i]).Some? then TokenPixel(Tokens(line, c)[i]).value else px[i]
  {
    var toks := Tokens(line, c);
    assert toks[..|toks|] == toks;
    forall i | 0 <= i < |toks| ensures Store(px, toks, TokenPixel)[i] == if TokenPixel(toks[i]).Some? then TokenPixel(toks[i]).value else px[i] {
      StoreAt(px, toks, TokenPixel, i);
    }
  }

  /** The lines `lines` in turn: the calls made and the final pixel array. */
  function Run(px: seq<Pixel>, lines: seq<string>): (r: (seq<Put>, seq<Pixel>))
    requires |px| < 0x1_0000
    ensures |r.1| == |px|
  {
    if lines == [] then ([], px)
    else
      var (calls, mid) := Run(px, lines[..|lines| - 1]);
      var (put, after) := LineStep(mid, lines[|lines| - 1]);
      (calls + (if put.Some? then [put.value] else []), after)
  }

  lemma RunSnoc(px: seq<Pixel>, lines: seq<string>, i: nat)
    requires |px| < 0x1_0000 && i < |lines|
    ensures var (calls, mid) := Run(px, lines[..i]);
      var (put, after) := LineStep(mid, lines[i]);
      Run(px, lines[..i + 1]) == (calls + (if put.Some? then [put.value] else []), after)
  {
    assert lines[..i + 1][..i] == lines[..i] && lines[..i + 1][i] == lines[i];
  }

  /** One call per line that starts with an integer, in order. */
  lemma {:induction false} RunCallCount(px: seq<Pixel>, lines: seq<string>)
    requires |px| < 0x1_0000
    ensures |Run(px, lines).0| == |Accepted(lines)|
    ensures forall i :: 0 <= i < |Run(px, lines).0| ==> Run(px, lines).0[i].channel == U8(Accepted(lines)[i])
  {
    if lines != [] {
      var init := lines[..|lines| - 1];
      RunCallCount(px, init);
      var last := lines[|lines| - 1];
      var (calls, mid) := Run(px, init);
      var (put, _) := LineStep(mid, last);
      if put.Some? {
        var a := Accepted(init) + [ScanInt(last).value.0];
        assert Accepted(lines) == a;
        assert Run(px, lines).0 == calls + [put.value];
      } else {
        assert Accepted(lines) == Accepted(init);
      }
    }
  }

  /** The channels of the lines that start with an integer (what `sscanf("%d%n")` reads). */
  function Accepted(lines: seq<string>): seq<int>
  {
    if lines == [] then []
    else
      var last := lines[|lines| - 1];
      Accepted(lines[..|lines| - 1]) + (if ScanInt(last).Some? then [ScanInt(last).value.0] else [])
  }

  /** The body of the `fgets` loop for one line: `sscanf` for the channel, then one
      `strtok` token per pixel slot until the tokens or the array run out. */
  method ReadLine(pixels: array<Pixel>, line: string) returns (put: Option<Put>)
    requires pixels.Length < 0x1_0000
    modifies pixels
    ensures (put, pixels[..]) == LineStep(old(pixels[..]), line)
  {
    var scanned := ScanInt(line);
    if scanned.None? {
      return None;
    }
    var (channel, c) := scanned.value;
    var count := ReadTokens(pixels, line, c, TokenPixel);
    put := Some(Put(U8(channel), count, pixels[..count]));
  }

  /** The `strtok` loop: one pixel slot per token, from slot 0, until the tokens or the
      slots run out; `decode` is the pixel a token sets. Returns the number of slots used. */
  method ReadTokens(pixels: array<Pixel>, line: string, c: nat, decode: string -> Option<Pixel>) returns (count: nat)
    requires c <= |line|
    modifies pixels
    ensures count == Min(|Tokens(line, c)|, pixels.Length)
    ensures pixels[..] == Store(old(pixels[..]), Tokens(line, c)[..count], decode)
  {
    ghost var px := pixels[..];
    count := 0;
    var pos := c;
    var token := NextToken(line, pos);
    ghost var done: seq<string> := [];
    while token.Some? && count < pixels.Length
      invariant c <= pos <= |line| && token == NextToken(line, pos)
      invariant done + Tokens(line, pos) == Tokens(line, c) && count == |done| <= pixels.Length
      invariant pixels[..] == Store(px, done, decode)
      decreases |line| - pos
    {
      var a, b := token.value.0, token.value.1;
      var t := line[a..b];
      TokensStep(line, pos);
      Associate(done, [t], Tokens(line, b));
      StoreSnoc(px, done, t, decode);
      SetSlot(pixels, count, decode(t));
      done := done + [t];
      count := count + 1;
      pos := b;
      token := NextToken(line, pos);
    }
    TokensTaken(line, c, pos, done, pixels.Length);
  }

  /** When the loop stops, it has taken the first Min(tokens, slots) tokens. */
  lemma TokensTaken(line: string, c: nat, pos: nat, done: seq<string>, slots: nat)
    requires c <= pos <= |line| && done + Tokens(line, pos) == Tokens(line, c) && |done| <= slots
    requires NextToken(line, pos).None? || |done| == slots
    ensures |done| == Min(|Tokens(line, c)|, slots) && Tokens(line, c)[..|done|] == done
  {
    var toks := Tokens(line, c);
    if NextToken(line, pos).None? {
      assert Tokens(line, pos) == [];
      assert done == toks;
    }
    assert toks[..|done|] == done;
  }

  /** `pixels[count].r = ...; .g = ...; .b = ...` when the token sets a pixel. */
  method SetSlot(pixels: array<Pixel>, count: nat, d: Option<Pixel>)
    requires count < pixels.Length
    modifies pixels
    ensures pixels[..] == SetSlotTo(old(pixels[..]), count, d)
  {
    match d {
      case Some(p) => pixels[count] := p;
      case None =>
    }
  }

  lemma TokensStep(s: string, pos: nat)
    requires pos <= |s| && NextToken(s, pos).Some?
    ensures Tokens(s, pos) == [s[NextToken(s, pos).value.0..NextToken(s, pos).value.1]] + Tokens(s, NextToken(s, pos).value.1)
  {
  }

  /** `while (s >= 0 && fgets(buffer, ...))`: the lines go through ReadLine only while the
      sink handle `sink` is valid, which never changes. */
  method ReadLines(sink: int, lines: seq<string>, pixels: array<Pixel>) returns (calls: seq<Put>)
    requires pixels.Length < 0x1_0000
    modifies pixels
    ensures sink < 0 ==> calls == [] && pixels[..] == old(pixels[..])
    ensures sink >= 0 ==> (calls, pixels[..]) == Run(old(pixels[..]), lines)
  {
    calls := [];
    if sink < 0 {
      return;
    }
    var i := 0;
    while i < |lines|
      invariant 0 <= i <= |lines|
      invariant (calls, pixels[..]) == Run(old(pixels[..]), lines[..i])
    {
      RunSnoc(old(pixels[..]), lines, i);
      var put := ReadLine(pixels, lines[i]);
      calls := calls + (if put.Some? then [put.value] else []);
      i := i + 1;
    }
    assert lines[..i] == lines;
  }

  /** `main(argc, argv)`: with no server argument it returns 1 and sends nothing; otherwise
      `sink` is what `opc_new_sink(argv[1])` returned and `lines` are what the `fgets` calls
      read. `pixels` is the stack array, whose initial contents are undetermined. */
  method ClientMain(argv: seq<string>, sink: int, lines: seq<string>, pixels: array<Pixel>)
    returns (status: int, calls: seq<Put>)
    requires |argv| >= 1 && pixels.Length == MAX_PIXELS
    modifies pixels
    ensures status == (if |argv| < 2 then 1 else 0)
    ensures |argv| < 2 || sink < 0 ==> calls == [] && pixels[..] == old(pixels[..])
    ensures |argv| >= 2 && sink >= 0 ==> (calls, pixels[..]) == Run(old(pixels[..]), lines)
  {
    if |argv| < 2 {
      return 1, [];
    }
    calls := ReadLines(sink, lines, pixels);
    status := 0;
  }

  // ---------------------------------------------------------------------
  // The loop as written

  /** The slots the C loop writes for a line: `count` (a u16, not compared with the array
      size) at each token of 3 or 6 characters. */
  function WritesAsWritten(line: string): seq<nat>
  {
    match ScanInt(line)
    case None => []
    case Some(scanned) => TokenWrites(Tokens(line, scanned.1))
  }

  function TokenWrites(toks: seq<string>): seq<nat>
  {
    if toks == [] then []
    else
      var last := toks[|toks| - 1];
      TokenWrites(toks[..|toks| - 1]) + (if |last| == 3 || |last| == 6 then [U16(|toks| - 1)] else [])
  }

  /** `0`, then n one-character tokens, then the token `fff`. */
  function OverflowLine(n: nat): (s: string)
    ensures |s| == 2 * n + 5
  {
    ['0'] + seq(2 * n, i => if i % 2 == 0 then ' ' else 'f') + [' ', 'f', 'f', 'f']
  }

  /** The shape of OverflowLine(n): `0`, then alternately a blank and `f` n times, then ` fff`. */
  predicate OverflowShape(s: string, n: nat)
  {
    |s| == 2 * n + 5 && s[0] == '0' && s[2 * n + 1..] == " fff" &&
    forall i :: 1 <= i < 2 * n + 1 ==> s[i] == (if i % 2 == 1 then ' ' else 'f')
  }

  lemma LineShape(n: nat)
    ensures OverflowShape(OverflowLine(n), n)
  {
    var s := OverflowLine(n);
    forall i | 1 <= i < 2 * n + 1 ensures s[i] == (if i % 2 == 1 then ' ' else 'f') {
      assert (i - 1) % 2 == 0 <==> i % 2 == 1;
    }
  }

  /** From the blank before its k-th `f`, OverflowLine(n) splits into the remaining `f`s and `fff`. */
  lemma {:induction false} OverflowTokens(n: nat, k: nat)
    requires k <= n
    ensures Tokens(OverflowLine(n), 1 + 2 * k) == Effs(n - k) + ["fff"]
    decreases n - k
  {
    var s := OverflowLine(n);
    if k < n {
      StepOfLine(n, k);
      OverflowTokens(n, k + 1);
      EffsThenFff(Tokens(s, 1 + 2 * k), Tokens(s, 1 + 2 * (k + 1)), n - (k + 1));
    } else {
      LineShape(n);
      OverflowTail(s, n);
    }
  }

  lemma StepOfLine(n: nat, k: nat)
    requires k < n
    ensures Tokens(OverflowLine(n), 1 + 2 * k) == ["f"] + Tokens(OverflowLine(n), 1 + 2 * (k + 1))
  {
    LineShape(n);
    OverflowStep(OverflowLine(n), n, k);
  }

  /** `m` one-character tokens `f`. */
  function Effs(m: nat): (r: seq<string>)
    ensures |r| == m
  {
    seq(m, _ => "f")
  }

  lemma EffsThenFff(here: seq<string>, later: seq<string>, m: nat)
    requires here == ["f"] + later && later == Effs(m) + ["fff"]
    ensures here == Effs(m + 1) + ["fff"]
  {
    assert Effs(m + 1) == ["f"] + Effs(m);
  }

  lemma OverflowStep(s: string, n: nat, k: nat)
    requires OverflowShape(s, n) && k < n
    ensures Tokens(s, 1 + 2 * k) == ["f"] + Tokens(s, 1 + 2 * (k + 1))
  {
    assert s[1 + 2 * k] == ' ';
    assert s[2 + 2 * k] == 'f';
    assert s[3 + 2 * k] == ' ' by {
      if k + 1 < n {
        assert s[3 + 2 * k] == (if (3 + 2 * k) % 2 == 1 then ' ' else 'f');
      } else {
        assert s[2 * n + 1..][0] == ' ';
      }
    }
    assert TokenEnd(s, 3 + 2 * k) == 3 + 2 * k;
    assert TokenEnd(s, 2 + 2 * k) == 3 + 2 * k;
    assert NextToken(s, 1 + 2 * k) == Some((2 + 2 * k, 3 + 2 * k));
    assert s[2 + 2 * k..3 + 2 * k] == "f";
  }

  lemma OverflowTail(s: string, n: nat)
    requires OverflowShape(s, n)
    ensures Tokens(s, 1 + 2 * n) == ["fff"]
  {
    assert s[1 + 2 * n..] == " fff";
    assert TokenEnd(s, 2 * n + 5) == 2 * n + 5;
    assert TokenEnd(s, 2 * n + 4) == 2 * n + 5;
    assert TokenEnd(s, 2 * n + 3) == 2 * n + 5;
    assert TokenEnd(s, 2 * n + 2) == 2 * n + 5;
    assert NextToken(s, 1 + 2 * n) == Some((2 * n + 2, 2 * n + 5));
    assert NextToken(s, 2 * n + 5) == None;
    assert s[2 * n + 2..2 * n + 5] == "fff";
  }

  /** The only slot the C loop writes for OverflowLine(n) is slot n. */
  lemma OverflowWrites(n: nat)
    requires n < 0x1_0000
    ensures WritesAsWritten(OverflowLine(n)) == [n]
  {
    var toks := Effs(n) + ["fff"];
    assert WritesAsWritten(OverflowLine(n)) == TokenWrites(toks) by {
      OverflowScan(n);
      OverflowTokens(n, 0);
    }
    assert toks[..|toks| - 1] == Effs(n) && toks[|toks| - 1] == "fff";
    NoShortWrites(n);
    U16Fits(n);
    assert TokenWrites(toks) == TokenWrites(Effs(n)) + [U16(n)];
  }

  lemma OverflowScan(n: nat)
    ensures ScanInt(OverflowLine(n)) == Some((0, 1))
  {
    var s := OverflowLine(n);
    assert s[0] == '0' && !IsDigit(s[1]);
    assert SpaceRun(s) == 0;
    assert DigitRun(s[1..], 10) == 0;
    assert s[0..] == s && DigitRun(s, 10) == 1;
    assert ScanNumber(s, 10) == Scan(false, 0, 1);
    assert ScanValue(s, 10) == 0 by {
      assert s[0..1] == ['0'];
      assert ['0'][..0] == [];
      assert DigitsValue(['0'], 10) == 0;
    }
  }

  lemma {:induction false} NoShortWrites(n: nat)
    ensures TokenWrites(Effs(n)) == []
  {
    if n > 0 {
      assert Effs(n)[..n - 1] == Effs(n - 1);
      NoShortWrites(n - 1);
    }
  }

  /** A line that fits in the `fgets` buffer makes the C loop store a pixel in slot 21845,
      one past the end of `pixels`. */
  lemma StoresPastArray()
    ensures |OverflowLine(MAX_PIXELS)| < MAX_INPUT_LENGTH
    ensures MAX_PIXELS in WritesAsWritten(OverflowLine(MAX_PIXELS))
  {
    OverflowWrites(MAX_PIXELS);
  }
}
