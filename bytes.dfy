// Shared vocabulary of the Open Pixel Control model: machine integer widths,
// the pixel record of src/types.h, the constants of src/opc.h, and the
// C and Python text-to-number conversions that several programs rely on.
module Bytes {

  /** An unsigned 8-bit value (C `u8`, Java `byte` reinterpreted unsigned). */
  type byte = x: int | 0 <= x < 0x100
  /** An unsigned 16-bit value (C `u16`). */
  type u16 = x: int | 0 <= x < 0x1_0000
  /** An unsigned 32-bit value (C `u32`). */
  type u32 = x: int | 0 <= x < 0x1_0000_0000

  /** The three colour components of one pixel, in the order red, green, blue. */
  datatype Pixel = Pixel(r: byte, g: byte, b: byte)

  const Black := Pixel(0, 0, 0)

  /** A colour as the Python clients hold it: three integers, not yet clamped to a byte. */
  datatype Rgb = Rgb(r: int, g: int, b: int)

  const RgbBlack := Rgb(0, 0, 0)

  // Constants of the protocol header.
  const OPC_DEFAULT_PORT: u16 := 7890
  const OPC_BROADCAST: byte := 0
  const OPC_SET_PIXELS: byte := 0
  const OPC_MAX_SINKS := 64
  const OPC_MAX_SOURCES := 64
  /** (1 << 16) / 3: the most pixels one frame can carry. */
  const OPC_MAX_PIXELS_PER_MESSAGE := 0x1_0000 / 3

  /** Reduction modulo 2^8, as a C conversion to `u8` does. */
  function U8(x: int): (r: byte)
    ensures x - r == 0x100 * ((x - r) / 0x100)
  {
    x % 0x100
  }

  /** Reduction modulo 2^16, as a C conversion to `u16` does. */
  function U16(x: int): (r: u16)
    ensures x - r == 0x1_0000 * ((x - r) / 0x1_0000)
  {
    x % 0x1_0000
  }

  /** Reduction modulo 2^32, as a C conversion to `u32` does. */
  function U32(x: int): (r: u32)
    ensures x - r == 0x1_0000_0000 * ((x - r) / 0x1_0000_0000)
  {
    x % 0x1_0000_0000
  }

  lemma U16Fits(x: int)
    requires 0 <= x < 0x1_0000
    ensures U16(x) == x
  {
  }

  lemma U32Fits(x: int)
    requires 0 <= x < 0x1_0000_0000
    ensures U32(x) == x
  {
  }

  /** Reinterpretation as a two's-complement 32-bit `int`. */
  function I32(x: int): (r: int)
    ensures -0x8000_0000 <= r < 0x8000_0000
    ensures 0 <= x < 0x8000_0000 ==> r == x
  {
    (x + 0x8000_0000) % 0x1_0000_0000 - 0x8000_0000
  }

  /** Division rounding toward zero, as in C and Java (Dafny's `/` is Euclidean). */
  function TruncDiv(a: int, b: int): (q: int)
    requires b > 0
    ensures a >= 0 ==> q == a / b
    ensures a < 0 ==> q == -((-a) / b)
  {
    if a >= 0 then a / b else -((-a) / b)
  }

  /** The remainder that goes with TruncDiv: it has the sign of `a`, as in C and Java. */
  function TruncRem(a: int, b: int): (r: int)
    requires b > 0
    ensures a == b * TruncDiv(a, b) + r
    ensures -b < r < b
    ensures a >= 0 ==> 0 <= r
    ensures a < 0 ==> r <= 0
  {
    a - b * TruncDiv(a, b)
  }

  /** Python `int(x)` of a number: truncation toward zero. */
  function PyTrunc(x: real): (t: int)
    ensures x >= 0.0 ==> t as real <= x < t as real + 1.0
    ensures x < 0.0 ==> t as real - 1.0 < x <= t as real
  {
    if x >= 0.0 then x.Floor else -((-x).Floor)
  }

  function Min(a: int, b: int): int { if a <= b then a else b }
  function Max(a: int, b: int): int { if a >= b then a else b }

  // ---------------------------------------------------------------------
  // Pixels as bytes

  /** The bytes r, g, b of every pixel, in pixel order. */
  function PixelBytes(ps: seq<Pixel>): (bs: seq<byte>)
    ensures |bs| == 3 * |ps|
  {
    if ps == [] then [] else PixelBytes(ps[..|ps| - 1]) + [ps[|ps| - 1].r, ps[|ps| - 1].g, ps[|ps| - 1].b]
  }

  /** Groups of three bytes read back as pixels; a trailing partial group is dropped. */
  function BytesToPixels(bs: seq<byte>): (ps: seq<Pixel>)
    ensures |ps| == |bs| / 3
  {
    if |bs| < 3 then [] else [Pixel(bs[0], bs[1], bs[2])] + BytesToPixels(bs[3..])
  }

  lemma {:induction false} PixelBytesAt(ps: seq<Pixel>, i: int)
    requires 0 <= i < |ps|
    ensures PixelBytes(ps)[3 * i] == ps[i].r
    ensures PixelBytes(ps)[3 * i + 1] == ps[i].g
    ensures PixelBytes(ps)[3 * i + 2] == ps[i].b
  {
    if i < |ps| - 1 {
      PixelBytesAt(ps[..|ps| - 1], i);
    }
  }

  lemma {:induction false} PixelBytesAppend(ps: seq<Pixel>, p: Pixel)
    ensures PixelBytes(ps + [p]) == PixelBytes(ps) + [p.r, p.g, p.b]
  {
    assert (ps + [p])[..|ps|] == ps;
  }

  lemma {:induction false} PixelBytesConcat(ps: seq<Pixel>, qs: seq<Pixel>)
    ensures PixelBytes(ps + qs) == PixelBytes(ps) + PixelBytes(qs)
    decreases |qs|
  {
    if qs != [] {
      var q := qs[|qs| - 1];
      var front := qs[..|qs| - 1];
      assert qs == front + [q];
      assert ps + qs == (ps + front) + [q];
      PixelBytesAppend(ps + front, q);
      PixelBytesConcat(ps, front);
      PixelBytesAppend(front, q);
    } else {
      assert ps + qs == ps;
    }
  }

  /** Reading the bytes of a pixel sequence back gives the same pixels. */
  lemma {:induction false} BytesToPixelsOfPixelBytes(ps: seq<Pixel>)
    ensures BytesToPixels(PixelBytes(ps)) == ps
  {
    if ps != [] {
      var p := ps[0];
      assert ps == [p] + ps[1..];
      PixelBytesConcat([p], ps[1..]);
      PixelBytesAppend([], p);
      var bs := PixelBytes(ps);
      assert bs == [p.r, p.g, p.b] + PixelBytes(ps[1..]);
      assert bs[3..] == PixelBytes(ps[1..]);
      BytesToPixelsOfPixelBytes(ps[1..]);
    }
  }

  // ---------------------------------------------------------------------
  // C character classes and the value of digit strings

  /** C `isspace` in the "C" locale. */
  predicate IsSpace(c: char) { c == ' ' || c == '\t' || c == '\n' || c == '\r' || c == '\U{B}' || c == '\U{C}' }
  predicate IsDigit(c: char) { '0' <= c <= '9' }
  predicate IsHexDigit(c: char) { '0' <= c <= '9' || 'a' <= c <= 'f' || 'A' <= c <= 'F' }

  /** The value of a hex digit (0 for any other character). */
  function DigitValue(c: char): (v: nat)
    ensures v < 16
    ensures IsDigit(c) ==> v < 10
  {
    if '0' <= c <= '9' then c as int - '0' as int
    else if 'a' <= c <= 'f' then c as int - 'a' as int + 10
    else if 'A' <= c <= 'F' then c as int - 'A' as int + 10
    else 0
  }

  /** The number of leading characters of `s` that satisfy IsDigit (base 10) or IsHexDigit (base 16). */
  function DigitRun(s: string, base: nat): (n: nat)
    requires base == 10 || base == 16
    ensures n <= |s|
  {
    if s == [] || !InBase(s[0], base) then 0 else 1 + DigitRun(s[1..], base)
  }

  predicate InBase(c: char, base: nat) { if base == 16 then IsHexDigit(c) else IsDigit(c) }

  /** The value of a string of digits, most significant first. */
  function DigitsValue(s: string, base: nat): (v: nat)
    requires base == 10 || base == 16
  {
    if s == [] then 0 else DigitsValue(s[..|s| - 1], base) * base + DigitValue(s[|s| - 1])
  }

  /** The number of leading white-space characters. */
  function SpaceRun(s: string): (n: nat)
    ensures n <= |s|
  {
    if s == [] || !IsSpace(s[0]) then 0 else 1 + SpaceRun(s[1..])
  }

  /** The text of a natural number in decimal, without leading zeros. */
  function Decimal(n: nat): (s: string)
    ensures |s| >= 1
    ensures forall k :: 0 <= k < |s| ==> IsDigit(s[k])
    ensures s[0] != '0' || n == 0
  {
    if n < 10 then ['0' + n as char] else Decimal(n / 10) + ['0' + (n % 10) as char]
  }

  lemma {:induction false} DecimalValue(n: nat)
    ensures DigitsValue(Decimal(n), 10) == n
  {
    if n >= 10 {
      var s := Decimal(n);
      assert s[..|s| - 1] == Decimal(n / 10);
      DecimalValue(n / 10);
    }
  }

  lemma {:induction false} DigitRunAll(s: string, base: nat)
    requires base == 10 || base == 16
    requires forall k :: 0 <= k < |s| ==> InBase(s[k], base)
    ensures DigitRun(s, base) == |s|
  {
    if s != [] {
      DigitRunAll(s[1..], base);
    }
  }

  // ---------------------------------------------------------------------
  // C library conversions

  const LONG_MAX := 0x7FFF_FFFF_FFFF_FFFF
  const LONG_MIN := -0x8000_0000_0000_0000

  /** How `strtol(s, &end, base)` splits `s`: white space, an optional sign, (for base 16) an
      optional 0x prefix, then the digits it converts. */
  datatype Scan = Scan(negative: bool, digitsAt: nat, digits: nat)

  function ScanNumber(s: string, base: nat): (sc: Scan)
    requires base == 10 || base == 16
    ensures sc.digitsAt + sc.digits <= |s|
  {
    var w := SpaceRun(s);
    var signed := w < |s| && (s[w] == '+' || s[w] == '-');
    var afterSign := if signed then w + 1 else w;
    var prefixed := base == 16 && afterSign + 2 < |s| + 1 && afterSign + 1 < |s|
                    && s[afterSign] == '0' && (s[afterSign + 1] == 'x' || s[afterSign + 1] == 'X');
    var at := if prefixed then afterSign + 2 else afterSign;
    Scan(signed && s[w] == '-', at, DigitRun(s[at..], base))
  }

  /** The unclamped value of what `strtol` converts (0 when there are no digits). */
  function ScanValue(s: string, base: nat): int
    requires base == 10 || base == 16
  {
    var sc := ScanNumber(s, base);
    var mag: int := DigitsValue(s[sc.digitsAt..sc.digitsAt + sc.digits], base);
    if sc.negative then -mag else mag
  }

  /** C `strtol(s, NULL, base)` on a 64-bit `long`: out-of-range values clamp to LONG_MIN/LONG_MAX. */
  function StrToL(s: string, base: nat): (v: int)
    requires base == 10 || base == 16
    ensures LONG_MIN <= v <= LONG_MAX
  {
    var x := ScanValue(s, base);
    if x > LONG_MAX then LONG_MAX else if x < LONG_MIN then LONG_MIN else x
  }

  /** C `atoi(s)`, which the C library computes as `(int) strtol(s, NULL, 10)`. */
  function AtoI(s: string): (v: int)
    ensures -0x8000_0000 <= v < 0x8000_0000
  {
    I32(StrToL(s, 10))
  }

  /** strtol reads a decimal number back from its text. */
  lemma StrToLDecimal(n: nat)
    requires n <= LONG_MAX
    ensures StrToL(Decimal(n), 10) == n
  {
    assert Decimal(n) + [] == Decimal(n);
    StrToLDecimalThen(n, []);
  }

  /** strtol stops at the first character after the digits. */
  lemma StrToLDecimalThen(n: nat, rest: string)
    requires n <= LONG_MAX
    requires rest == [] || !IsDigit(rest[0])
    ensures StrToL(Decimal(n) + rest, 10) == n
  {
    var d := Decimal(n);
    var s := d + rest;
    assert SpaceRun(s) == 0;
    DigitRunThen(d, rest, 10);
    assert s[0..|d|] == d;
    DecimalValue(n);
  }

  lemma {:induction false} DigitRunThen(s: string, rest: string, base: nat)
    requires base == 10 || base == 16
    requires forall k :: 0 <= k < |s| ==> InBase(s[k], base)
    requires rest == [] || !InBase(rest[0], base)
    ensures DigitRun(s + rest, base) == |s|
  {
    if s != [] {
      assert (s + rest)[1..] == s[1..] + rest;
      DigitRunThen(s[1..], rest, base);
    } else {
      assert s + rest == rest;
    }
  }

  /** C `sscanf(s, "%d%n", &v, &n)`: the value and the number of characters consumed,
      or None when the text does not start (after white space) with an optionally signed number. */
  function ScanInt(s: string): (r: Option<(int, nat)>)
    ensures r.Some? ==> r.value.1 <= |s|
  {
    var sc := ScanNumber(s, 10);
    if sc.digits == 0 then None
    else Some((I32(ScanValue(s, 10)), sc.digitsAt + sc.digits))
  }

  datatype Option<T> = None | Some(value: T)

  /** Python `int(s)` on a string: white space around an optionally signed run of decimal digits,
      or a ValueError. */
  function PyInt(s: string): (r: Option<int>)
    ensures r.Some? ==> r.value == ScanValue(s, 10)
  {
    var sc := ScanNumber(s, 10);
    var end := sc.digitsAt + sc.digits;
    if sc.digits > 0 && end + SpaceRun(s[end..]) == |s| then Some(ScanValue(s, 10)) else None
  }

  lemma PyIntDecimal(n: nat)
    ensures PyInt(Decimal(n)) == Some(n)
  {
    var s := Decimal(n);
    DecimalScan(n);
    assert s[0..|s|] == s;
    DecimalValue(n);
    assert ScanValue(s, 10) == n;
    assert s[|s|..] == [];
  }

  /** strtol and int() find the decimal text of a natural number unsigned, from its first
      character to its last. */
  lemma DecimalScan(n: nat)
    ensures ScanNumber(Decimal(n), 10) == Scan(false, 0, |Decimal(n)|)
  {
    var s := Decimal(n);
    assert !IsSpace(s[0]) && s[0] != '+' && s[0] != '-';
    assert SpaceRun(s) == 0;
    assert s[0..] == s;
    DigitRunAll(s, 10);
  }

  // ---------------------------------------------------------------------
  // Python sequence indexing

  /** The position Python's `xs[i]` reads in a list of length n, or None for IndexError. */
  function PyIndex(i: int, n: nat): (r: Option<nat>)
    ensures r.Some? <==> -(n as int) <= i < n
    ensures r.Some? ==> r.value < n && (r.value == i || r.value == i + n)
  {
    if 0 <= i < n then Some(i) else if -(n as int) <= i < 0 then Some(i + n) else None
  }

  /** The text before and after the first occurrence of `sep`, or None when there is none. */
  function SplitFirst(s: string, sep: char): (r: Option<(string, string)>)
    ensures r.None? <==> sep !in s
    ensures r.Some? ==> s == r.value.0 + [sep] + r.value.1 && sep !in r.value.0
  {
    if s == [] then None
    else if s[0] == sep then Some(([], s[1..]))
    else match SplitFirst(s[1..], sep)
      case None => None
      case Some(parts) => Some(([s[0]] + parts.0, parts.1))
  }

  // ---------------------------------------------------------------------
  // Buffers

  /** A zero-filled buffer of n bytes. */
  function Zeros(n: nat): (z: seq<byte>)
    ensures |z| == n && forall k :: 0 <= k < n ==> z[k] == 0
  {
    seq(n, _ => 0)
  }

  /** `s` with `src` written over it from position `at` (what `memcpy(s + at, src, |src|)` does). */
  function Splice<T>(s: seq<T>, at: nat, src: seq<T>): (r: seq<T>)
    requires at + |src| <= |s|
    ensures |r| == |s|
    ensures forall k :: 0 <= k < |s| ==> r[k] == if at <= k < at + |src| then src[k - at] else s[k]
  {
    s[..at] + src + s[at + |src|..]
  }

  /** After the splice, the bytes up to the end of `src` are the old ones before `at`, then `src`. */
  lemma SplicePrefix<T>(s: seq<T>, at: nat, src: seq<T>)
    requires at + |src| <= |s|
    ensures Splice(s, at, src)[..at + |src|] == s[..at] + src
  {
    assert (s[..at] + src + s[at + |src|..])[..at + |src|] == s[..at] + src;
  }

  /** Copies `src` into `dst` from position `at`, one byte at a time. */
  method CopyInto(dst: array<byte>, at: nat, src: seq<byte>)
    requires at + |src| <= dst.Length
    modifies dst
    ensures dst[..] == Splice(old(dst[..]), at, src)
  {
    var i := 0;
    while i < |src|
      invariant 0 <= i <= |src|
      invariant forall k :: 0 <= k < dst.Length ==> dst[k] == if at <= k < at + i then src[k - at] else old(dst[k])
    {
      dst[at + i] := src[i];
      i := i + 1;
    }
  }
  /** `*d++ = x`: stores `x` at position `d` and returns the next position. */
  method Emit(buf: array<byte>, d: nat, x: byte) returns (next: nat)
    requires d < buf.Length
    modifies buf
    ensures next == d + 1
    ensures buf[..next] == old(buf[..d]) + [x]
    ensures forall k :: next <= k < buf.Length ==> buf[k] == old(buf[k])
  {
    buf[d] := x;
    next := d + 1;
    assert buf[..next] == buf[..d] + [x];
  }

  /** `*d++ = x` for each byte `x` of `xs` in turn. */
  method EmitAll(buf: array<byte>, d: nat, xs: seq<byte>) returns (next: nat)
    requires d + |xs| <= buf.Length
    modifies buf
    ensures next == d + |xs|
    ensures buf[..next] == old(buf[..d]) + xs
    ensures forall k :: next <= k < buf.Length ==> buf[k] == old(buf[k])
  {
    next := d;
    var j := 0;
    while j < |xs|
      invariant 0 <= j <= |xs| && next == d + j
      invariant buf[..next] == old(buf[..d]) + xs[..j]
      invariant forall k :: next <= k < buf.Length ==> buf[k] == old(buf[k])
    {
      next := Emit(buf, next, xs[j]);
      assert xs[..j + 1] == xs[..j] + [xs[j]];
      j := j + 1;
    }
    assert xs[..j] == xs;
  }

  // ---------------------------------------------------------------------
  // Device frames built pixel by pixel

  /** The bytes `f` produces for each pixel, one pixel after another. */
  function ConcatMap(f: Pixel -> seq<byte>, ps: seq<Pixel>): seq<byte>
  {
    if ps == [] then [] else ConcatMap(f, ps[..|ps| - 1]) + f(ps[|ps| - 1])
  }

  lemma ConcatMapAppend(f: Pixel -> seq<byte>, ps: seq<Pixel>, p: Pixel)
    ensures ConcatMap(f, ps + [p]) == ConcatMap(f, ps) + f(p)
  {
    assert (ps + [p])[..|ps|] == ps;
  }

  /** The step of a loop that appends `f(ps[i])` to a buffer holding `pre` and the bytes of
      the first i pixels. */
  lemma ConcatMapStep(f: Pixel -> seq<byte>, pre: seq<byte>, ps: seq<Pixel>, i: nat, before: seq<byte>, after: seq<byte>)
    requires i < |ps| && before == pre + ConcatMap(f, ps[..i]) && after == before + f(ps[i])
    ensures after == pre + ConcatMap(f, ps[..i + 1])
  {
    TakeOneMore(ps, i);
    ConcatMapAppend(f, ps[..i], ps[i]);
    Associate(pre, ConcatMap(f, ps[..i]), f(ps[i]));
  }

  /** Reads `bs` back as groups of `w` bytes, each decoded by `g`; None if a group does
      not decode or a partial group is left. */
  function Ungroup(g: seq<byte> -> Option<Pixel>, w: nat, bs: seq<byte>): Option<seq<Pixel>>
    requires w > 0
    decreases |bs|
  {
    if bs == [] then Some([])
    else if |bs| < w then None
    else
      var init := Ungroup(g, w, bs[..|bs| - w]);
      var last := g(bs[|bs| - w..]);
      if init.Some? && last.Some? then Some(init.value + [last.value]) else None
  }

  /** `h` applied to every pixel. */
  function MapPixels(h: Pixel -> Pixel, ps: seq<Pixel>): (qs: seq<Pixel>)
    ensures |qs| == |ps|
  {
    if ps == [] then [] else MapPixels(h, ps[..|ps| - 1]) + [h(ps[|ps| - 1])]
  }

  function Same(p: Pixel): Pixel { p }

  lemma {:induction false} MapSame(ps: seq<Pixel>)
    ensures MapPixels(Same, ps) == ps
  {
    if ps != [] {
      MapSame(ps[..|ps| - 1]);
    }
  }

  /** A per-pixel decoder `g` that reads each pixel's `w` bytes back as `h` of the pixel reads
      back the whole sequence. */
  lemma {:induction false} UngroupConcatMap(f: Pixel -> seq<byte>, g: seq<byte> -> Option<Pixel>,
                                            h: Pixel -> Pixel, w: nat, ps: seq<Pixel>)
    requires w > 0
    requires forall p :: |f(p)| == w
    requires forall p :: g(f(p)) == Some(h(p))
    ensures Ungroup(g, w, ConcatMap(f, ps)) == Some(MapPixels(h, ps))
    decreases |ps|
  {
    if ps != [] {
      var front := ps[..|ps| - 1];
      var p := ps[|ps| - 1];
      var bs := ConcatMap(f, ps);
      ConcatMapAt(f, w, front);
      assert bs == ConcatMap(f, front) + f(p);
      assert bs[..|bs| - w] == ConcatMap(f, front);
      assert bs[|bs| - w..] == f(p);
      UngroupConcatMap(f, g, h, w, front);
    }
  }

  /** When every pixel becomes `w` bytes, pixel `i` occupies bytes `w*i` to `w*i + w`. */
  lemma {:induction false} ConcatMapAt(f: Pixel -> seq<byte>, w: nat, ps: seq<Pixel>)
    requires forall p :: |f(p)| == w
    ensures |ConcatMap(f, ps)| == w * |ps|
    ensures forall i :: 0 <= i < |ps| ==>
      w * i + w <= |ConcatMap(f, ps)| && ConcatMap(f, ps)[w * i..w * i + w] == f(ps[i])
    decreases |ps|
  {
    if ps != [] {
      var front := ps[..|ps| - 1];
      ConcatMapAt(f, w, front);
      var head := ConcatMap(f, front);
      var bs := ConcatMap(f, ps);
      assert bs == head + f(ps[|ps| - 1]);
      Step(w, |front|);
      forall i | 0 <= i < |ps| ensures w * i + w <= |bs| && bs[w * i..w * i + w] == f(ps[i]) {
        Step(w, i);
        if i < |front| {
          MulLe(w, i + 1, |front|);
          assert bs[w * i..w * i + w] == head[w * i..w * i + w];
          assert front[i] == ps[i];
        } else {
          assert w * i == |head|;
        }
      }
    }
  }

  /** When every pixel becomes `w` bytes, `ps` becomes `w * |ps|` bytes. */
  lemma {:induction false} ConcatMapLength(f: Pixel -> seq<byte>, w: nat, ps: seq<Pixel>)
    requires forall p :: |f(p)| == w
    ensures |ConcatMap(f, ps)| == w * |ps|
    decreases |ps|
  {
    if ps != [] {
      ConcatMapLength(f, w, ps[..|ps| - 1]);
      Step(w, |ps| - 1);
    }
  }

  lemma Step(w: nat, n: nat)
    ensures w * (n + 1) == w * n + w
  {
  }

  lemma MulLe(w: nat, a: nat, b: nat)
    requires a <= b
    ensures w * a <= w * b
  {
  }

  /** A slice inside the middle part of a three-part concatenation is a slice of that part. */
  lemma SliceOfMiddle(a: seq<byte>, b: seq<byte>, c: seq<byte>, lo: nat, hi: nat)
    requires lo <= hi <= |b|
    ensures (a + b + c)[|a| + lo..|a| + hi] == b[lo..hi]
  {
    var s := a + b + c;
    forall k | lo <= k < hi ensures s[|a| + k] == b[k] {
    }
  }

  /** One more element of a prefix. */
  lemma TakeOneMore<T>(s: seq<T>, n: nat)
    requires n < |s|
    ensures s[..n + 1] == s[..n] + [s[n]]
  {
  }

  /** Concatenation regrouped, for loops that build a buffer piece by piece. */
  lemma Associate<T>(a: seq<T>, b: seq<T>, c: seq<T>)
    ensures a + (b + c) == (a + b) + c
  {
  }
}
