// The matrix drivers and the pixel matrix of the opcmatrix package
// (python_clients/opcmatrix/__init__.py). A driver maps a grid position to a pixel
// index: rows one column after another, or zig-zag strips for the Tetris and
// Freespace walls. A Matrix holds one colour per pixel and reads and writes them
// through its driver.
module OpcMatrix {
  import opened Bytes

  // ---------------------------------------------------------------------
  // Drivers

  datatype DriverClass = MatrixDriverClass | TetrisClass | VikTetrisClass | FreespaceClass

  /** A driver object: its class and the `width` and `height` its `__init__` stored. */
  datatype Driver = Driver(cls: DriverClass, width: int, height: int)

  /** The base class each driver class names in its `class` statement. */
  function Parent(c: DriverClass): DriverClass
  {
    match c
    case VikTetrisClass => TetrisClass
    case _ => MatrixDriverClass
  }

  /** The class whose `__init__` Python finds for class `c`. */
  function InitOwner(c: DriverClass): DriverClass
  {
    if c == VikTetrisClass then TetrisClass else c
  }

  /** The size the argument-free constructors pass to `MatrixDriver.__init__`. */
  const TETRIS_SIZE := [10, 20]
  const FREESPACE_SIZE := [25, 25]

  function FixedSize(c: DriverClass): seq<int>
  {
    if c == FreespaceClass then FREESPACE_SIZE else TETRIS_SIZE
  }

  /** Running the `__init__` found on `owner` with `args` for an object of class `self`, as
      the code is written: the argument-free constructors call
      `super(self.__class__, self).__init__(width, height)`, which looks up the class after
      `self`'s own class, not after `owner`. None is a TypeError (wrong argument count). */
  function InitAsWritten(self: DriverClass, owner: DriverClass, args: seq<int>): (r: Option<Driver>)
    decreases if args == [] then 1 else 0
  {
    if owner == MatrixDriverClass then
      if |args| == 2 then Some(Driver(self, args[0], args[1])) else None
    else if args != [] then None
    else InitAsWritten(self, InitOwner(Parent(self)), FixedSize(owner))
  }

  /** The same `__init__` chain with `super` resolved after the class that defines the
      `__init__`, as `super(TetrisMatrixDriver, self)` would. */
  function Init(self: DriverClass, owner: DriverClass, args: seq<int>): (r: Option<Driver>)
    decreases if args == [] then 1 else 0
  {
    if owner == MatrixDriverClass then
      if |args| == 2 then Some(Driver(self, args[0], args[1])) else None
    else if args != [] then None
    else Init(self, InitOwner(Parent(owner)), FixedSize(owner))
  }

  /** `c(*args)` as the code is written. */
  function NewDriverAsWritten(c: DriverClass, args: seq<int>): Option<Driver>
  {
    InitAsWritten(c, InitOwner(c), args)
  }

  /** `c(*args)` with the `super` call resolved from the defining class. */
  function NewDriver(c: DriverClass, args: seq<int>): Option<Driver>
  {
    Init(c, InitOwner(c), args)
  }

  /** As written, constructing a VikTetrisMatrixDriver always raises TypeError: the
      inherited Tetris `__init__` calls itself again with two arguments. The other classes
      construct as intended. */
  lemma VikTetrisRaises(c: DriverClass, args: seq<int>)
    ensures NewDriverAsWritten(VikTetrisClass, args).None?
    ensures c != VikTetrisClass ==> NewDriverAsWritten(c, args) == NewDriver(c, args)
  {
    if args == [] {
      assert InitAsWritten(VikTetrisClass, TetrisClass, TETRIS_SIZE).None?;
      if c == TetrisClass || c == FreespaceClass {
        assert InitAsWritten(c, MatrixDriverClass, FixedSize(c)) == Init(c, MatrixDriverClass, FixedSize(c));
      }
    }
  }

  /** The drivers the package defines and their sizes: a MatrixDriver of any size, Tetris
      walls 10 wide and 20 high, the Freespace wall 25 by 25; other argument counts raise. */
  lemma DriverSizes(c: DriverClass, args: seq<int>)
    ensures c == MatrixDriverClass ==>
      NewDriver(c, args) == if |args| == 2 then Some(Driver(c, args[0], args[1])) else None
    ensures c in {TetrisClass, VikTetrisClass} ==>
      NewDriver(c, args) == if args == [] then Some(Driver(c, 10, 20)) else None
    ensures c == FreespaceClass ==>
      NewDriver(c, args) == if args == [] then Some(Driver(c, 25, 25)) else None
  {
    if args == [] && c != MatrixDriverClass {
      assert Init(c, MatrixDriverClass, FixedSize(InitOwner(c))) == Some(Driver(c, FixedSize(InitOwner(c))[0], FixedSize(InitOwner(c))[1]));
    }
  }

  /** `getidx(x, y)` as written: IndexError (None) only when `x > width` or `y > height`. */
  function GetIdxAsWritten(d: Driver, x: int, y: int): (r: Option<int>)
    ensures r.None? <==> x > d.width || y > d.height
  {
    if x > d.width || y > d.height then None else Some(Index(d, x, y))
  }

  /** `getidx(x, y)` raising IndexError for every position past the last column or row. */
  function GetIdx(d: Driver, x: int, y: int): (r: Option<int>)
    ensures r.None? <==> x >= d.width || y >= d.height
  {
    if x >= d.width || y >= d.height then None else Some(Index(d, x, y))
  }

  /** The index expression of each driver class: rows after one another for MatrixDriver and
      Tetris, odd columns reversed for VikTetris, and for Freespace columns counted from
      the right with even ones reversed. */
  function Index(d: Driver, x: int, y: int): (i: int)
    ensures 0 <= x < d.width && 0 <= y < d.height ==> 0 <= i < Cells(d.width, d.height)
  {
    var w, h := d.width, d.height;
    StripBounds(w, h, x, y);
    match d.cls
    case VikTetrisClass => if x % 2 == 0 then x * h + y else x * h + h - y - 1
    case FreespaceClass => if x % 2 == 1 then (w - x - 1) * h + y else (w - x) * h - y - 1
    case _ => x * h + y
  }

  /** The four index expressions stay inside the grid's pixels for grid positions. */
  lemma StripBounds(w: int, h: int, x: int, y: int)
    ensures 0 <= x < w && 0 <= y < h ==>
      0 <= x * h + y < Cells(w, h) && 0 <= x * h + h - y - 1 < Cells(w, h) &&
      0 <= (w - x - 1) * h + y < Cells(w, h) && 0 <= (w - x) * h - y - 1 < Cells(w, h)
  {
    if 0 <= x < w && 0 <= y < h {
      ColumnBounds(w, h, x, y);
      ColumnBounds(w, h, x, h - y - 1);
      ColumnBounds(w, h, w - x - 1, y);
      ColumnBounds(w, h, w - x - 1, h - y - 1);
      assert (w - x) * h == (w - x - 1) * h + h;
    }
  }

  /** Row r of column c, counted column after column, is one of the `w * h` pixels. */
  lemma ColumnBounds(w: int, h: int, c: int, r: int)
    requires 0 <= c < w && 0 <= r < h
    ensures 0 <= c * h + r < Cells(w, h) == w * h
  {
    MulMono(0, c, h);
    MulMono(c + 1, w, h);
    assert (c + 1) * h == c * h + h;
    MulMono(1, w, h);
  }

  /** With `>`, the position one past the last row of a column is let through and names the
      first pixel of the next column (or, past the last column, a pixel off the end). */
  lemma EdgeAliases(w: int, h: int)
    requires w >= 2 && h >= 1
    ensures GetIdxAsWritten(Driver(MatrixDriverClass, w, h), 0, h) == Some(h)
    ensures GetIdxAsWritten(Driver(MatrixDriverClass, w, h), 1, 0) == Some(h)
    ensures GetIdx(Driver(MatrixDriverClass, w, h), 0, h).None?
  {
  }

  /** The column and the row within the column of the strip slot a driver maps (x, y) to. */
  function Slot(d: Driver, x: int, y: int): (int, int)
  {
    var w, h := d.width, d.height;
    match d.cls
    case VikTetrisClass => (x, if x % 2 == 0 then y else h - y - 1)
    case FreespaceClass => (w - x - 1, if x % 2 == 1 then y else h - y - 1)
    case _ => (x, y)
  }

  lemma SlotIndex(d: Driver, x: int, y: int)
    requires 0 <= x < d.width && 0 <= y < d.height
    ensures 0 <= Slot(d, x, y).0 < d.width && 0 <= Slot(d, x, y).1 < d.height
    ensures Index(d, x, y) == Slot(d, x, y).0 * d.height + Slot(d, x, y).1
  {
    if d.cls == FreespaceClass && x % 2 != 1 {
      var w, h := d.width, d.height;
      assert (w - x) * h == (w - x - 1) * h + h;
    }
  }

  lemma SlotInjective(d: Driver, x1: int, y1: int, x2: int, y2: int)
    requires 0 <= x1 < d.width && 0 <= y1 < d.height && 0 <= x2 < d.width && 0 <= y2 < d.height
    requires Slot(d, x1, y1) == Slot(d, x2, y2)
    ensures x1 == x2 && y1 == y2
  {
  }

  /** Column-after-column numbering: rows inside a column never reach the next column. */
  lemma ColumnRow(h: int, c1: int, r1: int, c2: int, r2: int)
    requires 0 <= r1 < h && 0 <= r2 < h && 0 <= c1 && 0 <= c2
    requires c1 * h + r1 == c2 * h + r2
    ensures c1 == c2 && r1 == r2
  {
    if c1 < c2 {
      MulMono(c1 + 1, c2, h);
    } else if c2 < c1 {
      MulMono(c2 + 1, c1, h);
    }
  }

  lemma MulMono(a: int, b: int, h: int)
    requires a <= b && h >= 0
    ensures a * h <= b * h
  {
    assert b * h - a * h == (b - a) * h;
  }

  /** On the grid every driver gives an index in `[0, w * h)`, and different positions
      different indices. */
  lemma IndexInRange(d: Driver, x: int, y: int)
    requires 0 <= x < d.width && 0 <= y < d.height
    ensures GetIdx(d, x, y) == GetIdxAsWritten(d, x, y) == Some(Index(d, x, y))
    ensures 0 <= Index(d, x, y) < d.width * d.height
  {
    ColumnBounds(d.width, d.height, x, y);
  }

  lemma IndexDistinct(d: Driver, x1: int, y1: int, x2: int, y2: int)
    requires 0 <= x1 < d.width && 0 <= y1 < d.height && 0 <= x2 < d.width && 0 <= y2 < d.height
    requires (x1, y1) != (x2, y2)
    ensures Index(d, x1, y1) != Index(d, x2, y2)
  {
    SlotIndex(d, x1, y1);
    SlotIndex(d, x2, y2);
    if Index(d, x1, y1) == Index(d, x2, y2) {
      ColumnRow(d.height, Slot(d, x1, y1).0, Slot(d, x1, y1).1, Slot(d, x2, y2).0, Slot(d, x2, y2).1);
      SlotInjective(d, x1, y1, x2, y2);
    }
  }

  // ---------------------------------------------------------------------
  // Matrix

  /** `range(width * height)` has this many entries. */
  function Cells(w: int, h: int): nat
  {
    if w * h > 0 then w * h else 0
  }

  /** `pixels[i]` for the index a `getidx` returned (None: it raised), with Python's
      indexing from the end for a negative index; None is IndexError. */
  function Entry(i: Option<int>, pixels: seq<Rgb>): (r: Option<Rgb>)
    ensures r.None? <==> i.None? || !(-|pixels| <= i.value < |pixels|)
    ensures r.Some? ==> r.value in pixels
  {
    match i
    case None => None
    case Some(i) =>
      match PyIndex(i, |pixels|)
      case None => None
      case Some(k) => Some(pixels[k])
  }

  /** `pixels[i] = p` for the index a `getidx` returned, or None for IndexError. */
  function Store(i: Option<int>, pixels: seq<Rgb>, p: Rgb): (r: Option<seq<Rgb>>)
    ensures r.Some? <==> Entry(i, pixels).Some?
    ensures r.Some? ==> |r.value| == |pixels| && Entry(i, r.value) == Some(p)
  {
    match i
    case None => None
    case Some(i) =>
      match PyIndex(i, |pixels|)
      case None => None
      case Some(k) => Some(pixels[k := p])
  }

  /** `getpixel(x, y)` on a pixel list, through the `>` guard of `getidx` as written. */
  function Read(d: Driver, pixels: seq<Rgb>, x: int, y: int): (r: Option<Rgb>)
    ensures x > d.width || y > d.height ==> r.None?
    ensures r.Some? ==> r.value in pixels
  {
    Entry(GetIdxAsWritten(d, x, y), pixels)
  }

  /** `setpixel(x, y, pixel)` on a pixel list, through the `>` guard as written: the list
      with that entry replaced, or None when IndexError is raised (and re-raised after the
      message). */
  function Write(d: Driver, pixels: seq<Rgb>, x: int, y: int, p: Rgb): (r: Option<seq<Rgb>>)
    ensures r.Some? ==> |r.value| == |pixels| && Read(d, r.value, x, y) == Some(p)
    ensures r.Some? <==> Read(d, pixels, x, y).Some?
  {
    Store(GetIdxAsWritten(d, x, y), pixels, p)
  }

  /** The corrected read, through the `>=` guard: every position past the last column or
      row raises IndexError. */
  function ReadChecked(d: Driver, pixels: seq<Rgb>, x: int, y: int): (r: Option<Rgb>)
    ensures x >= d.width || y >= d.height ==> r.None?
    ensures r.Some? ==> r.value in pixels
  {
    Entry(GetIdx(d, x, y), pixels)
  }

  /** The corrected write, through the `>=` guard. */
  function WriteChecked(d: Driver, pixels: seq<Rgb>, x: int, y: int, p: Rgb): (r: Option<seq<Rgb>>)
    ensures x >= d.width || y >= d.height ==> r.None?
    ensures r.Some? ==> |r.value| == |pixels| && ReadChecked(d, r.value, x, y) == Some(p)
    ensures r.Some? <==> ReadChecked(d, pixels, x, y).Some?
  {
    Store(GetIdx(d, x, y), pixels, p)
  }

  /** On the grid, reading is never an IndexError and gives the entry at the driver's index,
      and the written and the corrected guard read and write alike. */
  lemma ReadOnGrid(d: Driver, pixels: seq<Rgb>, x: int, y: int, p: Rgb)
    ensures 0 <= x < d.width && 0 <= y < d.height && |pixels| == Cells(d.width, d.height) ==>
      0 <= Index(d, x, y) < |pixels| && Read(d, pixels, x, y) == Some(pixels[Index(d, x, y)])
    ensures 0 <= x < d.width && 0 <= y < d.height ==>
      ReadChecked(d, pixels, x, y) == Read(d, pixels, x, y) &&
      WriteChecked(d, pixels, x, y, p) == Write(d, pixels, x, y, p)
  {
    if 0 <= x < d.width && 0 <= y < d.height {
      IndexInRange(d, x, y);
    }
  }

  /** A pixel written on the grid reads back, and every other grid pixel keeps its colour. */
  lemma ReadAfterWrite(d: Driver, pixels: seq<Rgb>, x: int, y: int, p: Rgb, x2: int, y2: int)
    requires |pixels| == Cells(d.width, d.height)
    requires 0 <= x < d.width && 0 <= y < d.height && 0 <= x2 < d.width && 0 <= y2 < d.height
    ensures Write(d, pixels, x, y, p).Some?
    ensures Read(d, Write(d, pixels, x, y, p).value, x, y) == Some(p)
    ensures (x2, y2) != (x, y) ==> Read(d, Write(d, pixels, x, y, p).value, x2, y2) == Read(d, pixels, x2, y2)
  {
    IndexInRange(d, x, y);
    IndexInRange(d, x2, y2);
    if (x2, y2) != (x, y) {
      IndexDistinct(d, x, y, x2, y2);
    }
  }

  /** As written, `setpixel(0, height)` on a matrix at least two columns wide is no error:
      it overwrites the first pixel of column 1. The corrected guard refuses it. */
  lemma EdgeWriteAliases(w: int, h: int, pixels: seq<Rgb>, p: Rgb)
    requires w >= 2 && h >= 1 && |pixels| == Cells(w, h)
    ensures Read(Driver(MatrixDriverClass, w, h), pixels, 0, h) == Some(pixels[h])
    ensures Write(Driver(MatrixDriverClass, w, h), pixels, 0, h, p).Some?
    ensures Read(Driver(MatrixDriverClass, w, h), Write(Driver(MatrixDriverClass, w, h), pixels, 0, h, p).value, 1, 0) == Some(p)
    ensures WriteChecked(Driver(MatrixDriverClass, w, h), pixels, 0, h, p).None?
  {
    MulMono(2, w, h);
  }

  /** `Matrix(client, driver, channel)`: one colour per pixel of the driver's grid. */
  class Matrix {
    const driver: Driver
    const channel: int
    const width: int
    const height: int
    var pixels: seq<Rgb>

    predicate Valid()
      reads this
    {
      width == driver.width && height == driver.height && |pixels| == Cells(width, height)
    }

    /** A new matrix holds `width * height` black pixels. */
    constructor (driver: Driver, channel: int)
      ensures Valid() && this.driver == driver && this.channel == channel
      ensures forall i :: 0 <= i < |pixels| ==> pixels[i] == RgbBlack
    {
      this.driver := driver;
      this.channel := channel;
      width := driver.width;
      height := driver.height;
      pixels := seq(Cells(driver.width, driver.height), _ => RgbBlack);
    }

    /** `fill(rgb)`: every pixel becomes `rgb`. */
    method Fill(rgb: Rgb)
      requires Valid()
      modifies this
      ensures Valid() && |pixels| == old(|pixels|)
      ensures forall i :: 0 <= i < |pixels| ==> pixels[i] == rgb
    {
      var i := 0;
      while i < Cells(width, height)
        invariant 0 <= i <= |pixels| == Cells(width, height)
        invariant Valid()
        invariant forall k :: 0 <= k < i ==> pixels[k] == rgb
      {
        pixels := pixels[i := rgb];
        i := i + 1;
      }
    }

    /** `clear()`: every pixel becomes black. */
    method Clear()
      requires Valid()
      modifies this
      ensures Valid() && |pixels| == old(|pixels|)
      ensures forall i :: 0 <= i < |pixels| ==> pixels[i] == RgbBlack
    {
      Fill(RgbBlack);
    }

    /** `getpixel(x, y)`: the later of the two definitions, which reads the matrix's own
        list through the driver's `getidx` as written. */
    function GetPixel(x: int, y: int): (r: Option<Rgb>)
      reads this
      requires Valid()
      ensures 0 <= x < width && 0 <= y < height ==> r == Some(pixels[Index(driver, x, y)])
      ensures x > width || y > height ==> r.None?
      ensures r.Some? ==> r.value in pixels
      ensures r.None? <==> Write(driver, pixels, x, y, RgbBlack).None?
    {
      ReadOnGrid(driver, pixels, x, y, RgbBlack);
      Read(driver, pixels, x, y)
    }

    /** `setpixel(x, y, pixel)`: the later definition, through the driver's `getidx` as
        written; `ok` is false when IndexError is raised, and then nothing changes. */
    method SetPixel(x: int, y: int, p: Rgb) returns (ok: bool)
      requires Valid()
      modifies this
      ensures Valid()
      ensures ok <==> Write(driver, old(pixels), x, y, p).Some?
      ensures pixels == if ok then Write(driver, old(pixels), x, y, p).value else old(pixels)
    {
      var i := GetIdxAsWritten(driver, x, y);
      if i.None? {
        return false;
      }
      var k := PyIndex(i.value, |pixels|);
      if k.None? {
        return false;
      }
      pixels := pixels[k.value := p];
      ok := true;
    }
  }

  /** `renderloop`'s pacing: it raises when `fps <= 0`; otherwise it sleeps `1 / fps` after
      each frame, or with `iframes` interpolated frames `1 / (fps * (1 + iframes))` after each
      of the `iframes + 1` frames of an update, so an update still takes `1 / fps`. */
  function FrameDelay(fps: real, iframes: nat): (r: Option<real>)
    ensures r.None? <==> fps <= 0.0
    ensures r.Some? ==> r.value > 0.0 && r.value * fps * (iframes + 1) as real == 1.0
  {
    if fps <= 0.0 then None
    else if iframes == 0 then Some(1.0 / fps)
    else Some(1.0 / (fps * (1 + iframes) as real))
  }
}
