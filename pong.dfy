// The pong demo's matrices (python_clients/pong.py): a grid of colours kept as a list
// of columns, rendered column after column; a "digital rain" matrix that scrolls each
// column up by one cell; and two paddles that bounce between the top and the bottom of
// the first and the last column.
module Pong {
  import opened Bytes

  const WHITE := Rgb(255, 255, 255)
  const GREEN := Rgb(0, 255, 0)
  const RED := Rgb(255, 0, 0)

  // ---------------------------------------------------------------------
  // Matrix

  /** The pixels `render` sends: every column's cells top to bottom, first column first. */
  function ColumnMajor(data: seq<seq<Rgb>>): (ps: seq<Rgb>)
  {
    if data == [] then [] else ColumnMajor(data[..|data| - 1]) + data[|data| - 1]
  }

  /** With every column `h` cells long, cell y of column x is pixel `x * h + y`. */
  lemma {:induction false} ColumnMajorAt(data: seq<seq<Rgb>>, h: nat)
    requires forall x :: 0 <= x < |data| ==> |data[x]| == h
    ensures |ColumnMajor(data)| == |data| * h
    ensures forall x, y :: 0 <= x < |data| && 0 <= y < h ==>
      x * h + y < |ColumnMajor(data)| && ColumnMajor(data)[x * h + y] == data[x][y]
  {
    if data != [] {
      var front := data[..|data| - 1];
      ColumnMajorAt(front, h);
      assert |ColumnMajor(data)| == |front| * h + h;
      forall x, y | 0 <= x < |data| && 0 <= y < h
        ensures x * h + y < |ColumnMajor(data)| && ColumnMajor(data)[x * h + y] == data[x][y]
      {
        ColumnBefore(x, |data|, h, y);
        if x < |front| {
          assert x * h + y < |front| * h by { ColumnBefore(x, |front|, h, y); }
        } else {
          assert x * h == |front| * h;
        }
      }
    }
  }

  lemma ColumnBefore(x: nat, n: nat, h: nat, y: nat)
    requires x < n && y < h
    ensures x * h + y < n * h
  {
    Step(h, x);
    MulLe(h, x + 1, n);
    assert h * x == x * h && h * n == n * h;
  }

  lemma ColumnMajorStep(data: seq<seq<Rgb>>, x: nat)
    requires x < |data|
    ensures ColumnMajor(data[..x + 1]) == ColumnMajor(data[..x]) + data[x]
  {
    assert data[..x + 1][..x] == data[..x];
  }

  /** `Matrix(client, width, height)`: `width` columns of `height` cells. */
  class Matrix {
    const width: nat
    const height: nat
    var data: seq<seq<Rgb>>

    predicate Valid()
      reads this
    {
      |data| == width && forall x :: 0 <= x < width ==> |data[x]| == height
    }

    /** A new matrix has `width` columns of `height` black cells. */
    constructor (width: nat, height: nat)
      ensures Valid() && this.width == width && this.height == height
      ensures forall x, y :: 0 <= x < width && 0 <= y < height ==> data[x][y] == RgbBlack
    {
      this.width := width;
      this.height := height;
      data := seq(width, _ => seq(height, _ => RgbBlack));
    }

    /** `fill(r, g, b)`: every cell becomes the colour, row after row. */
    method Fill(c: Rgb)
      requires Valid()
      modifies this
      ensures Valid()
      ensures forall x, y :: 0 <= x < width && 0 <= y < height ==> data[x][y] == c
    {
      var y := 0;
      while y < height
        invariant 0 <= y <= height && Valid()
        invariant forall x', y' :: 0 <= x' < width && 0 <= y' < y ==> data[x'][y'] == c
      {
        var x := 0;
        while x < width
          invariant 0 <= x <= width && Valid()
          invariant forall x', y' :: 0 <= x' < width && 0 <= y' < y ==> data[x'][y'] == c
          invariant forall x' :: 0 <= x' < x ==> data[x'][y] == c
        {
          data := data[x := data[x][y := c]];
          x := x + 1;
        }
        y := y + 1;
      }
    }

    /** `clear()`: every cell black. */
    method Clear()
      requires Valid()
      modifies this
      ensures Valid()
      ensures forall x, y :: 0 <= x < width && 0 <= y < height ==> data[x][y] == RgbBlack
    {
      Fill(RgbBlack);
    }

    /** `test()`: every cell red. */
    method Test()
      requires Valid()
      modifies this
      ensures Valid()
      ensures forall x, y :: 0 <= x < width && 0 <= y < height ==> data[x][y] == RED
    {
      Fill(RED);
    }

    /** `render()`: the `width * height` pixels handed to `put_pixels`, column after column;
        pixel `x * height + y` is cell y of column x. */
    method Render() returns (pixels: seq<Rgb>)
      requires Valid()
      ensures pixels == ColumnMajor(data)
      ensures |pixels| == width * height
      ensures forall x, y :: 0 <= x < width && 0 <= y < height ==> pixels[x * height + y] == data[x][y]
    {
      pixels := [];
      var x := 0;
      while x < width
        invariant 0 <= x <= width
        invariant pixels == ColumnMajor(data[..x])
      {
        var y := 0;
        ghost var before := pixels;
        while y < height
          invariant 0 <= y <= height
          invariant pixels == before + data[x][..y]
        {
          pixels := pixels + [data[x][y]];
          y := y + 1;
        }
        assert data[x][..y] == data[x];
        ColumnMajorStep(data, x);
        x := x + 1;
      }
      assert data[..x] == data;
      ColumnMajorAt(data, height);
    }
  }

  // ---------------------------------------------------------------------
  // MatrixMatrix: the falling rain

  /** `int(v * 0.99 if v > 250 else v * 0.75)`: bright components fade slowly, others fast. */
  function Fade(v: int): (f: int)
    ensures 0 <= v ==> 0 <= f <= v
    ensures 0 < v ==> f < v
  {
    PyTrunc(if v > 250 then v as real * 0.99 else v as real * 0.75)
  }

  function Faded(c: Rgb): Rgb
  {
    Rgb(Fade(c.r), Fade(c.g), Fade(c.b))
  }

  /** One column of `MatrixMatrix.update`: `pop(0)`, then a new green drop when the random
      draw exceeds 0.93, else a faded copy of the new last cell. The flag is false when
      `pop` or `[-1]` meets an empty list (IndexError); the column is then as left by the
      step that raised. */
  function Shift(col: seq<Rgb>, draw: real): (r: (seq<Rgb>, bool))
  {
    if col == [] then (col, false)
    else
      var rest := col[1..];
      if draw > 0.93 then (rest + [GREEN], true)
      else if rest == [] then (rest, false)
      else (rest + [Faded(rest[|rest| - 1])], true)
  }

  /** `update()` from column `x` on: the columns and whether the loop finished. */
  function Rain(data: seq<seq<Rgb>>, draws: nat -> real, x: nat): (r: (seq<seq<Rgb>>, bool))
    requires x <= |data|
    ensures |r.0| == |data|
    decreases |data| - x
  {
    if x == |data| then (data, true)
    else
      var s := Shift(data[x], draws(x));
      if !s.1 then (data[x := s.0], false) else Rain(data[x := s.0], draws, x + 1)
  }

  /** Columns at least two cells long scroll up by one and keep their length: the old
      cells 1.. move up, and one new cell enters at the bottom. */
  lemma {:induction false} RainScrolls(data: seq<seq<Rgb>>, draws: nat -> real, x: nat, h: nat)
    requires x <= |data| && h >= 2
    requires forall k :: x <= k < |data| ==> |data[k]| == h
    ensures Rain(data, draws, x).1
    ensures forall k :: 0 <= k < x ==> Rain(data, draws, x).0[k] == data[k]
    ensures forall k :: x <= k < |data| ==>
      |Rain(data, draws, x).0[k]| == h && Rain(data, draws, x).0[k][..h - 1] == data[k][1..]
    ensures forall k :: x <= k < |data| ==>
      Rain(data, draws, x).0[k][h - 1] == if draws(k) > 0.93 then GREEN else Faded(data[k][h - 1])
    decreases |data| - x
  {
    if x < |data| {
      var s := Shift(data[x], draws(x));
      assert s.1 && s.0 == data[x][1..] + [s.0[h - 1]];
      RainScrolls(data[x := s.0], draws, x + 1, h);
    }
  }

  /** Columns of one cell keep their length only while every draw is a green drop; empty
      columns always raise on the first `pop`. */
  lemma {:induction false} RainShortColumns(data: seq<seq<Rgb>>, draws: nat -> real, x: nat)
    requires x < |data|
    ensures data[x] == [] ==> !Rain(data, draws, x).1
    ensures |data[x]| == 1 && draws(x) <= 0.93 ==> !Rain(data, draws, x).1
  {
  }

  /** `MatrixMatrix`: the rain matrix. */
  class MatrixMatrix {
    const grid: Matrix

    constructor (width: nat, height: nat)
      ensures grid.Valid() && grid.width == width && grid.height == height && fresh(grid)
    {
      grid := new Matrix(width, height);
    }

    /** `update()`, with `draws(x)` the value of `random.random()` for column x; `ok` is false
        when IndexError ends the loop. */
    method Update(draws: nat -> real) returns (ok: bool)
      requires grid.Valid()
      modifies grid
      ensures (grid.data, ok) == Rain(old(grid.data), draws, 0)
    {
      var x := 0;
      while x < grid.width
        invariant 0 <= x <= grid.width == |grid.data|
        invariant Rain(old(grid.data), draws, 0) == Rain(grid.data, draws, x)
      {
        var col := grid.data[x];
        if col == [] {
          assert grid.data[x := col] == grid.data;
          return false;
        }
        col := col[1..];
        if draws(x) > 0.93 {
          col := col + [GREEN];
        } else {
          if col == [] {
            grid.data := grid.data[x := col];
            return false;
          }
          var trio := col[|col| - 1];
          col := col + [Rgb(Fade(trio.r), Fade(trio.g), Fade(trio.b))];
        }
        grid.data := grid.data[x := col];
        x := x + 1;
      }
      ok := true;
    }
  }

  // ---------------------------------------------------------------------
  // PongMatrix: the paddles

  const PSIZE := 4

  /** `int(height / 2 - psize / 2)` with true division: the paddles' first row. */
  function StartRow(height: int): (y: int)
    ensures height >= PSIZE ==> y == (height - PSIZE) / 2
    ensures height > PSIZE ==> 0 <= y <= height - PSIZE
    ensures height >= PSIZE ==> 0 <= (height - PSIZE - y) - y <= 1
  {
    PyTrunc(height as real / 2.0 - PSIZE as real / 2.0)
  }

  /** One pass of `update_players` for one paddle at row `y` moving by `d`: it moves if its
      rows stay inside `[0, height)`, otherwise it turns round and moves. */
  function PlayerStep(y: int, d: int, psize: int, height: int): (r: (int, int))
  {
    if (d > 0 && y + psize + d <= height) || (d < 0 && y + d >= 0) then (y + d, d)
    else (y - d, -d)
  }

  /** A paddle inside a column longer than itself stays inside, moves by exactly one row and
      keeps a direction of one row up or down. */
  predicate InPlay(y: int, d: int, psize: int, height: int)
  {
    (d == 1 || d == -1) && 0 <= y <= height - psize
  }

  lemma PlayerStepInPlay(y: int, d: int, psize: int, height: int)
    requires psize >= 0 && height > psize && InPlay(y, d, psize, height)
    ensures InPlay(PlayerStep(y, d, psize, height).0, PlayerStep(y, d, psize, height).1, psize, height)
    ensures PlayerStep(y, d, psize, height).0 - y == PlayerStep(y, d, psize, height).1
  {
  }

  /** A paddle turns round exactly at the ends of its track. */
  lemma PlayerBounces(y: int, d: int, psize: int, height: int)
    requires psize >= 0 && height > psize && InPlay(y, d, psize, height)
    ensures PlayerStep(y, d, psize, height).1 == -d <==>
      (d == 1 && y == height - psize) || (d == -1 && y == 0)
  {
  }

  /** `PongMatrix.Player(y, d)`. */
  class Player {
    var y: int
    var d: int

    constructor (y: int, d: int)
      ensures this.y == y && this.d == d
    {
      this.y := y;
      this.d := d;
    }
  }

  /** Cell y of an end column after `update`: white on the paddle's rows, else black. */
  function PaddleCell(y: int, top: int): Rgb
  {
    if top <= y < top + PSIZE then WHITE else RgbBlack
  }

  /** `PongMatrix(client, width, height, fps)`: a matrix with `psize = 4` and two paddles,
      `players[0]` in the first column and `players[1]` in the last. */
  class PongMatrix {
    const grid: Matrix
    const fps: real
    const psize: int
    const left: Player
    const right: Player

    predicate Valid()
      reads this, grid, left, right
    {
      grid.Valid() && left != right && psize == PSIZE
    }

    /** Both paddles inside columns longer than a paddle. */
    predicate Playing()
      reads this, grid, left, right
    {
      Valid() && grid.width >= 1 && grid.height > psize &&
      InPlay(left.y, left.d, psize, grid.height) && InPlay(right.y, right.d, psize, grid.height)
    }

    /** `__init__` and `init()`: both paddles start at StartRow(height), the first moving
        down and the second up. */
    constructor (width: nat, height: nat, fps: real)
      ensures Valid() && fresh(grid) && fresh(left) && fresh(right)
      ensures grid.width == width && grid.height == height && this.fps == fps
      ensures forall x, y :: 0 <= x < width && 0 <= y < height ==> grid.data[x][y] == RgbBlack
      ensures left.y == right.y == StartRow(height) && left.d == 1 && right.d == -1
      ensures width >= 1 && height > PSIZE ==> Playing()
    {
      grid := new Matrix(width, height);
      this.fps := fps;
      psize := PSIZE;
      left := new Player(StartRow(height), 1);
      right := new Player(StartRow(height), -1);
    }

    /** `update_players()`: one step of each paddle, first then second. */
    method UpdatePlayers()
      requires Valid()
      modifies left, right
      ensures (left.y, left.d) == PlayerStep(old(left.y), old(left.d), psize, grid.height)
      ensures (right.y, right.d) == PlayerStep(old(right.y), old(right.d), psize, grid.height)
    {
      var ps := [left, right];
      var i := 0;
      while i < 2
        invariant 0 <= i <= 2
        invariant i > 0 ==> (left.y, left.d) == PlayerStep(old(left.y), old(left.d), psize, grid.height)
        invariant i > 1 ==> (right.y, right.d) == PlayerStep(old(right.y), old(right.d), psize, grid.height)
        invariant i <= 0 ==> left.y == old(left.y) && left.d == old(left.d)
        invariant i <= 1 ==> right.y == old(right.y) && right.d == old(right.d)
      {
        var p := ps[i];
        if (p.d > 0 && p.y + psize + p.d <= grid.height) || (p.d < 0 && p.y + p.d >= 0) {
          p.y := p.y + p.d;
        } else {
          p.d := -p.d;
          p.y := p.y + p.d;
        }
        i := i + 1;
      }
    }

    /** `update()`: the paddles step, both end columns are blanked, then each paddle's rows
        are painted white; the other columns keep their cells. With one column both paddles
        are painted into it. */
    method Update()
      requires Playing()
      modifies left, right, grid
      ensures Playing()
      ensures (left.y, left.d) == PlayerStep(old(left.y), old(left.d), psize, grid.height)
      ensures (right.y, right.d) == PlayerStep(old(right.y), old(right.d), psize, grid.height)
      ensures forall x :: 0 < x < grid.width - 1 ==> grid.data[x] == old(grid.data[x])
      ensures grid.width >= 2 ==> forall y :: 0 <= y < grid.height ==>
        grid.data[0][y] == PaddleCell(y, left.y) && grid.data[grid.width - 1][y] == PaddleCell(y, right.y)
      ensures grid.width == 1 ==> forall y :: 0 <= y < grid.height ==>
        grid.data[0][y] == if PaddleCell(y, left.y) == WHITE then WHITE else PaddleCell(y, right.y)
    {
      UpdatePlayers();
      PlayerStepInPlay(old(left.y), old(left.d), psize, grid.height);
      PlayerStepInPlay(old(right.y), old(right.d), psize, grid.height);
      BlankEnds();
      PaintPaddles();
    }

    /** Every cell of the first and the last column is black. */
    predicate EndsBlack()
      reads this, grid
    {
      grid.Valid() && grid.width >= 1 &&
      forall k :: 0 <= k < grid.height ==> grid.data[0][k] == RgbBlack && grid.data[grid.width - 1][k] == RgbBlack
    }

    /** The first loop of `update()`: both end columns turn black, row by row. */
    method BlankEnds()
      requires Valid() && grid.width >= 1
      modifies grid
      ensures grid.Valid()
      ensures forall x :: 0 < x < grid.width - 1 ==> grid.data[x] == old(grid.data[x])
      ensures EndsBlack()
    {
      var last := grid.width - 1;
      var h := grid.height;
      var y := 0;
      while y < h
        invariant 0 <= y <= h && grid.Valid()
        invariant forall x :: 0 < x < last ==> grid.data[x] == old(grid.data[x])
        invariant forall k :: 0 <= k < y ==> grid.data[0][k] == RgbBlack && grid.data[last][k] == RgbBlack
      {
        grid.data := grid.data[0 := grid.data[0][y := RgbBlack]];
        grid.data := grid.data[last := grid.data[last][y := RgbBlack]];
        y := y + 1;
      }
    }

    /** The second loop of `update()`: on black end columns, the first paddle's rows turn
        white in the first column and the second paddle's in the last. */
    method PaintPaddles()
      requires Playing()
      requires EndsBlack()
      modifies grid
      ensures grid.Valid()
      ensures forall x :: 0 < x < grid.width - 1 ==> grid.data[x] == old(grid.data[x])
      ensures grid.width >= 2 ==> forall y :: 0 <= y < grid.height ==>
        grid.data[0][y] == PaddleCell(y, left.y) && grid.data[grid.width - 1][y] == PaddleCell(y, right.y)
      ensures grid.width == 1 ==> forall y :: 0 <= y < grid.height ==>
        grid.data[0][y] == if PaddleCell(y, left.y) == WHITE then WHITE else PaddleCell(y, right.y)
    {
      var last := grid.width - 1;
      var h := grid.height;
      var y := 0;
      while y < psize
        invariant 0 <= y <= psize && grid.Valid()
        invariant forall x :: 0 < x < last ==> grid.data[x] == old(grid.data[x])
        invariant last >= 1 ==> forall k :: 0 <= k < h ==>
          grid.data[0][k] == (if left.y <= k < left.y + y then WHITE else RgbBlack) &&
          grid.data[last][k] == (if right.y <= k < right.y + y then WHITE else RgbBlack)
        invariant last == 0 ==> forall k :: 0 <= k < h ==>
          grid.data[0][k] == (if left.y <= k < left.y + y || right.y <= k < right.y + y then WHITE else RgbBlack)
      {
        grid.data := grid.data[0 := grid.data[0][left.y + y := WHITE]];
        grid.data := grid.data[last := grid.data[last][right.y + y := WHITE]];
        y := y + 1;
      }
    }
  }
}
