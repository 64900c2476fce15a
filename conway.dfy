// The Game of Life demo (python_clients/conway.py): a 25 by 25 board kept as a flat
// list, a random start, the neighbour count, one generation, and the pixels shown for
// a board. A cell holds the integer 1 (alive), the integer 0, or the string '0' the
// lists are created with.
module Conway {
  import opened Bytes

  const X_DIM := 25
  const Y_DIM := 25
  const CELLS := X_DIM * Y_DIM

  /** A board entry: the string '0' a new list is filled with, or the integers 0 and 1. */
  datatype Cell = Placeholder | Dead | Live

  /** Python truth: the string '0' is a non-empty string, so it is true; 0 is false. */
  predicate Truthy(c: Cell) { c != Dead }

  /** `board[x*X_DIM+y]`'s position. */
  function At(x: int, y: int): int { x * X_DIM + y }

  predicate OnBoard(i: int, j: int) { 0 <= i < X_DIM && 0 <= j < Y_DIM }

  /** Cell (i, j) is on the board and holds 1. */
  predicate LiveAt(board: seq<Cell>, i: int, j: int)
    requires |board| == CELLS
  {
    OnBoard(i, j) && board[At(i, j)] == Live
  }

  // ---------------------------------------------------------------------
  // rand_board

  /** Entry k of the flat list is cell (k / X_DIM, k % X_DIM). */
  lemma CellOfEntry(k: int)
    requires 0 <= k < CELLS
    ensures OnBoard(k / X_DIM, k % X_DIM) && At(k / X_DIM, k % X_DIM) == k
  {
  }

  /** Every cell's position is its own entry: At is one-to-one on the board. */
  lemma EntryOfCell(x: int, y: int)
    requires OnBoard(x, y)
    ensures 0 <= At(x, y) < CELLS && At(x, y) / X_DIM == x && At(x, y) % X_DIM == y
  {
  }

  /** The board `rand_board` means to draw: cell (x, y) is 1 when its draw is 0, and `fill`
      otherwise. */
  function Drawn(roll: (int, int) -> int, fill: Cell): (board: seq<Cell>)
    ensures |board| == CELLS
    ensures forall x, y :: OnBoard(x, y) ==> board[At(x, y)] == if roll(x, y) == 0 then Live else fill
  {
    var b := seq(CELLS, k => if roll(k / X_DIM, k % X_DIM) == 0 then Live else fill);
    assert forall x, y :: OnBoard(x, y) ==> b[At(x, y)] == if roll(x, y) == 0 then Live else fill by {
      forall x, y | OnBoard(x, y) {
        EntryOfCell(x, y);
      }
    }
    b
  }

  /** Two boards that agree on every cell are equal. */
  lemma SameCells(a: seq<Cell>, b: seq<Cell>)
    requires |a| == CELLS && |b| == CELLS
    requires forall x, y :: OnBoard(x, y) ==> a[At(x, y)] == b[At(x, y)]
    ensures a == b
  {
    forall k | 0 <= k < CELLS
      ensures a[k] == b[k]
    {
      CellOfEntry(k);
    }
  }

  /** `rand_board()`, with `roll(x, y)` the value `random.randint(0, 3)` returns for cell
      (x, y): the cell becomes 1 when the draw is 0 and otherwise keeps the string '0'. */
  method RandBoard(roll: (int, int) -> int) returns (board: seq<Cell>)
    ensures |board| == CELLS
    ensures forall x, y :: OnBoard(x, y) ==> board[At(x, y)] == if roll(x, y) == 0 then Live else Placeholder
    ensures board == Drawn(roll, Placeholder)
  {
    board := seq(CELLS, _ => Placeholder);
    var x := 0;
    while x < X_DIM
      invariant 0 <= x <= X_DIM && |board| == CELLS
      invariant forall i, j :: OnBoard(i, j) ==>
        board[At(i, j)] == if i < x && roll(i, j) == 0 then Live else Placeholder
    {
      var y := 0;
      while y < Y_DIM
        invariant 0 <= y <= Y_DIM && |board| == CELLS
        invariant forall i, j :: OnBoard(i, j) ==>
          board[At(i, j)] == if (i < x || (i == x && j < y)) && roll(i, j) == 0 then Live else Placeholder
      {
        if roll(x, y) == 0 {
          board := board[At(x, y) := Live];
        }
        y := y + 1;
      }
      x := x + 1;
    }
    SameCells(board, Drawn(roll, Placeholder));
  }

  /** `rand_board()` as intended: the list starts filled with 0 instead of the string '0',
      so the cells whose draw is not 0 are dead. */
  method RandBoardChecked(roll: (int, int) -> int) returns (board: seq<Cell>)
    ensures board == Drawn(roll, Dead)
  {
    board := seq(CELLS, _ => Dead);
    var x := 0;
    while x < X_DIM
      invariant 0 <= x <= X_DIM && |board| == CELLS
      invariant forall i, j :: OnBoard(i, j) ==>
        board[At(i, j)] == if i < x && roll(i, j) == 0 then Live else Dead
    {
      var y := 0;
      while y < Y_DIM
        invariant 0 <= y <= Y_DIM && |board| == CELLS
        invariant forall i, j :: OnBoard(i, j) ==>
          board[At(i, j)] == if (i < x || (i == x && j < y)) && roll(i, j) == 0 then Live else Dead
      {
        if roll(x, y) == 0 {
          board := board[At(x, y) := Live];
        }
        y := y + 1;
      }
      x := x + 1;
    }
    SameCells(board, Drawn(roll, Dead));
  }

  // ---------------------------------------------------------------------
  // count_cell_neighbor

  /** The live cells of the 3 by 3 square centred on (x, y) that lie on the board, the
      centre included. */
  function Neighbourhood(board: seq<Cell>, x: int, y: int): set<(int, int)>
    requires |board| == CELLS
  {
    set i, j | x - 1 <= i <= x + 1 && y - 1 <= j <= y + 1 && LiveAt(board, i, j) :: (i, j)
  }

  /** (i, j) is in the square centred on (x, y) and is among its first `k` cells in the
      loop's order, columns first and rows within them. */
  predicate VisitedBy(x: int, y: int, k: int, i: int, j: int)
  {
    x - 1 <= i <= x + 1 && y - 1 <= j <= y + 1 && 3 * (i - x + 1) + (j - y + 1) < k
  }

  /** The part of the square the loop has visited after `k` of its nine offsets. */
  function Visited(board: seq<Cell>, x: int, y: int, k: int): set<(int, int)>
    requires |board| == CELLS
  {
    set i, j | x - 1 <= i <= x + 1 && y - 1 <= j <= y + 1 && VisitedBy(x, y, k, i, j) && LiveAt(board, i, j) :: (i, j)
  }

  lemma InVisited(board: seq<Cell>, x: int, y: int, k: int, p: (int, int))
    requires |board| == CELLS
    ensures p in Visited(board, x, y, k) <==> VisitedBy(x, y, k, p.0, p.1) && LiveAt(board, p.0, p.1)
  {
    if VisitedBy(x, y, k, p.0, p.1) && LiveAt(board, p.0, p.1) {
      assert p == (p.0, p.1);
    }
  }

  lemma InNeighbourhood(board: seq<Cell>, x: int, y: int, p: (int, int))
    requires |board| == CELLS
    ensures p in Neighbourhood(board, x, y) <==> x - 1 <= p.0 <= x + 1 && y - 1 <= p.1 <= y + 1 && LiveAt(board, p.0, p.1)
  {
    if x - 1 <= p.0 <= x + 1 && y - 1 <= p.1 <= y + 1 && LiveAt(board, p.0, p.1) {
      assert p == (p.0, p.1);
    }
  }

  lemma VisitedAll(board: seq<Cell>, x: int, y: int)
    requires |board| == CELLS
    ensures Visited(board, x, y, 9) == Neighbourhood(board, x, y)
  {
    forall p ensures p in Visited(board, x, y, 9) <==> p in Neighbourhood(board, x, y) {
      InVisited(board, x, y, 9, p);
      InNeighbourhood(board, x, y, p);
    }
  }

  /** Visiting offset (a, b), the cell (x - 1 + a, y - 1 + b), adds that cell when it is live
      and on the board, and it was not counted before. */
  lemma VisitStep(board: seq<Cell>, x: int, y: int, a: int, b: int)
    requires |board| == CELLS && 0 <= a < 3 && 0 <= b < 3
    ensures (x - 1 + a, y - 1 + b) !in Visited(board, x, y, 3 * a + b)
    ensures Visited(board, x, y, 3 * a + b + 1) == Visited(board, x, y, 3 * a + b) +
      (if LiveAt(board, x - 1 + a, y - 1 + b) then {(x - 1 + a, y - 1 + b)} else {})
  {
    var k := 3 * a + b;
    var c := (x - 1 + a, y - 1 + b);
    InVisited(board, x, y, k, c);
    forall p ensures p in Visited(board, x, y, k + 1) <==>
      p in Visited(board, x, y, k) || (p == c && LiveAt(board, c.0, c.1))
    {
      InVisited(board, x, y, k, p);
      InVisited(board, x, y, k + 1, p);
    }
  }

  /** The count after visiting offset (a, b) grows by one exactly when that cell is live. */
  lemma VisitCount(board: seq<Cell>, x: int, y: int, a: int, b: int)
    requires |board| == CELLS && 0 <= a < 3 && 0 <= b < 3
    ensures |Visited(board, x, y, 3 * a + b + 1)| ==
      |Visited(board, x, y, 3 * a + b)| + if LiveAt(board, x - 1 + a, y - 1 + b) then 1 else 0
  {
    VisitStep(board, x, y, a, b);
  }

  /** A column of the square that is off the board adds nothing. */
  lemma SkipColumn(board: seq<Cell>, x: int, y: int, a: int)
    requires |board| == CELLS && 0 <= a < 3 && !(0 <= x - 1 + a < X_DIM)
    ensures Visited(board, x, y, 3 * a + 3) == Visited(board, x, y, 3 * a)
  {
    forall p ensures p in Visited(board, x, y, 3 * a + 3) <==> p in Visited(board, x, y, 3 * a) {
      InVisited(board, x, y, 3 * a, p);
      InVisited(board, x, y, 3 * a + 3, p);
    }
  }

  /** `count_cell_neighbor(x, y, board)` for a cell of the board: the offsets that would leave
      the board are skipped, so every index read is in range, and the count is the number
      of live cells in the 3 by 3 square, the cell itself included. */
  method CountCellNeighbor(x: int, y: int, board: seq<Cell>) returns (n: nat)
    requires OnBoard(x, y) && |board| == CELLS
    ensures n == |Neighbourhood(board, x, y)| && n <= 9
  {
    n := 0;
    var a := 0;
    while a < 3
      invariant 0 <= a <= 3 && n <= 3 * a
      invariant n == |Visited(board, x, y, 3 * a)|
    {
      if (x == 0 && a == 0) || (x == X_DIM - 1 && a == 2) {
        SkipColumn(board, x, y, a);
        a := a + 1;
        continue;
      }
      var b := 0;
      while b < 3
        invariant 0 <= b <= 3 && n <= 3 * a + b
        invariant n == |Visited(board, x, y, 3 * a + b)|
      {
        VisitCount(board, x, y, a, b);
        if (y == 0 && b == 0) || (y == Y_DIM - 1 && b == 2) {
          b := b + 1;
          continue;
        }
        assert At(x - 1 + a, y - 1 + b) == (x - 1 + a) * X_DIM + y - 1 + b;
        if board[(x - 1 + a) * X_DIM + y - 1 + b] == Live {
          n := n + 1;
        }
        b := b + 1;
      }
      a := a + 1;
    }
    VisitedAll(board, x, y);
  }

  /** The count includes the cell itself: a live cell is always in its own square. */
  lemma CountsItself(board: seq<Cell>, x: int, y: int)
    requires OnBoard(x, y) && |board| == CELLS
    ensures (x, y) in Neighbourhood(board, x, y) <==> board[At(x, y)] == Live
  {
  }

  // ---------------------------------------------------------------------
  // tick

  /** The entry `tick` stores for a cell holding `c` whose count is `n`: 0 for fewer than 2
      or more than 3, 1 for 3, or for 2 when the cell holds 1, and otherwise the string '0'
      the new list started with. */
  function NextCell(c: Cell, n: nat): (r: Cell)
    ensures r == Live <==> n == 3 || (n == 2 && c == Live)
    ensures r == Placeholder <==> n == 2 && c != Live
  {
    if n < 2 || n > 3 then Dead else if n == 3 || (n == 2 && c == Live) then Live else Placeholder
  }

  /** `tick(board)`: a new board of the same size, every cell given by NextCell from the old
      board (which is not changed). */
  method Tick(board: seq<Cell>) returns (next: seq<Cell>)
    requires |board| == CELLS
    ensures |next| == CELLS
    ensures forall x, y :: OnBoard(x, y) ==>
      next[At(x, y)] == NextCell(board[At(x, y)], |Neighbourhood(board, x, y)|)
  {
    next := seq(CELLS, _ => Placeholder);
    var x := 0;
    while x < X_DIM
      invariant 0 <= x <= X_DIM && |next| == CELLS
      invariant forall i, j :: OnBoard(i, j) ==>
        next[At(i, j)] == if i < x then NextCell(board[At(i, j)], |Neighbourhood(board, i, j)|) else Placeholder
    {
      var y := 0;
      while y < Y_DIM
        invariant 0 <= y <= Y_DIM && |next| == CELLS
        invariant forall i, j :: OnBoard(i, j) ==>
          next[At(i, j)] == if i < x || (i == x && j < y) then NextCell(board[At(i, j)], |Neighbourhood(board, i, j)|) else Placeholder
      {
        next := TickCell(board, next, x, y);
        y := y + 1;
      }
      x := x + 1;
    }
  }

  /** The body of the inner loop of `tick`: the count of (x, y) decides what is stored at
      entry `x*X_DIM+y`, which still holds the string '0'; no other entry changes. */
  method TickCell(board: seq<Cell>, next: seq<Cell>, x: int, y: int) returns (after: seq<Cell>)
    requires |board| == CELLS && |next| == CELLS && OnBoard(x, y) && next[At(x, y)] == Placeholder
    ensures |after| == CELLS
    ensures forall i, j :: OnBoard(i, j) ==>
      after[At(i, j)] == if i == x && j == y then NextCell(board[At(x, y)], |Neighbourhood(board, x, y)|) else next[At(i, j)]
  {
    var n := CountCellNeighbor(x, y, board);
    after := next;
    if n < 2 || n > 3 {
      after := next[At(x, y) := Dead];
    } else if n == 3 || (n == 2 && board[At(x, y)] == Live) {
      after := next[At(x, y) := Live];
    }
    forall i, j | OnBoard(i, j) && !(i == x && j == y) ensures after[At(i, j)] == next[At(i, j)] {
      AtDistinct(i, j, x, y);
    }
  }

  /** Distinct cells of the board have distinct entries. */
  lemma AtDistinct(i: int, j: int, x: int, y: int)
    requires OnBoard(i, j) && OnBoard(x, y) && !(i == x && j == y)
    ensures 0 <= At(i, j) < CELLS && At(i, j) != At(x, y)
  {
  }

  /** Because the count includes the cell, a live cell with a single live neighbour
      survives (its count is 2), where the Game of Life lets it die. */
  lemma LonelyCellSurvives(board: seq<Cell>, x: int, y: int, i: int, j: int)
    requires OnBoard(x, y) && |board| == CELLS && (i, j) != (x, y)
    requires Neighbourhood(board, x, y) == {(x, y), (i, j)}
    ensures NextCell(board[At(x, y)], |Neighbourhood(board, x, y)|) == Live
    ensures |LifeNeighbours(board, x, y)| == 1 && LifeCell(board, x, y) == Dead
  {
    CountsItself(board, x, y);
    assert LifeNeighbours(board, x, y) == {(i, j)};
  }

  // ---------------------------------------------------------------------
  // The Game of Life rule the code evidently intends

  /** The live neighbours of (x, y): its square without the cell itself. */
  function LifeNeighbours(board: seq<Cell>, x: int, y: int): (s: set<(int, int)>)
    requires |board| == CELLS
    ensures (x, y) !in s
  {
    Neighbourhood(board, x, y) - {(x, y)}
  }

  /** The next state of a cell under the Game of Life: 1 or 0, never the string. */
  function LifeCell(board: seq<Cell>, x: int, y: int): Cell
    requires OnBoard(x, y) && |board| == CELLS
  {
    var n := |LifeNeighbours(board, x, y)|;
    if n < 2 || n > 3 then Dead else if n == 3 || (n == 2 && board[At(x, y)] == Live) then Live else Dead
  }

  /** The Game of Life rule B3/S23: a live cell lives on with 2 or 3 live neighbours, a dead
      one comes alive with exactly 3, and every other cell is 0, which pixelify shows dark. */
  lemma LifeRule(board: seq<Cell>, x: int, y: int)
    requires OnBoard(x, y) && |board| == CELLS
    ensures LifeCell(board, x, y) == Live <==>
      (board[At(x, y)] == Live && 2 <= |LifeNeighbours(board, x, y)| <= 3) ||
      (board[At(x, y)] != Live && |LifeNeighbours(board, x, y)| == 3)
    ensures LifeCell(board, x, y) != Live ==> LifeCell(board, x, y) == Dead && !Truthy(LifeCell(board, x, y))
  {
  }

  /** The count tick uses is the Game of Life count plus one for a live cell. */
  lemma CountIsLifeCountPlusSelf(board: seq<Cell>, x: int, y: int)
    requires OnBoard(x, y) && |board| == CELLS
    ensures |Neighbourhood(board, x, y)| == |LifeNeighbours(board, x, y)| + if board[At(x, y)] == Live then 1 else 0
  {
    CountsItself(board, x, y);
  }

  // ---------------------------------------------------------------------
  // pixelify_board and pixelify_triboard

  const LIT := Pixel(130, 150, 120)

  /** `pixelify_board(board)`: one pixel per cell, lit for every true cell. */
  /** The pixels `pixelify_board` shows for a board. */
  function Shown(board: seq<Cell>): seq<Pixel>
  {
    seq(|board|, i requires 0 <= i < |board| => if Truthy(board[i]) then LIT else Black)
  }

  method PixelifyBoard(board: seq<Cell>) returns (pixels: seq<Pixel>)
    ensures pixels == Shown(board)
    ensures |pixels| == |board|
    ensures forall i :: 0 <= i < |board| ==> pixels[i] == if Truthy(board[i]) then LIT else Black
  {
    pixels := [];
    var i := 0;
    while i < |board|
      invariant 0 <= i <= |board| && |pixels| == i
      invariant forall k :: 0 <= k < i ==> pixels[k] == if Truthy(board[k]) then LIT else Black
    {
      pixels := pixels + [if Truthy(board[i]) then LIT else Black];
      i := i + 1;
    }
  }

  /** The string '0' is true, so a cell that is not alive is still drawn lit wherever it
      kept the placeholder: every cell rand_board leaves dead, and every cell tick leaves
      with a count of 2 and no life. */
  lemma PlaceholderDrawnLit(c: Cell)
    ensures Truthy(Placeholder)
    ensures NextCell(Dead, 2) == Placeholder && NextCell(Placeholder, 2) == Placeholder
    ensures Truthy(c) <==> c != Dead
  {
  }

  /** As written, the first frame the demo shows is entirely lit: every cell of a
      `rand_board` board is true, whatever the draws. */
  lemma RandBoardAllLit(roll: (int, int) -> int)
    ensures Shown(Drawn(roll, Placeholder)) == seq(CELLS, _ => LIT)
    ensures LIT != Black
  {
  }

  /** With the corrected board, the first frame is lit exactly at the live cells and dark
      everywhere else. */
  lemma CheckedBoardShownLive(roll: (int, int) -> int, x: int, y: int)
    requires OnBoard(x, y)
    ensures Shown(Drawn(roll, Dead))[At(x, y)] == (if roll(x, y) == 0 then LIT else Black)
    ensures Shown(Drawn(roll, Dead))[At(x, y)] == LIT <==> Drawn(roll, Dead)[At(x, y)] == Live
  {
    EntryOfCell(x, y);
  }

  /** `pixelify_triboard(r, g, b)`: one pixel for each position of the three boards up to
      the shortest, each component 130 where that board's cell is true and 0 elsewhere. */
  method PixelifyTriboard(r: seq<Cell>, g: seq<Cell>, b: seq<Cell>) returns (pixels: seq<Pixel>)
    ensures |pixels| == Min(|r|, Min(|g|, |b|))
    ensures forall i :: 0 <= i < |pixels| ==>
      pixels[i] == Pixel(if Truthy(r[i]) then 130 else 0, if Truthy(g[i]) then 130 else 0, if Truthy(b[i]) then 130 else 0)
  {
    var n := Min(|r|, Min(|g|, |b|));
    pixels := [];
    var i := 0;
    while i < n
      invariant 0 <= i <= n && |pixels| == i
      invariant forall k :: 0 <= k < i ==>
        pixels[k] == Pixel(if Truthy(r[k]) then 130 else 0, if Truthy(g[k]) then 130 else 0, if Truthy(b[k]) then 130 else 0)
    {
      var color := Pixel(if Truthy(r[i]) then 130 else 0, if Truthy(g[i]) then 130 else 0, if Truthy(b[i]) then 130 else 0);
      pixels := pixels + [color];
      i := i + 1;
    }
  }
}
