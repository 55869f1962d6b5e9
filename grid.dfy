/** The 9x9 board shared by the validator and the solver of `mod sudoku`.
    Rows and columns are numbered 0..8; the value 0 marks an empty cell. */
module SudokuGrid {

  /** ROWS, COLUMNS, BOX_ROWS and BOX_COLS of the source. */
  const Rows: nat := 9
  const Columns: nat := 9
  const BoxRows: nat := 3
  const BoxCols: nat := 3

  /** A board as a value: nine rows of nine cells. The source's cells are
      `u32`; here they are unbounded naturals. */
  type Board = b: seq<seq<nat>> | IsBoard(b) witness seq(9, _ => seq(9, _ => 0))

  predicate IsBoard(b: seq<seq<nat>>)
  {
    |b| == Rows && forall r :: 0 <= r < |b| ==> |b[r]| == Columns
  }

  /** The two `Err` strings of the source, as values. */
  datatype SearchError = AlreadyFilled | NoSolution

  datatype Result<T> = Ok(value: T) | Err(error: SearchError)

  predicate InRange(r: int, c: int)
  {
    0 <= r < Rows && 0 <= c < Columns
  }

  /** The current contents of a mutable 9x9 grid, as a board value. */
  function Cells(grid: array2<nat>): (b: Board)
    requires grid.Length0 == Rows && grid.Length1 == Columns
    reads grid
    ensures forall r, c :: InRange(r, c) ==> b[r][c] == grid[r, c]
  {
    seq(Rows, r requires 0 <= r < Rows reads grid =>
      seq(Columns, c requires 0 <= c < Columns reads grid => grid[r, c]))
  }

  /** Two grids with the same cells give the same board. */
  lemma CellsAre(grid: array2<nat>, b: Board)
    requires grid.Length0 == Rows && grid.Length1 == Columns
    requires forall r, c :: InRange(r, c) ==> grid[r, c] == b[r][c]
    ensures Cells(grid) == b
  {
    var g := Cells(grid);
    forall r | 0 <= r < Rows
      ensures g[r] == b[r]
    {
      assert forall c :: 0 <= c < Columns ==> g[r][c] == b[r][c];
    }
  }

  /** The board after the assignment `board[r][c] = v`. */
  function Place(b: Board, r: nat, c: nat, v: nat): (p: Board)
    requires InRange(r, c)
    ensures forall i, j :: InRange(i, j) ==> p[i][j] == if i == r && j == c then v else b[i][j]
  {
    var row: seq<nat> := b[r][c := v];
    b[r := row]
  }

  /** The coordinates of the empty (0) cells. */
  function EmptyCells(b: Board): set<(nat, nat)>
  {
    set r: nat, c: nat | r < Rows && c < Columns && b[r][c] == 0 :: (r, c)
  }

  predicate IsFilled(b: Board)
  {
    forall r, c :: 0 <= r < Rows && 0 <= c < Columns ==> b[r][c] != 0
  }

  /** Filling an empty cell removes exactly that cell from the empty ones,
      so the number of empty cells strictly decreases. */
  lemma PlaceShrinksEmptyCells(b: Board, r: nat, c: nat, v: nat)
    requires InRange(r, c) && b[r][c] == 0 && v != 0
    ensures (r, c) in EmptyCells(b)
    ensures EmptyCells(Place(b, r, c, v)) == EmptyCells(b) - {(r, c)}
    ensures |EmptyCells(Place(b, r, c, v))| < |EmptyCells(b)|
  {
  }

  /** The top-left corner of a cell's box along one axis: `x - x % side`. */
  function Corner(x: nat, side: nat): int
    requires side > 0
  {
    x - x % side
  }

  /** Two cells share a house when they share a row, a column or a box,
      the box being `(row / 3, col / 3)`. A cell shares a house with itself. */
  predicate SameHouse(r1: nat, c1: nat, r2: nat, c2: nat)
  {
    r1 == r2 || c1 == c2 || (r1 / BoxRows == r2 / BoxRows && c1 / BoxCols == c2 / BoxCols)
  }

  /** The cells `x` with `Corner(y, 3) <= x < Corner(y, 3) + 3` are exactly those
      in the same band of three as `y`, and that band lies within 0..8. */
  lemma {:induction false} CornerBand(y: nat)
    requires y < Rows
    ensures 0 <= Corner(y, BoxRows) <= y && Corner(y, BoxRows) + BoxRows <= Rows
    ensures forall x :: 0 <= x < Rows ==>
      (Corner(y, BoxRows) <= x < Corner(y, BoxRows) + BoxRows <==> x / BoxRows == y / BoxRows)
  {
  }

  /** A cell of a finished board obeys the Sudoku rule: it holds a digit 1..9
      that no other cell of its row, column or box holds. */
  ghost predicate FitsAt(s: Board, r: nat, c: nat)
    requires InRange(r, c)
  {
    1 <= s[r][c] <= 9 &&
    forall r2, c2 :: InRange(r2, c2) && (r2 != r || c2 != c) && SameHouse(r, c, r2, c2) ==>
      s[r2][c2] != s[r][c]
  }

  /** A completely and correctly solved Sudoku. */
  ghost predicate IsSudokuSolution(s: Board)
  {
    forall r, c :: InRange(r, c) ==> FitsAt(s, r, c)
  }
}
