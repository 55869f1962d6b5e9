/** The read-only scans nested inside `solve`: `find_empty_location`,
    `is_location_safe` and its three helpers `is_num_used_in_row`,
    `is_num_used_in_col` and `is_num_used_in_box`. Each scan is a method with
    the loops of the source, proved equal to a predicate on the board value. */
module Placement {
  import opened SudokuGrid

  /** `num` occurs somewhere in row `row`. */
  predicate NumUsedInRow(b: Board, row: nat, num: nat)
    requires row < Rows
  {
    exists i :: 0 <= i < Columns && b[row][i] == num
  }

  /** `num` occurs somewhere in column `col`. */
  predicate NumUsedInCol(b: Board, col: nat, num: nat)
    requires col < Columns
  {
    exists i :: 0 <= i < Rows && b[i][col] == num
  }

  /** `num` occurs in the 3x3 square whose top-left cell is `(row, col)`. */
  predicate NumUsedInBox(b: Board, row: nat, col: nat, num: nat)
    requires row + BoxRows <= Rows && col + BoxCols <= Columns
  {
    exists r, c :: row <= r < row + BoxRows && col <= c < col + BoxCols && b[r][c] == num
  }

  /** The placement check of the search: `num` is absent from the row, the
      column and the box whose corner is `(row - row % 3, col - col % 3)`. */
  predicate LocationSafe(b: Board, row: nat, col: nat, num: nat)
    requires InRange(row, col)
  {
    CornerBand(row);
    CornerBand(col);
    !NumUsedInRow(b, row, num) && !NumUsedInCol(b, col, num) &&
    !NumUsedInBox(b, Corner(row, BoxRows), Corner(col, BoxCols), num)
  }

  /** `(row, col)` is the first empty cell in row-major order. */
  ghost predicate IsFirstEmpty(b: Board, row: nat, col: nat)
  {
    InRange(row, col) && b[row][col] == 0 &&
    forall r, c :: InRange(r, c) && (r < row || (r == row && c < col)) ==> b[r][c] != 0
  }

  method IsNumUsedInRow(grid: array2<nat>, row: nat, num: nat) returns (used: bool)
    requires grid.Length0 == Rows && grid.Length1 == Columns && row < Rows
    ensures used == NumUsedInRow(Cells(grid), row, num)
  {
    for i := 0 to Columns
      invariant forall k :: 0 <= k < i ==> grid[row, k] != num
    {
      if grid[row, i] == num {
        return true;
      }
    }
    return false;
  }

  method IsNumUsedInCol(grid: array2<nat>, col: nat, num: nat) returns (used: bool)
    requires grid.Length0 == Rows && grid.Length1 == Columns && col < Columns
    ensures used == NumUsedInCol(Cells(grid), col, num)
  {
    for i := 0 to Rows
      invariant forall k :: 0 <= k < i ==> grid[k, col] != num
    {
      if grid[i, col] == num {
        return true;
      }
    }
    return false;
  }

  /** Scans the 3x3 square at offsets `i, j` in 0..3 from `(row, col)`. */
  method IsNumUsedInBox(grid: array2<nat>, row: nat, col: nat, num: nat) returns (used: bool)
    requires grid.Length0 == Rows && grid.Length1 == Columns
    requires row + BoxRows <= Rows && col + BoxCols <= Columns
    ensures used == NumUsedInBox(Cells(grid), row, col, num)
  {
    for i := 0 to BoxRows
      invariant forall r, c :: row <= r < row + i && col <= c < col + BoxCols ==> grid[r, c] != num
    {
      var r := i + row;
      for j := 0 to BoxCols
        invariant forall c :: col <= c < col + j ==> grid[r, c] != num
      {
        if grid[r, j + col] == num {
          return true;
        }
      }
    }
    return false;
  }

  /** The three scans in the source's order, each consulted only when the
      previous one found nothing. */
  method IsLocationSafe(grid: array2<nat>, row: nat, col: nat, num: nat) returns (safe: bool)
    requires grid.Length0 == Rows && grid.Length1 == Columns && InRange(row, col)
    ensures safe == LocationSafe(Cells(grid), row, col, num)
  {
    var used := IsNumUsedInRow(grid, row, num);
    if used {
      return false;
    }
    used := IsNumUsedInCol(grid, col, num);
    if used {
      return false;
    }
    CornerBand(row);
    CornerBand(col);
    used := IsNumUsedInBox(grid, row - row % BoxRows, col - col % BoxCols, num);
    return !used;
  }

  /** Row-major scan for the first 0 cell; `Err(AlreadyFilled)` when there is none. */
  method FindEmptyLocation(grid: array2<nat>) returns (location: Result<(nat, nat)>)
    requires grid.Length0 == Rows && grid.Length1 == Columns
    ensures location.Ok? ==> IsFirstEmpty(Cells(grid), location.value.0, location.value.1)
    ensures location.Err? ==> location.error == AlreadyFilled && IsFilled(Cells(grid))
  {
    for row := 0 to Rows
      invariant forall r, c :: 0 <= r < row && 0 <= c < Columns ==> grid[r, c] != 0
    {
      for col := 0 to Columns
        invariant forall c :: 0 <= c < col ==> grid[row, c] != 0
      {
        if grid[row, col] == 0 {
          return Ok((row, col));
        }
      }
    }
    return Err(AlreadyFilled);
  }

  /** There is only one first empty cell. */
  lemma FirstEmptyUnique(b: Board, r1: nat, c1: nat, r2: nat, c2: nat)
    requires IsFirstEmpty(b, r1, c1) && IsFirstEmpty(b, r2, c2)
    ensures r1 == r2 && c1 == c2
  {
  }

  /** The corner-based box scan covers exactly the cells of the same
      `(row / 3, col / 3)` box, so a location is safe exactly when no cell
      sharing a row, a column or a box with it holds `num`. */
  lemma LocationSafeIffHouseFree(b: Board, row: nat, col: nat, num: nat)
    requires InRange(row, col)
    ensures LocationSafe(b, row, col, num) <==>
      forall r, c :: InRange(r, c) && SameHouse(row, col, r, c) ==> b[r][c] != num
  {
    CornerBand(row);
    CornerBand(col);
    var r0, c0 := Corner(row, BoxRows), Corner(col, BoxCols);
    if NumUsedInBox(b, r0, c0, num) {
      var r, c :| r0 <= r < r0 + BoxRows && c0 <= c < c0 + BoxCols && b[r][c] == num;
      assert SameHouse(row, col, r, c);
    }
    if !LocationSafe(b, row, col, num) {
      if NumUsedInRow(b, row, num) {
        var i :| 0 <= i < Columns && b[row][i] == num;
        assert SameHouse(row, col, row, i);
      } else if NumUsedInCol(b, col, num) {
        var i :| 0 <= i < Rows && b[i][col] == num;
        assert SameHouse(row, col, i, col);
      }
    }
  }
}
