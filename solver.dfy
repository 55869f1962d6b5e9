/** `solve` and its recursive helper `go`: depth-first backtracking over a
    private working grid, placing digits 1..9 in the first empty cell and
    resetting the cell to 0 when the recursion fails. */
module Solver {
  import opened SudokuGrid
  import opened Placement
  import Validator

  /** `s` is a way to finish `b`: every given (non-zero) cell of `b` keeps its
      value, and every empty cell of `b` holds a digit 1..9 that no other cell
      of its row, column or box holds in `s`. Nothing is asked of two given
      cells: the source never checks the givens against each other. */
  ghost predicate Completes(b: Board, s: Board)
  {
    forall r, c :: InRange(r, c) ==>
      if b[r][c] == 0 then FitsAt(s, r, c) else s[r][c] == b[r][c]
  }

  /** Every given is a digit 1..9 that no other given of its house repeats. */
  ghost predicate GivensConsistent(b: Board)
  {
    (forall r, c :: InRange(r, c) ==> b[r][c] <= 9) &&
    forall r, c, r2, c2 ::
      (InRange(r, c) && InRange(r2, c2) && b[r][c] != 0 && b[r2][c2] != 0 &&
       (r2 != r || c2 != c) && SameHouse(r, c, r2, c2)) ==>
      b[r2][c2] != b[r][c]
  }

  /** A way to finish a board has no empty cell left. */
  lemma CompletionIsFilled(b: Board, s: Board)
    requires Completes(b, s)
    ensures IsFilled(s)
  {
  }

  /** A board without empty cells is finished by itself and by nothing else,
      whether or not its values obey the Sudoku rule. */
  lemma FilledCompletesOnlyItself(b: Board, s: Board)
    requires IsFilled(b)
    ensures Completes(b, s) <==> s == b
  {
    if Completes(b, s) {
      forall r | 0 <= r < Rows
        ensures s[r] == b[r]
      {
        assert forall c :: 0 <= c < Columns ==> s[r][c] == b[r][c];
      }
    }
  }

  /** The digit a completion puts in an empty cell passes `is_location_safe`
      on the board as it stands. */
  lemma CompletionDigitIsSafe(b: Board, s: Board, row: nat, col: nat)
    requires Completes(b, s) && InRange(row, col) && b[row][col] == 0
    ensures LocationSafe(b, row, col, s[row][col])
  {
  }

  /** A completion of `b` also completes `b` with its own digit placed in one
      empty cell. */
  lemma CompletionOfPlacement(b: Board, s: Board, row: nat, col: nat)
    requires Completes(b, s) && InRange(row, col) && b[row][col] == 0
    ensures Completes(Place(b, row, col, s[row][col]), s)
  {
  }

  /** Placing a safe digit and then completing the resulting board completes
      the board as it was before the placement. */
  lemma PlacementSound(b: Board, s: Board, row: nat, col: nat, num: nat)
    requires InRange(row, col) && b[row][col] == 0 && 1 <= num <= 9
    requires LocationSafe(b, row, col, num)
    requires Completes(Place(b, row, col, num), s)
    ensures Completes(b, s)
  {
  }

  /** A digit that fails `is_location_safe`, or whose placement has no
      completion, is not the digit of any completion. */
  lemma RejectedDigit(b: Board, row: nat, col: nat, num: nat)
    requires InRange(row, col) && b[row][col] == 0
    requires !LocationSafe(b, row, col, num) || forall s :: !Completes(Place(b, row, col, num), s)
    ensures forall s :: Completes(b, s) ==> s[row][col] != num
  {
    forall s | Completes(b, s)
      ensures s[row][col] != num
    {
      CompletionDigitIsSafe(b, s, row, col);
      CompletionOfPlacement(b, s, row, col);
    }
  }

  /** When the givens are consistent, a completion is a correct Sudoku and so
      passes `is_valid_solution`. */
  lemma CompletionOfConsistentIsValid(b: Board, s: Board)
    requires Completes(b, s) && GivensConsistent(b)
    ensures IsSudokuSolution(s)
    ensures Validator.IsValidSolution(s)
  {
    forall r, c | InRange(r, c)
      ensures FitsAt(s, r, c)
    {
      if b[r][c] != 0 {
        forall r2, c2 | InRange(r2, c2) && (r2 != r || c2 != c) && SameHouse(r, c, r2, c2)
          ensures s[r2][c2] != s[r][c]
        {
          if b[r2][c2] == 0 {
            assert FitsAt(s, r2, c2) && SameHouse(r2, c2, r, c);
          }
        }
      }
    }
    Validator.SudokuSolutionIsValid(s);
  }

  /** The recursive search on the working grid. On success the grid is a
      completion of the grid on entry; on failure the grid is exactly as it
      was on entry and no completion exists. */
  method Go(grid: array2<nat>) returns (solved: bool)
    requires grid.Length0 == Rows && grid.Length1 == Columns
    modifies grid
    decreases EmptyCells(Cells(grid))
    ensures solved ==> Completes(old(Cells(grid)), Cells(grid))
    ensures !solved ==> Cells(grid) == old(Cells(grid))
    ensures !solved <==> forall s :: !Completes(old(Cells(grid)), s)
  {
    ghost var b := Cells(grid);
    var location := FindEmptyLocation(grid);
    match location {
      case Err(_) =>
        FilledCompletesOnlyItself(b, b);
        return true;
      case Ok((row, col)) =>
        for num := 1 to 10
          invariant Cells(grid) == b
          invariant forall s :: Completes(b, s) ==> s[row][col] >= num
        {
          var safe := IsLocationSafe(grid, row, col, num);
          if safe {
            grid[row, col] := num;
            CellsAre(grid, Place(b, row, col, num));
            PlaceShrinksEmptyCells(b, row, col, num);
            var found := Go(grid);
            if found {
              PlacementSound(b, Cells(grid), row, col, num);
              return true;
            }
            grid[row, col] := 0;
            CellsAre(grid, b);
          }
          RejectedDigit(b, row, col, num);
        }
        return false;
    }
  }

  /** Solves a copy of the caller's board. `Ok` carries a completion of the
      board; `Err(NoSolution)` means that none exists; a board with no empty
      cell comes back unchanged. */
  method Solve(board: Board) returns (result: Result<Board>)
    ensures result.Ok? ==> Completes(board, result.value) && IsFilled(result.value)
    ensures result.Err? ==> result.error == NoSolution && forall s :: !Completes(board, s)
    ensures IsFilled(board) ==> result == Ok(board)
  {
    var grid := new nat[Rows, Columns]((r, c) requires InRange(r, c) => board[r][c]);
    CellsAre(grid, board);
    var solved := Go(grid);
    if solved {
      result := Ok(Cells(grid));
      CompletionIsFilled(board, result.value);
      if IsFilled(board) {
        FilledCompletesOnlyItself(board, result.value);
      }
    } else {
      result := Err(NoSolution);
      if IsFilled(board) {
        FilledCompletesOnlyItself(board, board);
      }
    }
  }
}
