# Sudoku engine: a verified Dafny model

This project models the `sudoku` module of `src/main.rs`. The module has two parts.

- **The completed-grid validator `is_valid_solution`.** It walks the nine rows and then the nine columns. For each line it collects the distinct values into a set. The line fails unless that set has nine members whose sum is 45. The validator stops at the first failing line. It never inspects the 3x3 boxes.
- **The backtracking solver `solve`.** It copies the caller's board into a working grid. It then runs `go`, a depth-first search:
  - `find_empty_location` finds the first 0 cell in row-major order.
  - The digits 1..9 are tried in ascending order at that cell.
  - Each digit must pass `is_location_safe`, which checks the row, the column and the 3x3 box whose corner is `(row - row % 3, col - col % 3)`.
  - A safe digit is written into the grid and the search recurses.
  - When the recursion fails, the cell is reset to 0.
  - When no empty cell is left, `go` reports success.

  The result of `go` becomes `Ok(grid)` or `Err("No solution")`.

Layout:

- `grid.dfy` (module `SudokuGrid`): the 9x9 `Board` value and the conversion `Cells` from the mutable `array2` grid. It also holds the row/column/box relation `SameHouse`, the box corner `Corner`, and the Sudoku rule for one cell, `FitsAt`.
- `placement.dfy` (module `Placement`): `find_empty_location`, `is_location_safe` and its three `is_num_used_in_*` helpers. Each one is a method with the source's loops, proved equal to a predicate on the board value.
- `validator.dfy` (module `Validator`): `is_valid_solution` and the facts about its sum-and-count test.
- `solver.dfy` (module `Solver`): `go` as a recursive method that mutates an `array2<nat>` in place, and `solve`. Both are proved sound and complete against `Completes(b, s)`, which says that `s` finishes `b` by the Sudoku rule.
- `validator_cases.dfy` (module `ValidatorCases`): boards that show what the validator accepts beyond correct Sudokus, and the boards of the source's five validator tests.

Notes on the model:

- Cells are unbounded naturals. In the solver the `u32` width of a cell does not matter to any branch the model follows: `solve` only compares cells with 0 and with the digits 1..9. The validator is different: its `u32` sum can overflow (see "Left out").
- `go` terminates because the set of empty cells loses the filled cell at every recursive call (`decreases EmptyCells(Cells(grid))`).
- A board without empty cells comes back from `solve` unchanged as `Ok`, even when its values break the Sudoku rule. `Completes` therefore asks nothing of two given cells.
- A solved board is guaranteed to pass `is_valid_solution` when the givens are consistent (`GivensConsistent`, `CompletionOfConsistentIsValid`). The source never checks the givens against each other. Without that condition the guarantee is gone: a filled board that breaks the Sudoku rule comes back from `solve` unchanged, and it may pass the validator or fail it.

## Model

| member | source | states |
|---|---|---|
| Placement.FindEmptyLocation | src/main.rs:47-57 | Returns `Ok((row, col))` only for the first 0 cell in row-major order (every earlier cell is non-zero), and `Err(AlreadyFilled)` only when no cell is 0 |
| Placement.FirstEmptyUnique | src/main.rs:47-57 | The first empty cell in row-major order is unique, so the scan's result is determined by the board |
| Placement.IsNumUsedInRow | src/main.rs:60-67 | True exactly when `num` occurs in some column of row `row` |
| Placement.IsNumUsedInCol | src/main.rs:69-76 | True exactly when `num` occurs in some row of column `col` |
| Placement.IsNumUsedInBox | src/main.rs:78-87 | True exactly when `num` occurs in the 3x3 square whose top-left cell is `(row, col)`; the caller must keep `row + 3` and `col + 3` within the board |
| Placement.IsLocationSafe | src/main.rs:59-96 | True exactly when `num` is absent from the row, the column and the box with corner `(row - row % 3, col - col % 3)`, checked in that order with early exit |
| Placement.LocationSafeIffHouseFree | src/main.rs:88-95 | The corner-based box scan stays within 0..8 and covers exactly the cells of the `(row / 3, col / 3)` box, so a location is safe iff no cell sharing its row, column or box holds `num` |
| SudokuGrid.CornerBand | src/main.rs:92-93 | `row - row % 3` lies in 0..6, and the three cells from it are exactly those with the same `/ 3` band |
| SudokuGrid.PlaceShrinksEmptyCells | src/main.rs:105 | Writing a digit into an empty cell removes exactly that cell from the set of empty cells, so the count strictly drops |
| Validator.AllPass | src/main.rs:18-41 | Checking lines in order with early exit on the first failure yields true iff every line passes |
| Validator.IsValidSolution | src/main.rs:16-44 | True iff every row and then every column has a distinct-value set of nine members summing to 45; boxes play no part |
| Validator.SetSumRemove | src/main.rs:24 | The sum of a set does not depend on the order its members are taken in |
| Validator.DistinctCount | src/main.rs:19-22 | A line's set of distinct values has at most as many members as the line has cells, and exactly as many iff no value repeats |
| Validator.RepeatFails | src/main.rs:25 | A nine-cell line with a repeated value fails the test, whatever its values |
| Validator.RepeatInvalidates | src/main.rs:18-41 | A repeated value in any row or column makes `is_valid_solution` false |
| Validator.PassesIffEachDigitOnce | src/main.rs:24-27 | For a nine-cell line with values in 0..9, passing the sum-and-count test is the same as holding each digit 1..9 exactly once |
| Validator.NineOfTenSumming45 | src/main.rs:24-25 | Nine distinct values from 0..9 that sum to 45 are exactly 1..9 |
| Validator.ValidIffRowsAndColumnsArePermutations | src/main.rs:16-44 | For boards with cells in 0..9, the validator accepts exactly the boards whose every row and column is a permutation of 1..9 |
| Validator.SudokuSolutionIsValid | src/main.rs:16-44 | Every correctly solved Sudoku passes the validator |
| ValidatorCases.ValidatorIgnoresBoxes | src/main.rs:16-44 | A board whose rows and columns are permutations of 1..9 but whose top-left box repeats 2 is accepted, so the validator does not enforce the box rule |
| ValidatorCases.SumTestAdmitsNonDigits | src/main.rs:24-25 | The line 0, 1, ..., 7, 17 passes the sum-and-count test without being 1..9, and a board built from it is accepted |
| ValidatorCases.CyclicBoardValidIffLinePasses | src/main.rs:16-44 | A board whose rows are rotations of one line is accepted iff that line passes |
| ValidatorCases.RowWithTenFails | src/main.rs:138-151 | A board whose first row is 1..8 followed by 10 is rejected: its values sum to 46 |
| ValidatorCases.RowWithTwelveFails | src/main.rs:153-167 | A board whose second row is 12 followed by 2..9 is rejected: that row's values sum to 56, so the board fails before any column is checked |
| ValidatorCases.RepeatedRowFails | src/main.rs:170-183 | The board whose rows all repeat 8 is rejected |
| ValidatorCases.RepeatedColumnFails | src/main.rs:186-199 | The board whose rows are all 1..9 is rejected, since each column repeats one value |
| ValidatorCases.TestSolutionIsValid | src/main.rs:202-216 | The test's completed board is accepted |
| Solver.CompletionDigitIsSafe | src/main.rs:103-104 | The digit any completion puts in an empty cell passes `is_location_safe` on the current board, so the search never skips it |
| Solver.CompletionOfPlacement | src/main.rs:105-107 | A completion of the board also completes the board with its own digit written into the empty cell, so the recursive call would find a completion |
| Solver.PlacementSound | src/main.rs:104-108 | Writing a safe digit into an empty cell and completing the result completes the original board |
| Solver.RejectedDigit | src/main.rs:103-113 | A digit the loop moves past, because it fails `is_location_safe` or because the recursion found no completion after placing it, is the digit of no completion; so when 1..9 are exhausted none exists |
| Solver.CompletionIsFilled | src/main.rs:116 | A completion has no 0 cell |
| Solver.FilledCompletesOnlyItself | src/main.rs:116 | A board with no 0 cell is completed by itself and by nothing else, whether or not its values obey the Sudoku rule |
| Solver.CompletionOfConsistentIsValid | src/main.rs:122-125 | When the givens are consistent, a completion is a correct Sudoku and passes `is_valid_solution` |
| Solver.Go | src/main.rs:98-120 | Terminates; on true the grid completes the entry grid, keeping every non-zero cell; on false the grid is exactly the entry grid (each placement undone) and no completion exists |
| Solver.Solve | src/main.rs:122-128 | `Ok(g)` carries a completion of the input with no 0 cell; `Err(NoSolution)` only when no completion exists; a board with no 0 cell comes back as `Ok` unchanged |

## Left out

- `main` and its `println!` (src/main.rs:3-5): console output with no logic.
- The hashing inside `HashSet`: each line's distinct values are a Dafny `set<nat>`, and the sum runs over that set in an unspecified order.
- The `u32` width of cells and of `row_set.iter().sum()`: cells are unbounded naturals, so overflow of the sum (a panic or a wrap-around, depending on the build) is not modelled. The model's validator therefore rejects some boards that a release build accepts, such as a line of nine distinct values whose true sum is 2^32 + 45.
- The exact error strings "Board is already filled" and "No solution": they are the values `AlreadyFilled` and `NoSolution` of `SearchError`.
- Borrowing and cloning: `Solve` takes the board as a value, so it cannot change the caller's board. The copy at src/main.rs:122 becomes a fresh `array2` that `Go` mutates in place.
- Validator.IsValidSolution: it is a ghost function and cannot be executed, because the set sum picks members with `:|`.
- Solver.Solve: it does not state that, among several completions, it returns the first in row-major, ascending-digit order.
- The solvable-puzzle test at src/main.rs:248-273: the model does not prove that the search returns that particular completion.
