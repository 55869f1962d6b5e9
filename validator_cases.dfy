/** What `is_valid_solution` accepts beyond correct Sudokus, and the boards of
    the source's own validator tests. */
module ValidatorCases {
  import opened SudokuGrid
  import opened Validator

  /** The board whose row `i` is `v` rotated left by `i`: every row and every
      column holds the values of `v`. */
  function CyclicBoard(v: seq<nat>): (b: Board)
    requires |v| == 9
    ensures forall i, j :: InRange(i, j) ==> b[i][j] == v[(i + j) % 9]
  {
    seq(9, i requires 0 <= i < 9 => seq(9, j requires 0 <= j < 9 => v[(i + j) % 9]))
  }

  /** The validator judges a cyclic board by its generating line alone. */
  lemma CyclicBoardValidIffLinePasses(v: seq<nat>)
    requires |v| == 9
    ensures IsValidSolution(CyclicBoard(v)) <==> LinePasses(v)
  {
    forall i | 0 <= i < Rows
      ensures Distinct(CyclicBoard(v)[i]) == Distinct(v)
    {
      CyclicRow(v, i);
    }
    forall j | 0 <= j < Columns
      ensures Distinct(Column(CyclicBoard(v), j)) == Distinct(v)
    {
      CyclicColumn(v, j);
    }
  }

  /** Each row of a cyclic board holds the values of its generating line. */
  lemma CyclicRow(v: seq<nat>, i: nat)
    requires |v| == 9 && i < Rows
    ensures Distinct(CyclicBoard(v)[i]) == Distinct(v)
  {
    var row := CyclicBoard(v)[i];
    forall x | x in Distinct(v)
      ensures x in Distinct(row)
    {
      var k :| 0 <= k < 9 && v[k] == x;
      var j := if i <= k then k - i else k + 9 - i;
      assert (i + j) % 9 == k;
      assert row[j] == x;
    }
  }

  /** Each column of a cyclic board holds the values of its generating line. */
  lemma CyclicColumn(v: seq<nat>, j: nat)
    requires |v| == 9 && j < Columns
    ensures Distinct(Column(CyclicBoard(v), j)) == Distinct(v)
  {
    var col := Column(CyclicBoard(v), j);
    forall x | x in Distinct(v)
      ensures x in Distinct(col)
    {
      var k :| 0 <= k < 9 && v[k] == x;
      var i := if j <= k then k - j else k + 9 - j;
      assert (i + j) % 9 == k;
      assert col[i] == CyclicBoard(v)[i][j] == x;
    }
  }

  /** Lines whose set of values is exactly 1..9 pass. */
  lemma DigitsPass(line: seq<nat>)
    requires Distinct(line) == Digits
    ensures LinePasses(line)
  {
    DigitsFacts();
  }

  /** The validator never looks at boxes: it accepts a board whose rows and
      columns are all permutations of 1..9 while its top-left box holds the
      digit 2 twice. */
  lemma ValidatorIgnoresBoxes()
    ensures IsValidSolution(CyclicBoard(OneToNine))
    ensures !IsSudokuSolution(CyclicBoard(OneToNine))
  {
    OneToNinePasses();
    CyclicBoardValidIffLinePasses(OneToNine);
    OneToNineBoardRepeatsInBox();
  }

  /** The digits in ascending order. */
  const OneToNine: seq<nat> := [1, 2, 3, 4, 5, 6, 7, 8, 9]

  lemma OneToNinePasses()
    ensures LinePasses(OneToNine)
  {
    assert Distinct(OneToNine) == Digits;
    DigitsPass(OneToNine);
  }

  lemma OneToNineBoardRepeatsInBox()
    ensures !FitsAt(CyclicBoard(OneToNine), 0, 1)
  {
    var b := CyclicBoard(OneToNine);
    assert b[0][1] == 2 && b[1][0] == 2 && SameHouse(0, 1, 1, 0);
  }

  /** Nine distinct values summing to 45 that are not the digits 1..9. */
  const OffDigits: seq<nat> := [0, 1, 2, 3, 4, 5, 6, 7, 17]

  /** "Nine distinct values summing to 45" is not "exactly 1..9" once cells may
      exceed 9: the line 0, 1, ..., 7, 17 passes, and so does the board built
      from it, though it holds an empty cell and the value 17. */
  lemma SumTestAdmitsNonDigits()
    ensures LinePasses(OffDigits) && Distinct(OffDigits) != Digits
    ensures IsValidSolution(CyclicBoard(OffDigits)) && CyclicBoard(OffDigits)[0][0] == 0
  {
    OffDigitsPasses();
    OffDigitsHoldZero();
    CyclicBoardValidIffLinePasses(OffDigits);
  }

  lemma OffDigitsPasses()
    ensures LinePasses(OffDigits)
  {
    OffDigitsSet();
    OffDigitsSum();
  }

  lemma OffDigitsHoldZero()
    ensures 0 in Distinct(OffDigits) && Distinct(OffDigits) != Digits
  {
    OffDigitsValues();
  }

  lemma OffDigitsSet()
    ensures Distinct(OffDigits) == UpTo(7) + {0} + {17}
    ensures |Distinct(OffDigits)| == 9
  {
    OffDigitsValues();
    UpToSeven();
    OffDigitsNoRepeat();
    DistinctCount(OffDigits);
  }

  lemma OffDigitsNoRepeat()
    ensures !HasRepeat(OffDigits)
  {
    forall i, j | 0 <= i < j < |OffDigits|
      ensures OffDigits[i] < OffDigits[j]
    {
      assert i <= 7;
    }
  }

  lemma OffDigitsValues()
    ensures Distinct(OffDigits) == {0, 1, 2, 3, 4, 5, 6, 7, 17}
  {
    assert forall x :: x in OffDigits <==> x in {0, 1, 2, 3, 4, 5, 6, 7, 17};
  }

  lemma OffDigitsSum()
    ensures SetSum(UpTo(7) + {0} + {17}) == 45
  {
    var low := UpTo(7);
    UpToSum(7);
    TriangleValues();
    assert 0 !in low && 17 !in low + {0};
    FreshSum(low + {0}, 17);
    FreshSum(low, 0);
  }

  /** The board of the test at src/main.rs:139-149: its first row holds 10 in
      place of 9, so its distinct values sum to 46 and the board fails. */
  lemma RowWithTenFails(b: Board)
    requires b[0] == [1, 2, 3, 4, 5, 6, 7, 8, 10]
    ensures !IsValidSolution(b)
  {
    var low := UpTo(8);
    UpToEight();
    TriangleValues();
    UpToSum(8);
    RowWithTenValues(b[0]);
    assert 10 !in low;
    FreshSum(low, 10);
  }

  lemma RowWithTenValues(line: seq<nat>)
    requires line == [1, 2, 3, 4, 5, 6, 7, 8, 10]
    ensures Distinct(line) == {1, 2, 3, 4, 5, 6, 7, 8} + {10}
  {
    assert forall x :: x in line <==> x in {1, 2, 3, 4, 5, 6, 7, 8, 10};
  }

  /** The board of the test at src/main.rs:154-164. It is meant to fail on
      its first column, but its second row already fails: the distinct values
      2..9 and 12 sum to 56. */
  lemma RowWithTwelveFails(b: Board)
    requires b[1] == [12, 2, 3, 4, 5, 6, 7, 8, 9]
    ensures !IsValidSolution(b)
  {
    var mid := Digits - {1};
    DigitsFacts();
    assert 1 !in mid && mid + {1} == Digits;
    FreshSum(mid, 1);
    RowWithTwelveValues(b[1]);
    assert 12 !in mid;
    FreshSum(mid, 12);
  }

  lemma RowWithTwelveValues(line: seq<nat>)
    requires line == [12, 2, 3, 4, 5, 6, 7, 8, 9]
    ensures Distinct(line) == (Digits - {1}) + {12}
  {
    assert forall x :: x in line <==> x in {2, 3, 4, 5, 6, 7, 8, 9, 12};
  }

  /** The board of the test at src/main.rs:171-181: every row repeats 8. */
  lemma RepeatedRowFails(b: Board)
    requires forall i :: 0 <= i < Rows ==> b[i] == [1, 2, 3, 4, 5, 6, 7, 8, 8]
    ensures !IsValidSolution(b)
  {
    assert b[0][7] == b[0][8];
    RepeatInvalidates(b);
  }

  /** The board of the test at src/main.rs:187-197: every row is 1..9, so each
      column repeats one value nine times. */
  lemma RepeatedColumnFails(b: Board)
    requires forall i :: 0 <= i < Rows ==> b[i] == [1, 2, 3, 4, 5, 6, 7, 8, 9]
    ensures !IsValidSolution(b)
  {
    assert Column(b, 0)[0] == Column(b, 0)[1];
    assert HasRepeat(Column(b, 0));
    RepeatInvalidates(b);
  }

  /** The completed board of the test at src/main.rs:203-213. */
  const TestSolution: Board := [
    [5, 3, 9, 8, 7, 6, 4, 1, 2],
    [7, 2, 8, 3, 1, 4, 9, 6, 5],
    [6, 4, 1, 2, 9, 5, 7, 3, 8],
    [4, 6, 2, 5, 3, 9, 8, 7, 1],
    [3, 8, 5, 7, 2, 1, 6, 4, 9],
    [1, 9, 7, 4, 6, 8, 2, 5, 3],
    [2, 5, 6, 1, 8, 7, 3, 9, 4],
    [9, 1, 3, 6, 4, 2, 5, 8, 7],
    [8, 7, 4, 9, 5, 3, 1, 2, 6]]

  /** Its columns, written out as rows. */
  const TestSolutionColumns: seq<seq<nat>> := [
    [5, 7, 6, 4, 3, 1, 2, 9, 8],
    [3, 2, 4, 6, 8, 9, 5, 1, 7],
    [9, 8, 1, 2, 5, 7, 6, 3, 4],
    [8, 3, 2, 5, 7, 4, 1, 6, 9],
    [7, 1, 9, 3, 2, 6, 8, 4, 5],
    [6, 4, 5, 9, 1, 8, 7, 2, 3],
    [4, 9, 7, 8, 6, 2, 3, 5, 1],
    [1, 6, 3, 7, 4, 5, 9, 8, 2],
    [2, 5, 8, 1, 9, 3, 4, 7, 6]]

  lemma TestSolutionColumn(j: nat)
    requires j < Columns
    ensures Column(TestSolution, j) == TestSolutionColumns[j]
    ensures Distinct(TestSolutionColumns[j]) == Digits
  {
  }

  /** The test's completed board passes: each row and column holds 1..9. */
  lemma TestSolutionIsValid()
    ensures IsValidSolution(TestSolution)
  {
    forall i | 0 <= i < Rows
      ensures LinePasses(TestSolution[i])
    {
      assert Distinct(TestSolution[i]) == Digits;
      DigitsPass(TestSolution[i]);
    }
    forall j | 0 <= j < Columns
      ensures LinePasses(Column(TestSolution, j))
    {
      TestSolutionColumn(j);
      DigitsPass(Column(TestSolution, j));
    }
  }
}
