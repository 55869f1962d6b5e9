/** `is_valid_solution`: every row and then every column must hold nine
    distinct values that sum to 45. Boxes are never inspected. */
module Validator {
  import opened SudokuGrid

  /** The digits a correctly filled line holds. */
  const Digits: set<nat> := {1, 2, 3, 4, 5, 6, 7, 8, 9}

  /** Column `j`, read top to bottom. */
  function Column(b: Board, j: nat): (line: seq<nat>)
    requires j < Columns
    ensures |line| == Rows && forall i :: 0 <= i < Rows ==> line[i] == b[i][j]
  {
    seq(Rows, i requires 0 <= i < Rows => b[i][j])
  }

  /** The set of distinct values of a line (the `HashSet` the source fills). */
  function Distinct(line: seq<nat>): set<nat>
  {
    set x | x in line
  }

  /** The sum of the members of a set, in no particular order. */
  ghost function SetSum(s: set<nat>): nat
  {
    if s == {} then 0 else var x :| x in s; x + SetSum(s - {x})
  }

  /** A line passes when its distinct values sum to 45 and number nine. */
  ghost predicate LinePasses(line: seq<nat>)
  {
    !(SetSum(Distinct(line)) != 45 || |Distinct(line)| != 9)
  }

  /** Checks the lines in order and stops at the first that fails. */
  ghost function AllPass(lines: seq<seq<nat>>): (ok: bool)
    ensures ok <==> forall k :: 0 <= k < |lines| ==> LinePasses(lines[k])
  {
    if lines == [] then true
    else if !LinePasses(lines[0]) then false
    else AllPass(lines[1..])
  }

  /** The rows followed by the columns: the order the source checks them in. */
  function Lines(b: Board): (lines: seq<seq<nat>>)
    ensures |lines| == Rows + Columns
    ensures forall i :: 0 <= i < Rows ==> lines[i] == b[i]
    ensures forall j :: 0 <= j < Columns ==> lines[Rows + j] == Column(b, j)
  {
    b + seq(Columns, j requires 0 <= j < Columns => Column(b, j))
  }

  /** The completed-grid validator. */
  ghost function IsValidSolution(b: Board): (valid: bool)
    ensures valid <==>
      (forall i :: 0 <= i < Rows ==> LinePasses(b[i])) &&
      (forall j :: 0 <= j < Columns ==> LinePasses(Column(b, j)))
  {
    var lines := Lines(b);
    assert forall j :: 0 <= j < Columns ==> lines[Rows + j] == Column(b, j);
    AllPass(lines)
  }

  /** Taking one member out of a set takes its value out of the sum, whichever
      member the sum happened to pick first. */
  lemma {:induction false} SetSumRemove(s: set<nat>, y: nat)
    requires y in s
    ensures SetSum(s) == y + SetSum(s - {y})
    decreases |s|
  {
    var x :| x in s && SetSum(s) == x + SetSum(s - {x});
    if x != y {
      SetSumRemove(s - {x}, y);
      SetSumRemove(s - {y}, x);
      assert s - {x} - {y} == s - {y} - {x};
    }
  }

  /** Adding a fresh member adds its value to the sum. */
  lemma FreshSum(s: set<nat>, y: nat)
    requires y !in s
    ensures SetSum(s + {y}) == y + SetSum(s)
  {
    assert s + {y} - {y} == s;
    SetSumRemove(s + {y}, y);
  }

  /** Some value occurs twice in the line. */
  predicate HasRepeat(line: seq<nat>)
  {
    exists i, j :: 0 <= i < j < |line| && line[i] == line[j]
  }

  /** A line never has more distinct values than cells, and has as many
      exactly when no value repeats. */
  lemma {:induction false} DistinctCount(line: seq<nat>)
    ensures |Distinct(line)| <= |line|
    ensures |Distinct(line)| == |line| <==> !HasRepeat(line)
  {
    if line != [] {
      var rest := line[1..];
      DistinctCount(rest);
      assert Distinct(line) == {line[0]} + Distinct(rest);
      if line[0] in rest {
        var j :| 0 <= j < |rest| && rest[j] == line[0];
        assert line[0] == line[j + 1];
      } else {
        if HasRepeat(line) {
          var i, j :| 0 <= i < j < |line| && line[i] == line[j];
          assert i > 0;
          assert rest[i - 1] == rest[j - 1];
        }
        if HasRepeat(rest) {
          var i, j :| 0 <= i < j < |rest| && rest[i] == rest[j];
          assert line[i + 1] == line[j + 1];
        }
      }
    }
  }

  /** The numbers 1..n. */
  function UpTo(n: nat): (s: set<nat>)
    ensures forall x :: x in s ==> 1 <= x <= n
  {
    if n == 0 then {} else UpTo(n - 1) + {n}
  }

  function Triangle(n: nat): nat
  {
    if n == 0 then 0 else n + Triangle(n - 1)
  }

  /** 1..n has n members summing to the n-th triangular number. */
  lemma UpToFacts(n: nat)
    ensures |UpTo(n)| == n && SetSum(UpTo(n)) == Triangle(n)
  {
    UpToSize(n);
    UpToSum(n);
  }

  lemma {:induction false} UpToSize(n: nat)
    ensures |UpTo(n)| == n
  {
    if n > 0 {
      var smaller := UpTo(n - 1);
      UpToSize(n - 1);
      assert n !in smaller;
      assert |smaller + {n}| == |smaller| + 1;
    }
  }

  lemma {:induction false} UpToSum(n: nat)
    ensures SetSum(UpTo(n)) == Triangle(n)
  {
    if n > 0 {
      var smaller := UpTo(n - 1);
      UpToSum(n - 1);
      assert n !in smaller;
      assert UpTo(n) - {n} == smaller;
      SetSumRemove(UpTo(n), n);
    }
  }

  lemma TriangleValues()
    ensures Triangle(7) == 28 && Triangle(8) == 36 && Triangle(9) == 45
  {
    assert Triangle(4) == 10;
  }

  /** 1..7, 1..8 and 1..9 written out. */
  lemma UpToSeven()
    ensures UpTo(7) == {1, 2, 3, 4, 5, 6, 7}
  {
    assert UpTo(1) == {1};
    assert UpTo(2) == {1, 2};
    assert UpTo(3) == {1, 2, 3};
    assert UpTo(4) == {1, 2, 3, 4};
    assert UpTo(5) == {1, 2, 3, 4, 5};
    assert UpTo(6) == {1, 2, 3, 4, 5, 6};
  }

  lemma UpToEight()
    ensures UpTo(8) == {1, 2, 3, 4, 5, 6, 7, 8}
  {
    UpToSeven();
  }

  lemma UpToNine()
    ensures UpTo(9) == Digits
  {
    UpToEight();
  }

  /** The digits 1..9 number nine and sum to 45; with 0 added they number ten. */
  lemma DigitsFacts()
    ensures |Digits| == 9 && SetSum(Digits) == 45
    ensures |Digits + {0}| == 10 && SetSum(Digits + {0}) == 45
  {
    UpToNine();
    TriangleValues();
    UpToFacts(9);
    assert 0 !in Digits;
    FreshSum(Digits, 0);
  }

  lemma SubsetOfSameSize(a: set<nat>, b: set<nat>)
    requires a <= b && |a| == |b|
    ensures a == b
  {
    assert |b - a| == |b| - |a|;
  }

  /** Nine distinct values drawn from 0..9 that sum to 45 are exactly 1..9:
      the one value of 0..9 left out must be 0. */
  lemma NineOfTenSumming45(s: set<nat>)
    requires s <= Digits + {0} && |s| == 9 && SetSum(s) == 45
    ensures s == Digits
  {
    var ten := Digits + {0};
    DigitsFacts();
    assert |ten - s| == 1;
    var x :| x in ten - s;
    SubsetOfSameSize(s, ten - {x});
    SetSumRemove(ten, x);
    assert x == 0;
    assert ten - {0} == Digits;
  }

  /** A line of nine cells is a permutation of 1..9: each digit once. */
  ghost predicate HoldsEachDigitOnce(line: seq<nat>)
  {
    |line| == 9 && Distinct(line) == Digits && !HasRepeat(line)
  }

  /** For a line of nine cells in 0..9, passing the sum-and-count test is the
      same as holding each digit 1..9 exactly once. */
  lemma PassesIffEachDigitOnce(line: seq<nat>)
    requires |line| == 9
    requires forall k :: 0 <= k < |line| ==> line[k] <= 9
    ensures LinePasses(line) <==> HoldsEachDigitOnce(line)
  {
    DigitsFacts();
    DistinctCount(line);
    if LinePasses(line) {
      NineOfTenSumming45(Distinct(line));
    }
  }

  /** A line of nine cells with a repeated value fails, whatever its values:
      its set has fewer than nine members. */
  lemma RepeatFails(line: seq<nat>)
    requires |line| == 9 && HasRepeat(line)
    ensures !LinePasses(line)
  {
    DistinctCount(line);
  }

  /** A repeated value in any row or column makes the board invalid. */
  lemma RepeatInvalidates(b: Board)
    requires (exists i :: 0 <= i < Rows && HasRepeat(b[i])) ||
             (exists j :: 0 <= j < Columns && HasRepeat(Column(b, j)))
    ensures !IsValidSolution(b)
  {
    if exists i :: 0 <= i < Rows && HasRepeat(b[i]) {
      var i :| 0 <= i < Rows && HasRepeat(b[i]);
      RepeatFails(b[i]);
    } else {
      var j :| 0 <= j < Columns && HasRepeat(Column(b, j));
      RepeatFails(Column(b, j));
    }
  }

  /** For boards with every cell in 0..9 the validator accepts exactly those
      whose every row and every column is a permutation of 1..9. */
  lemma ValidIffRowsAndColumnsArePermutations(b: Board)
    requires forall r, c :: InRange(r, c) ==> b[r][c] <= 9
    ensures IsValidSolution(b) <==>
      (forall i :: 0 <= i < Rows ==> HoldsEachDigitOnce(b[i])) &&
      (forall j :: 0 <= j < Columns ==> HoldsEachDigitOnce(Column(b, j)))
  {
    forall i | 0 <= i < Rows
      ensures LinePasses(b[i]) <==> HoldsEachDigitOnce(b[i])
    {
      PassesIffEachDigitOnce(b[i]);
    }
    forall j | 0 <= j < Columns
      ensures LinePasses(Column(b, j)) <==> HoldsEachDigitOnce(Column(b, j))
    {
      PassesIffEachDigitOnce(Column(b, j));
    }
  }

  /** A correctly solved Sudoku passes the validator. */
  lemma SudokuSolutionIsValid(s: Board)
    requires IsSudokuSolution(s)
    ensures IsValidSolution(s)
  {
    forall i | 0 <= i < Rows
      ensures LinePasses(s[i])
    {
      forall k, l | 0 <= k < l < Columns
        ensures s[i][k] != s[i][l]
      {
        assert FitsAt(s, i, k) && SameHouse(i, k, i, l);
      }
      forall k | 0 <= k < Columns
        ensures 1 <= s[i][k] <= 9
      {
        assert FitsAt(s, i, k);
      }
      DigitLine(s[i]);
      PassesIffEachDigitOnce(s[i]);
    }
    forall j | 0 <= j < Columns
      ensures LinePasses(Column(s, j))
    {
      var line := Column(s, j);
      forall k, l | 0 <= k < l < Rows
        ensures line[k] != line[l]
      {
        assert FitsAt(s, k, j) && SameHouse(k, j, l, j);
      }
      forall k | 0 <= k < Rows
        ensures 1 <= line[k] <= 9
      {
        assert FitsAt(s, k, j);
      }
      DigitLine(line);
      PassesIffEachDigitOnce(line);
    }
  }

  /** Nine cells holding digits 1..9 with no repeat hold every digit. */
  lemma DigitLine(line: seq<nat>)
    requires |line| == 9 && !HasRepeat(line)
    requires forall k :: 0 <= k < 9 ==> 1 <= line[k] <= 9
    ensures Distinct(line) == Digits
  {
    DistinctCount(line);
    DigitsFacts();
    SubsetOfSameSize(Distinct(line), Digits);
  }
}
