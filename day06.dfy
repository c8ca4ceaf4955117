/**
 * Day 6: a worksheet of cephalopod maths problems.  Every line but the last
 * holds numbers, the last the operators ('+' or '*').  Part 1 reads each row's
 * whitespace-separated integers and combines the c-th integer of every row with
 * the c-th operator.  Part 2 reads the worksheet column by column from the
 * right: a maximal run of columns that are not all blank is one problem, each
 * column's digits read top to bottom form one number, and the operator is the
 * leftmost '+' or '*' under the run ('*' when there is none).
 */
module Day06 {
  import opened GoText

  // ------------------------------------------------------------ helpers

  /** Every line is too short for `col` or has a space there. */
  predicate ColumnAllSpaces(lines: seq<string>, col: nat)
  {
    forall k :: 0 <= k < |lines| && col < |lines[k]| ==> lines[k][col] == ' '
  }

  /** `isColumnAllSpaces`: scans the lines and stops at the first non-space at `col`. */
  method IsColumnAllSpaces(lines: seq<string>, col: nat) returns (b: bool)
    ensures b <==> ColumnAllSpaces(lines, col)
  {
    var k := 0;
    while k < |lines|
      invariant 0 <= k <= |lines|
      invariant forall j :: 0 <= j < k && col < |lines[j]| ==> lines[j][col] == ' '
    {
      if col < |lines[k]| && lines[k][col] != ' ' {
        return false;
      }
      k := k + 1;
    }
    return true;
  }

  /** The digits found at `col`, top to bottom, skipping short lines and non-digits. */
  function ColumnDigits(lines: seq<string>, col: nat): (d: string)
    ensures AllDigits(d)
  {
    if |lines| == 0 then ""
    else
      var line := lines[|lines| - 1];
      var front := ColumnDigits(lines[..|lines| - 1], col);
      if col < |line| && IsDigit(line[col]) then
        var d := front + [line[col]];
        assert forall i :: 0 <= i < |front| ==> d[i] == front[i];
        d
      else front
  }

  /** The number a column spells, topmost digit most significant. */
  function ColumnNumber(lines: seq<string>, col: nat): nat
  {
    DecimalValue(ColumnDigits(lines, col))
  }

  /** `readColumnAsNumber`: folds the digits of column `col` into `num`. */
  method ReadColumnAsNumber(lines: seq<string>, col: nat) returns (num: nat)
    ensures num == ColumnNumber(lines, col)
  {
    num := 0;
    var k := 0;
    while k < |lines|
      invariant 0 <= k <= |lines|
      invariant num == ColumnNumber(lines[..k], col)
    {
      var line := lines[k];
      assert lines[..k + 1][..k] == lines[..k];
      if col < |line| && IsDigit(line[col]) {
        var digits := ColumnDigits(lines[..k], col);
        assert ColumnDigits(lines[..k + 1], col) == digits + [line[col]];
        assert (digits + [line[col]])[..|digits|] == digits;
        num := num * 10 + DigitValue(line[col]);
      }
      k := k + 1;
    }
    assert lines[..|lines|] == lines;
  }

  /** A column holding no digit reads as 0. */
  lemma {:induction false} ColumnWithoutDigits(lines: seq<string>, col: nat)
    requires forall k :: 0 <= k < |lines| && col < |lines[k]| ==> !IsDigit(lines[k][col])
    ensures ColumnNumber(lines, col) == 0
  {
    if |lines| > 0 {
      ColumnWithoutDigits(lines[..|lines| - 1], col);
    }
  }

  /** A column reading '1', '2', '3' from the top is 123. */
  lemma ColumnOneTwoThree()
    ensures ColumnNumber(["1", "2", "3"], 0) == 123
  {
    var lines := ["1", "2", "3"];
    assert lines[..2] == ["1", "2"];
    assert lines[..2][..1] == ["1"];
    assert lines[..2][..1][..0] == [];
    assert ColumnDigits(["1"], 0) == "1";
    assert ColumnDigits(["1", "2"], 0) == "12";
    assert ColumnDigits(lines, 0) == "123";
    assert "123"[..2] == "12" && "12"[..1] == "1" && "1"[..0] == "";
  }

  function Sum(xs: seq<int>): int
  {
    if |xs| == 0 then 0 else Sum(xs[..|xs| - 1]) + xs[|xs| - 1]
  }

  function Product(xs: seq<int>): int
  {
    if |xs| == 0 then 1 else Product(xs[..|xs| - 1]) * xs[|xs| - 1]
  }

  /** What `applyOperation` computes: 0 for no numbers, the sum for '+', the product
      for any other operator. */
  function Combine(numbers: seq<int>, op: char): int
  {
    if |numbers| == 0 then 0
    else if op == '+' then Sum(numbers)
    else Product(numbers)
  }

  /** `applyOperation`: starts from the first number and folds in the rest. */
  method ApplyOperation(numbers: seq<int>, op: char) returns (result: int)
    ensures result == Combine(numbers, op)
  {
    if |numbers| == 0 {
      return 0;
    }
    result := numbers[0];
    assert numbers[..1][..0] == [];
    var i := 1;
    while i < |numbers|
      invariant 1 <= i <= |numbers|
      invariant result == (if op == '+' then Sum(numbers[..i]) else Product(numbers[..i]))
    {
      assert numbers[..i + 1][..i] == numbers[..i];
      if op == '+' {
        result := result + numbers[i];
      } else {
        result := result * numbers[i];
      }
      i := i + 1;
    }
    assert numbers[..|numbers|] == numbers;
  }

  /** A single number is its own result, whatever the operator. */
  lemma CombineSingle(x: int, op: char)
    ensures Combine([x], op) == x
  {
    var one: seq<int> := [x];
    assert one[..0] == [];
    assert Sum(one) == x && Product(one) == x;
  }

  /** Splitting the numbers splits the sum. */
  lemma {:induction false} SumAppend(a: seq<int>, b: seq<int>)
    ensures Sum(a + b) == Sum(a) + Sum(b)
  {
    if |b| > 0 {
      SumAppend(a, b[..|b| - 1]);
      assert (a + b)[..|a + b| - 1] == a + b[..|b| - 1];
    } else {
      assert a + b == a;
    }
  }

  /** Splitting the numbers splits the product. */
  lemma {:induction false} ProductAppend(a: seq<int>, b: seq<int>)
    ensures Product(a + b) == Product(a) * Product(b)
  {
    if |b| > 0 {
      ProductAppend(a, b[..|b| - 1]);
      assert (a + b)[..|a + b| - 1] == a + b[..|b| - 1];
    } else {
      assert a + b == a;
    }
  }

  /** Over non-empty numbers, combining is order independent at the seams: the
      result of a concatenation is the results combined with the same operator. */
  lemma CombineAppend(a: seq<int>, b: seq<int>, op: char)
    requires |a| > 0 && |b| > 0
    ensures op == '+' ==> Combine(a + b, op) == Combine(a, op) + Combine(b, op)
    ensures op != '+' ==> Combine(a + b, op) == Combine(a, op) * Combine(b, op)
  {
    SumAppend(a, b);
    ProductAppend(a, b);
  }

  // ------------------------------------------------------------ part 1

  /** The integers among a row's whitespace-separated fields. */
  function RowNumbers(fields: seq<string>): seq<int>
  {
    if |fields| == 0 then []
    else
      var front := RowNumbers(fields[..|fields| - 1]);
      match Atoi(fields[|fields| - 1])
      case Some(n) => front + [n]
      case None => front
  }

  /** The `col`-th integer of every row that has one, top to bottom. */
  function ColumnOf(rows: seq<seq<int>>, col: nat): seq<int>
  {
    if |rows| == 0 then []
    else
      var row := rows[|rows| - 1];
      ColumnOf(rows[..|rows| - 1], col) + (if col < |row| then [row[col]] else [])
  }

  /** Part 1: the `c`-th problem combines `ColumnOf(rows, c)` with the first character
      of the `c`-th operator field, and the problems' results are summed. */
  function HorizontalTotal(rows: seq<seq<int>>, ops: seq<string>): int
    requires forall c :: 0 <= c < |ops| ==> |ops[c]| > 0
  {
    if |ops| == 0 then 0
    else
      HorizontalTotal(rows, ops[..|ops| - 1]) +
      Combine(ColumnOf(rows, |ops| - 1), ops[|ops| - 1][0])
  }

  /** Every row of numbers, one per number line. */
  function RowsOf(numLines: seq<string>): (rows: seq<seq<int>>)
    ensures |rows| == |numLines|
  {
    if |numLines| == 0 then []
    else RowsOf(numLines[..|numLines| - 1]) + [RowNumbers(Fields(numLines[|numLines| - 1]))]
  }

  /** Rows with one number each and one operator: the single problem has those numbers. */
  lemma OneProblem(rows: seq<seq<int>>, op: string)
    requires |op| > 0 && forall k :: 0 <= k < |rows| ==> |rows[k]| >= 1
    ensures ColumnOf(rows, 0) == seq(|rows|, k requires 0 <= k < |rows| => rows[k][0])
    ensures HorizontalTotal(rows, [op]) == Combine(ColumnOf(rows, 0), op[0])
  {
    ColumnOfFirst(rows);
    assert [op][..0] == [];
  }

  lemma {:induction false} ColumnOfFirst(rows: seq<seq<int>>)
    requires forall k :: 0 <= k < |rows| ==> |rows[k]| >= 1
    ensures ColumnOf(rows, 0) == seq(|rows|, k requires 0 <= k < |rows| => rows[k][0])
  {
    if |rows| > 0 {
      ColumnOfFirst(rows[..|rows| - 1]);
    }
  }

  /** The integers of one line, collected as the inner loop of `solveHorizontal` does. */
  method ParseRow(line: string) returns (row: seq<int>)
    ensures row == RowNumbers(Fields(line))
  {
    var fields := Fields(line);
    row := [];
    var f := 0;
    while f < |fields|
      invariant 0 <= f <= |fields|
      invariant row == RowNumbers(fields[..f])
    {
      assert fields[..f + 1][..f] == fields[..f];
      var num := Atoi(fields[f]);
      if num.Some? {
        row := row + [num.value];
      }
      f := f + 1;
    }
    assert fields[..|fields|] == fields;
  }

  /** The numbers of problem `col`, gathered as `solveHorizontal`'s inner loop does. */
  method GatherColumn(numRows: seq<seq<int>>, col: nat) returns (numbers: seq<int>)
    ensures numbers == ColumnOf(numRows, col)
  {
    numbers := [];
    var k := 0;
    while k < |numRows|
      invariant 0 <= k <= |numRows|
      invariant numbers == ColumnOf(numRows[..k], col)
    {
      assert numRows[..k + 1][..k] == numRows[..k];
      if col < |numRows[k]| {
        numbers := numbers + [numRows[k][col]];
      }
      k := k + 1;
    }
    assert numRows[..|numRows|] == numRows;
  }

  /** `solveHorizontal`: the last line holds the operators, the rest the numbers. */
  method SolveHorizontal(lines: seq<string>) returns (total: int)
    requires |lines| >= 1
    ensures total == Horizontal(lines)
  {
    var opLine := lines[|lines| - 1];
    var numLines := lines[..|lines| - 1];
    var numRows: seq<seq<int>> := [];
    var i := 0;
    while i < |numLines|
      invariant 0 <= i <= |numLines|
      invariant numRows == RowsOf(numLines[..i])
    {
      RowsOfStep(numLines, i);
      var row := ParseRow(numLines[i]);
      numRows := numRows + [row];
      i := i + 1;
    }
    assert numLines[..|numLines|] == numLines;
    var ops := Fields(opLine);
    total := 0;
    var col := 0;
    while col < |ops|
      invariant 0 <= col <= |ops|
      invariant total == HorizontalTotal(numRows, ops[..col])
    {
      HorizontalStep(numRows, ops, col);
      var numbers := GatherColumn(numRows, col);
      var result := ApplyOperation(numbers, ops[col][0]);
      total := total + result;
      col := col + 1;
    }
    assert ops[..|ops|] == ops;
  }

  lemma RowsOfStep(numLines: seq<string>, i: nat)
    requires i < |numLines|
    ensures RowsOf(numLines[..i + 1]) == RowsOf(numLines[..i]) + [RowNumbers(Fields(numLines[i]))]
  {
    assert numLines[..i + 1][..i] == numLines[..i];
  }

  lemma HorizontalStep(rows: seq<seq<int>>, ops: seq<string>, col: nat)
    requires col < |ops| && forall c :: 0 <= c < |ops| ==> |ops[c]| > 0
    ensures HorizontalTotal(rows, ops[..col + 1]) ==
      HorizontalTotal(rows, ops[..col]) + Combine(ColumnOf(rows, col), ops[col][0])
  {
    assert ops[..col + 1][..col] == ops[..col];
  }

  // ------------------------------------------------------------ part 2

  /** The operator row has '+' or '*' at `col`. */
  predicate OpAt(opRow: string, col: nat)
  {
    col < |opRow| && (opRow[col] == '+' || opRow[col] == '*')
  }

  /** The column just left of the run of non-blank columns ending at `col`: -1 or a
      blank column.  `col` itself when it is blank or -1. */
  function RunEnd(numLines: seq<string>, col: int): (e: int)
    requires col >= -1
    ensures -1 <= e <= col
    decreases col + 1
  {
    if col < 0 || ColumnAllSpaces(numLines, col) then col else RunEnd(numLines, col - 1)
  }

  /** The numbers of the run ending at `col`, right to left. */
  function RunNumbers(numLines: seq<string>, col: int): seq<int>
    requires col >= -1
    decreases col + 1
  {
    if col < 0 || ColumnAllSpaces(numLines, col) then []
    else [ColumnNumber(numLines, col) as int] + RunNumbers(numLines, col - 1)
  }

  /** The operator of the run ending at `col`: scanning right to left, each '+' or '*'
      replaces `op`. */
  function RunOp(numLines: seq<string>, opRow: string, col: int, op: char): char
    requires col >= -1
    decreases col + 1
  {
    if col < 0 || ColumnAllSpaces(numLines, col) then op
    else RunOp(numLines, opRow, col - 1, if OpAt(opRow, col) then opRow[col] else op)
  }

  /** Part 2 over columns `col` down to 0: blank columns are skipped and every run is
      one problem. */
  function VerticalTotal(numLines: seq<string>, opRow: string, col: int): int
    requires col >= -1
    decreases col + 1
  {
    if col < 0 then 0
    else if ColumnAllSpaces(numLines, col) then VerticalTotal(numLines, opRow, col - 1)
    else
      var e := RunEnd(numLines, col);
      Combine(RunNumbers(numLines, col), RunOp(numLines, opRow, col, '*')) +
      VerticalTotal(numLines, opRow, e)
  }

  /** A run is maximal: every column in it is non-blank and it stops at a blank
      column or at the left edge. */
  lemma {:induction false} RunIsMaximal(numLines: seq<string>, col: int)
    requires col >= -1
    ensures var e := RunEnd(numLines, col);
      (e < 0 || ColumnAllSpaces(numLines, e)) &&
      forall c: nat :: e < c <= col ==> !ColumnAllSpaces(numLines, c)
    decreases col + 1
  {
    if col >= 0 && !ColumnAllSpaces(numLines, col) {
      RunIsMaximal(numLines, col - 1);
    }
  }

  /** A run's numbers are its columns' numbers, right to left. */
  lemma {:induction false} RunNumbersAreColumns(numLines: seq<string>, col: int)
    requires col >= -1
    ensures var e := RunEnd(numLines, col);
      |RunNumbers(numLines, col)| == col - e &&
      forall k :: 0 <= k < col - e ==> RunNumbers(numLines, col)[k] == ColumnNumber(numLines, col - k)
    decreases col + 1
  {
    if col >= 0 && !ColumnAllSpaces(numLines, col) {
      RunNumbersAreColumns(numLines, col - 1);
      var rest := RunNumbers(numLines, col - 1);
      var run := [ColumnNumber(numLines, col) as int] + rest;
      assert RunNumbers(numLines, col) == run;
      assert RunEnd(numLines, col) == RunEnd(numLines, col - 1);
      forall k | 0 < k < |run| ensures run[k] == rest[k - 1] {
      }
    }
  }

  /** With no operator under the run the default `op` stays. */
  lemma {:induction false} RunOpDefault(numLines: seq<string>, opRow: string, col: int, op: char)
    requires col >= -1
    requires forall c: nat :: RunEnd(numLines, col) < c <= col ==> !OpAt(opRow, c)
    ensures RunOp(numLines, opRow, col, op) == op
    decreases col + 1
  {
    if col >= 0 && !ColumnAllSpaces(numLines, col) {
      RunOpDefault(numLines, opRow, col - 1, op);
    }
  }

  /** Otherwise the leftmost operator of the run wins, whatever `op` was. */
  lemma {:induction false} RunOpIsLeftmost(numLines: seq<string>, opRow: string, col: int, op: char, c: nat)
    requires col >= -1
    requires RunEnd(numLines, col) < c <= col && OpAt(opRow, c)
    requires forall d: nat :: RunEnd(numLines, col) < d < c ==> !OpAt(opRow, d)
    ensures RunOp(numLines, opRow, col, op) == opRow[c]
    decreases col + 1
  {
    var op' := if OpAt(opRow, col) then opRow[col] else op;
    if c == col {
      RunOpDefault(numLines, opRow, col - 1, op');
    } else {
      RunOpIsLeftmost(numLines, opRow, col - 1, op', c);
    }
  }

  /** The widest line, the operator row included. */
  function MaxWidth(lines: seq<string>): (w: nat)
    ensures forall k :: 0 <= k < |lines| ==> |lines[k]| <= w
    ensures |lines| > 0 ==> exists k :: 0 <= k < |lines| && |lines[k]| == w
    ensures |lines| == 0 ==> w == 0
  {
    if |lines| == 0 then 0
    else
      var w := MaxWidth(lines[..|lines| - 1]);
      var last := |lines[|lines| - 1]|;
      if last > w then last
      else
        assert |lines| - 1 > 0 ==> lines[..|lines| - 1][0] == lines[0];
        w
  }

  /** One problem of `solveVertical`: the inner loop over the run ending at `col`. */
  method ReadProblem(numLines: seq<string>, opRow: string, col: nat) returns (numbers: seq<int>, op: char, next: int)
    requires !ColumnAllSpaces(numLines, col)
    ensures numbers == RunNumbers(numLines, col)
    ensures op == RunOp(numLines, opRow, col, '*')
    ensures next == RunEnd(numLines, col) && next < col
  {
    numbers := [];
    op := '*';
    next := col;
    var stop := false;
    while !stop
      invariant -1 <= next <= col
      invariant stop <==> next < 0 || ColumnAllSpaces(numLines, next)
      invariant numbers + RunNumbers(numLines, next) == RunNumbers(numLines, col)
      invariant RunOp(numLines, opRow, next, op) == RunOp(numLines, opRow, col, '*')
      invariant RunEnd(numLines, next) == RunEnd(numLines, col)
      invariant next < col || numbers == []
      decreases next + 1
    {
      if OpAt(opRow, next) {
        op := opRow[next];
      }
      var num := ReadColumnAsNumber(numLines, next);
      numbers := numbers + [num];
      next := next - 1;
      if next < 0 {
        stop := true;
      } else {
        stop := IsColumnAllSpaces(numLines, next);
      }
    }
  }

  /** `solveVertical`: from the rightmost column leftwards, blank columns are skipped and
      every run of non-blank columns is combined and added. */
  method SolveVertical(lines: seq<string>) returns (total: int)
    requires |lines| >= 1
    ensures total == Vertical(lines)
  {
    var opRow := lines[|lines| - 1];
    var numLines := lines[..|lines| - 1];
    var maxWidth := 0;
    var i := 0;
    while i < |lines|
      invariant 0 <= i <= |lines|
      invariant maxWidth == MaxWidth(lines[..i])
    {
      MaxWidthStep(lines, i);
      if |lines[i]| > maxWidth {
        maxWidth := |lines[i]|;
      }
      i := i + 1;
    }
    assert lines[..|lines|] == lines;
    ghost var whole := VerticalTotal(numLines, opRow, maxWidth - 1);
    assert whole == Vertical(lines);
    total := 0;
    var col := maxWidth - 1;
    while col >= 0
      invariant -1 <= col < maxWidth
      invariant total + VerticalTotal(numLines, opRow, col) == whole
      decreases col + 1
    {
      var blank := IsColumnAllSpaces(numLines, col);
      if blank {
        VerticalSkip(numLines, opRow, col);
        col := col - 1;
        continue;
      }
      var numbers, op, next := ReadProblem(numLines, opRow, col);
      VerticalProblem(numLines, opRow, col);
      var result := ApplyOperation(numbers, op);
      total := total + result;
      col := next;
    }
    assert VerticalTotal(numLines, opRow, col) == 0;
  }

  lemma MaxWidthStep(lines: seq<string>, i: nat)
    requires i < |lines|
    ensures MaxWidth(lines[..i + 1]) ==
      if |lines[i]| > MaxWidth(lines[..i]) then |lines[i]| else MaxWidth(lines[..i])
  {
    assert lines[..i + 1][..i] == lines[..i];
  }

  lemma VerticalSkip(numLines: seq<string>, opRow: string, col: nat)
    requires ColumnAllSpaces(numLines, col)
    ensures VerticalTotal(numLines, opRow, col) == VerticalTotal(numLines, opRow, col - 1)
  {
  }

  lemma VerticalProblem(numLines: seq<string>, opRow: string, col: nat)
    requires !ColumnAllSpaces(numLines, col)
    ensures VerticalTotal(numLines, opRow, col) ==
      Combine(RunNumbers(numLines, col), RunOp(numLines, opRow, col, '*')) +
      VerticalTotal(numLines, opRow, RunEnd(numLines, col))
  {
  }

  /** `solveVertical` stops: every column is visited at most once. */
  lemma VerticalTerminates(numLines: seq<string>, col: nat)
    requires !ColumnAllSpaces(numLines, col)
    ensures RunEnd(numLines, col) < col
  {
  }

  // ------------------------------------------------------------ the worksheet

  /** The lines `readLines` keeps: the non-empty ones, in order. */
  function NonEmptyLines(lines: seq<string>): (r: seq<string>)
    ensures forall k :: 0 <= k < |r| ==> |r[k]| > 0
  {
    if |lines| == 0 then []
    else NonEmptyLines(lines[..|lines| - 1]) + (if |lines[|lines| - 1]| > 0 then [lines[|lines| - 1]] else [])
  }

  /** Part 1 of a worksheet: the last line holds the operators. */
  function Horizontal(lines: seq<string>): int
    requires |lines| >= 1
  {
    HorizontalTotal(RowsOf(lines[..|lines| - 1]), Fields(lines[|lines| - 1]))
  }

  /** Part 2 of a worksheet, from the widest line's last column leftwards. */
  function Vertical(lines: seq<string>): int
    requires |lines| >= 1
  {
    VerticalTotal(lines[..|lines| - 1], lines[|lines| - 1], MaxWidth(lines) - 1)
  }

  class MathWorksheet {
    var ResultPart1: int
    var ResultPart2: int

    /** `NewMathWorksheet`. */
    constructor()
      ensures ResultPart1 == 0 && ResultPart2 == 0
    {
      ResultPart1 := 0;
      ResultPart2 := 0;
    }

    /** `Parse`: with fewer than two non-empty lines nothing is solved; otherwise both
        parts are solved over the non-empty lines. */
    method Parse(input: seq<string>)
      modifies this
      ensures |NonEmptyLines(input)| < 2 ==>
        ResultPart1 == old(ResultPart1) && ResultPart2 == old(ResultPart2)
      ensures |NonEmptyLines(input)| >= 2 ==>
        ResultPart1 == Horizontal(NonEmptyLines(input)) && ResultPart2 == Vertical(NonEmptyLines(input))
    {
      var lines := NonEmptyLines(input);
      if |lines| < 2 {
        return;
      }
      ResultPart1 := SolveHorizontal(lines);
      ResultPart2 := SolveVertical(lines);
    }
  }
}
