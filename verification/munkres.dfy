/**
The Munkres steps over the solver's flat arrays. The arrays that every step passes on to the next
one are the fields of Munkres; the ghost field s says what they mean.
 */
module MunkresSteps {
  import opened AssignmentTheory
  import opened ColumnMajor
  import opened MunkresState

  class Munkres {
    const nOfRows: nat
    const nOfColumns: nat
    const minDim: nat
    const assignment: array<int>
    const distMatrix: array<real>
    const starMatrix: array<bool>
    const newStarMatrix: array<bool>
    const primeMatrix: array<bool>
    const coveredColumns: array<bool>
    const coveredRows: array<bool>
    ghost const p: Problem
    ghost var s: State

    // -------------------------------------------------------------- what the arrays mean

    ghost predicate Layout() {
      && p.n == nOfRows && p.m == nOfColumns && minDim == Min(nOfRows, nOfColumns)
      && Rectangular(p.costs, nOfRows, nOfColumns)
      && assignment.Length == coveredRows.Length == nOfRows && coveredColumns.Length == nOfColumns
      && distMatrix.Length == ColumnStart(nOfRows, nOfColumns)
      && starMatrix.Length == newStarMatrix.Length == primeMatrix.Length == ColumnStart(nOfRows, nOfColumns)
      && starMatrix != newStarMatrix && starMatrix != primeMatrix && newStarMatrix != primeMatrix
      && starMatrix != coveredRows && newStarMatrix != coveredRows && primeMatrix != coveredRows
      && starMatrix != coveredColumns && newStarMatrix != coveredColumns && primeMatrix != coveredColumns
      && coveredRows != coveredColumns
      && forall r, c | 0 <= r < nOfRows && 0 <= c < nOfColumns ::
           At(nOfRows, r, c) < ColumnStart(nOfRows, nOfColumns)
    }

    /** The marks of a matrix, one per row at most: row r is marked in column rowTo[r]. */
    ghost predicate Marks(a: array<bool>, rowTo: seq<int>)
      requires Layout() && a.Length == ColumnStart(nOfRows, nOfColumns) && |rowTo| == nOfRows
      reads a
    {
      forall r, c | 0 <= r < nOfRows && 0 <= c < nOfColumns :: a[At(nOfRows, r, c)] <==> rowTo[r] == c
    }

    ghost predicate Distances(d: Duals)
      requires Layout() && SizedDuals(p, d)
      reads distMatrix
    {
      forall r, c | 0 <= r < nOfRows && 0 <= c < nOfColumns :: distMatrix[At(nOfRows, r, c)] == Entry(p, d, r, c)
    }

    ghost predicate Holds()
      reads this, distMatrix, starMatrix, primeMatrix, coveredRows, coveredColumns
    {
      && Layout() && Sized(p, s)
      && Distances(s.duals)
      && Marks(starMatrix, s.stars.ofRow)
      && Marks(primeMatrix, s.cover.primes)
      && coveredRows[..] == s.cover.rows
      && coveredColumns[..] == s.cover.columns
    }

    ghost predicate Unassigned()
      reads assignment
    {
      forall r | 0 <= r < assignment.Length :: assignment[r] == -1
    }

    // -------------------------------------------------------------- preliminary steps

    /** Allocates the working arrays, nothing starred or covered, around a copy of the distance matrix. */
    constructor (distMatrixIn: array<real>, nOfRows: nat, nOfColumns: nat, ghost costs: Matrix)
      requires Rectangular(costs, nOfRows, nOfColumns)
      requires distMatrixIn.Length == ColumnStart(nOfRows, nOfColumns)
      requires forall r, c | 0 <= r < nOfRows && 0 <= c < nOfColumns && At(nOfRows, r, c) < distMatrixIn.Length ::
                 distMatrixIn[At(nOfRows, r, c)] == costs[r][c]
      ensures p == Problem(costs, nOfRows, nOfColumns)
      ensures Holds() && Unassigned() && s == Untouched(p)
      ensures fresh(assignment) && fresh(distMatrix) && fresh(starMatrix) && fresh(newStarMatrix)
      ensures fresh(primeMatrix) && fresh(coveredColumns) && fresh(coveredRows)
    {
      this.nOfRows := nOfRows;
      this.nOfColumns := nOfColumns;
      minDim := if nOfRows <= nOfColumns then nOfRows else nOfColumns;
      assignment := new int[nOfRows](_ => -1);
      distMatrix := new real[distMatrixIn.Length];
      coveredColumns := new bool[nOfColumns](_ => false);
      coveredRows := new bool[nOfRows](_ => false);
      starMatrix := new bool[distMatrixIn.Length](_ => false);
      primeMatrix := new bool[distMatrixIn.Length](_ => false);
      newStarMatrix := new bool[distMatrixIn.Length](_ => false);
      p := Problem(costs, nOfRows, nOfColumns);
      s := Untouched(Problem(costs, nOfRows, nOfColumns));
      new;
      InBounds(nOfRows, nOfColumns);
      CopyDistances(distMatrixIn);
      HoldsInitially();
    }

    lemma HoldsInitially()
      requires Layout() && s == Untouched(p)
      requires forall r, c | 0 <= r < nOfRows && 0 <= c < nOfColumns ::
                 distMatrix[At(nOfRows, r, c)] == p.costs[r][c]
      requires forall i | 0 <= i < starMatrix.Length :: !starMatrix[i] && !primeMatrix[i]
      requires forall r | 0 <= r < nOfRows :: !coveredRows[r]
      requires forall c | 0 <= c < nOfColumns :: !coveredColumns[c]
      ensures Holds()
    {
      UntouchedMeans(p);
    }

    method CopyDistances(distMatrixIn: array<real>)
      requires distMatrixIn.Length == distMatrix.Length && distMatrixIn != distMatrix
      modifies distMatrix
      ensures forall i | 0 <= i < distMatrix.Length :: distMatrix[i] == distMatrixIn[i]
    {
      for i := 0 to distMatrixIn.Length
        invariant forall k | 0 <= k < i :: distMatrix[k] == distMatrixIn[k]
      {
        distMatrix[i] := distMatrixIn[i];
      }
    }

    /** The smallest element of a row that has not been reduced yet. */
    method RowMinimum(row: nat) returns (minValue: real)
      requires Holds() && row < nOfRows && nOfColumns > 0 && s.duals.u[row] == 0.0 && s.duals.v == Zeros(p.m)
      ensures IsRowMinimum(p, row, minValue)
    {
      minValue := distMatrix[At(nOfRows, row, 0)];
      assert minValue == p.costs[row][0];
      for col := 1 to nOfColumns
        invariant minValue in p.costs[row]
        invariant forall c | 0 <= c < col :: minValue <= p.costs[row][c]
      {
        var value := distMatrix[At(nOfRows, row, col)];
        assert value == Entry(p, s.duals, row, col) == p.costs[row][col];
        if value < minValue {
          minValue := value;
        }
      }
    }

    method ReduceRow(row: nat, minValue: real)
      requires Holds() && row < nOfRows && s.duals.u[row] == 0.0
      modifies `s, distMatrix
      ensures Holds() && s == old(s).(duals := old(s).duals.(u := old(s).duals.u[row := minValue]))
    {
      for col := 0 to nOfColumns
        modifies distMatrix
        invariant forall r, c | 0 <= r < nOfRows && 0 <= c < nOfColumns ::
                    distMatrix[At(nOfRows, r, c)] == Entry(p, s.duals, r, c) - if r == row && c < col then minValue else 0.0
      {
        distMatrix[At(nOfRows, row, col)] := distMatrix[At(nOfRows, row, col)] - minValue;
      }
      s := s.(duals := s.duals.(u := s.duals.u[row := minValue]));
    }

    /** For a matrix at least as wide as tall: subtract each row's minimum, then star greedily. */
    method StartFromRows()
      requires Holds() && s == Untouched(p) && nOfRows <= nOfColumns
      modifies `s, distMatrix, starMatrix, coveredColumns
      ensures Holds() && Uncovered(p, s) && ColumnsCovered(p, s)
      ensures forall a | FirstColumns(p.costs, a, p.n, p.m) :: s.stars.ofRow == a
    {
      ReduceRows();
      StarRows();
    }

    method ReduceRows()
      requires Holds() && s == Untouched(p) && nOfRows <= nOfColumns
      modifies `s, distMatrix
      ensures Holds() && Uncovered(p, s) && ColumnsCovered(p, s) && StarredRows(s.stars) == {}
      ensures RowsReduced(p, s.duals)
    {
      for row := 0 to nOfRows
        invariant Holds() && s == Untouched(p).(duals := Duals(s.duals.u, Zeros(p.m), 0.0))
        invariant forall r | 0 <= r < row :: IsRowMinimum(p, r, s.duals.u[r])
        invariant forall r | row <= r < nOfRows :: s.duals.u[r] == 0.0
      {
        var minValue := RowMinimum(row);
        ReduceRow(row, minValue);
      }
      RowMinimaAreGoodDuals(p, s);
    }

    /** Star a cell of a row without a star and cover its column. */
    method StarCell(row: nat, col: nat)
      requires Holds() && row < nOfRows && col < nOfColumns && s.stars.ofRow[row] == -1
      modifies `s, starMatrix, coveredColumns
      ensures Holds() && s == AddStar(old(s), row, col)
    {
      starMatrix[At(nOfRows, row, col)] := true;
      coveredColumns[col] := true;
      s := AddStar(s, row, col);
    }

    /** The first zero of a row in a column that is not covered, or nOfColumns. */
    method FindFreeZeroInRow(row: nat) returns (col: nat)
      requires Holds() && row < nOfRows
      ensures FirstFreeInRow(p, s, row, col)
    {
      col := 0;
      while col < nOfColumns && !(Abs(distMatrix[At(nOfRows, row, col)]) < EPSILON && !coveredColumns[col])
        invariant col <= nOfColumns
        invariant forall c | 0 <= c < col :: Abs(Entry(p, s.duals, row, c)) >= EPSILON || s.cover.columns[c]
      {
        col := col + 1;
      }
    }

    /** The first zero of a column in a row that is not covered, or nOfRows. */
    method FindFreeZeroInColumn(col: nat) returns (row: nat)
      requires Holds() && col < nOfColumns
      ensures FirstFreeInColumn(p, s, row, col)
    {
      row := 0;
      while row < nOfRows && !(Abs(distMatrix[At(nOfRows, row, col)]) < EPSILON && !coveredRows[row])
        invariant row <= nOfRows
        invariant forall r | 0 <= r < row :: Abs(Entry(p, s.duals, r, col)) >= EPSILON || s.cover.rows[r]
      {
        row := row + 1;
      }
    }

    method StarRows()
      requires Holds() && Uncovered(p, s) && ColumnsCovered(p, s) && StarredRows(s.stars) == {} && RowsReduced(p, s.duals)
      modifies `s, starMatrix, coveredColumns
      ensures Holds() && Uncovered(p, s) && ColumnsCovered(p, s)
      ensures forall a | FirstColumns(p.costs, a, p.n, p.m) :: s.stars.ofRow == a
    {
      StarlessColumns(p, s.stars);
      for row := 0 to nOfRows
        invariant Holds() && Uncovered(p, s) && ColumnsCovered(p, s) && RowsReduced(p, s.duals)
        invariant RowsDone(p, s, row)
      {
        var col := FindFreeZeroInRow(row);
        RowDone(p, s, row, col);
        if col < nOfColumns {
          AddStarKeeps(p, s, row, col);
          StarCell(row, col);
        }
      }
      AllRowsDone(p, s);
    }

    /** The smallest element of a column that has not been reduced yet. */
    method ColumnMinimum(col: nat) returns (minValue: real)
      requires Holds() && col < nOfColumns && nOfRows > 0 && s.duals.v[col] == 0.0 && s.duals.u == Zeros(p.n)
      ensures IsColumnMinimum(p, col, minValue)
    {
      minValue := distMatrix[At(nOfRows, 0, col)];
      ghost var at := 0;
      assert minValue == p.costs[0][col];
      for row := 1 to nOfRows
        invariant 0 <= at < nOfRows && minValue == p.costs[at][col]
        invariant forall r | 0 <= r < row :: minValue <= p.costs[r][col]
      {
        var value := distMatrix[At(nOfRows, row, col)];
        assert value == Entry(p, s.duals, row, col) == p.costs[row][col];
        if value < minValue {
          minValue, at := value, row;
        }
      }
    }

    method ReduceColumn(col: nat, minValue: real)
      requires Holds() && col < nOfColumns && s.duals.v[col] == 0.0
      modifies `s, distMatrix
      ensures Holds() && s == old(s).(duals := old(s).duals.(v := old(s).duals.v[col := minValue]))
    {
      for row := 0 to nOfRows
        modifies distMatrix
        invariant forall r, c | 0 <= r < nOfRows && 0 <= c < nOfColumns ::
                    distMatrix[At(nOfRows, r, c)] == Entry(p, s.duals, r, c) - if c == col && r < row then minValue else 0.0
      {
        distMatrix[At(nOfRows, row, col)] := distMatrix[At(nOfRows, row, col)] - minValue;
      }
      s := s.(duals := s.duals.(v := s.duals.v[col := minValue]));
    }

    /** For a matrix taller than wide: subtract each column's minimum, star greedily, uncover the rows. */
    method StartFromColumns()
      requires Holds() && s == Untouched(p) && nOfRows > nOfColumns
      modifies `s, distMatrix, starMatrix, coveredColumns, coveredRows
      ensures Holds() && Uncovered(p, s) && ColumnsCovered(p, s)
      ensures forall b | FirstRows(p.costs, b, p.n, p.m) :: s.stars.ofColumn == b
    {
      ReduceColumns();
      StarColumns();
      UncoverRows();
    }

    method ReduceColumns()
      requires Holds() && s == Untouched(p) && nOfRows > nOfColumns
      modifies `s, distMatrix
      ensures Holds() && Uncovered(p, s) && ColumnsCovered(p, s) && StarredRows(s.stars) == {}
      ensures ColumnsReduced(p, s.duals)
    {
      for col := 0 to nOfColumns
        invariant Holds() && s == Untouched(p).(duals := Duals(Zeros(p.n), s.duals.v, 0.0))
        invariant forall c | 0 <= c < col :: IsColumnMinimum(p, c, s.duals.v[c])
        invariant forall c | col <= c < nOfColumns :: s.duals.v[c] == 0.0
      {
        var minValue := ColumnMinimum(col);
        ReduceColumn(col, minValue);
      }
      ColumnMinimaAreGoodDuals(p, s);
    }

    method StarColumns()
      requires Holds() && Uncovered(p, s) && ColumnsCovered(p, s) && StarredRows(s.stars) == {} && nOfRows > nOfColumns
      requires ColumnsReduced(p, s.duals)
      modifies `s, starMatrix, coveredColumns, coveredRows
      ensures Holds() && Uncovered(p, WithoutRowCovers(s)) && ColumnsCovered(p, s)
      ensures forall b | FirstRows(p.costs, b, p.n, p.m) :: s.stars.ofColumn == b
    {
      StarlessColumns(p, s.stars);
      for col := 0 to nOfColumns
        invariant Holds() && StarringColumns(col)
      {
        StarColumn(col);
      }
      AllColumnsDone(p, s);
    }

    /** The columns before this one are done, and exactly the rows with a star are covered for now. */
    ghost predicate StarringColumns(col: nat)
      requires Layout() && Sized(p, s)
      reads `s
    {
      && Uncovered(p, WithoutRowCovers(s)) && ColumnsCovered(p, s) && ColumnsReduced(p, s.duals)
      && (forall r | 0 <= r < nOfRows :: s.cover.rows[r] <==> s.stars.ofRow[r] >= 0)
      && nOfRows > 0 && col <= nOfColumns && ColumnsDone(p, s, col)
    }

    method StarColumn(col: nat)
      requires Holds() && StarringColumns(col) && col < nOfColumns
      modifies `s, starMatrix, coveredColumns, coveredRows
      ensures Holds() && StarringColumns(col + 1)
    {
      var row := FindFreeZeroInColumn(col);
      ColumnDone(p, s, row, col);
      if row < nOfRows {
        AddStarKeeps(p, WithoutRowCovers(s), row, col);
        StarAndCover(row, col);
      }
    }

    /** A new star covers its row too, until the columns are done. */
    method StarAndCover(row: nat, col: nat)
      requires Holds() && row < nOfRows && col < nOfColumns && s.stars.ofRow[row] == -1
      modifies `s, starMatrix, coveredColumns, coveredRows
      ensures Holds() && s.cover.rows == old(s.cover.rows)[row := true] && s.stars == AddStar(old(s), row, col).stars
      ensures WithoutRowCovers(s) == AddStar(WithoutRowCovers(old(s)), row, col)
    {
      StarCell(row, col);
      coveredRows[row] := true;
      s := s.(cover := s.cover.(rows := s.cover.rows[row := true]));
    }

    method UncoverRows()
      requires Holds()
      modifies `s, coveredRows
      ensures Holds() && s == WithoutRowCovers(old(s))
    {
      for row := 0 to nOfRows
        modifies coveredRows
        invariant forall r | 0 <= r < row :: !coveredRows[r]
      {
        coveredRows[row] := false;
      }
      s := WithoutRowCovers(s);
    }

    // -------------------------------------------------------------- the scans over one line

    method FindStarInRow(row: nat) returns (starCol: nat)
      requires Holds() && StarsOnZeros(p, s.duals, s.stars) && row < nOfRows
      ensures s.stars.ofRow[row] >= 0 ==> starCol == s.stars.ofRow[row]
      ensures s.stars.ofRow[row] < 0 ==> starCol == nOfColumns
    {
      starCol := 0;
      while starCol < nOfColumns && !starMatrix[At(nOfRows, row, starCol)]
        invariant starCol <= nOfColumns
        invariant s.stars.ofRow[row] >= 0 ==> starCol <= s.stars.ofRow[row]
      {
        starCol := starCol + 1;
      }
    }

    method FindPrimeInRow(row: nat) returns (primeCol: nat)
      requires Holds() && row < nOfRows && 0 <= s.cover.primes[row] < nOfColumns
      ensures primeCol == s.cover.primes[row]
    {
      primeCol := 0;
      while primeCol < nOfColumns && !primeMatrix[At(nOfRows, row, primeCol)]
        invariant primeCol <= s.cover.primes[row]
      {
        primeCol := primeCol + 1;
      }
    }

    method FindStarInColumn(col: nat) returns (starRow: nat)
      requires Holds() && StarsOnZeros(p, s.duals, s.stars) && col < nOfColumns
      ensures s.stars.ofColumn[col] >= 0 ==> starRow == s.stars.ofColumn[col]
      ensures s.stars.ofColumn[col] < 0 ==> starRow == nOfRows
    {
      starRow := 0;
      while starRow < nOfRows && !starMatrix[At(nOfRows, starRow, col)]
        invariant starRow <= nOfRows
        invariant s.stars.ofColumn[col] >= 0 ==> starRow <= s.stars.ofColumn[col]
      {
        starRow := starRow + 1;
      }
    }

    // -------------------------------------------------------------- steps 2a and 2b

    method Step2a()
      requires Holds() && Uncovered(p, s) && Unassigned()
      modifies this, assignment, distMatrix, starMatrix, newStarMatrix, primeMatrix, coveredColumns, coveredRows
      ensures Layout() && Finished(p, s) && assignment[..] == s.stars.ofRow
      decreases minDim - StarCount(s), nOfRows + 1, 0, 1
    {
      ghost var stars := s.stars;
      for col := 0 to nOfColumns
        invariant Holds() && Uncovered(p, s) && Unassigned() && s.stars == stars
        invariant forall c | 0 <= c < col :: s.stars.ofColumn[c] >= 0 ==> s.cover.columns[c]
      {
        var starRow := FindStarInColumn(col);
        if starRow < nOfRows {
          coveredColumns[col] := true;
          s := s.(cover := s.cover.(columns := s.cover.columns[col := true]));
        }
      }
      assert StarCount(s) == StarCount(old(s));
      Step2b();
    }

    method CountCoveredColumns() returns (count: nat)
      requires Holds()
      ensures count == |Trues(s.cover.columns)|
    {
      count := 0;
      for col := 0 to nOfColumns
        invariant count == |Trues(s.cover.columns[..col])|
      {
        if coveredColumns[col] {
          assert Trues(s.cover.columns[..col + 1]) == Trues(s.cover.columns[..col]) + {col};
          count := count + 1;
        } else {
          assert Trues(s.cover.columns[..col + 1]) == Trues(s.cover.columns[..col]);
        }
      }
      assert s.cover.columns[..nOfColumns] == s.cover.columns;
    }

    method Step2b()
      requires Holds() && Uncovered(p, s) && ColumnsCovered(p, s) && Unassigned()
      modifies this, assignment, distMatrix, starMatrix, newStarMatrix, primeMatrix, coveredColumns, coveredRows
      ensures Layout() && Finished(p, s) && assignment[..] == s.stars.ofRow
      ensures StarCount(old(s)) == minDim ==> s.stars == old(s.stars)
      decreases minDim - StarCount(s), nOfRows + 1, 0, 0
    {
      var nOfCoveredColumns := CountCoveredColumns();
      assert Trues(s.cover.columns) == StarredColumns(s.stars);
      StarsAreAssignment(p, s.stars);
      if nOfCoveredColumns == minDim {
        BuildAssignmentVector();
      } else {
        FreshCovers(p, s);
        AtMostAll(Falses(s.cover.rows), nOfRows);
        Step3();
      }
    }

    method BuildAssignmentVector()
      requires Holds() && Sound(p, s.duals, s.stars) && Unassigned()
      modifies assignment
      ensures assignment[..] == s.stars.ofRow
    {
      for row := 0 to nOfRows
        invariant forall r | 0 <= r < row :: assignment[r] == s.stars.ofRow[r]
        invariant forall r | row <= r < nOfRows :: assignment[r] == -1
      {
        var col := FindStarInRow(row);
        if col < nOfColumns {
          assignment[row] := col;
        }
      }
    }

    // -------------------------------------------------------------- step 3

    /** Prime the zero at (row, col), whose row has no star. */
    method PrimeZero(row: nat, col: nat)
      requires Holds() && PrimesCovered(p, s.cover) && Searching(p, s)
      requires UncoveredZero(p, s, row, col)
      modifies `s, primeMatrix
      ensures Holds() && s == Prime(old(s), row, col)
    {
      primeMatrix[At(nOfRows, row, col)] := true;
      s := Prime(s, row, col);
    }

    /** Prime the zero at (row, col), cover its row and uncover the column of the row's star. */
    method CoverPrimedRow(row: nat, col: nat, starCol: nat)
      requires Holds() && PrimesCovered(p, s.cover) && Searching(p, s)
      requires UncoveredZero(p, s, row, col) && starCol == s.stars.ofRow[row]
      modifies `s, primeMatrix, coveredRows, coveredColumns
      ensures Holds() && s == old(s).(cover := CoverRow(old(s).cover, row, col, starCol))
    {
      primeMatrix[At(nOfRows, row, col)] := true;
      coveredRows[row] := true;
      coveredColumns[starCol] := false;
      s := s.(cover := CoverRow(s.cover, row, col, starCol));
    }

    ghost predicate NoZeroInColumn(t: State, col: nat, rows: nat)
      requires Sized(p, t)
    {
      forall r | 0 <= r < rows :: !UncoveredZero(p, t, r, col)
    }

    /** The first uncovered row with a zero in an uncovered column, or nOfRows. */
    method FindZeroInColumn(col: nat) returns (row: nat)
      requires Holds() && Sound(p, s.duals, s.stars) && col < nOfColumns && !s.cover.columns[col]
      ensures row <= nOfRows && NoZeroInColumn(s, col, row)
      ensures row < nOfRows ==> UncoveredZero(p, s, row, col)
    {
      row := 0;
      while row < nOfRows && (coveredRows[row] || Abs(distMatrix[At(nOfRows, row, col)]) >= EPSILON)
        invariant row <= nOfRows && NoZeroInColumn(s, col, row)
      {
        row := row + 1;
      }
    }

    /**
    Step 3 at one uncovered column: prime its first uncovered zero. row is nOfRows unless the row
    of that zero has no star, where step 4 takes over.
     */
    method ScanColumn(col: nat) returns (zeroFound: bool, row: nat)
      requires Holds() && Searching(p, s) && PrimesCovered(p, s.cover) && col < nOfColumns && !s.cover.columns[col]
      modifies `s, primeMatrix, coveredColumns, coveredRows
      ensures Holds() && Searching(p, s) && StarCount(s) == StarCount(old(s))
      ensures row < nOfRows ==> UncoveredZero(p, s, row, col) && s.stars.ofRow[row] < 0
                                && UncoveredRows(s) == UncoveredRows(old(s))
      ensures row >= nOfRows ==> PrimesCovered(p, s.cover)
      ensures row >= nOfRows && zeroFound ==> UncoveredRows(s) < UncoveredRows(old(s))
      ensures row >= nOfRows && !zeroFound ==> s == old(s) && NoZeroInColumn(s, col, nOfRows)
    {
      zeroFound, row := false, nOfRows;
      var zeroRow := FindZeroInColumn(col);
      if zeroRow < nOfRows {
        var starCol := FindStarInRow(zeroRow);
        if starCol == nOfColumns {
          PrimeKeeps(p, s, zeroRow, col);
          PrimeZero(zeroRow, col);
          row := zeroRow;
        } else {
          CoverRowKeeps(p, s, zeroRow, col);
          CoverPrimedRow(zeroRow, col, starCol);
          zeroFound := true;
        }
      }
    }

    /**
    One pass over the columns. It stops at a zero in a row without a star, returned as (row, col);
    otherwise row is nOfRows and zerosFound says whether a row was covered.
     */
    method ScanColumns() returns (zerosFound: bool, row: nat, col: nat)
      requires Holds() && Searching(p, s) && PrimesCovered(p, s.cover)
      modifies `s, primeMatrix, coveredColumns, coveredRows
      ensures Holds() && Searching(p, s)
      ensures StarCount(s) == StarCount(old(s)) && UncoveredRows(s) <= UncoveredRows(old(s))
      ensures row < nOfRows ==> UncoveredZero(p, s, row, col) && s.stars.ofRow[row] < 0
      ensures row >= nOfRows ==> PrimesCovered(p, s.cover)
      ensures row >= nOfRows && zerosFound ==> UncoveredRows(s) < UncoveredRows(old(s))
      ensures row >= nOfRows && !zerosFound ==> s == old(s) && !HasUncoveredZero(p, s)
    {
      zerosFound := false;
      row := nOfRows;
      col := 0;
      while col < nOfColumns
        invariant col <= nOfColumns && row == nOfRows
        invariant Holds() && Searching(p, s) && PrimesCovered(p, s.cover)
        invariant StarCount(s) == StarCount(old(s)) && UncoveredRows(s) <= UncoveredRows(old(s))
        invariant zerosFound ==> UncoveredRows(s) < UncoveredRows(old(s))
        invariant !zerosFound ==> s == old(s) && NoZeroBefore(s, col)
      {
        CoveredColumn(s, col);
        if !coveredColumns[col] {
          var zeroFound;
          zeroFound, row := ScanColumn(col);
          if row < nOfRows {
            return;
          }
          zerosFound := zerosFound || zeroFound;
          row := nOfRows;
        }
        col := col + 1;
      }
      if !zerosFound {
        NoZeroAnywhere(s);
      }
    }

    ghost predicate NoZeroBefore(t: State, col: nat)
      requires Sized(p, t)
    {
      forall c | 0 <= c < col :: NoZeroInColumn(t, c, nOfRows)
    }

    lemma CoveredColumn(t: State, col: nat)
      requires Layout() && Sized(p, t) && col < nOfColumns
      ensures t.cover.columns[col] ==> NoZeroInColumn(t, col, nOfRows)
    {
    }

    lemma NoZeroAnywhere(t: State)
      requires Layout() && Sized(p, t) && NoZeroBefore(t, nOfColumns)
      ensures !HasUncoveredZero(p, t)
    {
      forall r, c ensures !UncoveredZero(p, t, r, c) {
        if 0 <= c < nOfColumns && 0 <= r < nOfRows {
          assert NoZeroInColumn(t, c, nOfRows);
        }
      }
    }

    method Step3()
      requires Holds() && Searching(p, s) && PrimesCovered(p, s.cover) && StarCount(s) < minDim && Unassigned()
      modifies this, assignment, distMatrix, starMatrix, newStarMatrix, primeMatrix, coveredColumns, coveredRows
      ensures Layout() && Finished(p, s) && assignment[..] == s.stars.ofRow
      decreases minDim - StarCount(s), UncoveredRows(s), if HasUncoveredZero(p, s) then 0 else 1, 1
    {
      var zerosFound := true;
      while zerosFound
        invariant Holds() && Searching(p, s) && PrimesCovered(p, s.cover) && Unassigned()
        invariant StarCount(s) == StarCount(old(s))
        invariant s == old(s) || UncoveredRows(s) < UncoveredRows(old(s))
        invariant !zerosFound ==> !HasUncoveredZero(p, s)
        decreases UncoveredRows(s), zerosFound
      {
        var row, col;
        zerosFound, row, col := ScanColumns();
        if row < nOfRows {
          Step4(row, col);
          return;
        }
      }
      Step5();
    }

    // -------------------------------------------------------------- step 4

    method Step4(row: nat, col: nat)
      requires Holds() && Searching(p, s) && StarCount(s) < minDim && Unassigned()
      requires UncoveredZero(p, s, row, col) && s.stars.ofRow[row] < 0
      modifies this, assignment, distMatrix, starMatrix, newStarMatrix, primeMatrix, coveredColumns, coveredRows
      ensures Layout() && Finished(p, s) && assignment[..] == s.stars.ofRow
      decreases minDim - StarCount(s), UncoveredRows(s), 0, 0
    {
      ghost var path, lastCol, bound := BuildNewStars(row, col);
      PathEnds(p, s, row, path, lastCol, bound);
      AdoptNewStars(path);
      Step2a();
    }

    /** Walk the alternating path from (row, col), collecting the next star set in newStarMatrix. */
    method BuildNewStars(row: nat, col: nat) returns (ghost path: Stars, ghost lastCol: int, ghost bound: nat)
      requires Holds() && Searching(p, s)
      requires UncoveredZero(p, s, row, col) && s.stars.ofRow[row] < 0
      modifies newStarMatrix
      ensures Holds() && OnPath(p, s, row, path, -1, lastCol, bound)
      ensures Marks(newStarMatrix, path.ofRow)
    {
      CopyStars();
      newStarMatrix[At(nOfRows, row, col)] := true;
      path, bound := AddPair(s.stars, row, col), s.cover.clock;
      PathStarts(p, s, row, col);

      var starCol: nat := col;
      var starRow: nat := FindStarInColumn(starCol);
      while starRow < nOfRows
        invariant Holds() && starCol < nOfColumns && starRow <= nOfRows
        invariant OnPath(p, s, row, path, if starRow < nOfRows then starRow else -1, starCol, bound)
        invariant Marks(newStarMatrix, path.ofRow)
        decreases bound
      {
        PathSteps(p, s, row, path, starRow, starCol, bound);
        var primeCol := FindPrimeInRow(starRow);
        MoveStar(starRow, starCol, primeCol, path.ofRow);
        path, bound := AddPair(path, starRow, primeCol), s.cover.rank[starRow];
        starCol := primeCol;
        starRow := FindStarInColumn(starCol);
      }
      lastCol := starCol;
    }

    /** Unstar the star of a row and star its prime instead. */
    method MoveStar(starRow: nat, starCol: nat, primeCol: nat, ghost rowTo: seq<int>)
      requires Layout() && |rowTo| == nOfRows && Marks(newStarMatrix, rowTo)
      requires starRow < nOfRows && starCol < nOfColumns && primeCol < nOfColumns && rowTo[starRow] == starCol
      modifies newStarMatrix
      ensures Marks(newStarMatrix, rowTo[starRow := primeCol])
    {
      newStarMatrix[At(nOfRows, starRow, starCol)] := false;
      newStarMatrix[At(nOfRows, starRow, primeCol)] := true;
    }

    method CopyStars()
      requires Holds()
      modifies newStarMatrix
      ensures Marks(newStarMatrix, s.stars.ofRow)
    {
      for n := 0 to newStarMatrix.Length
        invariant forall i | 0 <= i < n :: newStarMatrix[i] == starMatrix[i]
      {
        newStarMatrix[n] := starMatrix[n];
      }
    }

    method AdoptNewStars(ghost path: Stars)
      requires Holds() && SizedStars(p, path) && Marks(newStarMatrix, path.ofRow)
      modifies `s, primeMatrix, starMatrix, coveredRows
      ensures Holds() && s == Augmented(old(s), path)
    {
      for n := 0 to starMatrix.Length
        modifies primeMatrix, starMatrix
        invariant forall i | 0 <= i < n :: starMatrix[i] == newStarMatrix[i] && !primeMatrix[i]
      {
        primeMatrix[n] := false;
        starMatrix[n] := newStarMatrix[n];
      }
      for n := 0 to nOfRows
        modifies coveredRows
        invariant forall i | 0 <= i < n :: !coveredRows[i]
      {
        coveredRows[n] := false;
      }
      s := Augmented(s, path);
    }

    // -------------------------------------------------------------- step 5

    method Step5()
      requires Holds() && Searching(p, s) && PrimesCovered(p, s.cover) && StarCount(s) < minDim && Unassigned()
      requires !HasUncoveredZero(p, s)
      modifies this, assignment, distMatrix, starMatrix, newStarMatrix, primeMatrix, coveredColumns, coveredRows
      ensures Layout() && Finished(p, s) && assignment[..] == s.stars.ofRow
      decreases minDim - StarCount(s), UncoveredRows(s), 1, 0
    {
      var h := SmallestUncoveredEntry();
      ShiftKeeps(p, s, h);
      AddAndSubtract(h);
      Step3();
    }

    /** h starts above every entry and ends as the smallest uncovered one, which is at least EPSILON. */
    method SmallestUncoveredEntry() returns (h: real)
      requires Holds() && Searching(p, s) && StarCount(s) < minDim && !HasUncoveredZero(p, s)
      ensures SmallestUncovered(p, s.duals, s.cover, h) && h >= EPSILON
    {
      var found;
      found, h := SmallestEntry();
      ghost var r0, c0 := SomeCellUncovered(p, s);
      IsSmallest(r0, c0, found, h);
    }

    lemma IsSmallest(r0: int, c0: int, found: bool, h: real)
      requires Layout() && Sized(p, s) && UncoveredCell(p, s.cover, r0, c0) && !HasUncoveredZero(p, s)
      requires (found ==> Attained(h)) && LowerBound(nOfRows, found, h)
      ensures SmallestUncovered(p, s.duals, s.cover, h) && h >= EPSILON
    {
      assert found;
      var r, c :| UncoveredCell(p, s.cover, r, c) && h == Entry(p, s.duals, r, c);
      assert !UncoveredZero(p, s, r, c);
    }

    /** The smallest uncovered entry, if there is one. */
    method SmallestEntry() returns (found: bool, h: real)
      requires Holds()
      ensures found ==> Attained(h)
      ensures LowerBound(nOfRows, found, h)
    {
      found := false;
      h := 0.0;
      for row := 0 to nOfRows
        invariant found ==> Attained(h)
        invariant LowerBound(row, found, h)
      {
        if !coveredRows[row] {
          found, h := SmallestWithRow(row, found, h);
        }
      }
    }

    /** Lowers h, if any was found, to the smallest uncovered entry of one more row. */
    method SmallestWithRow(row: nat, found0: bool, h0: real) returns (found: bool, h: real)
      requires Holds() && row < nOfRows && !s.cover.rows[row]
      requires found0 ==> Attained(h0)
      ensures found ==> Attained(h)
      ensures found0 ==> found && h <= h0
      ensures forall c | 0 <= c < nOfColumns && !s.cover.columns[c] :: found && h <= Entry(p, s.duals, row, c)
    {
      found, h := found0, h0;
      for col := 0 to nOfColumns
        invariant found ==> Attained(h)
        invariant found0 ==> found && h <= h0
        invariant forall c | 0 <= c < col && !s.cover.columns[c] :: found && h <= Entry(p, s.duals, row, c)
      {
        if !coveredColumns[col] {
          var value := distMatrix[At(nOfRows, row, col)];
          if !found || value < h {
            h, found := value, true;
            assert UncoveredCell(p, s.cover, row, col);
          }
        }
      }
    }

    ghost predicate Attained(h: real)
      requires Layout() && Sized(p, s)
      reads `s
    {
      exists r, c :: UncoveredCell(p, s.cover, r, c) && h == Entry(p, s.duals, r, c)
    }

    /** No uncovered entry of the first rows lies below h. */
    ghost predicate LowerBound(rows: nat, found: bool, h: real)
      requires Layout() && Sized(p, s) && rows <= nOfRows
      reads `s
    {
      forall r, c | 0 <= r < rows && UncoveredCell(p, s.cover, r, c) :: found && h <= Entry(p, s.duals, r, c)
    }

    /** Add h to each covered row, then subtract it from each uncovered column. */
    method AddAndSubtract(h: real)
      requires Holds()
      modifies `s, distMatrix
      ensures Holds() && s == old(s).(duals := Shift(old(s).duals, old(s).cover, h))
    {
      AddToCoveredRows(h);
      SubtractFromUncoveredColumns(h);
      s := s.(duals := Shift(s.duals, s.cover, h));
    }

    method AddToCoveredRows(h: real)
      requires Holds()
      modifies distMatrix
      ensures forall r, c | 0 <= r < nOfRows && 0 <= c < nOfColumns ::
                distMatrix[At(nOfRows, r, c)] == Entry(p, s.duals, r, c) + RowShift(s.cover, r, h)
    {
      for row := 0 to nOfRows
        invariant forall r, c | 0 <= r < nOfRows && 0 <= c < nOfColumns ::
                    distMatrix[At(nOfRows, r, c)] == Entry(p, s.duals, r, c) + if r < row then RowShift(s.cover, r, h) else 0.0
      {
        if coveredRows[row] {
          for col := 0 to nOfColumns
            invariant forall r, c | 0 <= r < nOfRows && 0 <= c < nOfColumns ::
                        distMatrix[At(nOfRows, r, c)] ==
                        Entry(p, s.duals, r, c) + if r < row || (r == row && c < col) then RowShift(s.cover, r, h) else 0.0
          {
            distMatrix[At(nOfRows, row, col)] := distMatrix[At(nOfRows, row, col)] + h;
          }
        }
      }
    }

    method SubtractFromUncoveredColumns(h: real)
      requires Layout() && Sized(p, s) && coveredColumns[..] == s.cover.columns
      modifies distMatrix
      ensures forall r, c | 0 <= r < nOfRows && 0 <= c < nOfColumns ::
                distMatrix[At(nOfRows, r, c)] == old(distMatrix[At(nOfRows, r, c)]) - ColumnShift(s.cover, c, h)
    {
      for col := 0 to nOfColumns
        invariant forall r, c | 0 <= r < nOfRows && 0 <= c < nOfColumns ::
                    distMatrix[At(nOfRows, r, c)] ==
                    old(distMatrix[At(nOfRows, r, c)]) - if c < col then ColumnShift(s.cover, c, h) else 0.0
      {
        if !coveredColumns[col] {
          for row := 0 to nOfRows
            invariant forall r, c | 0 <= r < nOfRows && 0 <= c < nOfColumns ::
                        distMatrix[At(nOfRows, r, c)] ==
                        old(distMatrix[At(nOfRows, r, c)])
                        - if c < col || (c == col && r < row) then ColumnShift(s.cover, c, h) else 0.0
          {
            distMatrix[At(nOfRows, row, col)] := distMatrix[At(nOfRows, row, col)] - h;
          }
        }
      }
    }
  }
}
