/** The public solver: an optimal assignment of rows to columns for a rectangular cost matrix. */
module Hungarian {
  import opened AssignmentTheory
  import opened ColumnMajor
  import opened MunkresState
  import opened MunkresSteps

  class HungarianAlgorithm {
    constructor () {
    }

    method Solve(costs: seq<seq<real>>) returns (cost: real, assignment: seq<int>)
      requires |costs| > 0 && Rectangular(costs, |costs|, |costs[0]|)
      ensures IsFullAssignment(assignment, |costs|, |costs[0]|)
      ensures cost == Cost(costs, assignment, |costs|)
      ensures forall other | IsFullAssignment(other, |costs|, |costs[0]|) ::
                cost <= Cost(costs, other, |costs|) + Min(|costs|, |costs[0]|) as real / 4503599627370496.0
      ensures forall g | g >= 1.0 / 4503599627370496.0 && CostsInSteps(costs, g) ::
                forall other | IsFullAssignment(other, |costs|, |costs[0]|) :: cost <= Cost(costs, other, |costs|)
      ensures |costs| <= |costs[0]| ==> forall a | FirstColumns(costs, a, |costs|, |costs[0]|) :: assignment == a
      ensures |costs| > |costs[0]| ==> forall b | FirstRows(costs, b, |costs|, |costs[0]|) ::
                forall c | 0 <= c < |b| :: assignment[b[c]] == c
      ensures (forall r, c | 0 <= r < |costs| && 0 <= c < |costs[0]| :: Whole(costs[r][c])) ==>
                forall other | IsFullAssignment(other, |costs|, |costs[0]|) :: cost <= Cost(costs, other, |costs|)
    {
      var nRows, nCols := |costs|, |costs[0]|;
      ColumnStartIsProduct(nRows, nCols);
      InBounds(nRows, nCols);
      var distMatrixIn := new real[nRows * nCols];
      for i := 0 to nRows
        invariant forall r, c | 0 <= r < i && 0 <= c < nCols :: distMatrixIn[At(nRows, r, c)] == costs[r][c]
      {
        for j := 0 to nCols
          invariant forall r, c | 0 <= r < i && 0 <= c < nCols :: distMatrixIn[At(nRows, r, c)] == costs[r][c]
          invariant forall c | 0 <= c < j :: distMatrixIn[At(nRows, i, c)] == costs[i][c]
        {
          distMatrixIn[At(nRows, i, j)] := costs[i][j];
        }
      }
      var result;
      ghost var final;
      result, cost, final := AssignmentOptimal(distMatrixIn, nRows, nCols, costs);
      assignment := result[..];
      FinishedIsFull(Problem(costs, nRows, nCols), final);
      forall other | IsFullAssignment(other, nRows, nCols)
        ensures cost <= Cost(costs, other, nRows) + Copies(Min(nRows, nCols), Slack(Problem(costs, nRows, nCols)))
      {
        FinishedIsOptimal(Problem(costs, nRows, nCols), final, other);
      }
      CopiesIsProduct(Min(nRows, nCols), EPSILON);
      CopiesOfNothing(Min(nRows, nCols));
      WholeCostsInSteps(costs, nRows, nCols);
    }

    lemma WholeCostsInSteps(costs: Matrix, n: nat, m: nat)
      requires Rectangular(costs, n, m)
      ensures (forall r, c | 0 <= r < n && 0 <= c < m :: Whole(costs[r][c])) ==> CostsInSteps(costs, 1.0)
    {
      if forall r, c | 0 <= r < n && 0 <= c < m :: Whole(costs[r][c]) {
        forall r, c | 0 <= r < n && 0 <= c < m ensures InSteps(costs[r][c], 1.0) {
          WholeInSteps(costs[r][c]);
        }
      }
    }

    /** Solves for the flat matrix; the final state of the working arrays certifies the answer. */
    method AssignmentOptimal(distMatrixIn: array<real>, nOfRows: nat, nOfColumns: nat, ghost costs: Matrix)
        returns (assignment: array<int>, cost: real, ghost final: State)
      requires Rectangular(costs, nOfRows, nOfColumns)
      requires distMatrixIn.Length == ColumnStart(nOfRows, nOfColumns)
      requires forall r, c | 0 <= r < nOfRows && 0 <= c < nOfColumns && At(nOfRows, r, c) < distMatrixIn.Length ::
                 distMatrixIn[At(nOfRows, r, c)] == costs[r][c]
      ensures Finished(Problem(costs, nOfRows, nOfColumns), final) && assignment[..] == final.stars.ofRow
      ensures IsAssignment(assignment[..], nOfRows, nOfColumns)
      ensures cost == Cost(costs, assignment[..], nOfRows)
      ensures nOfRows <= nOfColumns ==> forall a | FirstColumns(costs, a, nOfRows, nOfColumns) :: assignment[..] == a
      ensures nOfRows > nOfColumns ==> forall b | FirstRows(costs, b, nOfRows, nOfColumns) :: final.stars.ofColumn == b
    {
      var work := new Munkres(distMatrixIn, nOfRows, nOfColumns, costs);
      if nOfRows <= nOfColumns {
        work.StartFromRows();
      } else {
        work.StartFromColumns();
      }
      AllStarred(work.p, work.s.stars);
      work.Step2b();
      assignment, final := work.assignment, work.s;
      StarsAreAssignment(work.p, work.s.stars);
      cost := ComputeAssignmentCost(assignment, distMatrixIn, nOfRows, nOfColumns, costs);
    }

    method ComputeAssignmentCost(assignment: array<int>, distMatrix: array<real>, nOfRows: nat,
                                 ghost nOfColumns: nat, ghost costs: Matrix) returns (cost: real)
      requires Rectangular(costs, nOfRows, nOfColumns) && IsAssignment(assignment[..], nOfRows, nOfColumns)
      requires distMatrix.Length == ColumnStart(nOfRows, nOfColumns)
      requires forall r, c | 0 <= r < nOfRows && 0 <= c < nOfColumns && At(nOfRows, r, c) < distMatrix.Length ::
                 distMatrix[At(nOfRows, r, c)] == costs[r][c]
      ensures cost == Cost(costs, assignment[..], nOfRows)
    {
      cost := 0.0;
      InBounds(nOfRows, nOfColumns);
      for row := 0 to nOfRows
        invariant cost == Cost(costs, assignment[..], row)
      {
        var col := assignment[row];
        if col >= 0 {
          cost := cost + distMatrix[At(nOfRows, row, col)];
        }
      }
    }
  }
}
