/**
What the Munkres solver's working arrays mean, as one value: the dual potentials behind the
reduced matrix, the starred and primed zeros, and the covers. The lemmas say what every step of
the algorithm keeps, why the star/prime path is simple, and what a finished state proves.
 */
module MunkresState {
  import opened AssignmentTheory

  /** DBL_EPSILON: the solver's bound for treating an entry as zero. */
  const EPSILON: real := 1.0 / 4503599627370496.0

  datatype Problem = Problem(costs: Matrix, n: nat, m: nat)

  /** The potentials; top is the potential of every column that never had a star. */
  datatype Duals = Duals(u: seq<real>, v: seq<real>, top: real)

  /** The column of each row's star and the row of each column's star, or -1. */
  datatype Stars = Stars(ofRow: seq<int>, ofColumn: seq<int>)

  /** The column of each row's prime, or -1; the covers; rank orders the rows by the moment they were covered. */
  datatype Cover = Cover(primes: seq<int>, rows: seq<bool>, columns: seq<bool>, rank: seq<nat>, clock: nat)

  datatype State = State(duals: Duals, stars: Stars, cover: Cover)

  ghost predicate SizedDuals(p: Problem, d: Duals) {
    Rectangular(p.costs, p.n, p.m) && |d.u| == p.n && |d.v| == p.m
  }

  ghost predicate SizedStars(p: Problem, st: Stars) {
    |st.ofRow| == p.n && |st.ofColumn| == p.m
  }

  ghost predicate SizedCover(p: Problem, k: Cover) {
    |k.primes| == |k.rows| == |k.rank| == p.n && |k.columns| == p.m
  }

  ghost predicate Sized(p: Problem, s: State) {
    SizedDuals(p, s.duals) && SizedStars(p, s.stars) && SizedCover(p, s.cover)
  }

  /** The entry the reduced matrix holds at (r, c). */
  ghost function Entry(p: Problem, d: Duals, r: int, c: int): real
    requires SizedDuals(p, d) && 0 <= r < p.n && 0 <= c < p.m
  {
    Reduced(p.costs, d.u, d.v, r, c)
  }

  // ---------------------------------------------------------------- invariants

  /** Rows and columns name each other: at most one pair per line. */
  ghost predicate Mutual(rowTo: seq<int>, columnTo: seq<int>) {
    && (forall r | 0 <= r < |rowTo| ::
          -1 <= rowTo[r] < |columnTo| && (rowTo[r] >= 0 ==> columnTo[rowTo[r]] == r))
    && (forall c | 0 <= c < |columnTo| ::
          -1 <= columnTo[c] < |rowTo| && (columnTo[c] >= 0 ==> rowTo[columnTo[c]] == c))
  }

  ghost predicate StarsOnZeros(p: Problem, d: Duals, st: Stars)
    requires SizedDuals(p, d) && SizedStars(p, st)
  {
    && Mutual(st.ofRow, st.ofColumn)
    && forall r | 0 <= r < p.n && st.ofRow[r] >= 0 :: Entry(p, d, r, st.ofRow[r]) < EPSILON
  }

  ghost predicate DualsInSteps(d: Duals, g: real) {
    && (forall r | 0 <= r < |d.u| :: InSteps(d.u[r], g))
    && (forall c | 0 <= c < |d.v| :: InSteps(d.v[c], g))
  }

  /** The potentials are feasible and keep to every step that all costs keep to. */
  ghost predicate GoodDuals(p: Problem, d: Duals)
    requires SizedDuals(p, d)
  {
    && Feasible(p.costs, d.u, d.v, p.n, p.m)
    && forall g | CostsInSteps(p.costs, g) :: DualsInSteps(d, g)
  }

  /** On the longer side, every line without a star has the maximal potential. */
  ghost predicate UnstarredOnTop(p: Problem, d: Duals, st: Stars)
    requires SizedDuals(p, d) && SizedStars(p, st)
  {
    && (p.n <= p.m ==> forall c | 0 <= c < p.m :: d.v[c] <= d.top && (st.ofColumn[c] < 0 ==> d.v[c] == d.top))
    && (p.n > p.m ==> forall r | 0 <= r < p.n :: d.u[r] <= 0.0 && (st.ofRow[r] < 0 ==> d.u[r] == 0.0))
  }

  /** What holds between the steps: stars on zeros under good potentials. */
  ghost predicate Sound(p: Problem, d: Duals, st: Stars) {
    && SizedDuals(p, d) && SizedStars(p, st)
    && StarsOnZeros(p, d, st) && GoodDuals(p, d) && UnstarredOnTop(p, d, st)
  }

  /** Exactly one line covers each star, and no line is covered without one. */
  ghost predicate CoversStars(p: Problem, st: Stars, k: Cover)
    requires SizedStars(p, st) && SizedCover(p, k) && Mutual(st.ofRow, st.ofColumn)
  {
    && (forall r | 0 <= r < p.n && k.rows[r] :: st.ofRow[r] >= 0)
    && (forall c | 0 <= c < p.m && k.columns[c] :: st.ofColumn[c] >= 0)
    && (forall r | 0 <= r < p.n && st.ofRow[r] >= 0 :: k.rows[r] <==> !k.columns[st.ofRow[r]])
  }

  /**
  A covered row has one prime: a zero in an uncovered column whose star, if any, lies in a row
  that was covered earlier.
   */
  ghost predicate PrimesPointBack(p: Problem, d: Duals, st: Stars, k: Cover)
    requires SizedDuals(p, d) && SizedStars(p, st) && SizedCover(p, k) && Mutual(st.ofRow, st.ofColumn)
  {
    forall r | 0 <= r < p.n && k.rows[r] ::
      var c := k.primes[r];
      && 0 <= c < p.m && k.rank[r] < k.clock
      && Entry(p, d, r, c) < EPSILON && !k.columns[c]
      && (st.ofColumn[c] >= 0 ==> k.rank[st.ofColumn[c]] < k.rank[r])
  }

  /** What holds inside steps 3, 4 and 5. */
  ghost predicate Searching(p: Problem, s: State) {
    && Sound(p, s.duals, s.stars) && SizedCover(p, s.cover)
    && CoversStars(p, s.stars, s.cover) && PrimesPointBack(p, s.duals, s.stars, s.cover)
  }

  /** Primes stand in covered rows only: true in steps 3 and 5, until step 3 primes a row without a star. */
  ghost predicate PrimesCovered(p: Problem, k: Cover)
    requires SizedCover(p, k)
  {
    forall r | 0 <= r < p.n :: k.primes[r] >= 0 ==> k.rows[r]
  }

  /** No primes, no covered rows, and only starred columns covered: the entry of step 2a. */
  ghost predicate NoSearch(p: Problem, st: Stars, k: Cover) {
    && SizedStars(p, st) && SizedCover(p, k)
    && (forall r | 0 <= r < p.n :: !k.rows[r] && k.primes[r] == -1)
    && (forall c | 0 <= c < p.m && k.columns[c] :: st.ofColumn[c] >= 0)
  }

  /** What holds at the entry of steps 2a and 2b. */
  ghost predicate Uncovered(p: Problem, s: State) {
    Sound(p, s.duals, s.stars) && NoSearch(p, s.stars, s.cover)
  }

  ghost predicate ColumnsCovered(p: Problem, s: State)
    requires Sized(p, s)
  {
    forall c | 0 <= c < p.m :: s.cover.columns[c] <==> s.stars.ofColumn[c] >= 0
  }

  ghost predicate UncoveredZero(p: Problem, s: State, r: int, c: int)
    requires Sized(p, s)
  {
    UncoveredCell(p, s.cover, r, c) && Entry(p, s.duals, r, c) < EPSILON
  }

  ghost predicate UncoveredCell(p: Problem, k: Cover, r: int, c: int)
    requires SizedCover(p, k)
  {
    0 <= r < p.n && 0 <= c < p.m && !k.rows[r] && !k.columns[c]
  }

  ghost predicate HasUncoveredZero(p: Problem, s: State)
    requires Sized(p, s)
  {
    exists r, c :: UncoveredZero(p, s, r, c)
  }

  lemma FreshCovers(p: Problem, s: State)
    requires Uncovered(p, s) && ColumnsCovered(p, s)
    ensures Searching(p, s) && PrimesCovered(p, s.cover)
  {
  }

  // ---------------------------------------------------------------- preliminary steps

  ghost function Zeros(k: nat): seq<real> {
    seq(k, _ => 0.0)
  }

  ghost function NoMarks(k: nat): seq<int> {
    seq(k, _ => -1)
  }

  ghost function NoCovers(k: nat): seq<bool> {
    seq(k, _ => false)
  }

  ghost function NoCover(n: nat, m: nat): Cover {
    Cover(NoMarks(n), NoCovers(n), NoCovers(m), seq(n, _ => 0), 0)
  }

  /** The state of freshly allocated arrays. */
  ghost function Untouched(p: Problem): State {
    State(Duals(Zeros(p.n), Zeros(p.m), 0.0), Stars(NoMarks(p.n), NoMarks(p.m)), NoCover(p.n, p.m))
  }

  lemma UntouchedMeans(p: Problem)
    requires Rectangular(p.costs, p.n, p.m)
    ensures Sized(p, Untouched(p))
    ensures forall r, c | 0 <= r < p.n && 0 <= c < p.m :: Entry(p, Untouched(p).duals, r, c) == p.costs[r][c]
  {
  }

  ghost predicate IsRowMinimum(p: Problem, r: int, x: real)
    requires Rectangular(p.costs, p.n, p.m) && 0 <= r < p.n
  {
    x in p.costs[r] && forall c | 0 <= c < p.m :: x <= p.costs[r][c]
  }

  ghost predicate IsColumnMinimum(p: Problem, c: int, x: real)
    requires Rectangular(p.costs, p.n, p.m) && 0 <= c < p.m
  {
    (exists r :: 0 <= r < p.n && x == p.costs[r][c]) && forall r | 0 <= r < p.n :: x <= p.costs[r][c]
  }

  lemma RowMinimaAreGoodDuals(p: Problem, s: State)
    requires Sized(p, s) && s == Untouched(p).(duals := Duals(s.duals.u, Zeros(p.m), 0.0)) && p.n <= p.m
    requires forall r | 0 <= r < p.n :: IsRowMinimum(p, r, s.duals.u[r])
    ensures Uncovered(p, s) && ColumnsCovered(p, s)
  {
    var d := s.duals;
    forall r, c | 0 <= r < p.n && 0 <= c < p.m ensures Reduced(p.costs, d.u, d.v, r, c) >= 0.0 {
      assert IsRowMinimum(p, r, d.u[r]);
    }
    forall g | CostsInSteps(p.costs, g) ensures DualsInSteps(d, g) {
      NothingInSteps(g);
      forall r | 0 <= r < p.n ensures InSteps(d.u[r], g) {
        assert IsRowMinimum(p, r, d.u[r]);
      }
    }
  }

  lemma ColumnMinimaAreGoodDuals(p: Problem, s: State)
    requires Sized(p, s) && s == Untouched(p).(duals := Duals(Zeros(p.n), s.duals.v, 0.0)) && p.n > p.m
    requires forall c | 0 <= c < p.m :: IsColumnMinimum(p, c, s.duals.v[c])
    ensures Uncovered(p, s) && ColumnsCovered(p, s)
  {
    var d := s.duals;
    forall r, c | 0 <= r < p.n && 0 <= c < p.m ensures Reduced(p.costs, d.u, d.v, r, c) >= 0.0 {
      assert IsColumnMinimum(p, c, d.v[c]);
    }
    forall g | CostsInSteps(p.costs, g) ensures DualsInSteps(d, g) {
      NothingInSteps(g);
      forall c | 0 <= c < p.m ensures InSteps(d.v[c], g) {
        assert IsColumnMinimum(p, c, d.v[c]);
      }
    }
  }

  /** Star (r, c) and cover its column. */
  ghost function AddStar(s: State, r: int, c: int): State
    requires 0 <= r < |s.stars.ofRow| && 0 <= c < |s.stars.ofColumn| && c < |s.cover.columns|
  {
    s.(stars := Stars(s.stars.ofRow[r := c], s.stars.ofColumn[c := r]),
       cover := s.cover.(columns := s.cover.columns[c := true]))
  }

  ghost function WithoutRowCovers(s: State): State {
    s.(cover := s.cover.(rows := NoCovers(|s.cover.rows|)))
  }

  lemma StarlessColumns(p: Problem, st: Stars)
    requires SizedStars(p, st) && Mutual(st.ofRow, st.ofColumn) && StarredRows(st) == {}
    ensures forall r | 0 <= r < p.n :: st.ofRow[r] == -1
    ensures forall c | 0 <= c < p.m :: st.ofColumn[c] == -1
  {
    forall r | 0 <= r < p.n ensures st.ofRow[r] == -1 {
      assert r !in StarredRows(st);
    }
  }

  lemma AddStarKeeps(p: Problem, s: State, r: int, c: int)
    requires Uncovered(p, s) && ColumnsCovered(p, s) && 0 <= r < p.n && 0 <= c < p.m
    requires s.stars.ofRow[r] < 0 && s.stars.ofColumn[c] < 0 && Entry(p, s.duals, r, c) < EPSILON
    ensures Uncovered(p, AddStar(s, r, c)) && ColumnsCovered(p, AddStar(s, r, c))
  {
    var t := AddStar(s, r, c);
    assert Mutual(t.stars.ofRow, t.stars.ofColumn);
    assert StarsOnZeros(p, t.duals, t.stars);
  }

  // ---------------------------------------------------------------- the greedy start

  ghost predicate RowsReduced(p: Problem, d: Duals)
    requires SizedDuals(p, d)
  {
    d.v == Zeros(p.m) && forall r | 0 <= r < p.n :: IsRowMinimum(p, r, d.u[r])
  }

  ghost predicate ColumnsReduced(p: Problem, d: Duals)
    requires SizedDuals(p, d)
  {
    d.u == Zeros(p.n) && forall c | 0 <= c < p.m :: IsColumnMinimum(p, c, d.v[c])
  }

  /** The zeros of a reduced row are its costs near the minimum. */
  lemma RowZeroIsNear(p: Problem, d: Duals, r: int, c: int)
    requires SizedDuals(p, d) && RowsReduced(p, d) && 0 <= r < p.n && 0 <= c < p.m
    ensures 0.0 <= Entry(p, d, r, c) && (Entry(p, d, r, c) < EPSILON <==> NearRowMinimum(p.costs, r, c))
  {
    assert IsRowMinimum(p, r, d.u[r]);
    var k :| 0 <= k < p.m && p.costs[r][k] == d.u[r];
  }

  lemma ColumnZeroIsNear(p: Problem, d: Duals, r: int, c: int)
    requires SizedDuals(p, d) && ColumnsReduced(p, d) && 0 <= r < p.n && 0 <= c < p.m
    ensures 0.0 <= Entry(p, d, r, c) && (Entry(p, d, r, c) < EPSILON <==> NearColumnMinimum(p.costs, r, c))
  {
    assert IsColumnMinimum(p, c, d.v[c]);
    var k :| 0 <= k < p.n && p.costs[k][c] == d.v[c];
  }

  /** The first zero of a row in a column that is not covered, if there is one. */
  ghost predicate FirstFreeInRow(p: Problem, s: State, row: int, col: int)
    requires Sized(p, s) && 0 <= row < p.n
  {
    && 0 <= col <= p.m
    && (col < p.m ==> Entry(p, s.duals, row, col) < EPSILON && !s.cover.columns[col])
    && forall c | 0 <= c < col :: Abs(Entry(p, s.duals, row, c)) >= EPSILON || s.cover.columns[c]
  }

  ghost predicate FirstFreeInColumn(p: Problem, s: State, row: int, col: int)
    requires Sized(p, s) && 0 <= col < p.m
  {
    && 0 <= row <= p.n
    && (row < p.n ==> Entry(p, s.duals, row, col) < EPSILON && !s.cover.rows[row])
    && forall r | 0 <= r < row :: Abs(Entry(p, s.duals, r, col)) >= EPSILON || s.cover.rows[r]
  }

  function Abs(x: real): real {
    if x < 0.0 then -x else x
  }

  /** When the rows before this one have their columns of a greedy assignment, this one gets its own too. */
  lemma NextFirstColumn(p: Problem, s: State, a: seq<int>, row: int, col: int)
    requires Uncovered(p, s) && ColumnsCovered(p, s) && RowsReduced(p, s.duals) && 0 <= row < p.n
    requires FirstColumns(p.costs, a, p.n, p.m) && s.stars.ofRow[..row] == a[..row]
    requires forall r | row <= r < p.n :: s.stars.ofRow[r] == -1
    requires FirstFreeInRow(p, s, row, col)
    ensures col == a[row]
  {
    forall c | 0 <= c < p.m ensures s.cover.columns[c] <==> c in a[..row] {
      if c in a[..row] {
        var r :| 0 <= r < row && a[..row][r] == c;
        assert s.stars.ofRow[..row][r] == c;
      }
      if s.cover.columns[c] {
        var r := s.stars.ofColumn[c];
        assert s.stars.ofRow[r] == c && r < row;
        assert s.stars.ofRow[..row][r] == c;
      }
    }
    RowZeroIsNear(p, s.duals, row, a[row]);
    if col < a[row] {
      RowZeroIsNear(p, s.duals, row, col);
    }
  }

  lemma NextFirstRow(p: Problem, s: State, b: seq<int>, row: int, col: int)
    requires Sound(p, s.duals, s.stars) && SizedCover(p, s.cover) && ColumnsReduced(p, s.duals) && 0 <= col < p.m && p.n > 0
    requires forall r | 0 <= r < p.n :: s.cover.rows[r] <==> s.stars.ofRow[r] >= 0
    requires FirstRows(p.costs, b, p.n, p.m) && s.stars.ofColumn[..col] == b[..col]
    requires forall c | col <= c < p.m :: s.stars.ofColumn[c] == -1
    requires FirstFreeInColumn(p, s, row, col)
    ensures row == b[col]
  {
    forall r | 0 <= r < p.n ensures s.cover.rows[r] <==> r in b[..col] {
      if r in b[..col] {
        var c :| 0 <= c < col && b[..col][c] == r;
        assert s.stars.ofColumn[..col][c] == r;
      }
      if s.cover.rows[r] {
        var c := s.stars.ofRow[r];
        assert s.stars.ofColumn[c] == r && c < col;
        assert s.stars.ofColumn[..col][c] == r;
      }
    }
    ColumnZeroIsNear(p, s.duals, b[col], col);
    if row < b[col] {
      ColumnZeroIsNear(p, s.duals, row, col);
    }
  }

  /** The rows before this one are done, and have what any greedy assignment gives them. */
  ghost predicate RowsDone(p: Problem, s: State, row: int)
    requires Sized(p, s) && 0 <= row <= p.n
  {
    && (forall r | row <= r < p.n :: s.stars.ofRow[r] == -1)
    && (forall a | FirstColumns(p.costs, a, p.n, p.m) :: s.stars.ofRow[..row] == a[..row])
  }

  ghost predicate ColumnsDone(p: Problem, s: State, col: int)
    requires Sized(p, s) && 0 <= col <= p.m && p.n > 0
  {
    && (forall c | col <= c < p.m :: s.stars.ofColumn[c] == -1)
    && (forall b | FirstRows(p.costs, b, p.n, p.m) :: s.stars.ofColumn[..col] == b[..col])
  }

  lemma RowDone(p: Problem, s: State, row: int, col: int)
    requires Uncovered(p, s) && ColumnsCovered(p, s) && RowsReduced(p, s.duals) && 0 <= row < p.n
    requires RowsDone(p, s, row) && FirstFreeInRow(p, s, row, col)
    ensures RowsDone(p, if col < p.m then AddStar(s, row, col) else s, row + 1)
    ensures col < p.m ==> s.stars.ofColumn[col] == -1
  {
    var s' := if col < p.m then AddStar(s, row, col) else s;
    forall a | FirstColumns(p.costs, a, p.n, p.m) ensures s'.stars.ofRow[..row + 1] == a[..row + 1] {
      NextFirstColumn(p, s, a, row, col);
      assert s'.stars.ofRow[..row + 1] == s.stars.ofRow[..row] + [a[row]];
    }
  }

  lemma ColumnDone(p: Problem, s: State, row: int, col: int)
    requires Sound(p, s.duals, s.stars) && SizedCover(p, s.cover) && ColumnsReduced(p, s.duals) && 0 <= col < p.m && p.n > 0
    requires forall r | 0 <= r < p.n :: s.cover.rows[r] <==> s.stars.ofRow[r] >= 0
    requires ColumnsDone(p, s, col) && FirstFreeInColumn(p, s, row, col)
    ensures ColumnsDone(p, if row < p.n then AddStar(s, row, col) else s, col + 1)
    ensures row < p.n ==> s.stars.ofRow[row] == -1
  {
    var s' := if row < p.n then AddStar(s, row, col) else s;
    forall b | FirstRows(p.costs, b, p.n, p.m) ensures s'.stars.ofColumn[..col + 1] == b[..col + 1] {
      NextFirstRow(p, s, b, row, col);
      assert s'.stars.ofColumn[..col + 1] == s.stars.ofColumn[..col] + [b[col]];
    }
  }

  lemma AllRowsDone(p: Problem, s: State)
    requires Sized(p, s) && RowsDone(p, s, p.n)
    ensures forall a | FirstColumns(p.costs, a, p.n, p.m) :: s.stars.ofRow == a
  {
    forall a | FirstColumns(p.costs, a, p.n, p.m) ensures s.stars.ofRow == a {
      assert s.stars.ofRow[..p.n] == s.stars.ofRow && a[..p.n] == a;
    }
  }

  lemma AllColumnsDone(p: Problem, s: State)
    requires Sized(p, s) && p.n > 0 && ColumnsDone(p, s, p.m)
    ensures forall b | FirstRows(p.costs, b, p.n, p.m) :: s.stars.ofColumn == b
  {
    forall b | FirstRows(p.costs, b, p.n, p.m) ensures s.stars.ofColumn == b {
      assert s.stars.ofColumn[..p.m] == s.stars.ofColumn && b[..p.m] == b;
    }
  }

  // ---------------------------------------------------------------- counting

  ghost function StarredRows(st: Stars): set<int> {
    set r | 0 <= r < |st.ofRow| && st.ofRow[r] >= 0
  }

  ghost function StarredColumns(st: Stars): set<int> {
    set c | 0 <= c < |st.ofColumn| && st.ofColumn[c] >= 0
  }

  ghost function Trues(b: seq<bool>): set<int> {
    set i | 0 <= i < |b| && b[i]
  }

  ghost function Falses(b: seq<bool>): set<int> {
    set i | 0 <= i < |b| && !b[i]
  }

  ghost function StarCount(s: State): nat {
    |StarredRows(s.stars)|
  }

  ghost function UncoveredRows(s: State): nat {
    |Falses(s.cover.rows)|
  }

  lemma AtMostAll(s: set<int>, n: nat)
    requires forall i | i in s :: 0 <= i < n
    ensures |s| <= n
    ensures |s| == n ==> s == Range(n)
  {
    SubsetSize(s, Range(n));
  }

  lemma MutualIsAssignment(rowTo: seq<int>, columnTo: seq<int>)
    requires Mutual(rowTo, columnTo)
    ensures IsAssignment(rowTo, |rowTo|, |columnTo|)
  {
  }

  lemma StarredColumnsAreAssigned(p: Problem, st: Stars)
    requires SizedStars(p, st) && Mutual(st.ofRow, st.ofColumn)
    ensures AssignedColumns(st.ofRow) == StarredColumns(st)
  {
    forall c | c in StarredColumns(st) ensures c in AssignedColumns(st.ofRow) {
      ColumnIsAssigned(st.ofRow, p.n, st.ofColumn[c]);
    }
    forall c | c in AssignedColumns(st.ofRow) ensures c in StarredColumns(st) {
      var r := RowOfColumn(st.ofRow, p.n, c);
    }
  }

  /** Stars as an assignment vector: as many columns as rows hold one. */
  lemma StarsAreAssignment(p: Problem, st: Stars)
    requires SizedStars(p, st) && Mutual(st.ofRow, st.ofColumn)
    ensures IsAssignment(st.ofRow, p.n, p.m)
    ensures AssignedRows(st.ofRow) == StarredRows(st)
    ensures AssignedColumns(st.ofRow) == StarredColumns(st)
    ensures |StarredRows(st)| == |StarredColumns(st)|
    ensures |StarredRows(st)| <= Min(p.n, p.m)
  {
    MutualIsAssignment(st.ofRow, st.ofColumn);
    StarredColumnsAreAssigned(p, st);
    AsManyColumnsAsRows(st.ofRow, p.n, p.m);
    AtMostAll(StarredRows(st), p.n);
    AtMostAll(StarredColumns(st), p.m);
  }

  /** A line each of the shorter side starred makes the stars full. */
  lemma AllStarred(p: Problem, st: Stars)
    requires SizedStars(p, st) && Mutual(st.ofRow, st.ofColumn)
    ensures p.n <= p.m && (forall r | 0 <= r < p.n :: st.ofRow[r] >= 0) ==> |StarredRows(st)| == Min(p.n, p.m)
    ensures p.n > p.m && (forall c | 0 <= c < p.m :: st.ofColumn[c] >= 0) ==> |StarredRows(st)| == Min(p.n, p.m)
  {
    StarsAreAssignment(p, st);
    if forall r | 0 <= r < p.n :: st.ofRow[r] >= 0 {
      assert StarredRows(st) == Range(p.n);
    }
    if forall c | 0 <= c < p.m :: st.ofColumn[c] >= 0 {
      assert StarredColumns(st) == Range(p.m);
    }
  }

  /** The rows whose star is covered by its column. */
  ghost function RowsViaColumn(p: Problem, st: Stars, k: Cover): set<int>
    requires SizedStars(p, st) && SizedCover(p, k) && Mutual(st.ofRow, st.ofColumn)
  {
    set r | 0 <= r < p.n && st.ofRow[r] >= 0 && k.columns[st.ofRow[r]]
  }

  lemma AsManyAsCoveredColumns(p: Problem, st: Stars, k: Cover)
    requires SizedStars(p, st) && SizedCover(p, k) && Mutual(st.ofRow, st.ofColumn)
    requires forall c | 0 <= c < p.m && k.columns[c] :: st.ofColumn[c] >= 0
    ensures |RowsViaColumn(p, st, k)| == |Trues(k.columns)|
  {
    var rows := RowsViaColumn(p, st, k);
    var a := seq(p.n, r requires 0 <= r < p.n => if r in rows then st.ofRow[r] else -1);
    MutualIsAssignment(st.ofRow, st.ofColumn);
    AsManyColumnsAsRows(a, p.n, p.m);
    assert AssignedRows(a) == rows;
    forall c | c in Trues(k.columns) ensures c in AssignedColumns(a) {
      ColumnIsAssigned(a, p.n, st.ofColumn[c]);
    }
    forall c | c in AssignedColumns(a) ensures c in Trues(k.columns) {
      var r := RowOfColumn(a, p.n, c);
    }
    assert AssignedColumns(a) == Trues(k.columns);
  }

  /** Koenig's observation: there are exactly as many covered lines as stars. */
  lemma CoveredLinesAreStars(p: Problem, st: Stars, k: Cover)
    requires SizedStars(p, st) && SizedCover(p, k) && Mutual(st.ofRow, st.ofColumn) && CoversStars(p, st, k)
    ensures |Trues(k.rows)| + |Trues(k.columns)| == |StarredRows(st)|
  {
    AsManyAsCoveredColumns(p, st, k);
    assert StarredRows(st) == Trues(k.rows) + RowsViaColumn(p, st, k);
    assert Trues(k.rows) !! RowsViaColumn(p, st, k);
  }

  /** While a star is missing some cell is uncovered, so step 5 always has a smallest entry to take. */
  lemma SomeCellUncovered(p: Problem, s: State) returns (r: int, c: int)
    requires Searching(p, s) && StarCount(s) < Min(p.n, p.m)
    ensures UncoveredCell(p, s.cover, r, c)
  {
    var k := s.cover;
    CoveredLinesAreStars(p, s.stars, k);
    if forall r' | 0 <= r' < p.n :: k.rows[r'] {
      SubsetSize(Range(p.n), Trues(k.rows));
    }
    if forall c' | 0 <= c' < p.m :: k.columns[c'] {
      SubsetSize(Range(p.m), Trues(k.columns));
    }
    r :| 0 <= r < p.n && !k.rows[r];
    c :| 0 <= c < p.m && !k.columns[c];
  }

  // ---------------------------------------------------------------- step 3

  ghost function Prime(s: State, r: int, c: int): State
    requires 0 <= r < |s.cover.primes|
  {
    s.(cover := s.cover.(primes := s.cover.primes[r := c]))
  }

  /** Step 3 covers the row of a primed zero and uncovers the column of the row's star. */
  ghost function CoverRow(k: Cover, r: int, c: int, starCol: int): Cover
    requires 0 <= r < |k.primes| && r < |k.rows| && r < |k.rank| && 0 <= starCol < |k.columns|
  {
    Cover(k.primes[r := c], k.rows[r := true], k.columns[starCol := false], k.rank[r := k.clock], k.clock + 1)
  }

  lemma CoverRowKeeps(p: Problem, s: State, r: int, c: int)
    requires Searching(p, s) && PrimesCovered(p, s.cover)
    requires UncoveredZero(p, s, r, c) && s.stars.ofRow[r] >= 0
    ensures var t := s.(cover := CoverRow(s.cover, r, c, s.stars.ofRow[r]));
            && Searching(p, t) && PrimesCovered(p, t.cover)
            && UncoveredRows(t) == UncoveredRows(s) - 1 && StarCount(t) == StarCount(s)
  {
    var k, st := s.cover, s.stars;
    var k' := CoverRow(k, r, c, st.ofRow[r]);
    assert Falses(k.rows) == Falses(k'.rows) + {r} && r !in Falses(k'.rows);
    CoverRowKeepsStars(p, st, k, r, c);
    CoverRowKeepsPrimes(p, s.duals, st, k, r, c);
  }

  lemma CoverRowKeepsStars(p: Problem, st: Stars, k: Cover, r: int, c: int)
    requires SizedStars(p, st) && SizedCover(p, k) && Mutual(st.ofRow, st.ofColumn) && CoversStars(p, st, k)
    requires UncoveredCell(p, k, r, c) && st.ofRow[r] >= 0
    ensures CoversStars(p, st, CoverRow(k, r, c, st.ofRow[r]))
  {
  }

  lemma CoverRowKeepsPrimes(p: Problem, d: Duals, st: Stars, k: Cover, r: int, c: int)
    requires SizedDuals(p, d) && SizedStars(p, st) && SizedCover(p, k) && Mutual(st.ofRow, st.ofColumn)
    requires CoversStars(p, st, k) && PrimesPointBack(p, d, st, k)
    requires UncoveredCell(p, k, r, c) && st.ofRow[r] >= 0 && Entry(p, d, r, c) < EPSILON
    ensures PrimesPointBack(p, d, st, CoverRow(k, r, c, st.ofRow[r]))
  {
    var owner := st.ofColumn[c];
    if owner >= 0 {
      assert k.rows[owner] && k.rank[owner] < k.clock;
    }
  }

  lemma PrimeKeeps(p: Problem, s: State, r: int, c: int)
    requires Searching(p, s) && 0 <= r < p.n && !s.cover.rows[r]
    ensures Searching(p, Prime(s, r, c))
    ensures StarCount(Prime(s, r, c)) == StarCount(s) && UncoveredRows(Prime(s, r, c)) == UncoveredRows(s)
  {
  }

  // ---------------------------------------------------------------- step 5

  /** Step 5 lowers the potential of every covered row and raises that of every uncovered column by h. */
  ghost function Shift(d: Duals, k: Cover, h: real): Duals
    requires |d.u| <= |k.rows| && |d.v| <= |k.columns|
  {
    Duals(seq(|d.u|, r requires 0 <= r < |d.u| => if k.rows[r] then d.u[r] - h else d.u[r]),
          seq(|d.v|, c requires 0 <= c < |d.v| => if k.columns[c] then d.v[c] else d.v[c] + h),
          d.top + h)
  }

  /** h is the smallest uncovered entry. */
  ghost predicate SmallestUncovered(p: Problem, d: Duals, k: Cover, h: real)
    requires SizedDuals(p, d) && SizedCover(p, k)
  {
    && (forall r, c | UncoveredCell(p, k, r, c) :: h <= Entry(p, d, r, c))
    && (exists r, c :: UncoveredCell(p, k, r, c) && h == Entry(p, d, r, c))
  }

  ghost function RowShift(k: Cover, r: int, h: real): real
    requires 0 <= r < |k.rows|
  {
    if k.rows[r] then h else 0.0
  }

  ghost function ColumnShift(k: Cover, c: int, h: real): real
    requires 0 <= c < |k.columns|
  {
    if k.columns[c] then 0.0 else h
  }

  lemma ShiftedEntry(p: Problem, d: Duals, k: Cover, h: real, r: int, c: int)
    requires SizedDuals(p, d) && SizedCover(p, k) && 0 <= r < p.n && 0 <= c < p.m
    ensures SizedDuals(p, Shift(d, k, h))
    ensures Entry(p, Shift(d, k, h), r, c) == Entry(p, d, r, c) + RowShift(k, r, h) - ColumnShift(k, c, h)
  {
  }

  lemma EntryInSteps(p: Problem, d: Duals, g: real, r: int, c: int)
    requires SizedDuals(p, d) && CostsInSteps(p.costs, g) && DualsInSteps(d, g) && 0 <= r < p.n && 0 <= c < p.m
    ensures InSteps(Entry(p, d, r, c), g)
  {
    StepsSubtract(p.costs[r][c], d.u[r], g);
    StepsSubtract(p.costs[r][c] - d.u[r], d.v[c], g);
  }

  lemma ShiftKeepsSteps(p: Problem, d: Duals, k: Cover, h: real, g: real)
    requires SizedDuals(p, d) && SizedCover(p, k) && DualsInSteps(d, g) && InSteps(h, g)
    ensures DualsInSteps(Shift(d, k, h), g)
  {
    var t := Shift(d, k, h);
    forall r | 0 <= r < p.n ensures InSteps(t.u[r], g) {
      StepsSubtract(d.u[r], h, g);
    }
    forall c | 0 <= c < p.m ensures InSteps(t.v[c], g) {
      StepsAdd(d.v[c], h, g);
    }
  }

  lemma ShiftKeepsDuals(p: Problem, d: Duals, k: Cover, h: real)
    requires SizedDuals(p, d) && SizedCover(p, k) && GoodDuals(p, d) && SmallestUncovered(p, d, k, h) && h >= 0.0
    ensures SizedDuals(p, Shift(d, k, h)) && GoodDuals(p, Shift(d, k, h))
  {
    forall r, c | 0 <= r < p.n && 0 <= c < p.m
      ensures Reduced(p.costs, Shift(d, k, h).u, Shift(d, k, h).v, r, c) >= 0.0
    {
      ShiftedEntry(p, d, k, h, r, c);
      assert Reduced(p.costs, d.u, d.v, r, c) >= 0.0;
      assert UncoveredCell(p, k, r, c) ==> h <= Entry(p, d, r, c);
    }
    var r, c :| UncoveredCell(p, k, r, c) && h == Entry(p, d, r, c);
    forall g | CostsInSteps(p.costs, g) ensures DualsInSteps(Shift(d, k, h), g) {
      EntryInSteps(p, d, g, r, c);
      ShiftKeepsSteps(p, d, k, h, g);
    }
  }

  lemma ShiftKeepsTops(p: Problem, d: Duals, st: Stars, k: Cover, h: real)
    requires SizedDuals(p, d) && SizedStars(p, st) && SizedCover(p, k) && Mutual(st.ofRow, st.ofColumn)
    requires UnstarredOnTop(p, d, st) && CoversStars(p, st, k) && h >= 0.0
    ensures SizedDuals(p, Shift(d, k, h)) && UnstarredOnTop(p, Shift(d, k, h), st)
  {
  }

  /** Each starred and primed entry keeps its value in step 5: exactly one line covers it. */
  lemma ShiftKeepsMarkedEntries(p: Problem, d: Duals, st: Stars, k: Cover, h: real)
    requires SizedDuals(p, d) && SizedStars(p, st) && SizedCover(p, k) && Mutual(st.ofRow, st.ofColumn)
    requires CoversStars(p, st, k) && PrimesPointBack(p, d, st, k)
    ensures SizedDuals(p, Shift(d, k, h))
    ensures forall r | 0 <= r < p.n && st.ofRow[r] >= 0 ::
              Entry(p, Shift(d, k, h), r, st.ofRow[r]) == Entry(p, d, r, st.ofRow[r])
    ensures forall r | 0 <= r < p.n && k.rows[r] ::
              Entry(p, Shift(d, k, h), r, k.primes[r]) == Entry(p, d, r, k.primes[r])
  {
    forall r | 0 <= r < p.n && st.ofRow[r] >= 0
      ensures Entry(p, Shift(d, k, h), r, st.ofRow[r]) == Entry(p, d, r, st.ofRow[r])
    {
      ShiftedEntry(p, d, k, h, r, st.ofRow[r]);
    }
    forall r | 0 <= r < p.n && k.rows[r]
      ensures Entry(p, Shift(d, k, h), r, k.primes[r]) == Entry(p, d, r, k.primes[r])
    {
      ShiftedEntry(p, d, k, h, r, k.primes[r]);
    }
  }

  /** Step 5 keeps every invariant and turns the smallest uncovered entry into an exact zero. */
  lemma ShiftKeeps(p: Problem, s: State, h: real)
    requires Searching(p, s) && SmallestUncovered(p, s.duals, s.cover, h) && h >= 0.0
    ensures var t := s.(duals := Shift(s.duals, s.cover, h));
            && Searching(p, t)
            && exists r, c :: UncoveredZero(p, t, r, c) && Entry(p, t.duals, r, c) == 0.0
  {
    var d, st, k := s.duals, s.stars, s.cover;
    ShiftKeepsDuals(p, d, k, h);
    ShiftKeepsTops(p, d, st, k, h);
    ShiftKeepsMarkedEntries(p, d, st, k, h);
    var r, c :| UncoveredCell(p, k, r, c) && h == Entry(p, d, r, c);
    ShiftedEntry(p, d, k, h, r, c);
    assert UncoveredZero(p, s.(duals := Shift(d, k, h)), r, c);
  }

  // ---------------------------------------------------------------- step 4

  /**
  The star set under construction, while step 4 walks from column to star to prime: every covered
  row older than bound is still as it was, and only the pending star (starRow, starCol) clashes
  with the path.
   */
  ghost predicate OnPath(p: Problem, s: State, row: int, path: Stars, starRow: int, starCol: int, bound: nat)
    requires Searching(p, s)
  {
    && SizedStars(p, path) && 0 <= starCol < p.m
    && starRow == s.stars.ofColumn[starCol]
    && (starRow >= 0 ==> Older(p, s.cover, starRow, bound) && path.ofRow[starRow] == starCol)
    && RowsOnPath(p, s, row, path, starRow, bound)
    && ColumnsOnPath(p, s, path, starRow, starCol, bound)
  }

  /** Row r was covered before the moment bound. */
  ghost predicate Older(p: Problem, k: Cover, r: int, bound: nat)
    requires SizedCover(p, k) && 0 <= r < p.n
  {
    k.rows[r] && k.rank[r] < bound
  }

  ghost predicate RowsOnPath(p: Problem, s: State, row: int, path: Stars, starRow: int, bound: nat)
    requires Sized(p, s) && SizedStars(p, path)
  {
    forall r | 0 <= r < p.n ::
      && -1 <= path.ofRow[r] < p.m
      && (path.ofRow[r] >= 0 ==> Entry(p, s.duals, r, path.ofRow[r]) < EPSILON)
      && (path.ofRow[r] >= 0 && r != starRow ==> path.ofColumn[path.ofRow[r]] == r)
      && (path.ofRow[r] >= 0 <==> r == row || s.stars.ofRow[r] >= 0)
      && (Older(p, s.cover, r, bound) ==> path.ofRow[r] == s.stars.ofRow[r])
  }

  ghost predicate ColumnsOnPath(p: Problem, s: State, path: Stars, starRow: int, starCol: int, bound: nat)
    requires Sized(p, s) && Mutual(s.stars.ofRow, s.stars.ofColumn) && SizedStars(p, path)
  {
    forall c | 0 <= c < p.m ::
      && -1 <= path.ofColumn[c] < p.n
      && (path.ofColumn[c] >= 0 ==> path.ofColumn[c] != starRow && path.ofRow[path.ofColumn[c]] == c)
      && (s.stars.ofColumn[c] >= 0 ==> path.ofColumn[c] >= 0)
      && (c != starCol && s.stars.ofColumn[c] < 0 ==> path.ofColumn[c] < 0)
      && (c != starCol && s.stars.ofColumn[c] >= 0 && Older(p, s.cover, s.stars.ofColumn[c], bound)
          ==> path.ofColumn[c] == s.stars.ofColumn[c])
  }

  ghost function AddPair(st: Stars, r: int, c: int): Stars
    requires 0 <= r < |st.ofRow| && 0 <= c < |st.ofColumn|
  {
    Stars(st.ofRow[r := c], st.ofColumn[c := r])
  }

  /** The path starts at an uncovered zero of a row without a star. */
  lemma PathStarts(p: Problem, s: State, row: int, col: int)
    requires Searching(p, s) && UncoveredZero(p, s, row, col) && s.stars.ofRow[row] < 0
    ensures OnPath(p, s, row, AddPair(s.stars, row, col), s.stars.ofColumn[col], col, s.cover.clock)
  {
    var starRow := s.stars.ofColumn[col];
    if starRow >= 0 {
      assert s.cover.rows[starRow];
    }
    assert RowsOnPath(p, s, row, AddPair(s.stars, row, col), starRow, s.cover.clock);
    assert ColumnsOnPath(p, s, AddPair(s.stars, row, col), starRow, col, s.cover.clock);
  }

  /**
  Unstarring the pending star and starring the prime of its row goes one step back in the order
  of covering, so the path never returns to a row.
   */
  lemma PathSteps(p: Problem, s: State, row: int, path: Stars, starRow: int, starCol: int, bound: nat)
    requires Searching(p, s) && OnPath(p, s, row, path, starRow, starCol, bound) && starRow >= 0
    ensures 0 <= s.cover.primes[starRow] < p.m
    ensures var c := s.cover.primes[starRow];
            OnPath(p, s, row, AddPair(path, starRow, c), s.stars.ofColumn[c], c, s.cover.rank[starRow])
  {
    var c := s.cover.primes[starRow];
    var next := s.stars.ofColumn[c];
    PrimeColumnUntouched(p, s, row, path, starRow, starCol, bound);
    assert RowsOnPath(p, s, row, AddPair(path, starRow, c), next, s.cover.rank[starRow]);
    assert ColumnsOnPath(p, s, AddPair(path, starRow, c), next, c, s.cover.rank[starRow]);
  }

  /** The column of the pending row's prime still holds exactly its old star, which is older than the row. */
  lemma PrimeColumnUntouched(p: Problem, s: State, row: int, path: Stars, starRow: int, starCol: int, bound: nat)
    requires Searching(p, s) && OnPath(p, s, row, path, starRow, starCol, bound) && starRow >= 0
    ensures var c := s.cover.primes[starRow];
            && 0 <= c < p.m && c != starCol && Entry(p, s.duals, starRow, c) < EPSILON
            && (s.stars.ofColumn[c] < 0 ==> path.ofColumn[c] < 0)
            && (s.stars.ofColumn[c] >= 0 ==> path.ofColumn[c] == s.stars.ofColumn[c]
                                             && Older(p, s.cover, s.stars.ofColumn[c], s.cover.rank[starRow]))
  {
    var next := s.stars.ofColumn[s.cover.primes[starRow]];
    if next >= 0 {
      assert s.cover.rows[next];
      assert Older(p, s.cover, next, s.cover.rank[starRow]) && Older(p, s.cover, next, bound);
    }
  }

  /** The state step 4 leaves: the new stars, no primes, no covered rows. */
  ghost function Augmented(s: State, path: Stars): State {
    s.(stars := path,
       cover := s.cover.(primes := NoMarks(|s.cover.primes|), rows := NoCovers(|s.cover.rows|)))
  }

  /** A finished path gives one more star and keeps every starred row and column starred. */
  lemma PathEnds(p: Problem, s: State, row: int, path: Stars, starCol: int, bound: nat)
    requires Searching(p, s) && 0 <= row < p.n && s.stars.ofRow[row] < 0
    requires OnPath(p, s, row, path, -1, starCol, bound)
    ensures Uncovered(p, Augmented(s, path))
    ensures StarredRows(path) == StarredRows(s.stars) + {row}
    ensures StarredColumns(s.stars) <= StarredColumns(path)
    ensures StarCount(Augmented(s, path)) == StarCount(s) + 1
  {
    PathStarsOneMoreRow(p, s, row, path, bound);
    FinalPathMutual(p, s, row, path, starCol, bound);
    MoreStarsStaySound(p, s.duals, s.stars, path);
  }

  lemma PathStarsOneMoreRow(p: Problem, s: State, row: int, path: Stars, bound: nat)
    requires Sized(p, s) && SizedStars(p, path) && RowsOnPath(p, s, row, path, -1, bound)
    requires 0 <= row < p.n && s.stars.ofRow[row] < 0
    ensures StarredRows(path) == StarredRows(s.stars) + {row}
    ensures |StarredRows(path)| == |StarredRows(s.stars)| + 1
  {
    assert StarredRows(path) == StarredRows(s.stars) + {row};
  }

  lemma FinalPathMutual(p: Problem, s: State, row: int, path: Stars, starCol: int, bound: nat)
    requires Searching(p, s) && OnPath(p, s, row, path, -1, starCol, bound)
    ensures Mutual(path.ofRow, path.ofColumn) && StarsOnZeros(p, s.duals, path)
  {
  }

  lemma MoreStarsStaySound(p: Problem, d: Duals, st: Stars, path: Stars)
    requires Sound(p, d, st) && SizedStars(p, path) && StarsOnZeros(p, d, path)
    requires forall r | 0 <= r < p.n && st.ofRow[r] >= 0 :: path.ofRow[r] >= 0
    requires forall c | 0 <= c < p.m && st.ofColumn[c] >= 0 :: path.ofColumn[c] >= 0
    ensures Sound(p, d, path)
  {
  }

  // ---------------------------------------------------------------- the end

  ghost predicate Finished(p: Problem, s: State) {
    Sound(p, s.duals, s.stars) && StarCount(s) == Min(p.n, p.m)
  }

  /** The largest reduced cost a star may carry: none at all when the costs keep to steps of EPSILON or more. */
  ghost function Slack(p: Problem): real {
    if exists g :: g >= EPSILON && CostsInSteps(p.costs, g) then 0.0 else EPSILON
  }

  lemma StarsWithinSlack(p: Problem, d: Duals, st: Stars, r: int)
    requires Sound(p, d, st) && 0 <= r < p.n && st.ofRow[r] >= 0
    ensures Entry(p, d, r, st.ofRow[r]) <= Slack(p)
  {
    var c := st.ofRow[r];
    assert 0.0 <= Entry(p, d, r, c) < EPSILON;
    if g :| g >= EPSILON && CostsInSteps(p.costs, g) {
      EntryInSteps(p, d, g, r, c);
      BelowOneStep(Entry(p, d, r, c), g);
    }
  }

  lemma AllOutsideNone(w: seq<real>, s: set<int>) returns (top: real)
    requires s <= Range(|w|) && |s| == |w|
    ensures TopOutside(w, s, top)
  {
    AtMostAll(s, |w|);
    top := UpperBound(w);
  }

  lemma UnstarredIsTop(p: Problem, d: Duals, st: Stars)
    requires SizedDuals(p, d) && SizedStars(p, st) && UnstarredOnTop(p, d, st)
    ensures p.n <= p.m ==> TopOutside(d.v, StarredColumns(st), d.top)
    ensures p.n > p.m ==> TopOutside(d.u, StarredRows(st), 0.0)
  {
  }

  /** The lines without a star are the lines of maximal potential. */
  lemma FinishedTops(p: Problem, d: Duals, st: Stars) returns (uTop: real, vTop: real)
    requires SizedDuals(p, d) && SizedStars(p, st) && Mutual(st.ofRow, st.ofColumn) && UnstarredOnTop(p, d, st)
    requires |StarredRows(st)| == Min(p.n, p.m)
    ensures TopOutside(d.u, StarredRows(st), uTop)
    ensures TopOutside(d.v, StarredColumns(st), vTop)
  {
    StarsAreAssignment(p, st);
    UnstarredIsTop(p, d, st);
    if p.n <= p.m {
      vTop := d.top;
      uTop := AllOutsideNone(d.u, StarredRows(st));
    } else {
      uTop := 0.0;
      vTop := AllOutsideNone(d.v, StarredColumns(st));
    }
  }

  lemma FinishedIsFull(p: Problem, s: State)
    requires Finished(p, s)
    ensures IsFullAssignment(s.stars.ofRow, p.n, p.m)
  {
    StarsAreAssignment(p, s.stars);
  }

  /**
  The solver's promise: once every line of the shorter side has a star, the stars are a full
  assignment that no other full assignment undercuts by more than one slack per pair.
   */
  lemma FinishedIsOptimal(p: Problem, s: State, other: seq<int>)
    requires Finished(p, s) && IsFullAssignment(other, p.n, p.m)
    ensures IsFullAssignment(s.stars.ofRow, p.n, p.m)
    ensures Cost(p.costs, s.stars.ofRow, p.n) <= Cost(p.costs, other, p.n) + Copies(Min(p.n, p.m), Slack(p))
  {
    var d, st := s.duals, s.stars;
    StarsAreAssignment(p, st);
    forall r | 0 <= r < p.n && st.ofRow[r] >= 0
      ensures Reduced(p.costs, d.u, d.v, r, st.ofRow[r]) <= Slack(p)
    {
      StarsWithinSlack(p, d, st, r);
    }
    var uTop, vTop := FinishedTops(p, d, st);
    DualCertificate(p.costs, d.u, d.v, p.n, p.m, st.ofRow, other, Slack(p), uTop, vTop);
  }
}
