/**
The assignment problem itself, independent of any algorithm: what an assignment of rows to
columns is, what it costs, and when dual potentials prove that no other assignment is cheaper.
 */
module AssignmentTheory {

  type Matrix = seq<seq<real>>

  ghost predicate Rectangular(costs: Matrix, n: nat, m: nat) {
    |costs| == n && forall r | 0 <= r < n :: |costs[r]| == m
  }

  function Min(a: nat, b: nat): nat {
    if a <= b then a else b
  }

  /** Entry r is the column given to row r, or -1; no column is given away twice. */
  ghost predicate IsAssignment(a: seq<int>, n: nat, m: nat) {
    && |a| == n
    && (forall r | 0 <= r < n :: -1 <= a[r] < m)
    && (forall r, r' | 0 <= r < r' < n && a[r] == a[r'] :: a[r] == -1)
  }

  ghost function AssignedRows(a: seq<int>): set<int> {
    set r | 0 <= r < |a| && a[r] >= 0
  }

  ghost function AssignedColumns(a: seq<int>): set<int> {
    ColumnsBefore(a, |a|)
  }

  /** An assignment that pairs as many rows with columns as the matrix allows. */
  ghost predicate IsFullAssignment(a: seq<int>, n: nat, m: nat) {
    IsAssignment(a, n, m) && |AssignedRows(a)| == Min(n, m)
  }

  /** The cost of the first k rows of an assignment. */
  ghost function Cost(costs: Matrix, a: seq<int>, k: nat): real
    requires k <= |a| <= |costs|
    requires forall r | 0 <= r < |a| :: a[r] < |costs[r]|
  {
    if k == 0 then 0.0
    else Cost(costs, a, k - 1) + if a[k - 1] >= 0 then costs[k - 1][a[k - 1]] else 0.0
  }

  // ---------------------------------------------------------------- steps

  function Steps(k: int, g: real): real {
    k as real * g
  }

  /** A whole multiple of g. */
  ghost predicate InSteps(x: real, g: real) {
    exists k: int :: x == Steps(k, g)
  }

  ghost predicate CostsInSteps(costs: Matrix, g: real) {
    forall r, c | 0 <= r < |costs| && 0 <= c < |costs[r]| :: InSteps(costs[r][c], g)
  }

  ghost predicate Whole(x: real) {
    x == x.Floor as real
  }

  lemma WholeInSteps(x: real)
    requires Whole(x)
    ensures InSteps(x, 1.0)
  {
    assert x == Steps(x.Floor, 1.0);
  }

  lemma NothingInSteps(g: real)
    ensures InSteps(0.0, g)
  {
    assert 0.0 == Steps(0, g);
  }

  lemma StepsSubtract(x: real, y: real, g: real)
    requires InSteps(x, g) && InSteps(y, g)
    ensures InSteps(x - y, g)
  {
    var i: int :| x == Steps(i, g);
    var j: int :| y == Steps(j, g);
    assert x - y == Steps(i - j, g);
  }

  lemma StepsAdd(x: real, y: real, g: real)
    requires InSteps(x, g) && InSteps(y, g)
    ensures InSteps(x + y, g)
  {
    var i: int :| x == Steps(i, g);
    var j: int :| y == Steps(j, g);
    assert x + y == Steps(i + j, g);
  }

  /** A multiple of g from 0 on and below g is 0. */
  lemma BelowOneStep(x: real, g: real)
    requires InSteps(x, g) && 0.0 <= x < g
    ensures x == 0.0
  {
    var k: int :| x == Steps(k, g);
    StepsGrow(k, g);
  }

  lemma StepsGrow(k: int, g: real)
    requires g > 0.0
    ensures k >= 1 ==> Steps(k, g) >= g
    ensures k == 0 ==> Steps(k, g) == 0.0
    ensures k <= -1 ==> Steps(k, g) <= -g
  {
    if k >= 1 {
      assert (k - 1) as real * g >= 0.0;
    } else if k <= -1 {
      assert (-k - 1) as real * g >= 0.0;
    }
  }

  // ---------------------------------------------------------------- the greedy assignment

  /** The cost is less than 2^-52 above the smallest of its row. */
  ghost predicate NearRowMinimum(costs: Matrix, r: int, c: int)
    requires 0 <= r < |costs| && 0 <= c < |costs[r]|
  {
    forall k | 0 <= k < |costs[r]| :: costs[r][c] - costs[r][k] < 1.0 / 4503599627370496.0
  }

  ghost predicate NearColumnMinimum(costs: Matrix, r: int, c: int)
    requires 0 <= r < |costs| && Rectangular(costs, |costs|, |costs[r]|) && 0 <= c < |costs[r]|
  {
    forall k | 0 <= k < |costs| :: costs[r][c] - costs[k][c] < 1.0 / 4503599627370496.0
  }

  /** Each row gets the first column near its minimum that no row before it got. */
  ghost predicate FirstColumns(costs: Matrix, a: seq<int>, n: nat, m: nat)
    requires Rectangular(costs, n, m)
  {
    |a| == n && forall r | 0 <= r < n ::
      && 0 <= a[r] < m && NearRowMinimum(costs, r, a[r]) && a[r] !in a[..r]
      && forall c | 0 <= c < a[r] && NearRowMinimum(costs, r, c) :: c in a[..r]
  }

  /** Each column gets the first row near its minimum that no column before it got. */
  ghost predicate FirstRows(costs: Matrix, b: seq<int>, n: nat, m: nat)
    requires n > 0 && Rectangular(costs, n, m)
  {
    |b| == m && forall c | 0 <= c < m ::
      && 0 <= b[c] < n && NearColumnMinimum(costs, b[c], c) && b[c] !in b[..c]
      && forall r | 0 <= r < b[c] && NearColumnMinimum(costs, r, c) :: r in b[..c]
  }

  // ---------------------------------------------------------------- sums over index sets

  ghost function SumIn(w: seq<real>, s: set<int>): real {
    if w == [] then 0.0
    else SumIn(w[..|w| - 1], s) + if |w| - 1 in s then w[|w| - 1] else 0.0
  }

  lemma {:induction false} SumInOutside(w: seq<real>, s: set<int>, i: int)
    requires i >= |w|
    ensures SumIn(w, s + {i}) == SumIn(w, s)
  {
    if w != [] {
      SumInOutside(w[..|w| - 1], s, i);
    }
  }

  lemma {:induction false} SumInAdd(w: seq<real>, s: set<int>, i: int)
    requires 0 <= i < |w| && i !in s
    ensures SumIn(w, s + {i}) == SumIn(w, s) + w[i]
  {
    var w' := w[..|w| - 1];
    if i == |w| - 1 {
      SumInOutside(w', s, i);
    } else {
      SumInAdd(w', s, i);
    }
  }

  lemma {:induction false} SumInEmpty(w: seq<real>)
    ensures SumIn(w, {}) == 0.0
  {
    if w != [] {
      SumInEmpty(w[..|w| - 1]);
    }
  }

  // ---------------------------------------------------------------- the potentials

  ghost function Reduced(costs: Matrix, u: seq<real>, v: seq<real>, r: int, c: int): real
    requires 0 <= r < |costs| && r < |u| && 0 <= c < |costs[r]| && c < |v|
  {
    costs[r][c] - u[r] - v[c]
  }

  /** No weight exceeds top, and every index left out of s carries exactly top. */
  ghost predicate TopOutside(w: seq<real>, s: set<int>, top: real) {
    forall i | 0 <= i < |w| :: w[i] <= top && (i !in s ==> w[i] == top)
  }

  ghost function Below(s: set<int>, k: nat): set<int> {
    set i | i in s && 0 <= i < k
  }

  lemma BelowStep(s: set<int>, k: nat)
    ensures k in s ==> |Below(s, k + 1)| == |Below(s, k)| + 1
    ensures k !in s ==> |Below(s, k + 1)| == |Below(s, k)|
  {
    if k in s {
      assert Below(s, k + 1) == Below(s, k) + {k};
    } else {
      assert Below(s, k + 1) == Below(s, k);
    }
  }

  /** k copies of x, added up. */
  ghost function Copies(k: nat, x: real): real {
    if k == 0 then 0.0 else Copies(k - 1, x) + x
  }

  lemma {:induction false} CopiesIsProduct(k: nat, x: real)
    ensures Copies(k, x) == k as real * x
  {
    if k > 0 {
      CopiesIsProduct(k - 1, x);
      assert k as real * x == ((k - 1) as real + 1.0) * x == (k - 1) as real * x + x;
    }
  }

  lemma {:induction false} CopiesOfNothing(k: nat)
    ensures Copies(k, 0.0) == 0.0
  {
    if k > 0 {
      CopiesOfNothing(k - 1);
    }
  }

  lemma {:induction false} ExchangePrefix(w: seq<real>, s: set<int>, t: set<int>, top: real)
    requires TopOutside(w, s, top)
    ensures SumIn(w, s) - Copies(|Below(s, |w|)|, top) <= SumIn(w, t) - Copies(|Below(t, |w|)|, top)
  {
    if w == [] {
      assert Below(s, 0) == {} == Below(t, 0);
    } else {
      var k := |w| - 1;
      ExchangePrefix(w[..k], s, t, top);
      BelowStep(s, k);
      BelowStep(t, k);
    }
  }

  /** Leaving out only indices of maximal weight never sums to more than any other choice of that size. */
  lemma Exchange(w: seq<real>, s: set<int>, t: set<int>, top: real)
    requires TopOutside(w, s, top)
    requires |s| == |t|
    requires forall i | i in s :: 0 <= i < |w|
    requires forall i | i in t :: 0 <= i < |w|
    ensures SumIn(w, s) <= SumIn(w, t)
  {
    ExchangePrefix(w, s, t, top);
    assert Below(s, |w|) == s && Below(t, |w|) == t;
  }

  // ---------------------------------------------------------------- weak duality

  /** The rows among the first k that have a column. */
  ghost function RowsBefore(a: seq<int>, k: nat): (s: set<int>)
    requires k <= |a|
    ensures forall r :: r in s <==> 0 <= r < k && a[r] >= 0
  {
    if k == 0 then {} else if a[k - 1] >= 0 then RowsBefore(a, k - 1) + {k - 1} else RowsBefore(a, k - 1)
  }

  /** The columns given to the first k rows. */
  ghost function ColumnsBefore(a: seq<int>, k: nat): set<int>
    requires k <= |a|
  {
    if k == 0 then {}
    else if a[k - 1] >= 0 then ColumnsBefore(a, k - 1) + {a[k - 1]}
    else ColumnsBefore(a, k - 1)
  }

  lemma {:induction false} ColumnIsAssigned(a: seq<int>, k: nat, r: nat)
    requires r < k <= |a| && a[r] >= 0
    ensures a[r] in ColumnsBefore(a, k)
  {
    if r < k - 1 {
      ColumnIsAssigned(a, k - 1, r);
    }
  }

  lemma {:induction false} RowOfColumn(a: seq<int>, k: nat, c: int) returns (r: nat)
    requires k <= |a| && c in ColumnsBefore(a, k)
    ensures r < k && a[r] == c && c >= 0
  {
    if c == a[k - 1] && c >= 0 {
      r := k - 1;
    } else {
      r := RowOfColumn(a, k - 1, c);
    }
  }

  lemma NewColumn(a: seq<int>, n: nat, m: nat, k: nat)
    requires IsAssignment(a, n, m) && k < n && a[k] >= 0
    ensures a[k] !in ColumnsBefore(a, k)
  {
    if a[k] in ColumnsBefore(a, k) {
      var r := RowOfColumn(a, k, a[k]);
    }
  }

  lemma {:induction false} CountBefore(a: seq<int>, n: nat, m: nat, k: nat)
    requires IsAssignment(a, n, m) && k <= n
    ensures |ColumnsBefore(a, k)| == |RowsBefore(a, k)|
  {
    if k > 0 {
      CountBefore(a, n, m, k - 1);
      if a[k - 1] >= 0 {
        NewColumn(a, n, m, k - 1);
      }
    }
  }

  /** A full assignment uses as many columns as rows. */
  lemma AsManyColumnsAsRows(a: seq<int>, n: nat, m: nat)
    requires IsAssignment(a, n, m)
    ensures |AssignedColumns(a)| == |AssignedRows(a)|
  {
    CountBefore(a, n, m, n);
    assert RowsBefore(a, n) == AssignedRows(a);
  }

  lemma ColumnsInRange(a: seq<int>, n: nat, m: nat)
    requires IsAssignment(a, n, m)
    ensures forall c | c in AssignedColumns(a) :: 0 <= c < m
  {
    forall c | c in AssignedColumns(a) ensures 0 <= c < m {
      var r := RowOfColumn(a, n, c);
    }
  }

  ghost predicate Feasible(costs: Matrix, u: seq<real>, v: seq<real>, n: nat, m: nat) {
    && Rectangular(costs, n, m) && |u| == n && |v| == m
    && forall r, c | 0 <= r < n && 0 <= c < m :: Reduced(costs, u, v, r, c) >= 0.0
  }

  /** The potentials collected by the first k rows of an assignment. */
  ghost function Dual(u: seq<real>, v: seq<real>, a: seq<int>, k: nat): real
    requires k <= |a|
  {
    SumIn(u, RowsBefore(a, k)) + SumIn(v, ColumnsBefore(a, k))
  }

  lemma DualStep(u: seq<real>, v: seq<real>, n: nat, m: nat, a: seq<int>, k: nat)
    requires |u| == n && |v| == m && IsAssignment(a, n, m) && k < n
    ensures Dual(u, v, a, k + 1) == Dual(u, v, a, k) + if a[k] >= 0 then u[k] + v[a[k]] else 0.0
  {
    if a[k] >= 0 {
      NewColumn(a, n, m, k);
      SumInAdd(u, RowsBefore(a, k), k);
      SumInAdd(v, ColumnsBefore(a, k), a[k]);
    }
  }

  lemma DualStart(u: seq<real>, v: seq<real>, a: seq<int>)
    ensures Dual(u, v, a, 0) == 0.0
  {
    SumInEmpty(u);
    SumInEmpty(v);
  }

  lemma {:induction false} CostAboveDual(costs: Matrix, u: seq<real>, v: seq<real>, n: nat, m: nat, a: seq<int>, k: nat)
    requires Feasible(costs, u, v, n, m) && IsAssignment(a, n, m) && k <= n
    ensures Cost(costs, a, k) >= Dual(u, v, a, k)
  {
    if k == 0 {
      DualStart(u, v, a);
    } else {
      CostAboveDual(costs, u, v, n, m, a, k - 1);
      DualStep(u, v, n, m, a, k - 1);
      assert a[k - 1] >= 0 ==> Reduced(costs, u, v, k - 1, a[k - 1]) >= 0.0;
    }
  }

  lemma {:induction false} CostNearDual(costs: Matrix, u: seq<real>, v: seq<real>, n: nat, m: nat, a: seq<int>, k: nat, slack: real)
    requires Feasible(costs, u, v, n, m) && IsAssignment(a, n, m) && k <= n
    requires forall r | 0 <= r < n && a[r] >= 0 :: Reduced(costs, u, v, r, a[r]) <= slack
    ensures Cost(costs, a, k) <= Dual(u, v, a, k) + Copies(|RowsBefore(a, k)|, slack)
  {
    if k == 0 {
      DualStart(u, v, a);
    } else {
      CostNearDual(costs, u, v, n, m, a, k - 1, slack);
      DualStep(u, v, n, m, a, k - 1);
      NearDualStep(costs, u, v, a, k - 1, |RowsBefore(a, k - 1)|, slack);
    }
  }

  lemma NearDualStep(costs: Matrix, u: seq<real>, v: seq<real>, a: seq<int>, r: nat, copies: nat, slack: real)
    requires r < |a| == |costs| == |u| && a[r] < |v|
    requires forall i | 0 <= i < |a| :: a[i] < |costs[i]|
    requires a[r] >= 0 ==> Reduced(costs, u, v, r, a[r]) <= slack
    ensures Cost(costs, a, r + 1) <= Cost(costs, a, r) + if a[r] >= 0 then u[r] + v[a[r]] + slack else 0.0
    ensures Copies(copies + 1, slack) == Copies(copies, slack) + slack
  {
  }

  /**
  Complementary slackness for rectangular matrices: a full assignment whose reduced costs are at
  most slack, and which leaves out only rows and columns of maximal potential, costs no more
  than any full assignment plus one slack per pair.
   */
  lemma DualCertificate(costs: Matrix, u: seq<real>, v: seq<real>, n: nat, m: nat,
                        a: seq<int>, b: seq<int>, slack: real, uTop: real, vTop: real)
    requires Feasible(costs, u, v, n, m)
    requires IsFullAssignment(a, n, m) && IsFullAssignment(b, n, m)
    requires forall r | 0 <= r < n && a[r] >= 0 :: Reduced(costs, u, v, r, a[r]) <= slack
    requires TopOutside(u, AssignedRows(a), uTop)
    requires TopOutside(v, AssignedColumns(a), vTop)
    ensures Cost(costs, a, n) <= Cost(costs, b, n) + Copies(Min(n, m), slack)
  {
    AsManyColumnsAsRows(a, n, m);
    AsManyColumnsAsRows(b, n, m);
    CostNearDual(costs, u, v, n, m, a, n, slack);
    CostAboveDual(costs, u, v, n, m, b, n);
    assert RowsBefore(a, n) == AssignedRows(a) && RowsBefore(b, n) == AssignedRows(b);
    ColumnsInRange(a, n, m);
    ColumnsInRange(b, n, m);
    Exchange(u, AssignedRows(a), AssignedRows(b), uTop);
    Exchange(v, AssignedColumns(a), AssignedColumns(b), vTop);
  }

  // ---------------------------------------------------------------- counting helpers

  ghost function Range(n: nat): (s: set<int>)
    ensures forall i :: i in s <==> 0 <= i < n
    ensures |s| == n
  {
    if n == 0 then {} else Range(n - 1) + {n - 1}
  }

  lemma SubsetSize<T>(s: set<T>, t: set<T>)
    requires s <= t
    ensures |s| <= |t|
    ensures |s| == |t| ==> s == t
  {
    assert t == s + (t - s);
    assert |t| == |s| + |t - s|;
  }

  /** Some bound lies above every weight. */
  lemma {:induction false} UpperBound(w: seq<real>) returns (top: real)
    ensures forall i | 0 <= i < |w| :: w[i] <= top
  {
    if w == [] {
      top := 0.0;
    } else {
      top := UpperBound(w[1..]);
      if top < w[0] {
        top := w[0];
      }
      forall i | 0 <= i < |w| ensures w[i] <= top {
        if i > 0 { assert w[i] == w[1..][i - 1]; }
      }
    }
  }
}
