/** The flat column-major storage of an n-row matrix: cell (r, c) lives at r + n*c. */
module ColumnMajor {

  /** Where column c starts: what the walks over columns reach after c steps of n. */
  function ColumnStart(n: nat, c: nat): nat {
    if c == 0 then 0 else ColumnStart(n, c - 1) + n
  }

  ghost function RowAt(n: nat, i: nat): nat
    requires n > 0
  {
    if i < n then i else RowAt(n, i - n)
  }

  ghost function ColumnAt(n: nat, i: nat): nat
    requires n > 0
  {
    if i < n then 0 else 1 + ColumnAt(n, i - n)
  }

  /** The index of a cell; RowAt and ColumnAt recover the cell, so no two cells share one. */
  function At(n: nat, r: nat, c: nat): (i: nat)
    requires r < n
    ensures RowAt(n, i) == r && ColumnAt(n, i) == c
  {
    CellOf(n, r, c);
    r + ColumnStart(n, c)
  }

  lemma {:induction false} CellOf(n: nat, r: nat, c: nat)
    requires r < n
    ensures RowAt(n, r + ColumnStart(n, c)) == r
    ensures ColumnAt(n, r + ColumnStart(n, c)) == c
  {
    if c > 0 {
      CellOf(n, r, c - 1);
    }
  }

  lemma {:induction false} ColumnStartIsProduct(n: nat, c: nat)
    ensures ColumnStart(n, c) == n * c
  {
    if c > 0 {
      ColumnStartIsProduct(n, c - 1);
      assert n * c == n * (c - 1) + n;
    }
  }

  /** The source's index expression. */
  lemma AtIsSourceIndex(n: nat, r: nat, c: nat)
    requires r < n
    ensures At(n, r, c) == r + n * c
  {
    ColumnStartIsProduct(n, c);
  }

  lemma {:induction false} ColumnsInOrder(n: nat, c: nat, d: nat)
    requires c <= d
    ensures ColumnStart(n, c) + ColumnStart(n, d - c) == ColumnStart(n, d)
  {
    if c < d {
      ColumnsInOrder(n, c, d - 1);
    }
  }

  /** Every cell of an n by m matrix has an index below n*m. */
  lemma InBounds(n: nat, m: nat)
    ensures forall r, c | 0 <= r < n && 0 <= c < m :: At(n, r, c) < ColumnStart(n, m)
  {
    forall r, c | 0 <= r < n && 0 <= c < m ensures At(n, r, c) < ColumnStart(n, m) {
      ColumnsInOrder(n, c + 1, m);
    }
  }
}
