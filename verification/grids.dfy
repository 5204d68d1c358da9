/** The 9x9 digit grid of solpoku.py (a numpy array, 0 meaning blank) and
    what it means for a grid to be a solved Sudoku. Indices are 0-based. */
module Grids {

  type Grid = seq<seq<int>>

  predicate InGrid(i: int, j: int) {
    0 <= i < 9 && 0 <= j < 9
  }

  /** Shape (9, 9). */
  predicate IsGrid(g: Grid) {
    |g| == 9 && forall i :: 0 <= i < 9 ==> |g[i]| == 9
  }

  /** np.zeros((9, 9)). */
  function Zero(): (g: Grid)
    ensures IsGrid(g) && forall i, j :: InGrid(i, j) ==> g[i][j] == 0
  {
    seq(9, i => seq(9, j => 0))
  }

  /** g[i, j] = d: that cell changes, no other. */
  function Write(g: Grid, i: int, j: int, d: int): (h: Grid)
    requires IsGrid(g) && InGrid(i, j)
    ensures IsGrid(h) && h[i][j] == d
    ensures forall x, y :: InGrid(x, y) && (x != i || y != j) ==> h[x][y] == g[x][y]
  {
    g[i := g[i][j := d]]
  }

  /** Two grids with the same cells are the same grid. */
  lemma SameCells(g: Grid, h: Grid)
    requires IsGrid(g) && IsGrid(h)
    requires forall i, j :: InGrid(i, j) ==> g[i][j] == h[i][j]
    ensures g == h
  {
    forall i | 0 <= i < 9 ensures g[i] == h[i] {
      assert forall j :: 0 <= j < 9 ==> g[i][j] == h[i][j];
    }
  }

  /** The 3x3 box of a cell, numbered 0..8 row by row: box (i/3, j/3). */
  function Box(i: int, j: int): int {
    3 * (i / 3) + j / 3
  }

  /** Every cell holds a digit 1..9. */
  ghost predicate Complete(g: Grid) {
    IsGrid(g) && forall i, j :: InGrid(i, j) ==> 1 <= g[i][j] <= 9
  }

  ghost predicate RowHas(g: Grid, i: int, n: int)
    requires IsGrid(g) && 0 <= i < 9
  {
    exists j :: 0 <= j < 9 && g[i][j] == n
  }

  ghost predicate ColumnHas(g: Grid, j: int, n: int)
    requires IsGrid(g) && 0 <= j < 9
  {
    exists i :: 0 <= i < 9 && g[i][j] == n
  }

  ghost predicate BoxHas(g: Grid, b: int, n: int)
    requires IsGrid(g)
  {
    exists i, j :: InGrid(i, j) && Box(i, j) == b && g[i][j] == n
  }

  /** No digit twice in a row. */
  ghost predicate RowsDistinct(g: Grid)
    requires IsGrid(g)
  {
    forall i, j1, j2 :: InGrid(i, j1) && InGrid(i, j2) && j1 != j2 ==> g[i][j1] != g[i][j2]
  }

  /** No digit twice in a column. */
  ghost predicate ColumnsDistinct(g: Grid)
    requires IsGrid(g)
  {
    forall i1, i2, j :: InGrid(i1, j) && InGrid(i2, j) && i1 != i2 ==> g[i1][j] != g[i2][j]
  }

  /** No digit twice in a box. */
  ghost predicate BoxesDistinct(g: Grid)
    requires IsGrid(g)
  {
    forall i1, j1, i2, j2 ::
      InGrid(i1, j1) && InGrid(i2, j2) && (i1 != i2 || j1 != j2) && Box(i1, j1) == Box(i2, j2)
      ==> g[i1][j1] != g[i2][j2]
  }

  /** No digit twice in a row, a column or a box. */
  ghost predicate NoRepeats(g: Grid)
    requires IsGrid(g)
  {
    RowsDistinct(g) && ColumnsDistinct(g) && BoxesDistinct(g)
  }

  /** Every row, column and box holds each digit 1..9. */
  ghost predicate AllDigitsPresent(g: Grid)
    requires IsGrid(g)
  {
    forall x, n :: 0 <= x < 9 && 1 <= n <= 9 ==> RowHas(g, x, n) && ColumnHas(g, x, n) && BoxHas(g, x, n)
  }

  /** A solved Sudoku: complete, each digit exactly once in every row,
      column and box. */
  ghost predicate Solved(g: Grid) {
    Complete(g) && NoRepeats(g) && AllDigitsPresent(g)
  }
}
