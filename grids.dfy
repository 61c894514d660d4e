/** Value-level view of a board: a square grid of integers, addressed 1-based by
    (row, column), where 0 is an empty cell and any other value is a stone. */
module Grids {

  /** Row-major grid contents; g[r - 1][c - 1] is the cell at row r, column c. */
  type Grid = seq<seq<int>>

  /** A board coordinate, 1-based when it names a cell. */
  datatype Cell = Cell(row: int, column: int)

  /** A step along a line of the board. */
  datatype Dir = Dir(dr: int, dc: int)

  const Empty := 0

  ghost predicate WellFormed(g: Grid, n: int)
  {
    |g| == n && forall i :: 0 <= i < |g| ==> |g[i]| == n
  }

  predicate InRange(n: int, r: int, c: int)
  {
    1 <= r <= n && 1 <= c <= n
  }

  function At(g: Grid, r: int, c: int): int
    requires 1 <= r <= |g| && 1 <= c <= |g[r - 1]|
  {
    g[r - 1][c - 1]
  }

  /** The grid with one cell overwritten. */
  function Set(g: Grid, r: int, c: int, v: int): (h: Grid)
    requires 1 <= r <= |g| && 1 <= c <= |g[r - 1]|
    ensures |h| == |g| && forall i :: 0 <= i < |g| ==> |h[i]| == |g[i]|
    ensures At(h, r, c) == v
    ensures forall r', c' :: 1 <= r' <= |g| && 1 <= c' <= |g[r' - 1]| && (r', c') != (r, c) ==>
      At(h, r', c') == At(g, r', c')
  {
    g[r - 1 := g[r - 1][c - 1 := v]]
  }

  /** Writing a cell and then writing back its previous value gives the grid back:
      the try/undo step of every search. */
  lemma SetRestore(g: Grid, r: int, c: int, v: int)
    requires 1 <= r <= |g| && 1 <= c <= |g[r - 1]|
    ensures Set(Set(g, r, c, v), r, c, At(g, r, c)) == g
  {
    var h := Set(Set(g, r, c, v), r, c, At(g, r, c));
    assert h[r - 1] == g[r - 1];
  }

  lemma SetWellFormed(g: Grid, n: int, r: int, c: int, v: int)
    requires WellFormed(g, n) && InRange(n, r, c)
    ensures WellFormed(Set(g, r, c, v), n)
  {
  }

  /** The grid of a freshly constructed board. */
  function EmptyGrid(n: nat): (g: Grid)
    ensures WellFormed(g, n)
    ensures forall r, c :: InRange(n, r, c) ==> At(g, r, c) == Empty
  {
    seq(n, i => seq(n, j => Empty))
  }

  /** Sum of w over the cells of the n-by-n board g that come strictly before (row, col)
      in row-major order; w(g, r, c) is the weight of the cell (r, c) of g. */
  function SumBefore(w: (Grid, int, int) -> int, g: Grid, n: nat, row: int, col: int): int
    requires 1 <= row <= n + 1 && 1 <= col <= n + 1
    decreases row, col
  {
    if col > 1 then SumBefore(w, g, n, row, col - 1) + w(g, row, col - 1)
    else if row > 1 then SumBefore(w, g, n, row - 1, n + 1)
    else 0
  }

  /** Stepping past (row, col) adds its weight. */
  lemma SumStep(w: (Grid, int, int) -> int, g: Grid, n: nat, row: int, col: int)
    requires 1 <= row <= n && 1 <= col <= n
    ensures SumBefore(w, g, n, row, col + 1) == SumBefore(w, g, n, row, col) + w(g, row, col)
  {
  }

  /** Past the last column of a row the sum is the sum before the next row. */
  lemma SumWrap(w: (Grid, int, int) -> int, g: Grid, n: nat, row: int)
    requires 1 <= row <= n
    ensures SumBefore(w, g, n, row + 1, 1) == SumBefore(w, g, n, row, n + 1)
  {
  }

  /** Sum of w over every cell of the n-by-n board g. */
  function SumCells(w: (Grid, int, int) -> int, g: Grid, n: nat): int
  {
    SumBefore(w, g, n, n + 1, 1)
  }

  /** A sum of k terms, each between lo and hi, lies between lo * k and hi * k. */
  lemma {:induction false} SumBeforeBounds(w: (Grid, int, int) -> int, g: Grid, n: nat, row: int, col: int, lo: int, hi: int)
    requires 1 <= row <= n + 1 && 1 <= col <= n + 1 && (row <= n || col == 1)
    requires forall r, c :: InRange(n, r, c) ==> lo <= w(g, r, c) <= hi
    ensures var k := (row - 1) * n + (col - 1);
      lo * k <= SumBefore(w, g, n, row, col) <= hi * k
    decreases row, col
  {
    var k := (row - 1) * n + (col - 1);
    if col > 1 {
      SumBeforeBounds(w, g, n, row, col - 1, lo, hi);
      assert lo * k == lo * (k - 1) + lo;
      assert hi * k == hi * (k - 1) + hi;
    } else if row > 1 {
      SumBeforeBounds(w, g, n, row - 1, n + 1, lo, hi);
      assert (row - 2) * n + n == k;
    }
  }

  lemma SumCellsBounds(w: (Grid, int, int) -> int, g: Grid, n: nat, lo: int, hi: int)
    requires forall r, c :: InRange(n, r, c) ==> lo <= w(g, r, c) <= hi
    ensures lo * (n * n) <= SumCells(w, g, n) <= hi * (n * n)
  {
    SumBeforeBounds(w, g, n, n + 1, 1, lo, hi);
  }
}
