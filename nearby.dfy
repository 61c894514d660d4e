/** The Hard player's candidate moves: the empty cells that lie within a given number of
    rows and columns of some stone. */
module Nearby {
  import opened Grids
  import opened EngineBoard
  import opened Choice

  /** a lies at most d rows and at most d columns away from b. */
  predicate Close(a: Cell, b: Cell, d: int)
  {
    b.row - d <= a.row <= b.row + d && b.column - d <= a.column <= b.column + d
  }

  /** b is a cell of the board holding a stone. */
  ghost predicate Occupied(g: Grid, b: Cell)
    requires WellFormed(g, Size)
  {
    InRange(Size, b.row, b.column) && At(g, b.row, b.column) != Empty
  }

  /** a is an empty cell of the board. */
  ghost predicate Free(g: Grid, a: Cell)
    requires WellFormed(g, Size)
  {
    InRange(Size, a.row, a.column) && At(g, a.row, a.column) == Empty
  }

  /** a is an empty cell close to a stone at b. */
  ghost predicate FreeNear(g: Grid, d: int, a: Cell, b: Cell)
    requires WellFormed(g, Size)
  {
    Free(g, a) && Occupied(g, b) && Close(a, b, d)
  }

  /** a is an empty cell close to some stone that comes strictly before (row, column)
      in row-major order. */
  ghost predicate NearBefore(g: Grid, d: int, a: Cell, row: int, column: int)
    requires WellFormed(g, Size)
  {
    exists b :: FreeNear(g, d, a, b) && RowMajorBefore(b, Cell(row, column))
  }

  /** a is an empty cell close to some stone: a candidate move. */
  ghost predicate IsNearby(g: Grid, d: int, a: Cell)
    requires WellFormed(g, Size)
  {
    exists b :: FreeNear(g, d, a, b)
  }

  /** No cell occurs twice. */
  predicate Distinct(q: seq<Cell>)
  {
    forall i, j :: 0 <= i < j < |q| ==> q[i] != q[j]
  }

  /** Stepping past (row, column) adds the empty cells close to it when it holds a stone. */
  lemma NearStep(g: Grid, d: int, row: int, column: int)
    requires WellFormed(g, Size) && InRange(Size, row, column)
    ensures forall a :: NearBefore(g, d, a, row, column + 1) <==>
      NearBefore(g, d, a, row, column) || FreeNear(g, d, a, Cell(row, column))
  {
    forall a ensures NearBefore(g, d, a, row, column + 1) <==>
      NearBefore(g, d, a, row, column) || FreeNear(g, d, a, Cell(row, column))
    {
      if NearBefore(g, d, a, row, column + 1) {
        var b :| FreeNear(g, d, a, b) && RowMajorBefore(b, Cell(row, column + 1));
        if b != Cell(row, column) {
          assert RowMajorBefore(b, Cell(row, column));
        }
      }
      if FreeNear(g, d, a, Cell(row, column)) {
        assert RowMajorBefore(Cell(row, column), Cell(row, column + 1));
      }
    }
  }

  /** The end of a row is the start of the next one, as far as board cells go. */
  lemma NearWrap(g: Grid, d: int, row: int, end: int, next: int)
    requires WellFormed(g, Size) && end == Size + 1 && next == row + 1
    ensures forall a :: NearBefore(g, d, a, row, end) <==> NearBefore(g, d, a, next, 1)
  {
    forall a ensures NearBefore(g, d, a, row, end) <==> NearBefore(g, d, a, next, 1) {
      if NearBefore(g, d, a, next, 1) {
        var b :| FreeNear(g, d, a, b) && RowMajorBefore(b, Cell(next, 1));
        assert RowMajorBefore(b, Cell(row, end));
      }
    }
  }

  /** Before the first cell there is no stone; after the last, every stone counts. */
  lemma NearEnds(g: Grid, d: int)
    requires WellFormed(g, Size)
    ensures forall a :: !NearBefore(g, d, a, 1, 1)
    ensures forall a :: NearBefore(g, d, a, Size + 1, 1) <==> IsNearby(g, d, a)
  {
    forall a ensures NearBefore(g, d, a, Size + 1, 1) <==> IsNearby(g, d, a) {
      if IsNearby(g, d, a) {
        var b :| FreeNear(g, d, a, b);
        assert RowMajorBefore(b, Cell(Size + 1, 1));
      }
    }
  }

  /** Adds to nearby every empty cell close to (row, column), scanning the rows
      max(1, row - d)..min(Size, row + d) and, in each, the same range of columns. */
  method AddAround(board: Board, nearby: set<Cell>, row: int, column: int, d: int) returns (s: set<Cell>)
    requires board.Valid() && InRange(Size, row, column)
    ensures forall a :: a in s <==>
      (a in nearby || (Free(board.cells, a) && Close(a, Cell(row, column), d)))
  {
    ghost var g := board.cells;
    s := nearby;
    var lo := if 1 >= row - d then 1 else row - d;
    var hi := if Size <= row + d then Size else row + d;
    var left := if 1 >= column - d then 1 else column - d;
    var right := if Size <= column + d then Size else column + d;
    var x := lo;
    while x <= hi
      invariant lo <= x && (x <= hi + 1 || x == lo)
      invariant forall a :: a in s <==>
        (a in nearby || (Free(g, a) && Close(a, Cell(row, column), d) && a.row < x))
    {
      var y := left;
      while y <= right
        invariant left <= y && (y <= right + 1 || y == left)
        invariant forall a :: a in s <==>
          (a in nearby || (Free(g, a) && Close(a, Cell(row, column), d) && (a.row < x || (a.row == x && a.column < y))))
      {
        if board.GetPosition(x, y) == Empty {
          s := s + {Cell(x, y)};
        }
        y := y + 1;
      }
      x := x + 1;
    }
  }

  /** One row of the scan: every stone of the row adds the empty cells close to it. */
  method ScanRow(board: Board, nearby: set<Cell>, row: int, d: int) returns (s: set<Cell>)
    requires board.Valid() && 1 <= row <= Size
    requires forall a :: a in nearby <==> NearBefore(board.cells, d, a, row, 1)
    ensures forall a :: a in s <==> NearBefore(board.cells, d, a, row + 1, 1)
  {
    ghost var g := board.cells;
    s := nearby;
    var column := 1;
    while column <= Size
      invariant 1 <= column <= Size + 1
      invariant forall a :: a in s <==> NearBefore(g, d, a, row, column)
    {
      NearStep(g, d, row, column);
      if board.GetPosition(row, column) != Empty {
        s := AddAround(board, s, row, column, d);
        assert forall a :: a in s <==> NearBefore(g, d, a, row, column) || FreeNear(g, d, a, Cell(row, column));
      } else {
        assert forall a :: !FreeNear(g, d, a, Cell(row, column));
      }
      assert forall a :: a in s <==> NearBefore(g, d, a, row, column + 1);
      column := column + 1;
    }
    NearWrap(g, d, row, Size + 1, row + 1);
  }

  /** The set of empty cells within d rows and d columns of some stone. */
  method GetNearbyEmptyPoints(board: Board, d: int) returns (nearby: set<Cell>)
    requires board.Valid()
    ensures nearby == NearbySet(board.cells, d)
  {
    ghost var g := board.cells;
    NearEnds(g, d);
    nearby := {};
    var row := 1;
    while row <= Size
      invariant 1 <= row <= Size + 1
      invariant forall a :: a in nearby <==> NearBefore(g, d, a, row, 1)
    {
      nearby := ScanRow(board, nearby, row, d);
      row := row + 1;
    }
    assert forall a :: a in nearby <==> a in NearbySet(g, d);
  }

  /** Lists the members of a set, each once, in an order the model leaves open. */
  method Enumerate(s: set<Cell>) returns (q: seq<Cell>)
    ensures multiset(q) == multiset(s)
  {
    q := [];
    var rest := s;
    while rest != {}
      invariant rest <= s
      invariant multiset(q) + multiset(rest) == multiset(s)
      decreases |rest|
    {
      var a :| a in rest;
      assert rest == (rest - {a}) + {a};
      assert multiset(rest) == multiset(rest - {a}) + multiset{a};
      q := q + [a];
      rest := rest - {a};
    }
  }

  /** The candidate set as a value: every board cell that IsNearby holds for. */
  ghost function NearbySet(g: Grid, d: int): (s: set<Cell>)
    requires WellFormed(g, Size)
    ensures forall a :: a in s <==> IsNearby(g, d, a)
  {
    set r, c | 1 <= r <= Size && 1 <= c <= Size && IsNearby(g, d, Cell(r, c)) :: Cell(r, c)
  }

  /** On a board without stones there is no candidate. */
  lemma NoStonesNoCandidates(g: Grid, d: int, a: Cell)
    requires WellFormed(g, Size)
    requires forall r, c :: InRange(Size, r, c) ==> At(g, r, c) == Empty
    ensures !IsNearby(g, d, a)
  {
  }

  /** Every stone's empty neighbours within d are candidates, for d >= 1 in particular
      the four cells next to it. */
  lemma NextToStone(g: Grid, d: int, a: Cell, b: Cell)
    requires WellFormed(g, Size) && d >= 1
    requires Occupied(g, b) && Free(g, a) && Close(a, b, 1)
    ensures IsNearby(g, d, a)
  {
    assert FreeNear(g, d, a, b);
  }
}
