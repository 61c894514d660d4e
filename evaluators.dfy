/** The static board evaluations of the two search players: the Medium player's stone
    count and the Hard player's count of four-cell runs. */
module Evaluators {
  import opened Grids
  import opened Lines
  import opened EngineBoard

  /** The cell (r, c) of g, or an empty cell for coordinates outside g. */
  function CellOf(g: Grid, r: int, c: int): int
  {
    if 1 <= r <= |g| && 1 <= c <= |g[r - 1]| then At(g, r, c) else Empty
  }

  // ---- The Medium player's stone count ----

  /** The contribution of one cell holding v: +1 for the player's own stone, -1 for any
      other stone, 0 when empty. */
  function StoneWeight(v: int, me: int): int
  {
    if v == Empty then 0 else if v == me then 1 else -1
  }

  /** The stone count's weight of a cell (r, c) of a grid h. */
  function StoneWeights(me: int): (Grid, int, int) -> int
  {
    (h, r, c) => StoneWeight(CellOf(h, r, c), me)
  }

  /** The number of me's stones minus the number of other stones on the board. */
  function StoneScore(g: Grid, me: int): int
  {
    SumCells(StoneWeights(me), g, Size)
  }

  /** The Medium player's evaluation: every non-empty cell counts +1 when it holds the
      player's stone and -1 otherwise. */
  method StoneCountScore(board: Board, me: int) returns (score: int)
    requires board.Valid()
    ensures score == StoneScore(board.cells, me)
  {
    ghost var f := StoneWeights(me);
    ghost var g := board.cells;
    score := 0;
    var r := 1;
    while r <= Size
      invariant 1 <= r <= Size + 1
      invariant score == SumBefore(f, g, Size, r, 1)
    {
      var c := 1;
      while c <= Size
        invariant 1 <= c <= Size + 1
        invariant score == SumBefore(f, g, Size, r, c)
      {
        if board.GetPosition(r, c) == Empty {
          c := c + 1;
          continue;
        }
        score := score + if board.GetPosition(r, c) == me then 1 else -1;
        c := c + 1;
      }
      r := r + 1;
    }
  }

  /** The stone count stays within the number of cells, so it never overflows. */
  lemma StoneScoreBounds(g: Grid, me: int)
    ensures -(Size * Size) <= StoneScore(g, me) <= Size * Size
  {
    SumCellsBounds(StoneWeights(me), g, Size, -1, 1);
  }

  // ---- The Hard player's run count ----

  /** Cell (r, c) is on the board and the next three cells along d are on the board and
      hold the same value as (r, c). */
  ghost predicate RunStart(g: Grid, r: int, c: int, d: Dir)
    requires WellFormed(g, Size)
  {
    InRange(Size, r, c) &&
    OwnsAt(g, Size, r, c, d, 1, At(g, r, c)) &&
    OwnsAt(g, Size, r, c, d, 2, At(g, r, c)) &&
    OwnsAt(g, Size, r, c, d, 3, At(g, r, c))
  }

  ghost function RunIndicator(g: Grid, r: int, c: int, d: Dir): int
    requires WellFormed(g, Size)
  {
    if RunStart(g, r, c, d) then 1 else 0
  }

  /** The number of the four directions (1, 0), (0, 1), (1, 1), (-1, 1) along which a
      run of four starts at (r, c). */
  ghost function RunsAt(g: Grid, r: int, c: int): (k: int)
    requires WellFormed(g, Size)
    ensures 0 <= k <= 4
  {
    RunIndicator(g, r, c, Dir(1, 0)) + RunIndicator(g, r, c, Dir(0, 1)) +
    RunIndicator(g, r, c, Dir(1, 1)) + RunIndicator(g, r, c, Dir(-1, 1))
  }

  /** The contribution of one cell: +100 per run of four starting at one of me's
      stones, -100 per run starting at any other stone, nothing for an empty cell. */
  ghost function RunWeight(g: Grid, me: int, r: int, c: int): (w: int)
    requires WellFormed(g, Size)
    ensures -400 <= w <= 400
  {
    if !InRange(Size, r, c) || At(g, r, c) == Empty then 0
    else if At(g, r, c) == me then 100 * RunsAt(g, r, c)
    else -100 * RunsAt(g, r, c)
  }

  /** The run count's weight of a cell (r, c) of a grid h. */
  ghost function RunWeights(me: int): (Grid, int, int) -> int
  {
    (h, r, c) => if WellFormed(h, Size) then RunWeight(h, me, r, c) else 0
  }

  /** 100 times the number of (cell, direction) runs of four that start at me's stones,
      minus 100 times the number that start at other stones. */
  ghost function RunScore(g: Grid, me: int): int
    requires WellFormed(g, Size)
  {
    SumCells(RunWeights(me), g, Size)
  }

  /** Whether the three cells after (row, column) along direction are on the board and
      hold the same value as (row, column): 1 if so, 0 otherwise. */
  method CheckSequence(board: Board, row: int, column: int, direction: Dir) returns (s: int)
    requires board.Valid() && InRange(Size, row, column)
    ensures s == 1 <==> RunStart(board.cells, row, column, direction)
    ensures s == 0 || s == 1
  {
    ghost var g := board.cells;
    var playerNumber := board.GetPosition(row, column);
    var i := 1;
    while i < 4
      invariant 1 <= i <= 4
      invariant forall j :: 1 <= j < i ==> OwnsAt(g, Size, row, column, direction, j, playerNumber)
    {
      var newRow := row + i * direction.dr;
      var newColumn := column + i * direction.dc;
      if newRow < 1 || newRow > Size || newColumn < 1 || newColumn > Size ||
         board.GetPosition(newRow, newColumn) != playerNumber
      {
        assert !OwnsAt(g, Size, row, column, direction, i, playerNumber);
        return 0;
      }
      i := i + 1;
    }
    return 1;
  }

  /** The Hard player's evaluation: for every stone, 100 per direction along which it
      starts a run of four, added for the player's stones and subtracted for others. */
  method RunCountScore(board: Board, me: int) returns (score: int)
    requires board.Valid()
    ensures score == RunScore(board.cells, me)
  {
    ghost var f := RunWeights(me);
    ghost var g := board.cells;
    score := 0;
    var row := 1;
    while row <= Size
      invariant 1 <= row <= Size + 1
      invariant score == SumBefore(f, g, Size, row, 1)
    {
      var column := 1;
      while column <= Size
        invariant 1 <= column <= Size + 1
        invariant score == SumBefore(f, g, Size, row, column)
      {
        if board.GetPosition(row, column) == Empty {
          column := column + 1;
          continue;
        }
        var s1 := CheckSequence(board, row, column, Dir(1, 0));
        var s2 := CheckSequence(board, row, column, Dir(0, 1));
        var s3 := CheckSequence(board, row, column, Dir(1, 1));
        var s4 := CheckSequence(board, row, column, Dir(-1, 1));
        if board.GetPosition(row, column) == me {
          score := score + s1 * 100 + s2 * 100 + s3 * 100 + s4 * 100;
        } else {
          score := score - s1 * 100 - s2 * 100 - s3 * 100 - s4 * 100;
        }
        column := column + 1;
      }
      row := row + 1;
    }
  }

  /** The run count stays within 400 per cell, so it never overflows. */
  lemma RunScoreBounds(g: Grid, me: int)
    requires WellFormed(g, Size)
    ensures -400 * (Size * Size) <= RunScore(g, me) <= 400 * (Size * Size)
  {
    SumCellsBounds(RunWeights(me), g, Size, -400, 400);
  }

  /** Every run counts 100, so the run count is a multiple of 100. */
  lemma RunScoreHundreds(g: Grid, me: int)
    requires WellFormed(g, Size)
    ensures RunScore(g, me) % 100 == 0
  {
    RunSumHundreds(g, me, Size + 1, 1);
  }

  lemma {:induction false} RunSumHundreds(g: Grid, me: int, row: int, col: int)
    requires WellFormed(g, Size) && 1 <= row <= Size + 1 && 1 <= col <= Size + 1
    ensures SumBefore(RunWeights(me), g, Size, row, col) % 100 == 0
    decreases row, col
  {
    if col > 1 {
      RunSumHundreds(g, me, row, col - 1);
      assert RunWeights(me)(g, row, col - 1) == RunWeight(g, me, row, col - 1);
    } else if row > 1 {
      RunSumHundreds(g, me, row - 1, Size + 1);
    }
  }
}
