/** The forced-block scan shared, in identical code, by the Medium and Hard players:
    find the first place where the opponent has four in a row followed by an empty
    cell, and answer that cell. */
module Blocking {
  import opened Grids
  import opened Lines
  import opened Results
  import opened EngineBoard

  /** The directions of the scan, in the order they are tried. */
  const BlockDirections: seq<Dir> := [Dir(1, 0), Dir(0, 1), Dir(1, 1), Dir(-1, 1)]

  /** The opponent holds the four cells at offsets 0..3 from (r, c) along d, and the
      cell at offset 4 is on the board and empty. */
  ghost predicate BlockAt(g: Grid, r: int, c: int, d: Dir, opp: int)
    requires WellFormed(g, Size)
  {
    opp != Empty &&
    OwnsAt(g, Size, r, c, d, 0, opp) && OwnsAt(g, Size, r, c, d, 1, opp) &&
    OwnsAt(g, Size, r, c, d, 2, opp) && OwnsAt(g, Size, r, c, d, 3, opp) &&
    OwnsAt(g, Size, r, c, d, 4, Empty)
  }

  /** The cell that blocks the four starting at (r, c) along d. */
  function BlockCell(r: int, c: int, d: Dir): Cell
  {
    Cell(r + 4 * d.dr, c + 4 * d.dc)
  }

  /** (r, c, k) is at or after (r0, c0, k0) in the scan order: row by row, column by
      column, then direction by direction. */
  predicate AtOrAfter(r: int, c: int, k: int, r0: int, c0: int, k0: int)
  {
    r > r0 || (r == r0 && (c > c0 || (c == c0 && k >= k0)))
  }

  /** An on-board start cell and a direction index of the scan. */
  predicate ScanPoint(r: int, c: int, k: int)
  {
    InRange(Size, r, c) && 0 <= k < |BlockDirections|
  }

  /** The first block found by the scan from position (r, c, k) onward. */
  ghost function FirstBlock(g: Grid, opp: int, r: int, c: int, k: int): Option<Cell>
    requires WellFormed(g, Size)
    requires 1 <= r <= Size + 1 && 1 <= c <= Size + 1 && 0 <= k <= |BlockDirections|
    decreases |g| + 1 - r, |g| + 1 - c, |BlockDirections| - k
  {
    if r > Size then None
    else if c > Size then FirstBlock(g, opp, r + 1, 1, 0)
    else if k == |BlockDirections| then FirstBlock(g, opp, r, c + 1, 0)
    else if BlockAt(g, r, c, BlockDirections[k], opp) then Some(BlockCell(r, c, BlockDirections[k]))
    else FirstBlock(g, opp, r, c, k + 1)
  }

  /** The scan from (r, c, k) finds nothing exactly when no scan point from there on
      is a block. */
  lemma {:induction false} FirstBlockNone(g: Grid, opp: int, r: int, c: int, k: int)
    requires WellFormed(g, Size)
    requires 1 <= r <= Size + 1 && 1 <= c <= Size + 1 && 0 <= k <= |BlockDirections|
    ensures FirstBlock(g, opp, r, c, k) == None <==>
      forall r', c', k' :: ScanPoint(r', c', k') && AtOrAfter(r', c', k', r, c, k) ==>
        !BlockAt(g, r', c', BlockDirections[k'], opp)
    decreases Size + 1 - r, Size + 1 - c, |BlockDirections| - k
  {
    if r > Size {
    } else if c > Size {
      FirstBlockNone(g, opp, r + 1, 1, 0);
    } else if k == |BlockDirections| {
      FirstBlockNone(g, opp, r, c + 1, 0);
    } else if BlockAt(g, r, c, BlockDirections[k], opp) {
      assert ScanPoint(r, c, k) && AtOrAfter(r, c, k, r, c, k);
    } else {
      FirstBlockNone(g, opp, r, c, k + 1);
    }
  }

  /** When the scan from (r, c, k) finds a cell, it is the block cell of a scan point
      from there on, and no scan point between is a block. */
  lemma {:induction false} FirstBlockSome(g: Grid, opp: int, r: int, c: int, k: int) returns (r': int, c': int, k': int)
    requires WellFormed(g, Size)
    requires 1 <= r <= Size + 1 && 1 <= c <= Size + 1 && 0 <= k <= |BlockDirections|
    requires FirstBlock(g, opp, r, c, k).Some?
    ensures ScanPoint(r', c', k') && AtOrAfter(r', c', k', r, c, k)
    ensures BlockAt(g, r', c', BlockDirections[k'], opp)
    ensures FirstBlock(g, opp, r, c, k) == Some(BlockCell(r', c', BlockDirections[k']))
    ensures forall r'', c'', k'' ::
      (ScanPoint(r'', c'', k'') && AtOrAfter(r'', c'', k'', r, c, k) && !AtOrAfter(r'', c'', k'', r', c', k')) ==>
      !BlockAt(g, r'', c'', BlockDirections[k''], opp)
    decreases Size + 1 - r, Size + 1 - c, |BlockDirections| - k
  {
    if c > Size {
      r', c', k' := FirstBlockSome(g, opp, r + 1, 1, 0);
    } else if k == |BlockDirections| {
      r', c', k' := FirstBlockSome(g, opp, r, c + 1, 0);
    } else if BlockAt(g, r, c, BlockDirections[k], opp) {
      r', c', k' := r, c, k;
    } else {
      r', c', k' := FirstBlockSome(g, opp, r, c, k + 1);
    }
  }

  /** A block cell is on the board and empty. */
  lemma BlockCellEmpty(g: Grid, r: int, c: int, d: Dir, opp: int)
    requires WellFormed(g, Size) && BlockAt(g, r, c, d, opp)
    ensures InRange(Size, BlockCell(r, c, d).row, BlockCell(r, c, d).column)
    ensures At(g, BlockCell(r, c, d).row, BlockCell(r, c, d).column) == Empty
  {
    assert OwnsAt(g, Size, r, c, d, 4, Empty);
  }

  /** No scan point of the board is a block. */
  ghost predicate NoBlock(g: Grid, opp: int)
    requires WellFormed(g, Size)
  {
    forall r, c, k :: ScanPoint(r, c, k) ==> !BlockAt(g, r, c, BlockDirections[k], opp)
  }

  /** The answer of the whole scan: the first block cell, or (0, 0) when there is none. */
  ghost function ScanAnswer(g: Grid, opp: int): Cell
    requires WellFormed(g, Size)
  {
    match FirstBlock(g, opp, 1, 1, 0)
    case None => Cell(0, 0)
    case Some(x) => x
  }

  /** The scan answers (0, 0) exactly when no scan point is a block. Otherwise its
      answer is an on-board empty cell: the block cell of the first scan point, in
      scan order, that is a block. */
  lemma ScanAnswerSpec(g: Grid, opp: int) returns (r: int, c: int, k: int)
    requires WellFormed(g, Size)
    ensures ScanAnswer(g, opp) == Cell(0, 0) <==> NoBlock(g, opp)
    ensures ScanAnswer(g, opp) != Cell(0, 0) ==>
      ScanPoint(r, c, k) && BlockAt(g, r, c, BlockDirections[k], opp) &&
      ScanAnswer(g, opp) == BlockCell(r, c, BlockDirections[k]) &&
      InRange(Size, ScanAnswer(g, opp).row, ScanAnswer(g, opp).column) &&
      At(g, ScanAnswer(g, opp).row, ScanAnswer(g, opp).column) == Empty &&
      forall r', c', k' :: (ScanPoint(r', c', k') && !AtOrAfter(r', c', k', r, c, k)) ==>
        !BlockAt(g, r', c', BlockDirections[k'], opp)
  {
    FirstBlockNone(g, opp, 1, 1, 0);
    r, c, k := 1, 1, 0;
    if FirstBlock(g, opp, 1, 1, 0).Some? {
      r, c, k := FirstBlockSome(g, opp, 1, 1, 0);
      BlockCellEmpty(g, r, c, BlockDirections[k], opp);
      forall r', c', k' | ScanPoint(r', c', k') && !AtOrAfter(r', c', k', r, c, k)
        ensures !BlockAt(g, r', c', BlockDirections[k'], opp)
      {
        assert AtOrAfter(r', c', k', 1, 1, 0);
      }
    }
  }

  /** One step of the scan: counts the opponent stones at offsets 0..4 from
      (row, column) along direction, stopping at the board edge or the first other
      cell, and reports a block when exactly four were counted and the cell at
      offset 4 is on the board and empty. */
  method CheckBlockAt(board: Board, row: int, column: int, direction: Dir, opp: int) returns (found: bool)
    requires board.Valid()
    ensures found == BlockAt(board.cells, row, column, direction, opp)
  {
    ghost var g := board.cells;
    var consecutiveCount := 0;
    var i := 0;
    while i < 5
      invariant 0 <= i <= 5 && consecutiveCount == i
      invariant forall j :: 0 <= j < i ==> OwnsAt(g, Size, row, column, direction, j, opp)
    {
      var newRow := row + i * direction.dr;
      var newColumn := column + i * direction.dc;
      if newRow < 1 || newRow > Size || newColumn < 1 || newColumn > Size ||
         board.GetPosition(newRow, newColumn) != opp
      {
        assert !OwnsAt(g, Size, row, column, direction, i, opp);
        break;
      }
      consecutiveCount := consecutiveCount + 1;
      i := i + 1;
    }
    if consecutiveCount != 4 {
      if consecutiveCount == 5 {
        assert OwnsAt(g, Size, row, column, direction, 4, opp);
      }
      return false;
    }
    var newRow := row + 4 * direction.dr;
    var newColumn := column + 4 * direction.dc;
    found := newRow >= 1 && newRow <= Size && newColumn >= 1 && newColumn <= Size &&
      board.GetPosition(newRow, newColumn) == Empty;
  }

  /** The directions tried at one start cell, in order: the first block found there,
      or nothing, in which case the scan goes on at the next cell. */
  method CheckCell(board: Board, row: int, column: int, opp: int) returns (found: Option<Cell>)
    requires board.Valid() && InRange(Size, row, column)
    ensures FirstBlock(board.cells, opp, row, column, 0) ==
      if found.Some? then found else FirstBlock(board.cells, opp, row, column + 1, 0)
  {
    ghost var g := board.cells;
    var directions := BlockDirections;
    var k := 0;
    while k < |directions|
      invariant 0 <= k <= |directions|
      invariant FirstBlock(g, opp, row, column, 0) == FirstBlock(g, opp, row, column, k)
    {
      var direction := directions[k];
      var isBlock := CheckBlockAt(board, row, column, direction, opp);
      if isBlock {
        return Some(BlockCell(row, column, direction));
      }
      k := k + 1;
    }
    return None;
  }

  /** The start cells of one row, in order: the first block found in the row, or
      nothing, in which case the scan goes on at the next row. */
  method CheckRow(board: Board, row: int, opp: int) returns (found: Option<Cell>)
    requires board.Valid() && 1 <= row <= Size
    ensures FirstBlock(board.cells, opp, row, 1, 0) ==
      if found.Some? then found else FirstBlock(board.cells, opp, row + 1, 1, 0)
  {
    ghost var g := board.cells;
    var column := 1;
    while column <= Size
      invariant 1 <= column <= Size + 1
      invariant FirstBlock(g, opp, row, 1, 0) == FirstBlock(g, opp, row, column, 0)
    {
      found := CheckCell(board, row, column, opp);
      if found.Some? {
        return;
      }
      column := column + 1;
    }
    return None;
  }

  /** The scan for an opponent four that can still be completed: the cell after the
      first four in scan order when that cell is on the board and empty, and (0, 0)
      when there is none. The opponent of playerNumber is 3 - playerNumber. */
  method CheckOpponentWinningMove(board: Board, playerNumber: int) returns (cell: Cell)
    requires board.Valid()
    ensures cell == ScanAnswer(board.cells, 3 - playerNumber)
  {
    ghost var g := board.cells;
    var opp := 3 - playerNumber;
    var row := 1;
    ghost var goal := FirstBlock(g, opp, row, 1, 0);
    while row <= Size
      invariant 1 <= row <= Size + 1
      invariant FirstBlock(g, opp, row, 1, 0) == goal
    {
      var found := CheckRow(board, row, opp);
      if found.Some? {
        assert goal == found;
        return found.value;
      }
      row := row + 1;
    }
    assert goal == None;
    return Cell(0, 0);
  }
}
