/** The Medium player: answer an opponent four that can still be completed, otherwise
    try every empty cell in row-major order, value it with the alpha-beta search at
    depth 3 under the stone-count evaluation, and keep the first strictly best. */
module Medium {
  import opened Grids
  import opened Lines
  import opened Results
  import opened EngineBoard
  import opened EngineGame
  import opened Evaluators
  import opened Blocking
  import opened Search
  import opened SearchTheory
  import opened Choice
  import opened RootMoves

  const MaxDepth: nat := 3

  /** The search parameters of a Medium player numbered me in a game whose current
      player is turn. */
  function MediumCtx(me: int, turn: int): SearchCtx
  {
    SearchCtx(StoneCount, me, turn)
  }

  /** The move a Medium player numbered me chooses on g while turn is to move. */
  ghost function MediumMove(me: int, turn: int, g: Grid): Result<Cell>
    requires WellFormed(g, Size)
  {
    var block := ScanAnswer(g, 3 - me);
    if block.row != 0 && block.column != 0 then Ok(block)
    else
      var pick := Fold(NoPick, Trials(MediumCtx(me, turn), g, MaxDepth, EmptyCells(g)));
      if pick.cell.row == -1 || pick.cell.column == -1 then Err(NoValidMoves) else Ok(pick.cell)
  }

  class AIPlayerMedium {
    const playerNumber: int
    const board: Board
    var gomoku: Gomoku?

    constructor (playerNumber: int, board: Board)
      ensures this.playerNumber == playerNumber && this.board == board && gomoku == null
    {
      this.playerNumber := playerNumber;
      this.board := board;
      gomoku := null;
    }

    /** The move for the game's current position; the board is the same afterwards. */
    method GetMove(game: Gomoku) returns (move: Result<Cell>)
      requires game.Valid() && game.board == board
      modifies this, board, board.positions
      ensures gomoku == game && game.Valid() && board.cells == old(board.cells)
      ensures move == MediumMove(playerNumber, game.currentPlayer, old(board.cells))
    {
      gomoku := game;
      var cell := CheckOpponentWinningMove();
      if cell.row != 0 && cell.column != 0 {
        return Ok(cell);
      }
      var best := SearchMoves();
      if best.cell.row == -1 || best.cell.column == -1 {
        return Err(NoValidMoves);
      }
      return Ok(best.cell);
    }

    /** The root sweep over every cell in row-major order: the running best score and
        cell, replaced by each empty cell whose depth-3 value is strictly larger. */
    method SearchMoves() returns (best: Pick)
      requires gomoku != null && gomoku.Valid() && gomoku.board == board
      modifies board, board.positions
      ensures gomoku.Valid() && board.cells == old(board.cells)
      ensures best == Fold(NoPick, Trials(MediumCtx(playerNumber, gomoku.currentPlayer), old(board.cells),
                                          MaxDepth, EmptyCells(old(board.cells))))
    {
      ghost var g := board.cells;
      ghost var x := MediumCtx(playerNumber, gomoku.currentPlayer);
      var bestScore, bestRow, bestColumn := MinInt, -1, -1;
      var r := 1;
      while r <= Size
        invariant 1 <= r <= Size + 1
        invariant gomoku.Valid() && board.cells == g
        invariant Pick(bestScore, Cell(bestRow, bestColumn)) == Fold(NoPick, Trials(x, g, MaxDepth, CellsWith(g, Empty, r, 1)))
      {
        var c := 1;
        while c <= Size
          invariant 1 <= c <= Size + 1
          invariant gomoku.Valid() && board.cells == g
          invariant Pick(bestScore, Cell(bestRow, bestColumn)) == Fold(NoPick, Trials(x, g, MaxDepth, CellsWith(g, Empty, r, c)))
        {
          bestScore, bestRow, bestColumn := TryCell(r, c, bestScore, bestRow, bestColumn);
          c := c + 1;
        }
        r := r + 1;
      }
      best := Pick(bestScore, Cell(bestRow, bestColumn));
    }

    /** One step of the root sweep: an empty (r, c) is tried with this player's stone,
        valued at depth 3 and taken back, and replaces the running best when its value is
        strictly larger; an occupied cell changes nothing. */
    method TryCell(r: int, c: int, bestScore: int, bestRow: int, bestColumn: int) returns (score: int, row: int, column: int)
      requires gomoku != null && gomoku.Valid() && gomoku.board == board && InRange(Size, r, c)
      requires Pick(bestScore, Cell(bestRow, bestColumn)) ==
        Fold(NoPick, Trials(MediumCtx(playerNumber, gomoku.currentPlayer), board.cells, MaxDepth, CellsWith(board.cells, Empty, r, c)))
      modifies board, board.positions
      ensures gomoku.Valid() && board.cells == old(board.cells)
      ensures Pick(score, Cell(row, column)) ==
        Fold(NoPick, Trials(MediumCtx(playerNumber, gomoku.currentPlayer), old(board.cells), MaxDepth, CellsWith(old(board.cells), Empty, r, c + 1)))
    {
      ghost var g := board.cells;
      ghost var x := MediumCtx(playerNumber, gomoku.currentPlayer);
      ghost var before := CellsWith(g, Empty, r, c);
      TrialsSnoc(x, g, MaxDepth, before, Cell(r, c));
      score, row, column := bestScore, bestRow, bestColumn;
      if board.GetPosition(r, c) != Empty {
        assert before + [] == before;
        return;
      }
      board.SetPosition(r, c, playerNumber);
      var moveValue := Minimax(MaxDepth, r, c, false, MinInt, MaxInt);
      board.SetPosition(r, c, Empty);
      SetRestore(g, r, c, playerNumber);
      FoldSnoc(NoPick, Trials(x, g, MaxDepth, before), Trial(Cell(r, c), moveValue));
      if moveValue > bestScore {
        score, row, column := moveValue, r, c;
      }
    }

    /** The shared pruned search with the stone-count evaluation. */
    method Minimax(depth: nat, row: int, column: int, maximizingPlayer: bool, alpha: int, beta: int) returns (value: int)
      requires gomoku != null && gomoku.Valid() && gomoku.board == board
      modifies board, board.positions
      ensures gomoku.Valid() && board.cells == old(board.cells)
      ensures value == AlphaBeta(MediumCtx(playerNumber, gomoku.currentPlayer), old(board.cells),
                                 depth, row, column, maximizingPlayer, alpha, beta)
    {
      value := MinMax(gomoku, board, MediumCtx(playerNumber, gomoku.currentPlayer),
                      depth, row, column, maximizingPlayer, alpha, beta);
    }

    /** Own stones minus other stones. */
    method EvaluateBoard() returns (score: int)
      requires board.Valid()
      ensures score == StoneScore(board.cells, playerNumber)
    {
      score := StoneCountScore(board, playerNumber);
    }

    /** The shared forced-block scan for opponent 3 - playerNumber. */
    method CheckOpponentWinningMove() returns (cell: Cell)
      requires board.Valid()
      ensures cell == ScanAnswer(board.cells, 3 - playerNumber)
    {
      cell := Blocking.CheckOpponentWinningMove(board, playerNumber);
    }
  }

  /** The test on both coordinates of the scan's answer is the same as asking whether
      some opponent four can still be completed. */
  lemma BlockTest(g: Grid, me: int)
    requires WellFormed(g, Size)
    ensures (ScanAnswer(g, 3 - me).row != 0 && ScanAnswer(g, 3 - me).column != 0) <==> !NoBlock(g, 3 - me)
  {
    var _, _, _ := ScanAnswerSpec(g, 3 - me);
  }

  /** When the opponent has a four that can still be completed, the move is the
      cell completing the first such four in scan order, an empty cell on the board. */
  lemma MediumBlocks(me: int, turn: int, g: Grid)
    requires WellFormed(g, Size) && !NoBlock(g, 3 - me)
    ensures MediumMove(me, turn, g) == Ok(ScanAnswer(g, 3 - me))
    ensures InRange(Size, ScanAnswer(g, 3 - me).row, ScanAnswer(g, 3 - me).column)
    ensures At(g, ScanAnswer(g, 3 - me).row, ScanAnswer(g, 3 - me).column) == Empty
  {
    BlockTest(g, me);
    var _, _, _ := ScanAnswerSpec(g, 3 - me);
  }

  /** The exact value of playing the Medium player's stone at cell. */
  ghost function MoveValue(me: int, turn: int, g: Grid, cell: Cell): int
    requires WellFormed(g, Size) && InRange(Size, cell.row, cell.column)
  {
    Minimax(MediumCtx(me, turn), Set(g, cell.row, cell.column, me), MaxDepth, cell.row, cell.column, false)
  }

  /** The trials of the root sweep are the empty cells in row-major order, each with
      its exact minimax value. */
  lemma SweepTrials(me: int, turn: int, g: Grid)
    requires WellFormed(g, Size)
    ensures var empties := EmptyCells(g);
      var ts := Trials(MediumCtx(me, turn), g, MaxDepth, empties);
      |ts| == |empties| &&
      forall i :: 0 <= i < |empties| ==>
        InRange(Size, empties[i].row, empties[i].column) &&
        ts[i] == Trial(empties[i], MoveValue(me, turn, g, empties[i]))
  {
    var x := MediumCtx(me, turn);
    var empties := EmptyCells(g);
    AllWithSpec(g, Empty);
    assert AllEmpty(g, empties) by {
      forall i | 0 <= i < |empties| ensures InRange(Size, empties[i].row, empties[i].column) {
        assert empties[i] in empties;
      }
    }
    TrialsOfEmpty(x, g, MaxDepth, empties);
    forall i | 0 <= i < |empties|
      ensures RootValue(x, g, MaxDepth, empties[i]) == MoveValue(me, turn, g, empties[i])
    {
      RootValueExact(x, g, MaxDepth, empties[i]);
    }
  }

  /** Without a four to block there is no move exactly when no empty cell is worth
      more than MinInt. */
  lemma MediumFails(me: int, turn: int, g: Grid)
    requires WellFormed(g, Size) && NoBlock(g, 3 - me)
    ensures MediumMove(me, turn, g) == Err(NoValidMoves) <==>
      forall i :: 0 <= i < |EmptyCells(g)| ==>
        InRange(Size, EmptyCells(g)[i].row, EmptyCells(g)[i].column) &&
        MoveValue(me, turn, g, EmptyCells(g)[i]) <= MinInt
  {
    BlockTest(g, me);
    SweepTrials(me, turn, g);
    var k := FoldFirstMax(NoPick, Trials(MediumCtx(me, turn), g, MaxDepth, EmptyCells(g)));
  }

  /** Otherwise the move is the first empty cell, in row-major order, whose exact
      minimax value is strictly greatest among all empty cells, and that value is
      above MinInt. */
  lemma MediumPicksBest(me: int, turn: int, g: Grid) returns (k: int)
    requires WellFormed(g, Size) && NoBlock(g, 3 - me) && MediumMove(me, turn, g).Ok?
    ensures 0 <= k < |EmptyCells(g)| && MediumMove(me, turn, g) == Ok(EmptyCells(g)[k])
    ensures InRange(Size, EmptyCells(g)[k].row, EmptyCells(g)[k].column)
    ensures At(g, EmptyCells(g)[k].row, EmptyCells(g)[k].column) == Empty
    ensures MoveValue(me, turn, g, EmptyCells(g)[k]) > MinInt
    ensures forall i :: 0 <= i < |EmptyCells(g)| ==> InRange(Size, EmptyCells(g)[i].row, EmptyCells(g)[i].column)
    ensures forall i :: 0 <= i < k ==>
      MoveValue(me, turn, g, EmptyCells(g)[i]) < MoveValue(me, turn, g, EmptyCells(g)[k])
    ensures forall i :: 0 <= i < |EmptyCells(g)| ==>
      MoveValue(me, turn, g, EmptyCells(g)[i]) <= MoveValue(me, turn, g, EmptyCells(g)[k])
  {
    BlockTest(g, me);
    SweepTrials(me, turn, g);
    k := FoldFirstMax(NoPick, Trials(MediumCtx(me, turn), g, MaxDepth, EmptyCells(g)));
    AllWithSpec(g, Empty);
    assert EmptyCells(g)[k] in AllWith(g, Empty);
  }

  /** With a and b the only empty cells, playing a is worth MinInt when neither a nor
      the opponent's reply at b ends the game: the maximising node below then finds no
      empty cell and keeps its initial MinInt. */
  lemma TwoEmptyValue(me: int, turn: int, g: Grid, a: Cell, b: Cell)
    requires WellFormed(g, Size) && (me == 1 || me == 2)
    requires InRange(Size, a.row, a.column) && InRange(Size, b.row, b.column) && a != b
    requires At(g, a.row, a.column) == Empty && At(g, b.row, b.column) == Empty
    requires forall r, c :: InRange(Size, r, c) && Cell(r, c) != a && Cell(r, c) != b ==> At(g, r, c) != Empty
    requires !Wins(Set(g, a.row, a.column, me), Size, a.row, a.column, turn)
    requires !Wins(Set(Set(g, a.row, a.column, me), b.row, b.column, 3 - me), Size, b.row, b.column, turn)
    ensures MoveValue(me, turn, g, a) == MinInt
  {
    var x := MediumCtx(me, turn);
    var h := Set(g, a.row, a.column, me);
    var h2 := Set(h, b.row, b.column, 3 - me);
    OneEmptySweep(x, h, MaxDepth - 1, false, 1, 1, MaxInt, b);
    FilledSweep(x, h2, MaxDepth - 2, true, 1, 1, MinInt);
  }

  /** So with exactly two empty cells, no four to block and no win within the next two
      stones in either order, there is no move although the board is not full. */
  lemma MediumTwoEmptyFails(me: int, turn: int, g: Grid, a: Cell, b: Cell)
    requires WellFormed(g, Size) && (me == 1 || me == 2) && NoBlock(g, 3 - me)
    requires InRange(Size, a.row, a.column) && InRange(Size, b.row, b.column) && a != b
    requires At(g, a.row, a.column) == Empty && At(g, b.row, b.column) == Empty
    requires forall r, c :: InRange(Size, r, c) && Cell(r, c) != a && Cell(r, c) != b ==> At(g, r, c) != Empty
    requires !Wins(Set(g, a.row, a.column, me), Size, a.row, a.column, turn)
    requires !Wins(Set(Set(g, a.row, a.column, me), b.row, b.column, 3 - me), Size, b.row, b.column, turn)
    requires !Wins(Set(g, b.row, b.column, me), Size, b.row, b.column, turn)
    requires !Wins(Set(Set(g, b.row, b.column, me), a.row, a.column, 3 - me), Size, a.row, a.column, turn)
    ensures MediumMove(me, turn, g) == Err(NoValidMoves)
  {
    AllWithSpec(g, Empty);
    TwoEmptyValue(me, turn, g, a, b);
    TwoEmptyValue(me, turn, g, b, a);
    forall i | 0 <= i < |EmptyCells(g)|
      ensures InRange(Size, EmptyCells(g)[i].row, EmptyCells(g)[i].column)
      ensures MoveValue(me, turn, g, EmptyCells(g)[i]) <= MinInt
    {
      assert EmptyCells(g)[i] in AllWith(g, Empty);
    }
    MediumFails(me, turn, g);
  }

  /** On a full board there is no move. */
  lemma MediumFullBoard(me: int, turn: int, g: Grid)
    requires WellFormed(g, Size)
    requires forall r, c :: InRange(Size, r, c) ==> At(g, r, c) != Empty
    ensures MediumMove(me, turn, g) == Err(NoValidMoves)
  {
    var r, c, k := ScanAnswerSpec(g, 3 - me);
    if ScanAnswer(g, 3 - me) != Cell(0, 0) {
      assert false;
    }
    NoCellsWith(g, Empty, Size + 1, 1);
    BlockTest(g, me);
  }
}
