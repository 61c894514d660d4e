/** The Hard player: candidates are the empty cells within two rows and columns of a
    stone; with none it plays (Size / 2, Size / 2); otherwise it answers an opponent four
    that can still be completed, and failing that sorts the candidates by the board score
    after the move minus the distance to the centre and runs an iterative deepening at
    depths 1, 2 and 3 under the run-count evaluation, stopping early once the time
    budget is spent, keeping the first strictly best value over all passes. */
module Hard {
  import opened Grids
  import opened Lines
  import opened Results
  import opened EngineBoard
  import opened EngineGame
  import opened Evaluators
  import opened Blocking
  import opened Search
  import opened SearchTheory
  import opened Choice
  import opened RootMoves
  import opened Nearby
  import opened Ordering

  const MaxDepth: nat := 3
  const SearchDistance := 2
  /** Milliseconds after which no further depth is started. */
  const TimeBudget := 15000

  /** The search parameters of a Hard player numbered me while turn is to move. */
  function HardCtx(me: int, turn: int): SearchCtx
  {
    SearchCtx(RunCount, me, turn)
  }

  /** The run count after me plays at a: the score part of the sort key. */
  ghost function PlaceScore(g: Grid, me: int, a: Cell): int
    requires WellFormed(g, Size) && InRange(Size, a.row, a.column)
  {
    RunScore(Set(g, a.row, a.column, me), me)
  }

  /** Every cell of q is on the board. */
  ghost predicate OnBoard(q: seq<Cell>)
  {
    forall i :: 0 <= i < |q| ==> InRange(Size, q[i].row, q[i].column)
  }

  /** q is in ascending order of the sort key. */
  ghost predicate MoveOrdered(g: Grid, me: int, q: seq<Cell>)
    requires WellFormed(g, Size) && OnBoard(q)
  {
    forall i, j :: 0 <= i < j < |q| ==>
      KeyLe(PlaceScore(g, me, q[i]), q[i], PlaceScore(g, me, q[j]), q[j])
  }

  /** q lists every candidate of g exactly once. */
  ghost predicate Candidates(g: Grid, q: seq<Cell>)
    requires WellFormed(g, Size)
  {
    multiset(q) == multiset(NearbySet(g, SearchDistance))
  }

  /** The number of depths searched when the stopwatch reads elapsed[d - 1] after the
      pass at depth d. */
  function DepthsSearched(elapsed: seq<int>): (d: nat)
    requires |elapsed| == MaxDepth
    ensures 1 <= d <= MaxDepth
    ensures forall i :: 0 <= i < d - 1 ==> elapsed[i] <= TimeBudget
    ensures d < MaxDepth ==> elapsed[d - 1] > TimeBudget
  {
    PassesFrom(elapsed, 0)
  }

  function PassesFrom(elapsed: seq<int>, i: nat): (d: nat)
    requires |elapsed| == MaxDepth && i < MaxDepth
    ensures i + 1 <= d <= MaxDepth
    ensures forall k :: i <= k < d - 1 ==> elapsed[k] <= TimeBudget
    ensures d < MaxDepth ==> elapsed[d - 1] > TimeBudget
    decreases MaxDepth - i
  {
    if elapsed[i] > TimeBudget || i == MaxDepth - 1 then i + 1 else PassesFrom(elapsed, i + 1)
  }

  /** The deepening that first overruns the budget after the pass at depth stops there. */
  lemma StopsAt(elapsed: seq<int>, depth: nat)
    requires |elapsed| == MaxDepth && 1 <= depth <= MaxDepth
    requires forall i :: 0 <= i < depth - 1 ==> elapsed[i] <= TimeBudget
    requires elapsed[depth - 1] > TimeBudget
    ensures DepthsSearched(elapsed) == depth
  {
  }

  /** The move a Hard player numbered me chooses on g while turn is to move, with its
      candidates in the order order and depths passes of the deepening. */
  ghost function HardMove(me: int, turn: int, g: Grid, order: seq<Cell>, depths: nat): Result<Cell>
    requires WellFormed(g, Size)
  {
    if |order| == 0 then Ok(Cell(Size / 2, Size / 2))
    else
      var block := ScanAnswer(g, 3 - me);
      if block.row != 0 || block.column != 0 then Ok(block)
      else
        var pick := Fold(NoPick, DeepTrials(HardCtx(me, turn), g, order, depths));
        if pick.cell.row == -1 || pick.cell.column == -1 then Err(NoValidMoves) else Ok(pick.cell)
  }

  class AIPlayerHard {
    const playerNumber: int
    const board: Board
    var gomoku: Gomoku?
    var activePoints: seq<Cell>

    constructor (playerNumber: int, board: Board)
      ensures this.playerNumber == playerNumber && this.board == board
      ensures gomoku == null && activePoints == []
    {
      this.playerNumber := playerNumber;
      this.board := board;
      gomoku := null;
      activePoints := [];
    }

    /** The move for the game's current position. elapsed holds the stopwatch readings,
        in milliseconds, after each depth's pass. */
    method GetMove(game: Gomoku, elapsed: seq<int>) returns (move: Result<Cell>)
      requires game.Valid() && game.board == board && |elapsed| == MaxDepth
      modifies this, board, board.positions
      ensures gomoku == game && game.Valid() && board.cells == old(board.cells)
      ensures Candidates(old(board.cells), activePoints)
      ensures OnBoard(activePoints)
      ensures |activePoints| > 0 && ScanAnswer(old(board.cells), 3 - playerNumber) == Cell(0, 0) ==>
        MoveOrdered(old(board.cells), playerNumber, activePoints)
      ensures move == HardMove(playerNumber, game.currentPlayer, old(board.cells), activePoints, DepthsSearched(elapsed))
    {
      ghost var g := board.cells;
      gomoku := game;
      var nearby := GetNearbyEmptyPoints(SearchDistance);
      activePoints := Enumerate(nearby);
      CandidatesFree(g, activePoints);
      if |activePoints| == 0 {
        return Ok(Cell(Size / 2, Size / 2));
      }
      var cell := CheckOpponentWinningMove();
      if cell.row != 0 || cell.column != 0 {
        return Ok(cell);
      }
      activePoints := MoveOrder(activePoints);
      CandidatesFree(g, activePoints);
      var best := Deepen(elapsed);
      if best.cell.row == -1 || best.cell.column == -1 {
        return Err(NoValidMoves);
      }
      return Ok(best.cell);
    }

    /** The passes at depths 1, 2, ... over activePoints, all improving one running best,
        until the budget is spent after a pass or depth 3 is done. */
    method Deepen(elapsed: seq<int>) returns (best: Pick)
      requires gomoku != null && gomoku.Valid() && gomoku.board == board && |elapsed| == MaxDepth
      requires OnBoard(activePoints)
      modifies board, board.positions
      ensures gomoku.Valid() && board.cells == old(board.cells)
      ensures best == Fold(NoPick, DeepTrials(HardCtx(playerNumber, gomoku.currentPlayer), old(board.cells),
                                              activePoints, DepthsSearched(elapsed)))
    {
      ghost var g := board.cells;
      ghost var x := HardCtx(playerNumber, gomoku.currentPlayer);
      var bestScore, bestRow, bestColumn := MinInt, -1, -1;
      var depth := 1;
      while depth <= MaxDepth
        invariant 1 <= depth <= MaxDepth + 1
        invariant gomoku.Valid() && board.cells == g
        invariant forall i :: 0 <= i < depth - 1 ==> elapsed[i] <= TimeBudget
        invariant Pick(bestScore, Cell(bestRow, bestColumn)) == Fold(NoPick, DeepTrials(x, g, activePoints, depth - 1))
      {
        var pass := SearchPass(depth, Pick(bestScore, Cell(bestRow, bestColumn)));
        DeepTrialsStep(x, g, activePoints, depth);
        bestScore, bestRow, bestColumn := pass.score, pass.cell.row, pass.cell.column;
        if elapsed[depth - 1] > TimeBudget {
          StopsAt(elapsed, depth);
          break;
        }
        depth := depth + 1;
      }
      best := Pick(bestScore, Cell(bestRow, bestColumn));
    }

    /** One pass at depth over activePoints, in order, starting from the running best:
        each empty candidate whose value is strictly larger replaces it. */
    method SearchPass(depth: nat, start: Pick) returns (best: Pick)
      requires gomoku != null && gomoku.Valid() && gomoku.board == board && OnBoard(activePoints)
      modifies board, board.positions
      ensures gomoku.Valid() && board.cells == old(board.cells)
      ensures best == Fold(start, Trials(HardCtx(playerNumber, gomoku.currentPlayer), old(board.cells),
                                         depth, activePoints))
    {
      ghost var g := board.cells;
      ghost var x := HardCtx(playerNumber, gomoku.currentPlayer);
      best := start;
      var i := 0;
      while i < |activePoints|
        invariant 0 <= i <= |activePoints|
        invariant gomoku.Valid() && board.cells == g
        invariant best == Fold(start, Trials(x, g, depth, activePoints[..i]))
      {
        var a := activePoints[i];
        assert activePoints[..i + 1] == activePoints[..i] + [a];
        TrialsSnoc(x, g, depth, activePoints[..i], a);
        if At(g, a.row, a.column) == Empty {
          FoldSnoc(start, Trials(x, g, depth, activePoints[..i]), Trial(a, RootValue(x, g, depth, a)));
        } else {
          assert Trials(x, g, depth, activePoints[..i]) + [] == Trials(x, g, depth, activePoints[..i]);
        }
        best := TryCandidate(depth, a, best);
        i := i + 1;
      }
      assert activePoints[..i] == activePoints;
    }

    /** The body of a pass for candidate a: an occupied cell is skipped; an empty one
        is tried and replaces best when its value is strictly larger. */
    method TryCandidate(depth: nat, a: Cell, best: Pick) returns (next: Pick)
      requires gomoku != null && gomoku.Valid() && gomoku.board == board && InRange(Size, a.row, a.column)
      modifies board, board.positions
      ensures gomoku.Valid() && board.cells == old(board.cells)
      ensures next == if At(old(board.cells), a.row, a.column) == Empty
        then Improve(best, Trial(a, RootValue(HardCtx(playerNumber, gomoku.currentPlayer), old(board.cells), depth, a)))
        else best
    {
      next := best;
      if board.GetPosition(a.row, a.column) != Empty {
        return;
      }
      ghost var g := board.cells;
      board.SetPosition(a.row, a.column, playerNumber);
      var moveValue := MinMax(depth, a.row, a.column, false, MinInt, MaxInt);
      board.SetPosition(a.row, a.column, Empty);
      SetRestore(g, a.row, a.column, playerNumber);
      if moveValue > best.score {
        next := Pick(moveValue, a);
      }
    }

    /** The shared pruned search with the run-count evaluation. */
    method MinMax(depth: nat, row: int, column: int, maximizingPlayer: bool, alpha: int, beta: int) returns (value: int)
      requires gomoku != null && gomoku.Valid() && gomoku.board == board
      modifies board, board.positions
      ensures gomoku.Valid() && board.cells == old(board.cells)
      ensures value == AlphaBeta(HardCtx(playerNumber, gomoku.currentPlayer), old(board.cells),
                                 depth, row, column, maximizingPlayer, alpha, beta)
    {
      value := Search.MinMax(gomoku, board, HardCtx(playerNumber, gomoku.currentPlayer),
                             depth, row, column, maximizingPlayer, alpha, beta);
    }

    /** 100 per run of four at the player's stones, -100 per run at the other's. */
    method EvaluateBoard() returns (score: int)
      requires board.Valid()
      ensures score == RunScore(board.cells, playerNumber)
    {
      score := RunCountScore(board, playerNumber);
    }

    /** Whether a run of four of the stone at (row, column) starts there along direction. */
    method CheckSequence(row: int, column: int, direction: Dir) returns (s: int)
      requires board.Valid() && InRange(Size, row, column)
      ensures s == 1 <==> RunStart(board.cells, row, column, direction)
      ensures s == 0 || s == 1
    {
      s := Evaluators.CheckSequence(board, row, column, direction);
    }

    /** The shared forced-block scan for opponent 3 - playerNumber. */
    method CheckOpponentWinningMove() returns (cell: Cell)
      requires board.Valid()
      ensures cell == ScanAnswer(board.cells, 3 - playerNumber)
    {
      cell := Blocking.CheckOpponentWinningMove(board, playerNumber);
    }

    /** The empty cells within searchDistance rows and columns of some stone. */
    method GetNearbyEmptyPoints(searchDistance: int) returns (nearby: set<Cell>)
      requires board.Valid()
      ensures nearby == NearbySet(board.cells, searchDistance)
    {
      nearby := Nearby.GetNearbyEmptyPoints(board, searchDistance);
    }

    /** The moves sorted in ascending order of the sort key, each move's run count taken
        by playing it and taking it back. */
    method MoveOrder(moves: seq<Cell>) returns (ordered: seq<Cell>)
      requires board.Valid() && forall a :: a in moves ==> Free(board.cells, a)
      modifies board, board.positions
      ensures board.Valid() && board.cells == old(board.cells)
      ensures multiset(ordered) == multiset(moves)
      ensures OnBoard(ordered) && MoveOrdered(old(board.cells), playerNumber, ordered)
    {
      var score := ScoreMoves(moves);
      ordered := SortByKey(moves, score);
      KeysAreScores(board.cells, playerNumber, ordered, score);
    }

    /** The run count after each move, the board restored after each. */
    method ScoreMoves(moves: seq<Cell>) returns (score: map<Cell, int>)
      requires board.Valid() && forall a :: a in moves ==> Free(board.cells, a)
      modifies board, board.positions
      ensures board.Valid() && board.cells == old(board.cells)
      ensures Scored(moves, score)
      ensures forall a :: a in score ==> InRange(Size, a.row, a.column) && score[a] == PlaceScore(board.cells, playerNumber, a)
    {
      ghost var g := board.cells;
      score := map[];
      var i := 0;
      while i < |moves|
        invariant 0 <= i <= |moves|
        invariant board.Valid() && board.cells == g
        invariant forall a :: a in score ==> InRange(Size, a.row, a.column) && score[a] == PlaceScore(g, playerNumber, a)
        invariant forall k :: 0 <= k < i ==> moves[k] in score
      {
        var a := moves[i];
        assert a in moves;
        board.SetPosition(a.row, a.column, playerNumber);
        var s := EvaluateBoard();
        board.SetPosition(a.row, a.column, Empty);
        SetRestore(g, a.row, a.column, playerNumber);
        score := score[a := s];
        i := i + 1;
      }
      forall a | a in moves ensures a in score {
        var k :| 0 <= k < |moves| && moves[k] == a;
      }
    }
  }

  /** Sorted by precomputed run counts is sorted by the key. */
  lemma KeysAreScores(g: Grid, me: int, q: seq<Cell>, score: map<Cell, int>)
    requires WellFormed(g, Size) && Scored(q, score) && SortedBy(q, score)
    requires forall a :: a in score ==> InRange(Size, a.row, a.column) && score[a] == PlaceScore(g, me, a)
    ensures OnBoard(q) && MoveOrdered(g, me, q)
  {
  }

  /** Candidates are empty cells of the board. */
  lemma CandidatesFree(g: Grid, q: seq<Cell>)
    requires WellFormed(g, Size) && Candidates(g, q)
    ensures forall a :: a in q ==> Free(g, a)
    ensures OnBoard(q) && AllEmpty(g, q)
  {
    forall a | a in q ensures Free(g, a) {
      assert a in multiset(q);
      assert a in NearbySet(g, SearchDistance);
    }
    forall i | 0 <= i < |q| ensures Free(g, q[i]) {
      assert q[i] in q;
    }
  }

  /** The exact value of playing the Hard player's stone at a, searched to depth. */
  ghost function HardValue(me: int, turn: int, g: Grid, depth: nat, a: Cell): int
    requires WellFormed(g, Size) && InRange(Size, a.row, a.column)
  {
    Minimax(HardCtx(me, turn), Set(g, a.row, a.column, me), depth, a.row, a.column, false)
  }

  /** On an empty board there is no candidate and the move is (7, 7). */
  lemma HardEmptyBoard(me: int, turn: int, g: Grid, order: seq<Cell>, depths: nat)
    requires WellFormed(g, Size) && Candidates(g, order)
    requires forall r, c :: InRange(Size, r, c) ==> At(g, r, c) == Empty
    ensures order == [] && HardMove(me, turn, g, order, depths) == Ok(Cell(7, 7))
  {
    forall a ensures a !in NearbySet(g, SearchDistance) {
      NoStonesNoCandidates(g, SearchDistance, a);
    }
    assert NearbySet(g, SearchDistance) == {};
    assert |multiset(order)| == 0;
  }

  /** On a full board there is no candidate either, and the move is (7, 7) although
      that cell holds a stone: nothing before the call detects a drawn game. */
  lemma HardFullBoard(me: int, turn: int, g: Grid, order: seq<Cell>, depths: nat)
    requires WellFormed(g, Size) && Candidates(g, order)
    requires forall r, c :: InRange(Size, r, c) ==> At(g, r, c) != Empty
    ensures order == [] && HardMove(me, turn, g, order, depths) == Ok(Cell(7, 7))
    ensures At(g, 7, 7) != Empty
  {
    assert NearbySet(g, SearchDistance) == {};
    assert |multiset(order)| == 0;
  }

  /** The scan answers (0, 0) exactly when there is no four to block, and otherwise an
      empty cell. */
  lemma BlockAnswer(g: Grid, me: int)
    requires WellFormed(g, Size)
    ensures NoBlock(g, 3 - me) <==> ScanAnswer(g, 3 - me) == Cell(0, 0)
    ensures !NoBlock(g, 3 - me) ==> Free(g, ScanAnswer(g, 3 - me))
  {
    var _, _, _ := ScanAnswerSpec(g, 3 - me);
  }

  /** With candidates and an opponent four that can still be completed, the move is the
      cell completing the first such four in scan order, an empty cell. */
  lemma HardBlocks(me: int, turn: int, g: Grid, order: seq<Cell>, depths: nat)
    requires WellFormed(g, Size) && |order| > 0 && !NoBlock(g, 3 - me)
    ensures HardMove(me, turn, g, order, depths) == Ok(ScanAnswer(g, 3 - me))
    ensures Free(g, ScanAnswer(g, 3 - me))
  {
    BlockAnswer(g, me);
  }

  /** Some trial of a deepening with at least one pass over a non-empty list of empty
      cells is worth more than MinInt: the first one, at depth 1. */
  lemma FirstTrialAboveMin(x: SearchCtx, g: Grid, order: seq<Cell>, depths: nat)
    requires WellFormed(g, Size) && AllEmpty(g, order) && |order| > 0 && depths >= 1
    ensures |DeepTrials(x, g, order, depths)| > 0 && DeepTrials(x, g, order, depths)[0].value > MinInt
  {
    DeepTrialsFirstPass(x, g, order, depths);
    TrialsOfEmpty(x, g, 1, order);
    DepthOneTrialAboveMin(x, g, order[0]);
  }

  /** Whenever there is a candidate the move is an empty cell of the board: the
      search never reports that it found no move. */
  lemma HardNeverFails(me: int, turn: int, g: Grid, order: seq<Cell>, depths: nat)
    requires WellFormed(g, Size) && Candidates(g, order) && |order| > 0 && depths >= 1
    ensures HardMove(me, turn, g, order, depths).Ok?
    ensures Free(g, HardMove(me, turn, g, order, depths).value)
  {
    if NoBlock(g, 3 - me) {
      var j, k, i := HardPicksBest(me, turn, g, order, depths);
    } else {
      HardBlocks(me, turn, g, order, depths);
    }
  }

  /** The selection over an iterative deepening of a non-empty list of empty cells
      picks a trial of a cell of the list at one of the depths, whose root value is above
      MinInt and at least the root value of every cell at every depth. */
  lemma DeepBest(x: SearchCtx, g: Grid, order: seq<Cell>, depths: nat) returns (j: int, k: int, i: int)
    requires WellFormed(g, Size) && AllEmpty(g, order) && |order| > 0 && depths >= 1
    ensures 1 <= k <= depths && 0 <= i < |order| && InRange(Size, order[i].row, order[i].column)
    ensures Fold(NoPick, DeepTrials(x, g, order, depths)) == Pick(RootValue(x, g, k, order[i]), order[i])
    ensures RootValue(x, g, k, order[i]) > MinInt
    ensures forall k', i' :: 1 <= k' <= depths && 0 <= i' < |order| ==>
      InRange(Size, order[i'].row, order[i'].column) &&
      RootValue(x, g, k', order[i']) <= RootValue(x, g, k, order[i])
    ensures var ts := DeepTrials(x, g, order, depths);
      0 <= j < |ts| && ts[j] == Trial(order[i], RootValue(x, g, k, order[i])) &&
      forall m :: 0 <= m < j ==> ts[m].value < ts[j].value
  {
    var ts := DeepTrials(x, g, order, depths);
    DeepTrialsMembers(x, g, order, depths);
    FirstTrialAboveMin(x, g, order, depths);
    j := FoldFirstMax(NoPick, ts);
    assert ts[0].value > MinInt;
    assert ts[j] in ts;
    k, i :| 1 <= k <= depths && 0 <= i < |order| && InRange(Size, order[i].row, order[i].column) &&
      ts[j] == Trial(order[i], RootValue(x, g, k, order[i]));
    forall k', i' | 1 <= k' <= depths && 0 <= i' < |order|
      ensures InRange(Size, order[i'].row, order[i'].column) &&
        RootValue(x, g, k', order[i']) <= RootValue(x, g, k, order[i])
    {
      var t := Trial(order[i'], RootValue(x, g, k', order[i']));
      assert t in ts;
      var m :| 0 <= m < |ts| && ts[m] == t;
    }
  }

  /** Without a four to block, the move is a candidate whose exact minimax value at one
      of the searched depths is at least the value of every candidate at every searched
      depth, and above MinInt; among equal values the first trial in pass order wins. */
  lemma HardPicksBest(me: int, turn: int, g: Grid, order: seq<Cell>, depths: nat) returns (j: int, k: int, i: int)
    requires WellFormed(g, Size) && Candidates(g, order) && |order| > 0 && depths >= 1 && NoBlock(g, 3 - me)
    ensures 1 <= k <= depths && 0 <= i < |order| && Free(g, order[i])
    ensures HardMove(me, turn, g, order, depths) == Ok(order[i])
    ensures HardValue(me, turn, g, k, order[i]) > MinInt
    ensures forall k', i' :: 1 <= k' <= depths && 0 <= i' < |order| ==>
      InRange(Size, order[i'].row, order[i'].column) &&
      HardValue(me, turn, g, k', order[i']) <= HardValue(me, turn, g, k, order[i])
    ensures var ts := DeepTrials(HardCtx(me, turn), g, order, depths);
      0 <= j < |ts| && ts[j] == Trial(order[i], HardValue(me, turn, g, k, order[i])) &&
      forall m :: 0 <= m < j ==> ts[m].value < ts[j].value
  {
    var x := HardCtx(me, turn);
    CandidatesFree(g, order);
    BlockAnswer(g, me);
    j, k, i := DeepBest(x, g, order, depths);
    assert order[i] in order;
    RootValueExact(x, g, k, order[i]);
    forall k', i' | 1 <= k' <= depths && 0 <= i' < |order|
      ensures InRange(Size, order[i'].row, order[i'].column) &&
        HardValue(me, turn, g, k', order[i']) <= HardValue(me, turn, g, k, order[i])
    {
      RootValueExact(x, g, k', order[i']);
    }
  }
}
