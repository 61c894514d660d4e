/** The depth-limited alpha-beta search shared, in identical code, by the Medium and
    Hard players. A node is the board just after a stone was placed at (row, column);
    the line of play ends there when the depth is used up or when the game's current
    player has five in a row through that cell. The maximiser places the searching
    player's stone and the minimiser places stone 3 - that number, trying every empty
    cell in row-major order and putting each trial stone back to empty afterwards. */
module Search {
  import opened Grids
  import opened Lines
  import opened EngineBoard
  import opened Evaluators
  import opened EngineGame

  /** The bounds of a 32-bit signed integer, the initial values of best, alpha and beta. */
  const MinInt: int := -0x8000_0000
  const MaxInt: int := 0x7fff_ffff

  /** Which static evaluation the search applies at its leaves. */
  datatype Evaluator = StoneCount | RunCount

  /** The fixed parameters of one search: the evaluation, the searching player's number
      and the game's current player, which is the only player whose five in a row ends
      a line of play. */
  datatype SearchCtx = SearchCtx(ev: Evaluator, me: int, turn: int)

  function Max(a: int, b: int): int { if a >= b then a else b }
  function Min(a: int, b: int): int { if a <= b then a else b }

  /** The stone the side to move places. */
  function Stone(x: SearchCtx, maximizing: bool): int
  {
    if maximizing then x.me else 3 - x.me
  }

  /** The static evaluation of a leaf. */
  ghost function Score(x: SearchCtx, g: Grid): int
    requires WellFormed(g, Size)
  {
    match x.ev
    case StoneCount => StoneScore(g, x.me)
    case RunCount => RunScore(g, x.me)
  }

  /** The value of a node without pruning: the evaluation at a leaf, otherwise the
      largest (maximiser) or smallest (minimiser) child value, starting from the
      minimum or maximum 32-bit value. */
  ghost function Minimax(x: SearchCtx, g: Grid, depth: nat, row: int, column: int, maximizing: bool): int
    requires WellFormed(g, Size)
    decreases depth, 1, 0, 0
  {
    if depth == 0 || Wins(g, Size, row, column, x.turn) then Score(x, g)
    else Sweep(x, g, depth - 1, maximizing, 1, 1, if maximizing then MinInt else MaxInt)
  }

  /** The children of a node from cell (row, column) on, in row-major order, folded
      into best. */
  ghost function Sweep(x: SearchCtx, g: Grid, d: nat, maximizing: bool, row: int, column: int, best: int): int
    requires WellFormed(g, Size) && 1 <= row <= Size + 1 && 1 <= column <= Size + 1
    decreases d + 1, 0, |g| + 1 - row, |g| + 1 - column
  {
    if row > Size then best
    else if column > Size then Sweep(x, g, d, maximizing, row + 1, 1, best)
    else if At(g, row, column) != Empty then Sweep(x, g, d, maximizing, row, column + 1, best)
    else
      var v := Minimax(x, Set(g, row, column, Stone(x, maximizing)), d, row, column, !maximizing);
      Sweep(x, g, d, maximizing, row, column + 1, if maximizing then Max(best, v) else Min(best, v))
  }

  /** The value the pruned search computes for a node with window (alpha, beta). */
  ghost function AlphaBeta(x: SearchCtx, g: Grid, depth: nat, row: int, column: int, maximizing: bool,
                           alpha: int, beta: int): int
    requires WellFormed(g, Size)
    decreases depth, 1, 0, 0
  {
    if depth == 0 || Wins(g, Size, row, column, x.turn) then Score(x, g)
    else PrunedSweep(x, g, depth - 1, maximizing, 1, 1, alpha, beta, if maximizing then MinInt else MaxInt)
  }

  /** The pruned children sweep from cell (row, column) on. After every child the
      maximiser raises alpha to best (the minimiser lowers beta to best) and the sweep
      stops once beta <= alpha; the same test is made again at the end of every row. */
  ghost function PrunedSweep(x: SearchCtx, g: Grid, d: nat, maximizing: bool, row: int, column: int,
                             alpha: int, beta: int, best: int): int
    requires WellFormed(g, Size) && 1 <= row <= Size + 1 && 1 <= column <= Size + 1
    decreases d + 1, 0, |g| + 1 - row, |g| + 1 - column
  {
    if row > Size then best
    else if column > Size then
      if beta <= alpha then best else PrunedSweep(x, g, d, maximizing, row + 1, 1, alpha, beta, best)
    else if At(g, row, column) != Empty then PrunedSweep(x, g, d, maximizing, row, column + 1, alpha, beta, best)
    else
      var v := AlphaBeta(x, Set(g, row, column, Stone(x, maximizing)), d, row, column, !maximizing, alpha, beta);
      if maximizing then
        var best' := Max(best, v);
        var alpha' := Max(alpha, best');
        if beta <= alpha' then best' else PrunedSweep(x, g, d, maximizing, row, column + 1, alpha', beta, best')
      else
        var best' := Min(best, v);
        var beta' := Min(beta, best');
        if alpha >= beta' then best' else PrunedSweep(x, g, d, maximizing, row, column + 1, alpha, beta', best')
  }

  /** The leaf evaluation of the board. */
  method Evaluate(board: Board, x: SearchCtx) returns (score: int)
    requires board.Valid()
    ensures score == Score(x, board.cells)
  {
    match x.ev {
      case StoneCount =>
        score := StoneCountScore(board, x.me);
      case RunCount =>
        score := RunCountScore(board, x.me);
    }
  }

  /** The search itself, on the shared board: it computes the pruned value of the node
      and leaves the board as it found it. */
  method MinMax(game: Gomoku, board: Board, x: SearchCtx, depth: nat, row: int, column: int,
                maximizing: bool, alpha: int, beta: int) returns (value: int)
    requires game.Valid() && game.board == board && x.turn == game.currentPlayer
    modifies board, board.positions
    ensures game.Valid() && board.cells == old(board.cells)
    ensures value == AlphaBeta(x, old(board.cells), depth, row, column, maximizing, alpha, beta)
    decreases depth
  {
    if depth == 0 {
      value := Evaluate(board, x);
      return;
    }
    var over := game.IsGameOver(row, column);
    if over {
      value := Evaluate(board, x);
      return;
    }
    ghost var g := board.cells;
    var stone := if maximizing then x.me else 3 - x.me;
    var best := if maximizing then MinInt else MaxInt;
    var a, b := alpha, beta;
    ghost var goal := PrunedSweep(x, g, depth - 1, maximizing, 1, 1, a, b, best);
    var newRow := 1;
    while newRow <= Size
      invariant 1 <= newRow <= Size + 1
      invariant game.Valid() && board.cells == g
      invariant PrunedSweep(x, g, depth - 1, maximizing, newRow, 1, a, b, best) == goal
    {
      var newColumn := 1;
      while newColumn <= Size
        invariant 1 <= newColumn <= Size + 1
        invariant game.Valid() && board.cells == g
        invariant PrunedSweep(x, g, depth - 1, maximizing, newRow, newColumn, a, b, best) == goal
      {
        if board.GetPosition(newRow, newColumn) != Empty {
          newColumn := newColumn + 1;
          continue;
        }
        board.SetPosition(newRow, newColumn, stone);
        var v := MinMax(game, board, x, depth - 1, newRow, newColumn, !maximizing, a, b);
        board.SetPosition(newRow, newColumn, Empty);
        SetRestore(g, newRow, newColumn, stone);
        if maximizing {
          best := Max(best, v);
          a := Max(a, best);
          if b <= a {
            return best;
          }
        } else {
          best := Min(best, v);
          b := Min(b, best);
          if a >= b {
            return best;
          }
        }
        newColumn := newColumn + 1;
      }
      if b <= a {
        break;
      }
      newRow := newRow + 1;
    }
    value := best;
  }
}
