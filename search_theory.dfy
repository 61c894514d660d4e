/** What the pruning in the shared search preserves: the pruned value of a node is a
    fail-soft bound on its plain minimax value, and with the root window
    (MinInt, MaxInt) the two are equal, so pruning never changes a move's value. */
module SearchTheory {
  import opened Grids
  import opened Lines
  import opened EngineBoard
  import opened Evaluators
  import opened Search

  /** The fail-soft relation between a pruned result r and the true value v for the
      window (alpha, beta): a result at or below alpha is an upper bound, a result at
      or above beta is a lower bound, and a result strictly inside is exact. */
  predicate FailSoft(alpha: int, beta: int, r: int, v: int)
  {
    (r <= alpha ==> v <= r) && (r >= beta ==> v >= r) && (alpha < r < beta ==> v == r)
  }

  /** A maximising sweep never ends below its running best, a minimising one never
      above it. */
  lemma {:induction false} SweepMonotone(x: SearchCtx, g: Grid, d: nat, maximizing: bool, row: int, column: int, best: int)
    requires WellFormed(g, Size) && 1 <= row <= Size + 1 && 1 <= column <= Size + 1
    ensures maximizing ==> Sweep(x, g, d, maximizing, row, column, best) >= best
    ensures !maximizing ==> Sweep(x, g, d, maximizing, row, column, best) <= best
    decreases Size + 1 - row, Size + 1 - column
  {
    if row > Size {
    } else if column > Size {
      SweepMonotone(x, g, d, maximizing, row + 1, 1, best);
    } else if At(g, row, column) != Empty {
      SweepMonotone(x, g, d, maximizing, row, column + 1, best);
    } else {
      var v := Minimax(x, Set(g, row, column, Stone(x, maximizing)), d, row, column, !maximizing);
      SweepMonotone(x, g, d, maximizing, row, column + 1, if maximizing then Max(best, v) else Min(best, v));
    }
  }

  /** Every cell from (row, column) on, in row-major order, holds a stone. */
  ghost predicate FilledFrom(g: Grid, row: int, column: int)
    requires WellFormed(g, Size)
  {
    forall r, c :: InRange(Size, r, c) && (r > row || (r == row && c >= column)) ==> At(g, r, c) != Empty
  }

  /** A sweep over cells that are all taken tries nothing and returns its running best. */
  lemma {:induction false} FilledSweep(x: SearchCtx, g: Grid, d: nat, maximizing: bool, row: int, column: int, best: int)
    requires WellFormed(g, Size) && 1 <= row <= Size + 1 && 1 <= column <= Size + 1
    requires FilledFrom(g, row, column)
    ensures Sweep(x, g, d, maximizing, row, column, best) == best
    decreases Size + 1 - row, Size + 1 - column
  {
    if row > Size {
    } else if column > Size {
      FilledSweep(x, g, d, maximizing, row + 1, 1, best);
    } else {
      assert At(g, row, column) != Empty;
      FilledSweep(x, g, d, maximizing, row, column + 1, best);
    }
  }

  /** A sweep that still has the board's only empty cell b ahead of it folds exactly
      one child value, the node after the side to move plays b. */
  lemma {:induction false} OneEmptySweep(x: SearchCtx, g: Grid, d: nat, maximizing: bool, row: int, column: int,
                                         best: int, b: Cell)
    requires WellFormed(g, Size) && 1 <= row <= Size + 1 && 1 <= column <= Size + 1
    requires InRange(Size, b.row, b.column) && At(g, b.row, b.column) == Empty
    requires forall r, c :: InRange(Size, r, c) && Cell(r, c) != b ==> At(g, r, c) != Empty
    requires b.row > row || (b.row == row && b.column >= column)
    ensures var v := Minimax(x, Set(g, b.row, b.column, Stone(x, maximizing)), d, b.row, b.column, !maximizing);
      Sweep(x, g, d, maximizing, row, column, best) == if maximizing then Max(best, v) else Min(best, v)
    decreases Size + 1 - row, Size + 1 - column
  {
    if column > Size {
      OneEmptySweep(x, g, d, maximizing, row + 1, 1, best, b);
    } else if Cell(row, column) == b {
      var v := Minimax(x, Set(g, row, column, Stone(x, maximizing)), d, row, column, !maximizing);
      FilledSweep(x, g, d, maximizing, row, column + 1, if maximizing then Max(best, v) else Min(best, v));
    } else {
      assert At(g, row, column) != Empty;
      OneEmptySweep(x, g, d, maximizing, row, column + 1, best, b);
    }
  }

  /** The pruned value of every node is fail-soft for its window. */
  lemma {:induction false} AlphaBetaFailSoft(x: SearchCtx, g: Grid, depth: nat, row: int, column: int, maximizing: bool,
                                             alpha: int, beta: int)
    requires WellFormed(g, Size) && MinInt <= alpha < beta <= MaxInt
    ensures FailSoft(alpha, beta, AlphaBeta(x, g, depth, row, column, maximizing, alpha, beta),
                     Minimax(x, g, depth, row, column, maximizing))
    decreases depth, 1, 0, 0
  {
    if depth == 0 || Wins(g, Size, row, column, x.turn) {
    } else if maximizing {
      MaxSweepFailSoft(x, g, depth - 1, 1, 1, alpha, alpha, beta, MinInt, MinInt);
    } else {
      MinSweepFailSoft(x, g, depth - 1, 1, 1, alpha, beta, beta, MaxInt, MaxInt);
    }
  }

  /** The maximiser's sweep: with a == Max(alpha, best) below beta, and the running
      true maximum m equal to best once best is above alpha (and at most best
      otherwise), the pruned sweep is fail-soft for the true sweep. */
  lemma {:induction false} MaxSweepFailSoft(x: SearchCtx, g: Grid, d: nat, row: int, column: int,
                                            alpha: int, a: int, beta: int, best: int, m: int)
    requires WellFormed(g, Size) && 1 <= row <= Size + 1 && 1 <= column <= Size + 1
    requires MinInt <= alpha && beta <= MaxInt
    requires a == Max(alpha, best) && a < beta
    requires best <= alpha ==> m <= best
    requires best > alpha ==> m == best
    ensures FailSoft(alpha, beta, PrunedSweep(x, g, d, true, row, column, a, beta, best),
                     Sweep(x, g, d, true, row, column, m))
    decreases d + 1, 0, Size + 1 - row, Size + 1 - column
  {
    if row > Size {
    } else if column > Size {
      MaxSweepFailSoft(x, g, d, row + 1, 1, alpha, a, beta, best, m);
    } else if At(g, row, column) != Empty {
      MaxSweepFailSoft(x, g, d, row, column + 1, alpha, a, beta, best, m);
    } else {
      var h := Set(g, row, column, Stone(x, true));
      var r := AlphaBeta(x, h, d, row, column, false, a, beta);
      var u := Minimax(x, h, d, row, column, false);
      AlphaBetaFailSoft(x, h, d, row, column, false, a, beta);
      var best' := Max(best, r);
      var a' := Max(a, best');
      var m' := Max(m, u);
      if beta <= a' {
        assert r >= beta && u >= r;
        SweepMonotone(x, g, d, true, row, column + 1, m');
      } else {
        MaxSweepFailSoft(x, g, d, row, column + 1, alpha, a', beta, best', m');
      }
    }
  }

  /** The minimiser's sweep, the mirror image of MaxSweepFailSoft. */
  lemma {:induction false} MinSweepFailSoft(x: SearchCtx, g: Grid, d: nat, row: int, column: int,
                                            alpha: int, beta: int, b: int, best: int, m: int)
    requires WellFormed(g, Size) && 1 <= row <= Size + 1 && 1 <= column <= Size + 1
    requires MinInt <= alpha && beta <= MaxInt
    requires b == Min(beta, best) && alpha < b
    requires best >= beta ==> m >= best
    requires best < beta ==> m == best
    ensures FailSoft(alpha, beta, PrunedSweep(x, g, d, false, row, column, alpha, b, best),
                     Sweep(x, g, d, false, row, column, m))
    decreases d + 1, 0, Size + 1 - row, Size + 1 - column
  {
    if row > Size {
    } else if column > Size {
      MinSweepFailSoft(x, g, d, row + 1, 1, alpha, beta, b, best, m);
    } else if At(g, row, column) != Empty {
      MinSweepFailSoft(x, g, d, row, column + 1, alpha, beta, b, best, m);
    } else {
      var h := Set(g, row, column, Stone(x, false));
      var r := AlphaBeta(x, h, d, row, column, true, alpha, b);
      var u := Minimax(x, h, d, row, column, true);
      AlphaBetaFailSoft(x, h, d, row, column, true, alpha, b);
      var best' := Min(best, r);
      var b' := Min(b, best');
      var m' := Min(m, u);
      if alpha >= b' {
        assert r <= alpha && u <= r;
        SweepMonotone(x, g, d, false, row, column + 1, m');
      } else {
        MinSweepFailSoft(x, g, d, row, column + 1, alpha, beta, b', best', m');
      }
    }
  }

  /** Every static evaluation lies within 32-bit range. */
  lemma ScoreInRange(x: SearchCtx, g: Grid)
    requires WellFormed(g, Size)
    ensures -90000 <= Score(x, g) <= 90000
  {
    StoneScoreBounds(g, x.me);
    RunScoreBounds(g, x.me);
  }

  /** Every true node value is a 32-bit integer. */
  lemma {:induction false} MinimaxInRange(x: SearchCtx, g: Grid, depth: nat, row: int, column: int, maximizing: bool)
    requires WellFormed(g, Size)
    ensures MinInt <= Minimax(x, g, depth, row, column, maximizing) <= MaxInt
    decreases depth, 1, 0, 0
  {
    if depth == 0 || Wins(g, Size, row, column, x.turn) {
      ScoreInRange(x, g);
    } else {
      SweepInRange(x, g, depth - 1, maximizing, 1, 1, if maximizing then MinInt else MaxInt);
    }
  }

  lemma {:induction false} SweepInRange(x: SearchCtx, g: Grid, d: nat, maximizing: bool, row: int, column: int, best: int)
    requires WellFormed(g, Size) && 1 <= row <= Size + 1 && 1 <= column <= Size + 1
    requires MinInt <= best <= MaxInt
    ensures MinInt <= Sweep(x, g, d, maximizing, row, column, best) <= MaxInt
    decreases d + 1, 0, Size + 1 - row, Size + 1 - column
  {
    if row > Size {
    } else if column > Size {
      SweepInRange(x, g, d, maximizing, row + 1, 1, best);
    } else if At(g, row, column) != Empty {
      SweepInRange(x, g, d, maximizing, row, column + 1, best);
    } else {
      var v := Minimax(x, Set(g, row, column, Stone(x, maximizing)), d, row, column, !maximizing);
      MinimaxInRange(x, Set(g, row, column, Stone(x, maximizing)), d, row, column, !maximizing);
      SweepInRange(x, g, d, maximizing, row, column + 1, if maximizing then Max(best, v) else Min(best, v));
    }
  }

  /** With the root window the pruned search computes exactly the minimax value. */
  lemma RootWindowExact(x: SearchCtx, g: Grid, depth: nat, row: int, column: int, maximizing: bool)
    requires WellFormed(g, Size)
    ensures AlphaBeta(x, g, depth, row, column, maximizing, MinInt, MaxInt) ==
            Minimax(x, g, depth, row, column, maximizing)
  {
    AlphaBetaFailSoft(x, g, depth, row, column, maximizing, MinInt, MaxInt);
    MinimaxInRange(x, g, depth, row, column, maximizing);
  }

  /** A minimising sweep over leaves never ends below the lower of its running best
      and the lowest static evaluation. */
  lemma {:induction false} LeafSweepFloor(x: SearchCtx, g: Grid, row: int, column: int, best: int)
    requires WellFormed(g, Size) && 1 <= row <= Size + 1 && 1 <= column <= Size + 1
    ensures Sweep(x, g, 0, false, row, column, best) >= Min(best, -90000)
    decreases Size + 1 - row, Size + 1 - column
  {
    if row > Size {
    } else if column > Size {
      LeafSweepFloor(x, g, row + 1, 1, best);
    } else if At(g, row, column) != Empty {
      LeafSweepFloor(x, g, row, column + 1, best);
    } else {
      var h := Set(g, row, column, Stone(x, false));
      ScoreInRange(x, h);
      LeafSweepFloor(x, g, row, column + 1, Min(best, Minimax(x, h, 0, row, column, true)));
    }
  }

  /** A minimising node one level above the leaves is worth more than MinInt: it is a
      leaf itself, or the smallest of some leaf values below MaxInt. */
  lemma DepthOneAboveMin(x: SearchCtx, g: Grid, row: int, column: int)
    requires WellFormed(g, Size)
    ensures Minimax(x, g, 1, row, column, false) > MinInt
  {
    if Wins(g, Size, row, column, x.turn) {
      ScoreInRange(x, g);
    } else {
      LeafSweepFloor(x, g, 1, 1, MaxInt);
    }
  }
}
