/** The root of the Medium and Hard searches: every candidate cell that is on the board
    and empty is tried with the searching player's stone and valued by the pruned
    search at a minimising node with the root window; the move kept is the running
    best, replaced only by a strictly larger value. */
module RootMoves {
  import opened Grids
  import opened Lines
  import opened EngineBoard
  import opened Search
  import opened SearchTheory
  import opened Choice

  /** The selection's start: score MinInt and the sentinel cell (-1, -1). */
  const NoPick := Pick(MinInt, Cell(-1, -1))

  /** The value of playing the searching player's stone at cell, searched to depth. */
  ghost function RootValue(x: SearchCtx, g: Grid, depth: nat, cell: Cell): int
    requires WellFormed(g, Size) && InRange(Size, cell.row, cell.column)
  {
    AlphaBeta(x, Set(g, cell.row, cell.column, x.me), depth, cell.row, cell.column, false, MinInt, MaxInt)
  }

  /** The root value is the plain minimax value of the move: pruning loses nothing. */
  lemma RootValueExact(x: SearchCtx, g: Grid, depth: nat, cell: Cell)
    requires WellFormed(g, Size) && InRange(Size, cell.row, cell.column)
    ensures RootValue(x, g, depth, cell) ==
      Minimax(x, Set(g, cell.row, cell.column, x.me), depth, cell.row, cell.column, false)
  {
    RootWindowExact(x, Set(g, cell.row, cell.column, x.me), depth, cell.row, cell.column, false);
  }

  /** The candidates of cells, in order, skipping cells that are off the board or not
      empty, each with its root value at depth. */
  ghost function Trials(x: SearchCtx, g: Grid, depth: nat, cells: seq<Cell>): seq<Trial>
    requires WellFormed(g, Size)
    decreases |cells|
  {
    if cells == [] then []
    else
      var last := cells[|cells| - 1];
      Trials(x, g, depth, cells[..|cells| - 1]) +
      if InRange(Size, last.row, last.column) && At(g, last.row, last.column) == Empty
      then [Trial(last, RootValue(x, g, depth, last))] else []
  }

  /** Extending the candidate cells by one extends the trials by that cell, if it is
      on the board and empty. */
  lemma TrialsSnoc(x: SearchCtx, g: Grid, depth: nat, cells: seq<Cell>, cell: Cell)
    requires WellFormed(g, Size)
    ensures Trials(x, g, depth, cells + [cell]) == Trials(x, g, depth, cells) +
      if InRange(Size, cell.row, cell.column) && At(g, cell.row, cell.column) == Empty
      then [Trial(cell, RootValue(x, g, depth, cell))] else []
  {
    assert (cells + [cell])[..|cells|] == cells;
  }

  /** Every trial is an on-board empty candidate cell with its root value. */
  lemma {:induction false} TrialsMembers(x: SearchCtx, g: Grid, depth: nat, cells: seq<Cell>)
    requires WellFormed(g, Size)
    ensures forall t :: t in Trials(x, g, depth, cells) ==>
      t.cell in cells && InRange(Size, t.cell.row, t.cell.column) &&
      At(g, t.cell.row, t.cell.column) == Empty && t.value == RootValue(x, g, depth, t.cell)
    decreases |cells|
  {
    if cells != [] {
      var init := cells[..|cells| - 1];
      var last := cells[|cells| - 1];
      TrialsMembers(x, g, depth, init);
      assert cells == init + [last];
      TrialsSnoc(x, g, depth, init, last);
    }
  }

  /** Only on-board empty cells to try: one trial per cell, in order. */
  ghost predicate AllEmpty(g: Grid, cells: seq<Cell>)
    requires WellFormed(g, Size)
  {
    forall i :: 0 <= i < |cells| ==>
      InRange(Size, cells[i].row, cells[i].column) && At(g, cells[i].row, cells[i].column) == Empty
  }

  lemma {:induction false} TrialsOfEmpty(x: SearchCtx, g: Grid, depth: nat, cells: seq<Cell>)
    requires WellFormed(g, Size) && AllEmpty(g, cells)
    ensures |Trials(x, g, depth, cells)| == |cells|
    ensures forall i :: 0 <= i < |cells| ==>
      Trials(x, g, depth, cells)[i] == Trial(cells[i], RootValue(x, g, depth, cells[i]))
    decreases |cells|
  {
    if cells != [] {
      var init := cells[..|cells| - 1];
      var last := cells[|cells| - 1];
      assert AllEmpty(g, init) by {
        forall i | 0 <= i < |init| ensures init[i] == cells[i] { }
      }
      TrialsOfEmpty(x, g, depth, init);
      assert cells == init + [last];
      TrialsSnoc(x, g, depth, init, last);
    }
  }

  /** The trials of every depth from 1 to depths, one full pass over order per depth,
      in the order the iterative deepening makes them. */
  ghost function DeepTrials(x: SearchCtx, g: Grid, order: seq<Cell>, depths: nat): seq<Trial>
    requires WellFormed(g, Size)
  {
    if depths == 0 then [] else DeepTrials(x, g, order, depths - 1) + Trials(x, g, depths, order)
  }

  /** Each pass of the deepening continues the selection where the shallower passes
      left it. */
  lemma DeepTrialsStep(x: SearchCtx, g: Grid, order: seq<Cell>, depths: nat)
    requires WellFormed(g, Size) && depths >= 1
    ensures Fold(NoPick, DeepTrials(x, g, order, depths)) ==
      Fold(Fold(NoPick, DeepTrials(x, g, order, depths - 1)), Trials(x, g, depths, order))
  {
    FoldAppend(NoPick, DeepTrials(x, g, order, depths - 1), Trials(x, g, depths, order));
  }

  /** The first pass, at depth 1, is a prefix of every deeper run. */
  lemma {:induction false} DeepTrialsFirstPass(x: SearchCtx, g: Grid, order: seq<Cell>, depths: nat)
    requires WellFormed(g, Size) && depths >= 1
    ensures Trials(x, g, 1, order) <= DeepTrials(x, g, order, depths)
  {
    if depths > 1 {
      DeepTrialsFirstPass(x, g, order, depths - 1);
    } else {
      assert DeepTrials(x, g, order, 1) == [] + Trials(x, g, 1, order);
    }
  }

  /** The trials of an iterative deepening over empty cells are exactly the pairs of a
      cell of order and its root value at one of the depths 1..depths. */
  lemma {:induction false} DeepTrialsMembers(x: SearchCtx, g: Grid, order: seq<Cell>, depths: nat)
    requires WellFormed(g, Size) && AllEmpty(g, order)
    ensures forall t :: t in DeepTrials(x, g, order, depths) <==>
      exists k, i :: 1 <= k <= depths && 0 <= i < |order| &&
        InRange(Size, order[i].row, order[i].column) && t == Trial(order[i], RootValue(x, g, k, order[i]))
  {
    if depths > 0 {
      DeepTrialsMembers(x, g, order, depths - 1);
      TrialsOfEmpty(x, g, depths, order);
      var pass := Trials(x, g, depths, order);
      forall t
        ensures t in pass <==>
          exists i ::
            0 <= i < |order| && InRange(Size, order[i].row, order[i].column) &&
            t == Trial(order[i], RootValue(x, g, depths, order[i]))
      {
        if t in pass {
          var i :| 0 <= i < |pass| && pass[i] == t;
        }
      }
    }
  }

  /** At depth 1 every candidate is worth more than MinInt. */
  lemma DepthOneTrialAboveMin(x: SearchCtx, g: Grid, cell: Cell)
    requires WellFormed(g, Size) && InRange(Size, cell.row, cell.column)
    ensures RootValue(x, g, 1, cell) > MinInt
  {
    RootValueExact(x, g, 1, cell);
    DepthOneAboveMin(x, Set(g, cell.row, cell.column, x.me), cell.row, cell.column);
  }
}
