/** Two shapes shared by the players' move loops: the board's cells that hold a given
    value, listed in row-major order, and the running "best so far" of a sequence of
    scored candidates, which only a strictly larger score replaces. */
module Choice {
  import opened Grids
  import opened EngineBoard

  /** (a.row, a.column) comes strictly before (b.row, b.column) in row-major order. */
  predicate RowMajorBefore(a: Cell, b: Cell)
  {
    a.row < b.row || (a.row == b.row && a.column < b.column)
  }

  /** The cells holding v that come strictly before (row, column), in row-major order. */
  ghost function CellsWith(g: Grid, v: int, row: int, column: int): seq<Cell>
    requires WellFormed(g, Size)
    requires 1 <= row <= Size + 1 && 1 <= column <= Size + 1 && (row <= Size || column == 1)
    decreases row, column, |g|
  {
    if column > 1 then
      CellsWith(g, v, row, column - 1) + (if At(g, row, column - 1) == v then [Cell(row, column - 1)] else [])
    else if row > 1 then CellsWith(g, v, row - 1, Size + 1)
    else []
  }

  /** Every cell of the board holding v, in row-major order. */
  ghost function AllWith(g: Grid, v: int): seq<Cell>
    requires WellFormed(g, Size)
  {
    CellsWith(g, v, Size + 1, 1)
  }

  /** The empty cells of the board in row-major order. */
  ghost function EmptyCells(g: Grid): seq<Cell>
    requires WellFormed(g, Size)
  {
    AllWith(g, Empty)
  }

  /** CellsWith holds exactly the on-board cells before (row, column) that hold v, and
      lists them in strictly increasing row-major order. */
  lemma {:induction false} CellsWithSpec(g: Grid, v: int, row: int, column: int)
    requires WellFormed(g, Size)
    requires 1 <= row <= Size + 1 && 1 <= column <= Size + 1 && (row <= Size || column == 1)
    ensures forall cl :: cl in CellsWith(g, v, row, column) <==>
      InRange(Size, cl.row, cl.column) && At(g, cl.row, cl.column) == v && RowMajorBefore(cl, Cell(row, column))
    ensures forall i, j :: 0 <= i < j < |CellsWith(g, v, row, column)| ==>
      RowMajorBefore(CellsWith(g, v, row, column)[i], CellsWith(g, v, row, column)[j])
    decreases row, column
  {
    if column > 1 {
      CellsWithSpec(g, v, row, column - 1);
    } else if row > 1 {
      CellsWithSpec(g, v, row - 1, Size + 1);
    }
  }

  /** The whole-board list: exactly the on-board cells holding v, in strictly
      increasing row-major order, so without repetitions. */
  lemma AllWithSpec(g: Grid, v: int)
    requires WellFormed(g, Size)
    ensures forall cl :: cl in AllWith(g, v) <==> InRange(Size, cl.row, cl.column) && At(g, cl.row, cl.column) == v
    ensures forall i, j :: 0 <= i < j < |AllWith(g, v)| ==> RowMajorBefore(AllWith(g, v)[i], AllWith(g, v)[j])
  {
    CellsWithSpec(g, v, Size + 1, 1);
  }

  /** A board with no cell holding v lists no cell for v. */
  lemma {:induction false} NoCellsWith(g: Grid, v: int, row: int, column: int)
    requires WellFormed(g, Size)
    requires 1 <= row <= Size + 1 && 1 <= column <= Size + 1 && (row <= Size || column == 1)
    requires forall r, c :: InRange(Size, r, c) ==> At(g, r, c) != v
    ensures CellsWith(g, v, row, column) == []
    decreases row, column
  {
    if column > 1 {
      NoCellsWith(g, v, row, column - 1);
    } else if row > 1 {
      NoCellsWith(g, v, row - 1, Size + 1);
    }
  }

  /** The cells before an earlier position are a prefix of those before a later one. */
  lemma {:induction false} CellsWithPrefix(g: Grid, v: int, r0: int, c0: int, row: int, column: int)
    requires WellFormed(g, Size)
    requires 1 <= r0 <= Size + 1 && 1 <= c0 <= Size + 1 && (r0 <= Size || c0 == 1)
    requires 1 <= row <= Size + 1 && 1 <= column <= Size + 1 && (row <= Size || column == 1)
    requires r0 < row || (r0 == row && c0 <= column)
    ensures CellsWith(g, v, r0, c0) <= CellsWith(g, v, row, column)
    decreases row, column
  {
    if r0 == row && c0 == column {
    } else if column > 1 {
      CellsWithPrefix(g, v, r0, c0, row, column - 1);
    } else {
      CellsWithPrefix(g, v, r0, c0, row - 1, Size + 1);
    }
  }

  /** A candidate move and its score. */
  datatype Trial = Trial(cell: Cell, value: int)

  /** The best candidate so far and its score. */
  datatype Pick = Pick(score: int, cell: Cell)

  /** One step of the selection: keep the current pick unless the new score is
      strictly larger. */
  function Improve(p: Pick, t: Trial): Pick
  {
    if t.value <= p.score then p else Pick(t.value, t.cell)
  }

  /** The selection over a whole sequence of candidates, in order, starting from p. */
  function Fold(p: Pick, ts: seq<Trial>): Pick
    decreases |ts|
  {
    if ts == [] then p else Improve(Fold(p, ts[..|ts| - 1]), ts[|ts| - 1])
  }

  /** The selection keeps its start exactly when no candidate beats the start's score;
      otherwise it picks the first candidate whose score is the strict maximum: no
      earlier candidate reaches that score and no later one exceeds it. */
  lemma {:induction false} FoldFirstMax(p: Pick, ts: seq<Trial>) returns (j: int)
    ensures -1 <= j < |ts|
    ensures j == -1 <==> forall i :: 0 <= i < |ts| ==> ts[i].value <= p.score
    ensures j == -1 ==> Fold(p, ts) == p
    ensures j >= 0 ==>
      (Fold(p, ts) == Pick(ts[j].value, ts[j].cell) && ts[j].value > p.score &&
       (forall i :: 0 <= i < j ==> ts[i].value < ts[j].value) &&
       (forall i :: 0 <= i < |ts| ==> ts[i].value <= ts[j].value))
    decreases |ts|
  {
    if ts == [] {
      j := -1;
    } else {
      var init := ts[..|ts| - 1];
      var last := ts[|ts| - 1];
      var k := FoldFirstMax(p, init);
      var best := Fold(p, init);
      assert forall i :: 0 <= i < |init| ==> init[i] == ts[i];
      if last.value <= best.score {
        j := k;
      } else {
        j := |ts| - 1;
      }
    }
  }

  /** Appending one candidate makes one more selection step. */
  lemma FoldSnoc(p: Pick, ts: seq<Trial>, t: Trial)
    ensures Fold(p, ts + [t]) == Improve(Fold(p, ts), t)
  {
    assert (ts + [t])[..|ts|] == ts;
  }

  /** A selection over a concatenation is the selection over the second part started
      from the selection over the first. */
  lemma {:induction false} FoldAppend(p: Pick, a: seq<Trial>, b: seq<Trial>)
    ensures Fold(p, a + b) == Fold(Fold(p, a), b)
    decreases |b|
  {
    if b == [] {
      assert a + b == a;
    } else {
      assert (a + b)[..|a + b| - 1] == a + b[..|b| - 1];
      FoldAppend(p, a, b[..|b| - 1]);
    }
  }
}
