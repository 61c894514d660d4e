/** What the Very Hard player's choice amounts to: it fails only on a full board,
    otherwise it plays an empty cell, and its four stages take, in strict priority, the
    nearest block of an opponent four, the nearest block of an opponent three, the
    nearest winning cell, and the first cell of strictly best position score. */
module VeryHardTheory {
  import opened Grids
  import opened Lines
  import opened Results
  import opened EngineBoard
  import opened EngineGame
  import opened Search
  import opened Choice
  import opened RootMoves
  import opened Nearby
  import opened Potential
  import opened Threats
  import opened VeryHard

  /** The position score after me's stone is placed on a, with no bonus added. */
  ghost function PlacedScore(g: Grid, me: int, a: Cell): int
    requires WellFormed(g, Size) && InRange(Size, a.row, a.column)
  {
    GameScore(Set(g, a.row, a.column, me), me)
  }

  /** The blocking bonus is never added: a cell that passed the test for an opponent
      three keeps passing it once me's stone is on it, since the test never looks at
      the cell itself. */
  lemma BonusNeverApplied(g: Grid, me: int, a: Cell)
    requires WellFormed(g, Size) && InRange(Size, a.row, a.column)
    requires !PotentialAny(g, a.row, a.column, Other(me), 3)
    ensures MoveScore(g, me, a) == PlacedScore(g, me, a)
  {
    PotentialIgnoresStart(g, a.row, a.column, Other(me), 3, me);
  }

  /** The selection over the scored moves picks a cell of order. */
  lemma BestIsListed(g: Grid, me: int, order: seq<Cell>)
    requires WellFormed(g, Size) && AllEmpty(g, order) && |order| > 0
    ensures Fold(Pick(MinInt, order[0]), ScoredMoves(g, me, order)).cell in order
  {
    var ts := ScoredMoves(g, me, order);
    var j := FoldFirstMax(Pick(MinInt, order[0]), ts);
    if j >= 0 {
      assert ts[j].cell == order[j];
    }
  }

  lemma FiveOrBestIsListed(g: Grid, me: int, order: seq<Cell>)
    requires WellFormed(g, Size) && AllEmpty(g, order) && |order| > 0
    ensures FiveOrBest(me, g, order) in order
  {
    BestIsListed(g, me, order);
  }

  /** The player fails exactly on a board without an empty cell, and otherwise plays
      an empty cell. */
  lemma VeryHardFails(me: int, g: Grid, order: seq<Cell>)
    requires WellFormed(g, Size) && Arranged(g, me, order)
    ensures VeryHardMove(me, g, order).Err? <==> forall a :: !Free(g, a)
    ensures VeryHardMove(me, g, order).Ok? ==> Free(g, VeryHardMove(me, g, order).value)
  {
    EmptyArrangement(g, order);
    if |order| > 0 {
      assert order[0] in order && Free(g, order[0]);
      FiveOrBestIsListed(g, me, order);
      var four := FirstPotential(g, order, Other(me), 4);
      var three := FirstPotential(g, order, Other(me), 3);
      if four < |order| {
        assert order[four] in order;
      } else if three < |order| {
        assert order[three] in order;
      }
    }
  }

  /** The first cell of an order sorted by distance that passes the test is a nearest
      cell passing it. */
  lemma FirstPotentialNearest(g: Grid, order: seq<Cell>, p: int, L: int, target: Cell, i: int)
    requires WellFormed(g, Size) && ByDistance(order, target)
    requires 0 <= i < |order| && PotentialAny(g, order[i].row, order[i].column, p, L)
    ensures var k := FirstPotential(g, order, p, L);
      k <= i && forall j :: 0 <= j < |order| && PotentialAny(g, order[j].row, order[j].column, p, L) ==>
        SqDist(order[k], target) <= SqDist(order[j], target)
  {
    var k := FirstPotential(g, order, p, L);
    forall j | 0 <= j < |order| && PotentialAny(g, order[j].row, order[j].column, p, L)
      ensures SqDist(order[k], target) <= SqDist(order[j], target)
    {
      if k < j {
        assert SqDist(order[k], target) <= SqDist(order[j], target);
      }
    }
  }

  /** The listing position of an empty cell. */
  lemma ListedAt(g: Grid, order: seq<Cell>, b: Cell) returns (i: int)
    requires WellFormed(g, Size) && multiset(order) == multiset(EmptyCells(g)) && Free(g, b)
    ensures 0 <= i < |order| && order[i] == b
  {
    EmptyArrangement(g, order);
    i :| 0 <= i < |order| && order[i] == b;
  }

  /** When the opponent has a row of four through some empty cell, the player blocks
      at such a cell nearest to the opponent mark. */
  lemma VeryHardBlocksFour(me: int, g: Grid, order: seq<Cell>, b: Cell) returns (a: Cell)
    requires WellFormed(g, Size) && Arranged(g, me, order)
    requires Free(g, b) && PotentialAny(g, b.row, b.column, Other(me), 4)
    ensures VeryHardMove(me, g, order) == Ok(a)
    ensures Free(g, a) && PotentialAny(g, a.row, a.column, Other(me), 4)
    ensures forall e :: Free(g, e) && PotentialAny(g, e.row, e.column, Other(me), 4) ==>
      SqDist(a, OpponentMark(g, me)) <= SqDist(e, OpponentMark(g, me))
  {
    EmptyArrangement(g, order);
    var i := ListedAt(g, order, b);
    FirstPotentialNearest(g, order, Other(me), 4, OpponentMark(g, me), i);
    a := order[FirstPotential(g, order, Other(me), 4)];
    assert a in order;
    forall e | Free(g, e) && PotentialAny(g, e.row, e.column, Other(me), 4)
      ensures SqDist(a, OpponentMark(g, me)) <= SqDist(e, OpponentMark(g, me))
    {
      var j := ListedAt(g, order, e);
    }
  }

  /** With no opponent four to block but an opponent row of three through some empty
      cell, the player blocks at such a cell nearest to the opponent mark. */
  lemma VeryHardBlocksThree(me: int, g: Grid, order: seq<Cell>, b: Cell) returns (a: Cell)
    requires WellFormed(g, Size) && Arranged(g, me, order)
    requires forall e :: Free(g, e) ==> !PotentialAny(g, e.row, e.column, Other(me), 4)
    requires Free(g, b) && PotentialAny(g, b.row, b.column, Other(me), 3)
    ensures VeryHardMove(me, g, order) == Ok(a)
    ensures Free(g, a) && PotentialAny(g, a.row, a.column, Other(me), 3)
    ensures forall e :: Free(g, e) && PotentialAny(g, e.row, e.column, Other(me), 3) ==>
      SqDist(a, OpponentMark(g, me)) <= SqDist(e, OpponentMark(g, me))
  {
    EmptyArrangement(g, order);
    var four := FirstPotential(g, order, Other(me), 4);
    if four < |order| {
      assert Free(g, order[four]);
      assert false;
    }
    var i := ListedAt(g, order, b);
    FirstPotentialNearest(g, order, Other(me), 3, OpponentMark(g, me), i);
    a := order[FirstPotential(g, order, Other(me), 3)];
    assert a in order;
    forall e | Free(g, e) && PotentialAny(g, e.row, e.column, Other(me), 3)
      ensures SqDist(a, OpponentMark(g, me)) <= SqDist(e, OpponentMark(g, me))
    {
      var j := ListedAt(g, order, e);
    }
  }

  /** Without an opponent row of three, there is no opponent row of four either, and
      neither block stage applies. */
  lemma NoBlockStage(me: int, g: Grid, order: seq<Cell>)
    requires WellFormed(g, Size) && Arranged(g, me, order)
    requires forall e :: Free(g, e) ==> !PotentialAny(g, e.row, e.column, Other(me), 3)
    ensures FirstPotential(g, order, Other(me), 4) == |order|
    ensures FirstPotential(g, order, Other(me), 3) == |order|
  {
    EmptyArrangement(g, order);
    var four := FirstPotential(g, order, Other(me), 4);
    var three := FirstPotential(g, order, Other(me), 3);
    if four < |order| {
      assert Free(g, order[four]);
      PotentialAnyShorter(g, order[four].row, order[four].column, Other(me), 3);
      assert false;
    }
    if three < |order| {
      assert Free(g, order[three]);
      assert false;
    }
  }

  /** With nothing to block and a win in one available, the player wins, at a winning
      cell nearest to the opponent mark. */
  lemma VeryHardTakesWin(me: int, g: Grid, order: seq<Cell>, b: Cell) returns (a: Cell)
    requires WellFormed(g, Size) && Arranged(g, me, order)
    requires forall e :: Free(g, e) ==> !PotentialAny(g, e.row, e.column, Other(me), 3)
    requires Free(g, b) && Wins(Set(g, b.row, b.column, me), Size, b.row, b.column, me)
    ensures VeryHardMove(me, g, order) == Ok(a)
    ensures Free(g, a) && Wins(Set(g, a.row, a.column, me), Size, a.row, a.column, me)
    ensures forall e :: Free(g, e) && Wins(Set(g, e.row, e.column, me), Size, e.row, e.column, me) ==>
      SqDist(a, OpponentMark(g, me)) <= SqDist(e, OpponentMark(g, me))
  {
    NoBlockStage(me, g, order);
    EmptyArrangement(g, order);
    var i := ListedAt(g, order, b);
    FiveAfterWins(g, me, b);
    var k := FirstFive(g, me, order);
    a := order[k];
    assert a in order;
    FiveAfterWins(g, me, a);
    forall e | Free(g, e) && Wins(Set(g, e.row, e.column, me), Size, e.row, e.column, me)
      ensures SqDist(a, OpponentMark(g, me)) <= SqDist(e, OpponentMark(g, me))
    {
      var j := ListedAt(g, order, e);
      FiveAfterWins(g, me, e);
      if k < j {
        assert SqDist(order[k], OpponentMark(g, me)) <= SqDist(order[j], OpponentMark(g, me));
      }
    }
  }

  /** Without a win in one, the stage that looks for five finds none. */
  lemma NoFiveStage(me: int, g: Grid, order: seq<Cell>)
    requires WellFormed(g, Size) && Arranged(g, me, order)
    requires forall e :: Free(g, e) ==> !Wins(Set(g, e.row, e.column, me), Size, e.row, e.column, me)
    ensures FirstFive(g, me, order) == |order|
  {
    EmptyArrangement(g, order);
    var five := FirstFive(g, me, order);
    if five < |order| {
      assert Free(g, order[five]);
      FiveAfterWins(g, me, order[five]);
      assert false;
    }
  }

  /** Without an opponent three anywhere, every move's score is its position score. */
  lemma PlacedScores(me: int, g: Grid, order: seq<Cell>)
    requires WellFormed(g, Size) && Arranged(g, me, order)
    requires forall e :: Free(g, e) ==> !PotentialAny(g, e.row, e.column, Other(me), 3)
    ensures forall j :: 0 <= j < |order| ==>
      ScoredMoves(g, me, order)[j] == Trial(order[j], PlacedScore(g, me, order[j]))
  {
    EmptyArrangement(g, order);
    forall j | 0 <= j < |order|
      ensures ScoredMoves(g, me, order)[j] == Trial(order[j], PlacedScore(g, me, order[j]))
    {
      assert Free(g, order[j]);
      BonusNeverApplied(g, me, order[j]);
    }
  }

  /** With nothing to block and no win in one, the player plays the cell of highest
      position score, the first of the sorted order among equal scores; the score is
      never MinInt, so the first cell's start value is always beaten. */
  lemma VeryHardPicksBest(me: int, g: Grid, order: seq<Cell>, b: Cell) returns (i: int)
    requires WellFormed(g, Size) && Arranged(g, me, order) && Free(g, b)
    requires forall e :: Free(g, e) ==> !PotentialAny(g, e.row, e.column, Other(me), 3)
    requires forall e :: Free(g, e) ==> !Wins(Set(g, e.row, e.column, me), Size, e.row, e.column, me)
    ensures 0 <= i < |order| && VeryHardMove(me, g, order) == Ok(order[i])
    ensures forall j :: 0 <= j < |order| ==> PlacedScore(g, me, order[j]) <= PlacedScore(g, me, order[i])
    ensures forall j :: 0 <= j < i ==> PlacedScore(g, me, order[j]) < PlacedScore(g, me, order[i])
  {
    NoBlockStage(me, g, order);
    var listed := ListedAt(g, order, b);
    NoFiveStage(me, g, order);
    PlacedScores(me, g, order);
    GameScoreFits(Set(g, order[0].row, order[0].column, me), me);
    i := FoldFirstMax(Pick(MinInt, order[0]), ScoredMoves(g, me, order));
  }
}
