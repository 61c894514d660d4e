/** The Very Hard player: list the empty cells, sort them by distance to the first
    opponent stone, block an opponent row of four, then one of three, then take a move
    that completes five, and otherwise play the empty cell with the strictly best
    position score, the first one in the sorted order among equals. */
module VeryHard {
  import opened Grids
  import opened Lines
  import opened Results
  import opened EngineBoard
  import opened EngineGame
  import opened Search
  import opened Choice
  import opened RootMoves
  import opened Potential
  import opened Threats

  /** The bonus for a move next to an opponent row of three. */
  const BlockingPriorityScore: int := 100
  /** The point distances are measured from when the opponent has no stone. */
  const DefaultTarget: Cell := Cell(8, 8)

  // ---- Distances and the sorted move list ----

  /** The squared Euclidean distance between two cells; its square root, which the
      player compares, orders cells the same way. */
  function SqDist(a: Cell, b: Cell): (q: int)
    ensures q >= 0
  {
    var dx := a.row - b.row;
    var dy := a.column - b.column;
    SquarePositive(dx);
    SquarePositive(dy);
    dx * dx + dy * dy
  }

  lemma SquarePositive(v: int)
    ensures v * v >= 0
  {
    if v < 0 {
      assert v * v == (-v) * (-v);
    }
  }

  /** q is in ascending order of distance to target. */
  predicate ByDistance(q: seq<Cell>, target: Cell)
  {
    forall i, j :: 0 <= i < j < |q| ==> SqDist(q[i], target) <= SqDist(q[j], target)
  }

  /** Placing e between a prefix of cells at most as far from target and a suffix of
      cells at least as far keeps the sequence in ascending order of distance. */
  lemma InsertByDistanceSorted(q: seq<Cell>, p: int, e: Cell, target: Cell)
    requires ByDistance(q, target) && 0 <= p <= |q|
    requires forall k :: 0 <= k < p ==> SqDist(q[k], target) <= SqDist(e, target)
    requires p < |q| ==> SqDist(e, target) <= SqDist(q[p], target)
    ensures ByDistance(q[..p] + [e] + q[p..], target)
  {
    var u := q[..p] + [e] + q[p..];
    assert forall k :: 0 <= k < p ==> u[k] == q[k];
    assert forall k :: p < k < |u| ==> u[k] == q[k - 1];
    forall i, j | 0 <= i < j < |u| ensures SqDist(u[i], target) <= SqDist(u[j], target) {
      if i == p && j - 1 > p {
        assert SqDist(q[p], target) <= SqDist(q[j - 1], target);
      } else if i < p < j {
        assert SqDist(q[i], target) <= SqDist(e, target);
      }
    }
  }

  /** Inserts e after the cells of q that are at most as far from target. */
  method InsertByDistance(q: seq<Cell>, e: Cell, target: Cell) returns (u: seq<Cell>)
    requires ByDistance(q, target)
    ensures ByDistance(u, target)
    ensures multiset(u) == multiset(q) + multiset{e}
  {
    var p := 0;
    while p < |q| && SqDist(q[p], target) <= SqDist(e, target)
      invariant 0 <= p <= |q|
      invariant forall k :: 0 <= k < p ==> SqDist(q[k], target) <= SqDist(e, target)
    {
      p := p + 1;
    }
    InsertByDistanceSorted(q, p, e, target);
    u := q[..p] + [e] + q[p..];
    assert q == q[..p] + q[p..];
  }

  /** The move list sorted by distance to target: the same cells, nearest first. The
      order among cells at the same distance is the one this sort produces. */
  method SortByDistance(moves: seq<Cell>, target: Cell) returns (sorted: seq<Cell>)
    ensures ByDistance(sorted, target)
    ensures multiset(sorted) == multiset(moves)
  {
    sorted := [];
    var i := 0;
    while i < |moves|
      invariant 0 <= i <= |moves|
      invariant ByDistance(sorted, target)
      invariant multiset(sorted) == multiset(moves[..i])
    {
      sorted := InsertByDistance(sorted, moves[i], target);
      assert moves[..i + 1] == moves[..i] + [moves[i]];
      i := i + 1;
    }
    assert moves[..i] == moves;
  }

  /** The cell distances are measured from: the opponent's first stone in row-major
      order, or (8, 8) when the opponent has none. */
  ghost function OpponentMark(g: Grid, me: int): Cell
    requires WellFormed(g, Size)
  {
    var stones := AllWith(g, Other(me));
    if |stones| == 0 then DefaultTarget else stones[0]
  }

  lemma OpponentMarkSpec(g: Grid, me: int)
    requires WellFormed(g, Size)
    ensures (forall r, c :: InRange(Size, r, c) ==> At(g, r, c) != Other(me)) ==>
      OpponentMark(g, me) == DefaultTarget
    ensures (exists r, c :: InRange(Size, r, c) && At(g, r, c) == Other(me)) ==>
      (var m := OpponentMark(g, me);
       InRange(Size, m.row, m.column) && At(g, m.row, m.column) == Other(me) &&
       forall r, c :: InRange(Size, r, c) && RowMajorBefore(Cell(r, c), m) ==> At(g, r, c) != Other(me))
  {
    AllWithSpec(g, Other(me));
    var stones := AllWith(g, Other(me));
    if exists r, c :: InRange(Size, r, c) && At(g, r, c) == Other(me) {
      var r, c :| InRange(Size, r, c) && At(g, r, c) == Other(me);
      assert Cell(r, c) in stones;
    }
  }

  /** The moves the player ranks: every empty cell once, nearest to the opponent mark
      first. */
  ghost predicate Arranged(g: Grid, me: int, order: seq<Cell>)
    requires WellFormed(g, Size)
  {
    AllEmpty(g, order) && multiset(order) == multiset(EmptyCells(g)) && ByDistance(order, OpponentMark(g, me))
  }

  /** Any rearrangement of the empty cells holds exactly the empty cells. */
  lemma EmptyArrangement(g: Grid, order: seq<Cell>)
    requires WellFormed(g, Size) && multiset(order) == multiset(EmptyCells(g))
    ensures AllEmpty(g, order)
    ensures forall a :: a in order <==> InRange(Size, a.row, a.column) && At(g, a.row, a.column) == Empty
  {
    AllWithSpec(g, Empty);
    forall a ensures a in order <==> a in EmptyCells(g) {
      assert a in order <==> a in multiset(order);
      assert a in EmptyCells(g) <==> a in multiset(EmptyCells(g));
    }
    forall i | 0 <= i < |order|
      ensures InRange(Size, order[i].row, order[i].column) && At(g, order[i].row, order[i].column) == Empty
    {
      assert order[i] in order;
    }
  }

  // ---- The choice ----

  /** The index of the first cell of order where p has a row of L, or |order|. */
  ghost function FirstPotential(g: Grid, order: seq<Cell>, p: int, L: int): (i: int)
    requires WellFormed(g, Size)
    ensures 0 <= i <= |order|
    ensures i < |order| ==> PotentialAny(g, order[i].row, order[i].column, p, L)
    ensures forall j :: 0 <= j < i ==> !PotentialAny(g, order[j].row, order[j].column, p, L)
    decreases |order|
  {
    if |order| == 0 then 0
    else if PotentialAny(g, order[0].row, order[0].column, p, L) then 0
    else 1 + FirstPotential(g, order[1..], p, L)
  }

  /** With me's stone on a, the player's test finds a row of five through a. */
  ghost predicate FiveAfter(g: Grid, me: int, a: Cell)
    requires WellFormed(g, Size) && InRange(Size, a.row, a.column)
  {
    PotentialAny(Set(g, a.row, a.column, me), a.row, a.column, me, 5)
  }

  /** The test for five is the engine's win test at the placed stone. */
  lemma FiveAfterWins(g: Grid, me: int, a: Cell)
    requires WellFormed(g, Size) && InRange(Size, a.row, a.column)
    ensures FiveAfter(g, me, a) <==> Wins(Set(g, a.row, a.column, me), Size, a.row, a.column, me)
  {
    PotentialIgnoresStart(g, a.row, a.column, me, 5, me);
    PotentialFiveWinsByPlacing(g, a.row, a.column, me);
  }

  /** The index of the first cell of order where me's stone makes five, or |order|. */
  ghost function FirstFive(g: Grid, me: int, order: seq<Cell>): (i: int)
    requires WellFormed(g, Size) && AllEmpty(g, order)
    ensures 0 <= i <= |order|
    ensures i < |order| ==> FiveAfter(g, me, order[i])
    ensures forall j :: 0 <= j < i ==> !FiveAfter(g, me, order[j])
    decreases |order|
  {
    if |order| == 0 then 0
    else if FiveAfter(g, me, order[0]) then 0
    else
      assert AllEmpty(g, order[1..]) by {
        forall j | 0 <= j < |order| - 1 ensures order[1..][j] == order[j + 1] { }
      }
      1 + FirstFive(g, me, order[1..])
  }

  /** None of the first i cells of order makes five for me. */
  ghost predicate NoFiveBefore(g: Grid, me: int, order: seq<Cell>, i: int)
    requires WellFormed(g, Size) && AllEmpty(g, order) && 0 <= i <= |order|
    decreases i
  {
    i == 0 || (NoFiveBefore(g, me, order, i - 1) && !FiveAfter(g, me, order[i - 1]))
  }

  lemma {:induction false} NoFiveBeforeMeans(g: Grid, me: int, order: seq<Cell>, i: int)
    requires WellFormed(g, Size) && AllEmpty(g, order) && 0 <= i <= |order|
    ensures NoFiveBefore(g, me, order, i) <==> forall j :: 0 <= j < i ==> !FiveAfter(g, me, order[j])
    decreases i
  {
    if i > 0 {
      NoFiveBeforeMeans(g, me, order, i - 1);
    }
  }

  /** A scan that has met no five before i stops at i exactly when i is the first
      cell that makes five or the end of order. */
  lemma FirstFiveAt(g: Grid, me: int, order: seq<Cell>, i: int)
    requires WellFormed(g, Size) && AllEmpty(g, order) && 0 <= i <= |order|
    requires NoFiveBefore(g, me, order, i)
    ensures i < |order| && FiveAfter(g, me, order[i]) ==> FirstFive(g, me, order) == i
    ensures i == |order| ==> FirstFive(g, me, order) == |order|
  {
    NoFiveBeforeMeans(g, me, order, i);
    var k := FirstFive(g, me, order);
    assert k < |order| ==> FiveAfter(g, me, order[k]);
  }

  /** The score of playing a: the position score after the move, plus the blocking
      bonus when the opponent then has a row of three through a. */
  ghost function MoveScore(g: Grid, me: int, a: Cell): int
    requires WellFormed(g, Size) && InRange(Size, a.row, a.column)
  {
    var h := Set(g, a.row, a.column, me);
    GameScore(h, me) + if PotentialAny(h, a.row, a.column, Other(me), 3) then BlockingPriorityScore else 0
  }

  ghost function ScoredMoves(g: Grid, me: int, order: seq<Cell>): seq<Trial>
    requires WellFormed(g, Size) && AllEmpty(g, order)
  {
    seq(|order|, i requires 0 <= i < |order| => Trial(order[i], MoveScore(g, me, order[i])))
  }

  /** The pick after scoring the first i cells of order, starting from p. */
  ghost function BestAfter(p: Pick, g: Grid, me: int, order: seq<Cell>, i: int): Pick
    requires WellFormed(g, Size) && AllEmpty(g, order) && 0 <= i <= |order|
    decreases i
  {
    if i == 0 then p
    else Improve(BestAfter(p, g, me, order, i - 1), Trial(order[i - 1], MoveScore(g, me, order[i - 1])))
  }

  /** The incremental pick is the selection over the scored prefix. */
  lemma {:induction false} BestAfterFold(p: Pick, g: Grid, me: int, order: seq<Cell>, i: int)
    requires WellFormed(g, Size) && AllEmpty(g, order) && 0 <= i <= |order|
    ensures BestAfter(p, g, me, order, i) == Fold(p, ScoredMoves(g, me, order)[..i])
    decreases i
  {
    var ts := ScoredMoves(g, me, order);
    if i > 0 {
      BestAfterFold(p, g, me, order, i - 1);
      assert ts[..i][..i - 1] == ts[..i - 1];
    }
  }

  /** The last stage: the first move that makes five, otherwise the first move with the
      strictly highest score, starting from the first move at score MinInt. */
  ghost function FiveOrBest(me: int, g: Grid, order: seq<Cell>): Cell
    requires WellFormed(g, Size) && AllEmpty(g, order) && |order| > 0
  {
    var five := FirstFive(g, me, order);
    if five < |order| then order[five] else Fold(Pick(MinInt, order[0]), ScoredMoves(g, me, order)).cell
  }

  /** The move a Very Hard player numbered me makes on g, ranking the cells in order. */
  ghost function VeryHardMove(me: int, g: Grid, order: seq<Cell>): Result<Cell>
    requires WellFormed(g, Size) && AllEmpty(g, order)
  {
    var four := FirstPotential(g, order, Other(me), 4);
    var three := FirstPotential(g, order, Other(me), 3);
    if four < |order| then Ok(order[four])
    else if three < |order| then Ok(order[three])
    else if |order| == 0 then Err(NoAvailableMoves)
    else Ok(FiveOrBest(me, g, order))
  }

  class AIPlayerVeryHard {
    const playerNumber: int
    const board: Board
    /** Declared by the player and never assigned. */
    var gomoku: Gomoku?

    constructor (playerNumber: int, board: Board)
      ensures this.playerNumber == playerNumber && this.board == board && gomoku == null
    {
      this.playerNumber := playerNumber;
      this.board := board;
      gomoku := null;
    }

    /** The move for the current position, ranked over some sorted arrangement of the
        empty cells; the board is the same afterwards. The game argument is not used. */
    method GetMove(game: Gomoku) returns (move: Result<Cell>)
      requires board.Valid()
      modifies board, board.positions
      ensures board.Valid() && board.cells == old(board.cells)
      ensures exists order ::
        Arranged(old(board.cells), playerNumber, order) && move == VeryHardMove(playerNumber, old(board.cells), order)
    {
      ghost var g := board.cells;
      var availableMoves := GetAvailableMoves();
      var opponentPreviousMove := GetOpponentPreviousMove();
      availableMoves := SortByDistance(availableMoves, opponentPreviousMove);
      EmptyArrangement(g, availableMoves);
      assert Arranged(g, playerNumber, availableMoves);
      var four := FindBlock(availableMoves, 4);
      if four < |availableMoves| {
        move := Ok(availableMoves[four]);
      } else {
        var three := FindBlock(availableMoves, 3);
        if three < |availableMoves| {
          move := Ok(availableMoves[three]);
        } else if |availableMoves| == 0 {
          move := Err(NoAvailableMoves);
        } else {
          var best := SimulateMoves(availableMoves);
          move := Ok(best);
        }
      }
      assert move == VeryHardMove(playerNumber, g, availableMoves);
    }

    /** The first move of the list at which the opponent has a row of rowLength, or the
        length of the list. */
    method FindBlock(moves: seq<Cell>, rowLength: int) returns (i: int)
      requires board.Valid()
      ensures i == FirstPotential(board.cells, moves, Other(playerNumber), rowLength)
    {
      i := 0;
      while i < |moves|
        invariant 0 <= i <= |moves|
        invariant forall j :: 0 <= j < i ==>
          !PotentialAny(board.cells, moves[j].row, moves[j].column, Other(playerNumber), rowLength)
      {
        var found := HasOpponentPotentialWinningRow(moves[i].row, moves[i].column, rowLength);
        if found {
          return;
        }
        i := i + 1;
      }
    }

    /** Tries every move in turn: a move that makes five is played at once, otherwise
        the first strictly best score wins; each trial stone is taken back. */
    method SimulateMoves(moves: seq<Cell>) returns (move: Cell)
      requires board.Valid() && |moves| > 0 && AllEmpty(board.cells, moves)
      modifies board, board.positions
      ensures board.Valid() && board.cells == old(board.cells)
      ensures move == FiveOrBest(playerNumber, old(board.cells), moves)
    {
      ghost var g := board.cells;
      ghost var start := Pick(MinInt, moves[0]);
      var bestMove := moves[0];
      var bestMoveScore := MinInt;
      var i := 0;
      while i < |moves|
        invariant 0 <= i <= |moves|
        invariant board.Valid() && board.cells == g
        invariant NoFiveBefore(g, playerNumber, moves, i)
        invariant Pick(bestMoveScore, bestMove) == BestAfter(start, g, playerNumber, moves, i)
      {
        var m := moves[i];
        var wins, score := SimulateMove(m);
        if wins {
          FirstFiveAt(g, playerNumber, moves, i);
          return m;
        }
        if score > bestMoveScore {
          bestMove := m;
          bestMoveScore := score;
        }
        i := i + 1;
      }
      FirstFiveAt(g, playerNumber, moves, i);
      BestAfterFold(start, g, playerNumber, moves, i);
      assert ScoredMoves(g, playerNumber, moves)[..i] == ScoredMoves(g, playerNumber, moves);
      move := bestMove;
    }

    /** One trial of SimulateMoves: places this player's stone on the empty cell m,
        tests for five through m and otherwise scores the position, adding the blocking
        bonus when the opponent has a row of three through m, then takes the stone back. */
    method SimulateMove(m: Cell) returns (wins: bool, score: int)
      requires board.Valid() && InRange(Size, m.row, m.column) && At(board.cells, m.row, m.column) == Empty
      modifies board, board.positions
      ensures board.Valid() && board.cells == old(board.cells)
      ensures wins == FiveAfter(old(board.cells), playerNumber, m)
      ensures !wins ==> score == MoveScore(old(board.cells), playerNumber, m)
    {
      ghost var g := board.cells;
      board.SetPosition(m.row, m.column, playerNumber);
      wins := HasPotentialWinningRow(m.row, m.column, playerNumber, 5);
      score := 0;
      if !wins {
        score := EvaluateGameState();
        var blocks := HasOpponentPotentialWinningRow(m.row, m.column, 3);
        if blocks {
          score := score + BlockingPriorityScore;
        }
      }
      board.SetPosition(m.row, m.column, Empty);
      SetRestore(g, m.row, m.column, playerNumber);
    }

    /** The first cell holding an opponent stone in row-major order, or (8, 8). */
    method GetOpponentPreviousMove() returns (cell: Cell)
      requires board.Valid()
      ensures cell == OpponentMark(board.cells, playerNumber)
    {
      ghost var g := board.cells;
      var opponentNumber := if playerNumber == 1 then 2 else 1;
      var row := 1;
      while row <= Size
        invariant 1 <= row <= Size + 1
        invariant CellsWith(g, opponentNumber, row, 1) == []
      {
        var column := 1;
        while column <= Size
          invariant 1 <= column <= Size + 1
          invariant CellsWith(g, opponentNumber, row, column) == []
        {
          if board.GetPosition(row, column) == opponentNumber {
            CellsWithPrefix(g, opponentNumber, row, column + 1, Size + 1, 1);
            return Cell(row, column);
          }
          column := column + 1;
        }
        row := row + 1;
      }
      return DefaultTarget;
    }

    /** Whether the opponent has a row of rowLength through (row, column). */
    method HasOpponentPotentialWinningRow(row: int, column: int, rowLength: int) returns (found: bool)
      requires board.Valid()
      ensures found == PotentialAny(board.cells, row, column, Other(playerNumber), rowLength)
    {
      var opponentNumber := if playerNumber == 1 then 2 else 1;
      found := AnyDirection(row, column, opponentNumber, rowLength);
    }

    /** Whether p has a row of rowLength through (row, column); rows shorter than four
        never count. */
    method HasPotentialWinningRow(row: int, column: int, p: int, rowLength: int) returns (found: bool)
      requires board.Valid()
      ensures found == (rowLength >= 4 && PotentialAny(board.cells, row, column, p, rowLength))
    {
      if rowLength < 4 {
        return false;
      }
      found := AnyDirection(row, column, p, rowLength);
    }

    /** The eight direction checks in the player's order, stopping at the first that
        succeeds. */
    method AnyDirection(row: int, column: int, p: int, rowLength: int) returns (found: bool)
      requires board.Valid()
      ensures found == PotentialAny(board.cells, row, column, p, rowLength)
    {
      found := CheckDirection(row, column, Dir(0, -1), p, rowLength);
      if !found {
        found := CheckDirection(row, column, Dir(0, 1), p, rowLength);
      }
      if !found {
        found := CheckDirection(row, column, Dir(-1, 0), p, rowLength);
      }
      if !found {
        found := CheckDirection(row, column, Dir(1, 0), p, rowLength);
      }
      if !found {
        found := CheckDirection(row, column, Dir(-1, -1), p, rowLength);
      }
      if !found {
        found := CheckDirection(row, column, Dir(1, 1), p, rowLength);
      }
      if !found {
        found := CheckDirection(row, column, Dir(-1, 1), p, rowLength);
      }
      if !found {
        found := CheckDirection(row, column, Dir(1, -1), p, rowLength);
      }
      PotentialAnyEight(board.cells, row, column, p, rowLength);
    }

    /** Counts p's stones forward along direction, then backwards, starting from one
        for (row, column) itself, and succeeds once the count reaches rowLength. */
    method CheckDirection(row: int, column: int, direction: Dir, p: int, rowLength: int) returns (found: bool)
      requires board.Valid()
      ensures found == PotentialRow(board.cells, row, column, direction, p, rowLength)
    {
      ghost var g := board.cells;
      var count: int;
      found, count := CountAlong(row, column, direction, p, rowLength, 1);
      if found {
        assert Ray(g, row, column, Dir(-direction.dr, -direction.dc), 0, p);
        return true;
      }
      ghost var forward := count - 1;
      var total: int;
      found, total := CountAlong(row, column, Dir(-direction.dr, -direction.dc), p, rowLength, count);
      if found {
        assert Ray(g, row, column, Dir(-direction.dr, -direction.dc), rowLength - 1 - forward, p);
        return true;
      }
      if rowLength >= 2 {
        NoPotentialRow(g, row, column, direction, p, rowLength, forward, total - count);
      }
    }

    /** One loop of CheckDirection: walks from offset 1 along direction while the cells
        are on the board and hold p, adding one to count per stone, and stops with found
        set once count reaches rowLength. */
    method CountAlong(row: int, column: int, direction: Dir, p: int, rowLength: int, start: int)
      returns (found: bool, count: int)
      requires board.Valid() && 1 <= start && (rowLength <= 1 || start < rowLength)
      ensures start <= count && (rowLength <= 1 ==> count == start)
      ensures found <==> rowLength >= 2 && count == rowLength
      ensures rowLength >= 2 ==> count <= rowLength
      ensures Ray(board.cells, row, column, direction, count - start, p)
      ensures rowLength >= 2 && count < rowLength ==>
        !OwnsAt(board.cells, Size, row, column, direction, count - start + 1, p)
    {
      ghost var g := board.cells;
      count := start;
      found := false;
      var i := 1;
      while i < rowLength
        invariant 1 <= i && (i <= rowLength || i == 1) && count == start + i - 1
        invariant rowLength <= 1 || count < rowLength
        invariant Ray(g, row, column, direction, i - 1, p)
      {
        var newRow := row + i * direction.dr;
        var newColumn := column + i * direction.dc;
        if newRow < 1 || newRow > Size || newColumn < 1 || newColumn > Size {
          return;
        }
        if board.GetPosition(newRow, newColumn) == p {
          count := count + 1;
          if count == rowLength {
            found := true;
            return;
          }
        } else {
          return;
        }
        i := i + 1;
      }
    }

    /** The position score for this player. */
    method EvaluateGameState() returns (score: int)
      requires board.Valid()
      ensures score == GameScore(board.cells, playerNumber)
    {
      var opponentNumber := if playerNumber == 1 then 2 else 1;
      var playerPotentialWinningRows := CountPotentialWinningRows(playerNumber);
      var opponentPotentialWinningRows := CountPotentialWinningRows(opponentNumber);
      var playerThreats := CountThreats(playerNumber);
      var opponentThreats := CountThreats(opponentNumber);
      var blockingPriority := GetBlockingPriority();
      score := Weighted(playerPotentialWinningRows, playerThreats, blockingPriority,
                        opponentPotentialWinningRows, opponentThreats);
    }

    /** The number of empty cells where p would have a row of five. */
    method CountPotentialWinningRows(p: int) returns (rows: int)
      requires board.Valid()
      ensures rows == PotentialRows(board.cells, p)
    {
      ghost var f := RowWeights(p);
      ghost var g := board.cells;
      rows := 0;
      var row := 1;
      while row <= Size
        invariant 1 <= row <= Size + 1
        invariant rows == SumBefore(f, g, Size, row, 1)
      {
        var column := 1;
        while column <= Size
          invariant 1 <= column <= Size + 1
          invariant rows == SumBefore(f, g, Size, row, column)
        {
          if board.GetPosition(row, column) == Empty {
            var has := HasPotentialWinningRow(row, column, p, 5);
            if has {
              rows := rows + 1;
            }
          }
          column := column + 1;
        }
        row := row + 1;
      }
    }

    /** The threats around all of p's stones. */
    method CountThreats(p: int) returns (threats: int)
      requires board.Valid()
      ensures threats == AllThreats(board.cells, p)
    {
      ghost var g := board.cells;
      threats := 0;
      var row := 1;
      while row <= Size
        invariant 1 <= row <= Size + 1
        invariant threats == SumBefore(ThreatWeights(p), g, Size, row, 1)
      {
        var column := 1;
        while column <= Size
          invariant 1 <= column <= Size + 1
          invariant threats == SumBefore(ThreatWeights(p), g, Size, row, column)
        {
          var t := CountThreatsAtCell(row, column, p);
          ThreatAccumulate(g, p, row, column, threats, t);
          threats := threats + t;
          column := column + 1;
        }
        SumWrap(ThreatWeights(p), g, Size, row);
        row := row + 1;
      }
    }

    /** The body of the scan in CountThreats: the threats around (row, column) when it
        holds p's stone, nothing otherwise. */
    method CountThreatsAtCell(row: int, column: int, p: int) returns (t: int)
      requires board.Valid() && InRange(Size, row, column)
      ensures t == ThreatWeight(board.cells, p, row, column)
    {
      t := 0;
      if board.GetPosition(row, column) == p {
        t := CountThreatsAtPosition(row, column, p);
      }
    }

    /** The threats around (row, column) over the eight directions. */
    method CountThreatsAtPosition(row: int, column: int, p: int) returns (threats: int)
      requires board.Valid()
      ensures threats == ThreatsAt(board.cells, row, column, p)
    {
      var t1 := CountThreatsInDirection(row, column, Dir(0, -1), p);
      var t2 := CountThreatsInDirection(row, column, Dir(0, 1), p);
      var t3 := CountThreatsInDirection(row, column, Dir(-1, 0), p);
      var t4 := CountThreatsInDirection(row, column, Dir(1, 0), p);
      var t5 := CountThreatsInDirection(row, column, Dir(-1, -1), p);
      var t6 := CountThreatsInDirection(row, column, Dir(1, 1), p);
      var t7 := CountThreatsInDirection(row, column, Dir(-1, 1), p);
      var t8 := CountThreatsInDirection(row, column, Dir(1, -1), p);
      threats := t1 + t2 + t3 + t4 + t5 + t6 + t7 + t8;
      ThreatsAtEight(board.cells, row, column, p);
    }

    /** One threat for each side of (row, column) along direction that has one. */
    method CountThreatsInDirection(row: int, column: int, direction: Dir, p: int) returns (threats: int)
      requires board.Valid()
      ensures threats == DirThreats(board.cells, row, column, direction, p)
    {
      var forward := CountSideThreat(row, column, direction, p);
      var backward := CountSideThreat(row, column, Dir(-direction.dr, -direction.dc), p);
      threats := forward + backward;
    }

    /** Walks at most ThreatLength - 1 cells along direction, passing empty cells and
        stopping at the edge or at another stone, and counts one threat when the second
        stone of p is reached. */
    method CountSideThreat(row: int, column: int, direction: Dir, p: int) returns (threats: int)
      requires board.Valid()
      ensures threats == Ind(SideThreat(board.cells, row, column, direction, p))
    {
      ghost var g := board.cells;
      var count := 0;
      var i := 1;
      while i < ThreatLength
        invariant 1 <= i <= ThreatLength
        invariant Clear(g, row, column, direction, i - 1, p)
        invariant count == StonesUpTo(g, row, column, direction, i - 1, p) && count < ThreatLength - 2
      {
        var newRow := row + i * direction.dr;
        var newColumn := column + i * direction.dc;
        if newRow < 1 || newRow > Size || newColumn < 1 || newColumn > Size {
          NoSideThreat(g, row, column, direction, p, i);
          return 0;
        }
        if board.GetPosition(newRow, newColumn) == p {
          count := count + 1;
          if count == ThreatLength - 2 {
            assert Clear(g, row, column, direction, i, p) && i >= 2;
            return 1;
          }
        } else if board.GetPosition(newRow, newColumn) != Empty {
          NoSideThreat(g, row, column, direction, p, i);
          return 0;
        }
        i := i + 1;
      }
      NoSideThreat(g, row, column, direction, p, ThreatLength);
      return 0;
    }

    /** 10 when the opponent has more five-in-a-row cells than this player, else 100. */
    method GetBlockingPriority() returns (blockingPriority: int)
      requires board.Valid()
      ensures blockingPriority == BlockingPriority(board.cells, playerNumber)
    {
      blockingPriority := MaxPriorityScore;
      var opponentNumber := if playerNumber == 1 then 2 else 1;
      var playerPotentialWinningRows := CountPotentialWinningRows(playerNumber);
      var opponentPotentialWinningRows := CountPotentialWinningRows(opponentNumber);
      if opponentPotentialWinningRows > playerPotentialWinningRows {
        blockingPriority := MinPriorityScore;
      } else if opponentPotentialWinningRows < playerPotentialWinningRows {
        blockingPriority := MaxPriorityScore;
      }
    }

    /** The empty cells of the board in row-major order. */
    method GetAvailableMoves() returns (moves: seq<Cell>)
      requires board.Valid()
      ensures moves == EmptyCells(board.cells)
    {
      ghost var g := board.cells;
      moves := [];
      var row := 1;
      while row <= Size
        invariant 1 <= row <= Size + 1
        invariant moves == CellsWith(g, Empty, row, 1)
      {
        var column := 1;
        while column <= Size
          invariant 1 <= column <= Size + 1
          invariant moves == CellsWith(g, Empty, row, column)
        {
          if board.GetPosition(row, column) == Empty {
            moves := moves + [Cell(row, column)];
          }
          column := column + 1;
        }
        row := row + 1;
      }
    }
  }
}
