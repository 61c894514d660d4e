/** The older game class, played on a board of any size: the turn step, the
    five-in-a-row test through a just-played cell and a whole-board five-in-a-row scan. */
module LegacyGame {
  import opened Grids
  import opened Lines
  import opened LegacyBoard

  class Go {
    const board: Board
    var currentPlayer: int

    ghost predicate Valid()
      reads this, board, board.positions
    {
      board.Valid() && (currentPlayer == 1 || currentPlayer == 2)
    }

    /** A game on an empty boardSize-by-boardSize board; player 1 moves first. */
    constructor (boardSize: nat)
      ensures Valid() && fresh(board) && fresh(board.positions)
      ensures board.Size == boardSize && board.cells == EmptyGrid(boardSize)
      ensures currentPlayer == 1
    {
      board := new Board(boardSize);
      currentPlayer := 1;
    }

    /** Places the current player's stone at (row, column); the turn passes to the
        other player unless that move won. */
    method SetMove(row: int, column: int)
      requires Valid() && InRange(board.Size, row, column)
      modifies this, board, board.positions
      ensures Valid()
      ensures board.cells == Set(old(board.cells), row, column, old(currentPlayer))
      ensures currentPlayer ==
        if Wins(board.cells, board.Size, row, column, old(currentPlayer)) then old(currentPlayer)
        else if old(currentPlayer) == 1 then 2 else 1
    {
      board.SetPosition(row, column, currentPlayer);
      var over := IsGameOver(row, column);
      if !over {
        SwapPlayer();
      }
    }

    /** Hands the turn to the other player. */
    method SwapPlayer()
      requires Valid()
      modifies this
      ensures Valid() && currentPlayer == if old(currentPlayer) == 1 then 2 else 1
    {
      currentPlayer := if currentPlayer == 1 then 2 else 1;
    }

    /** Whether the current player has five in a row anywhere on the board:
        horizontally, vertically, diagonally or anti-diagonally. The board is only read. */
    method IsGameOverNaive() returns (over: bool)
      requires Valid()
      ensures over == NaiveWin(board.cells, board.Size, currentPlayer)
    {
      over := ScanRows();
      if over { return; }
      over := ScanColumns();
      if over { return; }
      over := ScanDiagonals(false);
      if over { return; }
      over := ScanDiagonals(true);
    }

    /** The horizontal part of the whole-board scan: a run counter along each row that
        any foreign cell resets. */
    method ScanRows() returns (found: bool)
      requires Valid()
      ensures found == DirFive(board.cells, board.Size, Dir(0, 1), currentPlayer)
    {
      ghost var g := board.cells;
      var n: int, p := board.Size, currentPlayer;
      var row := 1;
      while row <= n
        invariant 1 <= row <= n + 1
        invariant forall sr, sc :: 1 <= sr < row && InRange(n, sr, sc) ==> !FiveFrom(g, n, sr, sc, Dir(0, 1), p)
      {
        var count := 0;
        var column := 1;
        while column <= n
          invariant 1 <= column <= n + 1
          invariant 0 <= count <= 4 && count < column
          invariant forall j :: column - count <= j < column ==> Owns(g, n, row, j, p)
          invariant column - count - 1 >= 1 ==> !Owns(g, n, row, column - count - 1, p)
          invariant forall sc :: 1 <= sc && sc + 4 < column ==> !FiveFrom(g, n, row, sc, Dir(0, 1), p)
        {
          if board.GetPosition(row, column) == p {
            count := count + 1;
            if count == 5 {
              var start := column - 4;
              assert FiveFrom(g, n, row, start, Dir(0, 1), p) by {
                forall i | 0 <= i < 5 ensures OwnsAt(g, n, row, start, Dir(0, 1), i, p) {
                  assert Owns(g, n, row, start + i, p);
                }
              }
              return true;
            }
            if column - 4 >= 1 {
              assert !OwnsAt(g, n, row, column - 4, Dir(0, 1), 4 - count, p);
            }
          } else {
            forall sc | column - 4 <= sc <= column && 1 <= sc ensures !FiveFrom(g, n, row, sc, Dir(0, 1), p) {
              assert !OwnsAt(g, n, row, sc, Dir(0, 1), column - sc, p);
            }
            count := 0;
          }
          column := column + 1;
        }
        forall sc | InRange(n, row, sc) ensures !FiveFrom(g, n, row, sc, Dir(0, 1), p) {
          if FiveFrom(g, n, row, sc, Dir(0, 1), p) {
            FiveFromEnds(g, n, row, sc, Dir(0, 1), p);
          }
        }
        row := row + 1;
      }
      NoFiveAnywhere(g, n, Dir(0, 1), p);
      return false;
    }

    /** The vertical part of the whole-board scan: a run counter down each column. */
    method ScanColumns() returns (found: bool)
      requires Valid()
      ensures found == DirFive(board.cells, board.Size, Dir(1, 0), currentPlayer)
    {
      ghost var g := board.cells;
      var n: int, p := board.Size, currentPlayer;
      var column := 1;
      while column <= n
        invariant 1 <= column <= n + 1
        invariant forall sr, sc :: 1 <= sc < column && InRange(n, sr, sc) ==> !FiveFrom(g, n, sr, sc, Dir(1, 0), p)
      {
        var count := 0;
        var row := 1;
        while row <= n
          invariant 1 <= row <= n + 1
          invariant 0 <= count <= 4 && count < row
          invariant forall j :: row - count <= j < row ==> Owns(g, n, j, column, p)
          invariant row - count - 1 >= 1 ==> !Owns(g, n, row - count - 1, column, p)
          invariant forall sr :: 1 <= sr && sr + 4 < row ==> !FiveFrom(g, n, sr, column, Dir(1, 0), p)
        {
          if board.GetPosition(row, column) == p {
            count := count + 1;
            if count == 5 {
              var start := row - 4;
              assert FiveFrom(g, n, start, column, Dir(1, 0), p) by {
                forall i | 0 <= i < 5 ensures OwnsAt(g, n, start, column, Dir(1, 0), i, p) {
                  assert Owns(g, n, start + i, column, p);
                }
              }
              return true;
            }
            if row - 4 >= 1 {
              assert !OwnsAt(g, n, row - 4, column, Dir(1, 0), 4 - count, p);
            }
          } else {
            forall sr | row - 4 <= sr <= row && 1 <= sr ensures !FiveFrom(g, n, sr, column, Dir(1, 0), p) {
              assert !OwnsAt(g, n, sr, column, Dir(1, 0), row - sr, p);
            }
            count := 0;
          }
          row := row + 1;
        }
        forall sr | InRange(n, sr, column) ensures !FiveFrom(g, n, sr, column, Dir(1, 0), p) {
          if FiveFrom(g, n, sr, column, Dir(1, 0), p) {
            FiveFromEnds(g, n, sr, column, Dir(1, 0), p);
          }
        }
        column := column + 1;
      }
      NoFiveAnywhere(g, n, Dir(1, 0), p);
      return false;
    }

    /** The diagonal parts of the whole-board scan: every start cell whose five cells
        stepping down-right (or, when anti, down-left) stay on the board is tested. */
    method ScanDiagonals(anti: bool) returns (found: bool)
      requires Valid()
      ensures found == DirFive(board.cells, board.Size, if anti then Dir(1, -1) else Dir(1, 1), currentPlayer)
    {
      ghost var g := board.cells;
      var n: int, p := board.Size, currentPlayer;
      var d := if anti then Dir(1, -1) else Dir(1, 1);
      var first, last := if anti then 5 else 1, if anti then n else n - 4;
      var row := 1;
      while row <= n - 4
        invariant 1 <= row
        invariant forall sr, sc :: 1 <= sr < row && InRange(n, sr, sc) ==> !FiveFrom(g, n, sr, sc, d, p)
      {
        var column := first;
        while column <= last
          invariant first <= column
          invariant forall sc :: first <= sc < column ==> !FiveFrom(g, n, row, sc, d, p)
        {
          var pieceFound := true;
          var i := 0;
          while i < 5
            invariant 0 <= i <= 5
            invariant pieceFound ==> forall j :: 0 <= j < i ==> OwnsAt(g, n, row, column, d, j, p)
            invariant !pieceFound ==> !FiveFrom(g, n, row, column, d, p)
          {
            if board.GetPosition(row + i, column + i * d.dc) == p {
              assert OwnsAt(g, n, row, column, d, i, p);
              i := i + 1;
              continue;
            }
            assert !OwnsAt(g, n, row, column, d, i, p);
            pieceFound := false;
            break;
          }
          if pieceFound {
            assert FiveFrom(g, n, row, column, d, p);
            return true;
          }
          column := column + 1;
        }
        forall sc | InRange(n, row, sc) ensures !FiveFrom(g, n, row, sc, d, p) {
          if FiveFrom(g, n, row, sc, d, p) {
            FiveFromEnds(g, n, row, sc, d, p);
          }
        }
        row := row + 1;
      }
      forall sr, sc | InRange(n, sr, sc) ensures !FiveFrom(g, n, sr, sc, d, p) {
        if FiveFrom(g, n, sr, sc, d, p) {
          FiveFromEnds(g, n, sr, sc, d, p);
        }
      }
      NoFiveAnywhere(g, n, d, p);
      return false;
    }

    /** Whether the move at (row, column) ended the game: the nine-cell window scan
        through it along the four line directions, run by run, for the current player. */
    method IsGameOver(row: int, column: int) returns (over: bool)
      requires Valid()
      ensures over == Wins(board.cells, board.Size, row, column, currentPlayer)
    {
      ghost var g := board.cells;
      var n: int, p := board.Size, currentPlayer;
      var directions := WinDirections;
      var k := 0;
      while k < 4
        invariant 0 <= k <= 4
        invariant forall j :: 0 <= j < k ==> !LineWin(g, n, row, column, directions[j], p)
      {
        var direction := directions[k];
        var count := 0;
        var i := -4;
        while i < 5
          invariant -4 <= i <= 5
          invariant 0 <= count <= 4 && count <= i + 4
          invariant forall j :: i - count <= j < i ==> OwnsAt(g, n, row, column, direction, j, p)
          invariant i - count - 1 >= -4 ==> !OwnsAt(g, n, row, column, direction, i - count - 1, p)
          invariant forall m :: -4 <= m <= i - 5 ==> !Window(g, n, row, column, direction, m, p)
        {
          var newRow := row + i * direction.dr;
          var newColumn := column + i * direction.dc;
          if newRow < 1 || newRow > n || newColumn < 1 || newColumn > n {
            assert !OwnsAt(g, n, row, column, direction, i, p);
            count := 0;
            i := i + 1;
            continue;
          }
          if board.GetPosition(newRow, newColumn) == p {
            assert OwnsAt(g, n, row, column, direction, i, p);
            count := count + 1;
            if count == 5 {
              assert Window(g, n, row, column, direction, i - 4, p);
              assert LineWin(g, n, row, column, directions[k], p);
              return true;
            }
            if i - 4 >= -4 {
              assert !OwnsAt(g, n, row, column, direction, i - count, p);
              assert !Window(g, n, row, column, direction, i - 4, p);
            }
          } else {
            assert !OwnsAt(g, n, row, column, direction, i, p);
            count := 0;
          }
          i := i + 1;
        }
        k := k + 1;
      }
      assert !LineWin(g, n, row, column, directions[0], p);
      assert !LineWin(g, n, row, column, directions[1], p);
      assert !LineWin(g, n, row, column, directions[2], p);
      assert !LineWin(g, n, row, column, directions[3], p);
      return false;
    }
  }
}
