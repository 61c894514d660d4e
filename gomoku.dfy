/** The game engine: a board shared by two players, the number of the player to move,
    the five-in-a-row test through a just-played cell, and the turn step. */
module EngineGame {
  import opened Grids
  import opened Lines
  import opened Results
  import opened EngineBoard
  import Factories

  /** The player who moves after p: always a player number, and for a player number the
      same opponent the search players compute as 3 - p. */
  function Other(p: int): (q: int)
    ensures q == 1 || q == 2
    ensures p == 1 || p == 2 ==> q == 3 - p && q != p
  {
    if p == 1 then 2 else 1
  }

  lemma OtherToggles(p: int)
    requires p == 1 || p == 2
    ensures Other(p) != p && Other(Other(p)) == p
  {
  }

  class Gomoku {
    const board: Board
    const player1: Factories.Player
    const player2: Factories.Player
    var currentPlayer: int

    ghost predicate Valid()
      reads this, board, board.positions
    {
      board.Valid() && (currentPlayer == 1 || currentPlayer == 2) &&
      player1.number == 1 && player2.number == 2 &&
      player1.board == board && player2.board == board
    }

    constructor Init(b: Board, p1: Factories.Player, p2: Factories.Player)
      requires b.Valid() && p1.number == 1 && p2.number == 2 && p1.board == b && p2.board == b
      ensures Valid() && board == b && player1 == p1 && player2 == p2 && currentPlayer == 1
    {
      board := b;
      player1 := p1;
      player2 := p2;
      currentPlayer := 1;
    }

    /** A new game on an empty board: player 1 is created from the first type code and
        player 2 from the second, both on the same board, and player 1 moves first. The
        first unknown code is reported. */
    static method Create(player1Type: int, player2Type: int) returns (r: Result<Gomoku>)
      ensures r.Ok? <==> 1 <= player1Type <= 6 && 1 <= player2Type <= 6
      ensures r.Err? ==> r.error == WrongPlayerType(if 1 <= player1Type <= 6 then player2Type else player1Type)
      ensures r.Ok? ==> fresh(r.value) && fresh(r.value.board) && r.value.Valid()
      ensures r.Ok? ==> r.value.currentPlayer == 1 && r.value.board.cells == EmptyGrid(Size)
      ensures r.Ok? ==> Factories.Code(r.value.player1.tier) == player1Type
      ensures r.Ok? ==> Factories.Code(r.value.player2.tier) == player2Type
    {
      var b := new Board();
      var p1 := Factories.CreatePlayer(player1Type, 1, b);
      if p1.Err? {
        return Err(p1.error);
      }
      var p2 := Factories.CreatePlayer(player2Type, 2, b);
      if p2.Err? {
        return Err(p2.error);
      }
      var game := new Gomoku.Init(b, p1.value, p2.value);
      return Ok(game);
    }

    /** The player whose turn it is: player 1 exactly when the current number is 1. */
    function GetCurrentPlayer(): (pl: Factories.Player)
      reads this, board, board.positions
      requires Valid()
      ensures pl.number == currentPlayer
      ensures pl == player1 <==> currentPlayer == 1
      ensures pl.board == board
    {
      if currentPlayer == 1 then player1 else player2
    }

    /** Scans the nine cells at offsets -4..4 from (row, column) along direction and
        reports whether five consecutive on-board cells hold the current player. An
        off-board or foreign cell resets the run without ending the scan. */
    method CheckDirection(row: int, column: int, direction: Dir) returns (won: bool)
      requires Valid()
      ensures won == LineWin(board.cells, Size, row, column, direction, currentPlayer)
    {
      ghost var g := board.cells;
      var p := currentPlayer;
      var count := 0;
      var i := -4;
      while i <= 4
        invariant -4 <= i <= 5
        invariant 0 <= count <= 4 && count <= i + 4
        invariant forall j :: i - count <= j < i ==> OwnsAt(g, Size, row, column, direction, j, p)
        invariant i - count - 1 >= -4 ==> !OwnsAt(g, Size, row, column, direction, i - count - 1, p)
        invariant forall k :: -4 <= k <= i - 5 ==> !Window(g, Size, row, column, direction, k, p)
      {
        var potentialRow := row + i * direction.dr;
        var potentialColumn := column + i * direction.dc;
        if potentialRow < 1 || potentialRow > Size || potentialColumn < 1 || potentialColumn > Size {
          assert !OwnsAt(g, Size, row, column, direction, i, p);
          count := 0;
          i := i + 1;
          continue;
        }
        if board.GetPosition(potentialRow, potentialColumn) == p {
          assert OwnsAt(g, Size, row, column, direction, i, p);
          count := count + 1;
          if count == 5 {
            assert Window(g, Size, row, column, direction, i - 4, p);
            return true;
          }
          if i - 4 >= -4 {
            assert !OwnsAt(g, Size, row, column, direction, i - count, p);
            assert !Window(g, Size, row, column, direction, i - 4, p);
          }
        } else {
          assert !OwnsAt(g, Size, row, column, direction, i, p);
          count := 0;
        }
        i := i + 1;
      }
      return false;
    }

    /** The move at (row, column) ended the game: the current player has five in a
        row through it along one of the four line directions. The board is only read. */
    method IsGameOver(row: int, column: int) returns (over: bool)
      requires Valid()
      ensures over == Wins(board.cells, Size, row, column, currentPlayer)
    {
      over := CheckDirection(row, column, Dir(1, 0));
      if over { return; }
      over := CheckDirection(row, column, Dir(0, 1));
      if over { return; }
      over := CheckDirection(row, column, Dir(1, 1));
      if over { return; }
      over := CheckDirection(row, column, Dir(1, -1));
    }

    /** Places the current player's stone at (row, column); the turn passes to the
        other player unless that move won. */
    method SetMove(row: int, column: int)
      requires Valid() && InRange(Size, row, column)
      modifies this, board, board.positions
      ensures Valid()
      ensures board.cells == Set(old(board.cells), row, column, old(currentPlayer))
      ensures currentPlayer ==
        if Wins(board.cells, Size, row, column, old(currentPlayer)) then old(currentPlayer)
        else Other(old(currentPlayer))
    {
      board.SetPosition(row, column, currentPlayer);
      var over := IsGameOver(row, column);
      if !over {
        SwapPlayer();
      }
    }

    /** Hands the turn to the other player. */
    method SwapPlayer()
      requires Valid()
      modifies this
      ensures Valid() && currentPlayer == Other(old(currentPlayer))
    {
      currentPlayer := if currentPlayer == 1 then 2 else 1;
    }
  }
}
