/** The player factory: a player-type code selects the kind of player to create, and
    the created player is given its number and the shared board. */
module Factories {
  import opened Results
  import EngineBoard

  /** The kinds of player the factory can create. */
  datatype Tier = Human | VeryEasy | Easy | Medium | Hard | VeryHard

  /** A created player: its kind, its number (1 or 2 in a game) and the board it plays on. */
  datatype Player = Player(tier: Tier, number: int, board: EngineBoard.Board)

  /** The type code that selects each kind of player. */
  function Code(t: Tier): (k: int)
    ensures 1 <= k <= 6
  {
    match t
    case Human => 1
    case VeryEasy => 2
    case Easy => 3
    case Medium => 4
    case Hard => 5
    case VeryHard => 6
  }

  /** Codes 1 to 6 create the corresponding player with exactly the given number and
      board; any other code is an error naming that code. */
  function CreatePlayer(playerType: int, playerNumber: int, board: EngineBoard.Board): (r: Result<Player>)
    ensures r.Ok? <==> 1 <= playerType <= 6
    ensures r.Ok? ==> Code(r.value.tier) == playerType
    ensures r.Ok? ==> r.value.number == playerNumber && r.value.board == board
    ensures r.Err? ==> r.error == WrongPlayerType(playerType)
  {
    match playerType
    case 1 => Ok(Player(Human, playerNumber, board))
    case 2 => Ok(Player(VeryEasy, playerNumber, board))
    case 3 => Ok(Player(Easy, playerNumber, board))
    case 4 => Ok(Player(Medium, playerNumber, board))
    case 5 => Ok(Player(Hard, playerNumber, board))
    case 6 => Ok(Player(VeryHard, playerNumber, board))
    case _ => Err(WrongPlayerType(playerType))
  }

  /** Different kinds have different codes, so a code names exactly one kind. */
  lemma CodeInjective(s: Tier, t: Tier)
    ensures Code(s) == Code(t) ==> s == t
  {
  }

  /** Creating a player from a kind's code gives back that kind. */
  lemma CreateFromCode(t: Tier, playerNumber: int, board: EngineBoard.Board)
    ensures CreatePlayer(Code(t), playerNumber, board) == Ok(Player(t, playerNumber, board))
  {
  }
}
