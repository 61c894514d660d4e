/** Outcomes of the operations that can fail. In the game engine each of these is an
    exception; here it is a value the caller receives. */
module Results {

  datatype Error =
    | WrongPlayerType(kind: int)  // the player factory was given an unknown type code
    | NoValidMoves                // a search found no move scoring above the minimum
    | NoAvailableMoves            // the heuristic player indexed an empty list of moves

  datatype Result<T> = Ok(value: T) | Err(error: Error)

  datatype Option<T> = None | Some(value: T)
}
