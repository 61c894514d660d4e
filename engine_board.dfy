/** The game engine's board: a fixed 15-by-15 array of cells, read and written
    through 1-based (row, column) coordinates; 0 is an empty cell. */
module EngineBoard {
  import opened Grids

  /** The side length of every engine board. */
  const Size: nat := 15

  class Board {
    const positions: array2<int>

    /** The board's contents as a grid value. */
    ghost var cells: Grid

    ghost predicate Valid()
      reads this, positions
    {
      positions.Length0 == Size && positions.Length1 == Size && WellFormed(cells, Size) &&
      forall i, j :: 0 <= i < Size && 0 <= j < Size ==> positions[i, j] == cells[i][j]
    }

    /** A new board has every cell empty. */
    constructor ()
      ensures Valid() && fresh(positions)
      ensures cells == EmptyGrid(Size)
    {
      positions := new int[Size, Size]((i, j) => Empty);
      cells := EmptyGrid(Size);
    }

    /** Reads cell (row, column); coordinates outside 1..Size are out of range. */
    function GetPosition(row: int, column: int): (v: int)
      reads this, positions
      requires Valid() && InRange(Size, row, column)
      ensures v == At(cells, row, column)
    {
      positions[row - 1, column - 1]
    }

    /** Writes cell (row, column), leaving every other cell as it was. */
    method SetPosition(row: int, column: int, value: int)
      requires Valid() && InRange(Size, row, column)
      modifies this, positions
      ensures Valid()
      ensures cells == Set(old(cells), row, column, value)
    {
      positions[row - 1, column - 1] := value;
      cells := Set(cells, row, column, value);
    }
  }
}
