/** The older board, whose side length is chosen when it is constructed: a size-by-size
    array of cells read and written through 1-based (row, column) coordinates. */
module LegacyBoard {
  import opened Grids

  class Board {
    /** The side length given to the constructor; it never changes. */
    const Size: nat
    const positions: array2<int>

    /** The board's contents as a grid value. */
    ghost var cells: Grid

    ghost predicate Valid()
      reads this, positions
    {
      positions.Length0 == Size && positions.Length1 == Size && WellFormed(cells, Size) &&
      forall i, j :: 0 <= i < Size && 0 <= j < Size ==> positions[i, j] == cells[i][j]
    }

    /** A new size-by-size board with every cell empty. */
    constructor (size: nat)
      ensures Valid() && fresh(positions)
      ensures Size == size && cells == EmptyGrid(size)
    {
      Size := size;
      positions := new int[size, size]((i, j) => Empty);
      cells := EmptyGrid(size);
    }

    /** Reads cell (row, column); coordinates outside 1..Size are out of range. */
    function GetPosition(row: int, column: int): (v: int)
      reads this, positions
      requires Valid() && InRange(Size, row, column)
      ensures v == At(cells, row, column)
    {
      positions[row - 1, column - 1]
    }

    /** Writes cell (row, column), leaving every other cell as it was. */
    method SetPosition(row: int, column: int, value: int)
      requires Valid() && InRange(Size, row, column)
      modifies this, positions
      ensures Valid()
      ensures cells == Set(old(cells), row, column, value)
    {
      positions[row - 1, column - 1] := value;
      cells := Set(cells, row, column, value);
    }
  }
}
