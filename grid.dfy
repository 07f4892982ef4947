/** The 2-D board of EnhancedTicTacToe.jsx and TicTacToe.jsx: a 3x3 array
    written in place as `board[row][col] = ...`, read through the flat
    row-major Board of the rules engine. */
module Grid {
  import opened Rules

  predicate Is3x3(a: array2<Cell>)
  {
    a.Length0 == 3 && a.Length1 == 3
  }

  /** The array's cells in row-major order: cell (row, col) at row * 3 + col. */
  function Flat(a: array2<Cell>): (b: Board)
    requires Is3x3(a)
    reads a
    ensures forall row, col :: 0 <= row < 3 && 0 <= col < 3 ==> b[Index(row, col)] == a[row, col]
  {
    seq(9, i requires 0 <= i < 9 reads a => a[i / 3, i % 3])
  }

  /** `board[row][col] = c`: the flat board changes at Index(row, col) only. */
  method Place(a: array2<Cell>, row: int, col: int, c: Cell)
    requires Is3x3(a) && 0 <= row < 3 && 0 <= col < 3
    modifies a
    ensures Flat(a) == old(Flat(a))[Index(row, col) := c]
  {
    ghost var before := Flat(a);
    a[row, col] := c;
    forall i | 0 <= i < 9
      ensures Flat(a)[i] == before[Index(row, col) := c][i]
    {
      var m := CellAt(i);
      assert Flat(a)[Index(m.row, m.col)] == a[m.row, m.col];
    }
  }

  /** A move `{ row, col }` the components may write: on the board and empty. */
  predicate Playable(b: Board, m: Move)
  {
    OnBoard(m) && b[Index(m.row, m.col)] == Empty
  }
}
