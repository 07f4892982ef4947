/** The board and rules engine shared by the three game components: the two
    marks, the 3x3 board as nine cells in row-major order, the eight winning
    lines, winner and full-board detection, and the outcome of a move. */
module Rules {

  datatype Option<+T> = None | Some(value: T)

  /** The two marks. X always moves first. */
  datatype Player = X | O

  function Other(p: Player): Player
  {
    if p == X then O else X
  }

  /** A cell is empty (`null` in the components) or holds a mark. */
  datatype Cell = Empty | Mark(player: Player)

  /** A board: nine cells; cell (row, col) is at index row * 3 + col. */
  type Board = b: seq<Cell> | |b| == 9
    witness [Empty, Empty, Empty, Empty, Empty, Empty, Empty, Empty, Empty]

  /** A move as the components return it: `{ row, col }`, with (-1, -1) for "none". */
  datatype Move = Move(row: int, col: int)

  const NoMove := Move(-1, -1)

  /** The flat index of cell (row, col); it determines row and column back. */
  function Index(row: int, col: int): (i: nat)
    requires 0 <= row < 3 && 0 <= col < 3
    ensures i < 9 && i / 3 == row && i % 3 == col
  {
    row * 3 + col
  }

  /** The cell at flat index i; together with Index a bijection onto the cells. */
  function CellAt(i: nat): (m: Move)
    requires i < 9
    ensures 0 <= m.row < 3 && 0 <= m.col < 3 && Index(m.row, m.col) == i
  {
    Move(i / 3, i % 3)
  }

  predicate OnBoard(m: Move)
  {
    0 <= m.row < 3 && 0 <= m.col < 3
  }

  /** The eight lines in the order of the canvas table: rows 0..2, columns
      0..2 (as lines 3..5), then the two diagonals (6 and 7). */
  function Line(k: nat): (l: (nat, nat, nat))
    requires k < 8
    ensures l.0 < 9 && l.1 < 9 && l.2 < 9
  {
    if k < 3 then (3 * k, 3 * k + 1, 3 * k + 2)
    else if k < 6 then (k - 3, k, k + 3)
    else if k == 6 then (0, 4, 8)
    else (2, 4, 6)
  }

  /** Line k holds p in all three cells. */
  predicate Filled(b: Board, k: nat, p: Player)
    requires k < 8
  {
    var l := Line(k);
    b[l.0] == Mark(p) && b[l.1] == Mark(p) && b[l.2] == Mark(p)
  }

  /** Some row, column or diagonal is entirely p. */
  predicate HasLine(b: Board, p: Player)
  {
    exists k :: 0 <= k < 8 && Filled(b, k, p)
  }

  /** `checkWinner(board, player)` of the two 2-D components: returns p when
      one of the eight lines is entirely p, and null otherwise. */
  function CheckWinner(b: Board, p: Player): (r: Option<Player>)
    ensures r == Some(p) <==> HasLine(b, p)
    ensures r != Some(p) ==> r == None
  {
    ScanLines(b, p, 0)
  }

  /** The loop of checkWinner from iteration i on: row i, then column i, then
      the next iteration; after the loop the two diagonals. */
  function ScanLines(b: Board, p: Player, i: nat): (r: Option<Player>)
    requires i <= 3
    ensures r == Some(p) <==>
      exists k :: (i <= k < 3 || 3 + i <= k < 8) && Filled(b, k, p)
    ensures r != Some(p) ==> r == None
    decreases 3 - i
  {
    if i == 3 then
      if Filled(b, 6, p) then Some(p)
      else if Filled(b, 7, p) then Some(p)
      else None
    else if Filled(b, i, p) then Some(p)
    else if Filled(b, 3 + i, p) then Some(p)
    else ScanLines(b, p, i + 1)
  }

  /** Line k holds three equal marks (the canvas test `board[a] && board[a] ===
      board[b] && board[a] === board[c]`). */
  predicate Complete(b: Board, k: nat)
    requires k < 8
  {
    var l := Line(k);
    b[l.0] != Empty && b[l.0] == b[l.1] && b[l.0] == b[l.2]
  }

  /** `calculateWinner` of the canvas component: the mark of the first line,
      in table order, that holds three equal marks; null when there is none. */
  function CalculateWinner(b: Board): (r: Option<Player>)
    ensures r.None? <==> forall k :: 0 <= k < 8 ==> !Complete(b, k)
    ensures r.Some? ==> exists k :: 0 <= k < 8 && Filled(b, k, r.value) &&
                                    (forall j :: 0 <= j < k ==> !Complete(b, j))
  {
    FirstComplete(b, 0)
  }

  /** The `for (const line of lines)` loop from line k on. */
  function FirstComplete(b: Board, k: nat): (r: Option<Player>)
    requires k <= 8
    ensures r.None? <==> forall j :: k <= j < 8 ==> !Complete(b, j)
    ensures r.Some? ==> exists j :: k <= j < 8 && Filled(b, j, r.value) &&
                                    (forall i :: k <= i < j ==> !Complete(b, i))
    decreases 8 - k
  {
    if k == 8 then None
    else if Complete(b, k) then
      var q := b[Line(k).0].player;
      assert Filled(b, k, q);
      Some(q)
    else FirstComplete(b, k + 1)
  }

  /** How many cells hold c. */
  function Count(b: Board, c: Cell): nat
  {
    multiset(b)[c]
  }

  /** `isBoardFull`: every cell is non-empty. */
  predicate IsFull(b: Board)
  {
    forall i :: 0 <= i < 9 ==> b[i] != Empty
  }

  /** A board is full exactly when it counts no empty cell. */
  lemma FullIffNoEmptyCount(b: Board)
    ensures IsFull(b) <==> Count(b, Empty) == 0
  {
    if !IsFull(b) {
      var i :| 0 <= i < 9 && b[i] == Empty;
      assert b[i] in multiset(b);
    }
  }

  /** The win, loss and draw counters of EnhancedTicTacToe.jsx and
      TicTacToeCanvas.jsx. */
  datatype Tally = Tally(wins: nat, losses: nat, draws: nat)

  /** The game result as the components store it in `winner`: null, the
      winning mark, or 'Draw'. */
  datatype Result = Pending | Won(winner: Player) | Drawn

  /** The result after `mover` has played on b, as every move handler of the
      2-D components decides it: a line of the mover wins, checked before a
      full board draws. */
  function OutcomeAfter(b: Board, mover: Player): (r: Result)
    ensures r == Won(mover) <==> HasLine(b, mover)
    ensures r == Drawn <==> !HasLine(b, mover) && IsFull(b)
    ensures r == Pending <==> !HasLine(b, mover) && !IsFull(b)
  {
    if CheckWinner(b, mover).Some? then Won(mover)
    else if IsFull(b) then Drawn
    else Pending
  }

  /** The turn order X keeps over O: X has as many marks as O or one more, and
      while the game runs the player to move is X exactly when the counts are
      equal. */
  predicate TurnOrder(b: Board, current: Player, winner: Result)
  {
    var x, o := Count(b, Mark(X)), Count(b, Mark(O));
    (x == o || x == o + 1) && (winner == Pending ==> current == (if x == o then X else O))
  }

  /** Placing a mark on an empty cell adds one to that mark's count and takes
      one from the empty count, leaving the other mark's count alone. */
  lemma PlaceCounts(b: Board, i: nat, p: Player)
    requires i < 9 && b[i] == Empty
    ensures Count(b[i := Mark(p)], Mark(p)) == Count(b, Mark(p)) + 1
    ensures Count(b[i := Mark(p)], Mark(Other(p))) == Count(b, Mark(Other(p)))
    ensures Count(b[i := Mark(p)], Empty) + 1 == Count(b, Empty)
  {
  }

  /** What the canvas scan reports, the 2-D `checkWinner` confirms: the
      reported mark owns a line. */
  lemma CanvasWinnerHasLine(b: Board, p: Player)
    requires CalculateWinner(b) == Some(p)
    ensures CheckWinner(b, p) == Some(p)
  {
    var k :| 0 <= k < 8 && Filled(b, k, p);
  }

  /** When exactly one mark owns a line, the canvas scan reports that mark. */
  lemma SoleLineOwnerReported(b: Board, p: Player)
    requires HasLine(b, p) && !HasLine(b, Other(p))
    ensures CalculateWinner(b) == Some(p)
  {
    var k :| 0 <= k < 8 && Filled(b, k, p);
    assert Complete(b, k);
    var q := CalculateWinner(b).value;
    var j :| 0 <= j < 8 && Filled(b, j, q);
    assert HasLine(b, q);
    assert q == p || q == Other(p);
  }

  /** The board with exactly line k filled by p and every other cell empty. */
  function LineOnly(k: nat, p: Player): (b: Board)
    requires k < 8
  {
    var l := Line(k);
    seq(9, i => if i == l.0 || i == l.1 || i == l.2 then Mark(p) else Empty)
  }

  /** Each of the eight lines is recognised by both scans: filling exactly
      that line with one mark makes that mark the winner. */
  lemma EachLineWins(k: nat, p: Player)
    requires k < 8
    ensures CheckWinner(LineOnly(k, p), p) == Some(p)
    ensures CalculateWinner(LineOnly(k, p)) == Some(p)
    ensures CheckWinner(LineOnly(k, p), Other(p)) == None
  {
    var b := LineOnly(k, p);
    assert Filled(b, k, p);
    forall j | 0 <= j < 8 ensures !Filled(b, j, Other(p)) {
      assert b[Line(j).0] != Mark(Other(p));
    }
    SoleLineOwnerReported(b, p);
  }

  /** The full board X,O,X / O,X,O / O,X,O. */
  function AlternatingBoard(): Board
  {
    [Mark(X), Mark(O), Mark(X), Mark(O), Mark(X), Mark(O), Mark(O), Mark(X), Mark(O)]
  }

  /** AlternatingBoard() is full, and no line of it holds three equal marks. */
  lemma AlternatingBoardHasNoCompleteLine()
    ensures IsFull(AlternatingBoard())
    ensures forall k :: 0 <= k < 8 ==> !Complete(AlternatingBoard(), k)
  {
    var b := AlternatingBoard();
    assert !Complete(b, 0) && !Complete(b, 1) && !Complete(b, 2) && !Complete(b, 3);
    assert !Complete(b, 4) && !Complete(b, 5) && !Complete(b, 6) && !Complete(b, 7);
  }

  /** AlternatingBoard() is full and has no line: both scans report no
      winner and the outcome is a draw whoever moved last. */
  lemma AlternatingFullBoardDraws()
    ensures IsFull(AlternatingBoard()) && CalculateWinner(AlternatingBoard()) == None
    ensures OutcomeAfter(AlternatingBoard(), X) == Drawn && OutcomeAfter(AlternatingBoard(), O) == Drawn
  {
    AlternatingBoardHasNoCompleteLine();
    assert !HasLine(AlternatingBoard(), X) && !HasLine(AlternatingBoard(), O);
  }
}
