/** The two simple opponent strategies shared by EnhancedTicTacToe.jsx and
    TicTacToe.jsx: `getRandomMove` (any empty cell) and the scan of
    `getBlockingMove` (the first empty cell, in row-major order, where the
    acting mark wins at once or the opponent would). */
module Strategies {
  import opened Rules
  import opened Grid

  /** The value of the `aiMode` argument: one of the three tiers, or anything
      else (the `default` branch of the dispatch). */
  datatype AiMode = Easy | Medium | Hard | Unrecognized

  /** The empty cells among the first k cells, in row-major order: the list
      the nested loops of `getRandomMove` push. */
  function EmptyMovesBelow(b: Board, k: nat): (r: seq<Move>)
    requires k <= 9
    ensures forall m :: m in r <==> OnBoard(m) && Index(m.row, m.col) < k && b[Index(m.row, m.col)] == Empty
    ensures forall i, j :: 0 <= i < j < |r| ==>
      OnBoard(r[i]) && OnBoard(r[j]) && Index(r[i].row, r[i].col) < Index(r[j].row, r[j].col)
    ensures r == [] <==> forall i :: 0 <= i < k ==> b[i] != Empty
  {
    if k == 0 then []
    else
      var prev := EmptyMovesBelow(b, k - 1);
      if b[k - 1] == Empty then
        assert forall m :: m in prev ==> OnBoard(m) && Index(m.row, m.col) < k - 1;
        prev + [CellAt(k - 1)]
      else prev
  }

  /** All empty cells of the board, in row-major order. */
  function EmptyMoves(b: Board): seq<Move>
  {
    EmptyMovesBelow(b, 9)
  }

  /** The cell `getRandomMove` returns: entry `Math.floor(Math.random() * n)`
      of the list of the n empty cells, with the random draw given as `pick`
      and the entry taken as `pick % n`; undefined (None) when n is 0. */
  function RandomPick(b: Board, pick: nat): (r: Option<Move>)
    ensures r.None? <==> IsFull(b)
    ensures r.Some? ==> Playable(b, r.value) && r.value in EmptyMoves(b)
  {
    var cells := EmptyMoves(b);
    if |cells| == 0 then None
    else
      assert cells[pick % |cells|] in cells;
      Some(cells[pick % |cells|])
  }

  /** Every empty cell is the random move for some draw: the draw equal to
      its position in the list of empty cells. */
  lemma RandomPickReachesEveryEmptyCell(b: Board, m: Move)
    requires Playable(b, m)
    ensures exists pick: nat :: RandomPick(b, pick) == Some(m)
  {
    var cells := EmptyMoves(b);
    assert m in cells;
    var j :| 0 <= j < |cells| && cells[j] == m;
    SmallRemainder(j, |cells|);
    assert RandomPick(b, j) == Some(cells[j % |cells|]);
  }

  /** A draw below n is its own remainder. */
  lemma SmallRemainder(j: nat, n: nat)
    requires j < n
    ensures j % n == j
  {
  }

  /** When the top-left cell is empty it heads the list of empty cells: the
      list holds it, and it has the least index of all. */
  lemma TopLeftListedFirst(b: Board, k: nat)
    requires 1 <= k <= 9 && b[0] == Empty
    ensures |EmptyMovesBelow(b, k)| > 0 && EmptyMovesBelow(b, k)[0] == Move(0, 0)
  {
    var r := EmptyMovesBelow(b, k);
    assert Move(0, 0) in r;
    var j :| 0 <= j < |r| && r[j] == Move(0, 0);
    assert Index(r[0].row, r[0].col) <= Index(r[j].row, r[j].col);
  }

  /** `getRandomMove`: collect the empty cells row by row, then pick one. */
  method GetRandomMove(a: array2<Cell>, pick: nat) returns (mv: Option<Move>)
    requires Is3x3(a)
    ensures mv == RandomPick(Flat(a), pick)
  {
    ghost var b := Flat(a);
    var emptyCells: seq<Move> := [];
    for row := 0 to 3
      invariant emptyCells == EmptyMovesBelow(b, row * 3)
    {
      for col := 0 to 3
        invariant emptyCells == EmptyMovesBelow(b, row * 3 + col)
      {
        assert a[row, col] == b[Index(row, col)];
        if a[row, col] == Empty {
          emptyCells := emptyCells + [Move(row, col)];
        }
      }
    }
    if |emptyCells| == 0 {
      mv := None;
    } else {
      mv := Some(emptyCells[pick % |emptyCells|]);
    }
  }

  /** Placing p at cell i makes `checkWinner(board, p)` return p. */
  predicate WinsAt(b: Board, i: nat, p: Player)
    requires i < 9
  {
    CheckWinner(b[i := Mark(p)], p) == Some(p)
  }

  /** Cell i is empty and either p wins there at once or the opponent would. */
  predicate Tactical(b: Board, i: nat, p: Player)
    requires i < 9
  {
    b[i] == Empty && (WinsAt(b, i, p) || WinsAt(b, i, Other(p)))
  }

  /** The scan of `getBlockingMove` from cell i on. */
  function TacticFrom(b: Board, p: Player, i: nat): Option<Move>
    requires i <= 9
    decreases 9 - i
  {
    if i == 9 then None
    else if Tactical(b, i, p) then Some(CellAt(i))
    else TacticFrom(b, p, i + 1)
  }

  /** The scan from cell i returns the first tactical cell from i on, and
      null exactly when there is none. */
  lemma {:induction false} TacticFromIsFirst(b: Board, p: Player, i: nat)
    requires i <= 9
    ensures var r := TacticFrom(b, p, i);
      (r.None? <==> forall j :: i <= j < 9 ==> !Tactical(b, j, p)) &&
      (r.Some? ==> exists j :: i <= j < 9 && r.value == CellAt(j) && Tactical(b, j, p) &&
                               (forall l :: i <= l < j ==> !Tactical(b, l, p)))
    decreases 9 - i
  {
    if i < 9 {
      if Tactical(b, i, p) {
        assert TacticFrom(b, p, i) == Some(CellAt(i));
      } else {
        TacticFromIsFirst(b, p, i + 1);
        var r := TacticFrom(b, p, i + 1);
        assert TacticFrom(b, p, i) == r;
        if r.Some? {
          var j :| i + 1 <= j < 9 && r.value == CellAt(j) && Tactical(b, j, p) &&
                   (forall l :: i + 1 <= l < j ==> !Tactical(b, l, p));
          assert forall l :: i <= l < j ==> !Tactical(b, l, p);
        }
      }
    }
  }

  /** The scan returns the first tactical cell k when no cell before it is. */
  lemma {:induction false} TacticFound(b: Board, p: Player, i: nat, k: nat)
    requires i <= k < 9
    requires forall j :: i <= j < k ==> !Tactical(b, j, p)
    requires Tactical(b, k, p)
    ensures TacticFrom(b, p, i) == Some(CellAt(k))
    decreases k - i
  {
    if i < k {
      TacticFound(b, p, i + 1, k);
    }
  }

  /** The body of the loop of `getBlockingMove` at an empty cell: place
      `player`, check, undo; then place the opponent, check, undo. The cell
      qualifies when either check fires; both probes are undone. */
  method ProbeCell(a: array2<Cell>, row: int, col: int, player: Player) returns (hit: bool)
    requires Is3x3(a) && 0 <= row < 3 && 0 <= col < 3 && a[row, col] == Empty
    modifies a
    ensures Flat(a) == old(Flat(a))
    ensures hit == Tactical(old(Flat(a)), Index(row, col), player)
  {
    ghost var b := Flat(a);
    ghost var k := Index(row, col);
    var opponent := if player == O then X else O;
    assert opponent == Other(player);
    Place(a, row, col, Mark(player));
    var winner := CheckWinner(Flat(a), player);
    Place(a, row, col, Empty);
    assert Flat(a) == b;
    if winner == Some(player) {
      return true;
    }
    Place(a, row, col, Mark(opponent));
    var opponentWinner := CheckWinner(Flat(a), opponent);
    Place(a, row, col, Empty);
    assert Flat(a) == b;
    hit := opponentWinner == Some(opponent);
  }

  /** The loop of `getBlockingMove` (both components): probe each empty cell
      in row-major order and return the first that qualifies, own win checked
      before the block at each cell. Every probe is undone, so the board comes
      back as it was. None stands for the `null` of TicTacToe.jsx. */
  method FindTactic(a: array2<Cell>, player: Player) returns (mv: Option<Move>)
    requires Is3x3(a)
    modifies a
    ensures Flat(a) == old(Flat(a))
    ensures mv == TacticFrom(old(Flat(a)), player, 0)
  {
    ghost var b := Flat(a);
    for row := 0 to 3
      invariant Flat(a) == b
      invariant TacticFrom(b, player, 0) == TacticFrom(b, player, row * 3)
    {
      for col := 0 to 3
        invariant Flat(a) == b
        invariant TacticFrom(b, player, 0) == TacticFrom(b, player, row * 3 + col)
      {
        assert a[row, col] == b[Index(row, col)];
        if a[row, col] == Empty {
          var hit := ProbeCell(a, row, col, player);
          if hit {
            return Some(Move(row, col));
          }
        }
      }
    }
    mv := None;
  }

  /** What `getBlockingMove` of EnhancedTicTacToe.jsx returns, and what
      `getBlockingMove(board, O) || getRandomMove(board)` yields in
      TicTacToe.jsx: the first tactical cell, else a random empty cell. */
  function BlockingChoice(b: Board, p: Player, pick: nat): (r: Option<Move>)
    ensures r.None? <==> IsFull(b)
    ensures r.Some? ==> Playable(b, r.value)
  {
    TacticFromIsFirst(b, p, 0);
    var t := TacticFrom(b, p, 0);
    if t.Some? then t else RandomPick(b, pick)
  }

  /** The heuristic scans cell by cell, so an earlier cell that only blocks
      wins over a later cell where the acting mark would complete a line. On
      X,X,_ / O,O,_ / X,_,_ with O to act, O would win at (1,2), yet the scan
      stops at (0,2), which only blocks X. */
  lemma BlockPreemptsLaterWin()
    ensures var b: Board := [Mark(X), Mark(X), Empty, Mark(O), Mark(O), Empty, Mark(X), Empty, Empty];
      WinsAt(b, 5, O) && !WinsAt(b, 2, O) &&
      TacticFrom(b, O, 0) == Some(Move(0, 2)) &&
      BlockingChoice(b, O, 0) == Some(Move(0, 2))
  {
    var b: Board := [Mark(X), Mark(X), Empty, Mark(O), Mark(O), Empty, Mark(X), Empty, Empty];
    assert Filled(b[5 := Mark(O)], 1, O);
    assert Filled(b[2 := Mark(X)], 0, X);
    var c := b[2 := Mark(O)];
    forall k | 0 <= k < 8 ensures !Filled(c, k, O) {
      assert k == 0 || k == 1 || k == 2 || k == 3 || k == 4 || k == 5 || k == 6 || k == 7;
    }
    assert Tactical(b, 2, O);
    TacticFound(b, O, 0, 2);
  }
}
