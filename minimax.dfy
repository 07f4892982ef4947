/** The exhaustive search of EnhancedTicTacToe.jsx (`minimax` and
    `getBestMove`): O maximises and X minimises a depth-adjusted score, and
    every speculative mark is placed on the shared board and then reset. */
module Minimax {
  import opened Rules
  import opened Grid

  /** The mark placed at a node: O where the node maximises, X where it minimises. */
  function Mover(maximizing: bool): Player
  {
    if maximizing then O else X
  }

  /** `Math.max(score, bestScore)` at a maximising node, `Math.min` at a
      minimising one; None stands for the initial -Infinity (resp. Infinity),
      which leaves `score` as it is. */
  function Combine(maximizing: bool, best: Option<int>, score: int): int
  {
    match best
    case None => score
    case Some(v) => if maximizing then (if score >= v then score else v) else (if score <= v then score else v)
  }

  /** `minimax(board, depth, isMaximizing)` as a function of the board. */
  function MinimaxValue(b: Board, depth: int, maximizing: bool): int
    decreases Count(b, Empty), 1
  {
    if CheckWinner(b, O) == Some(O) then 10 - depth
    else if CheckWinner(b, X) == Some(X) then depth - 10
    else if IsFull(b) then 0
    else BestBelow(b, depth, maximizing, 9).value
  }

  /** The best score over the empty cells among the first k, in the order of
      the nested loops: the value of `bestScore` once they are done. */
  function BestBelow(b: Board, depth: int, maximizing: bool, k: nat): (r: Option<int>)
    requires k <= 9
    ensures r.Some? <==> exists j :: 0 <= j < k && b[j] == Empty
    decreases Count(b, Empty), 0, k
  {
    if k == 0 then None
    else
      var best := BestBelow(b, depth, maximizing, k - 1);
      if b[k - 1] == Empty then
        PlaceCounts(b, k - 1, Mover(maximizing));
        Some(Combine(maximizing, best, Child(b, depth, maximizing, k - 1)))
      else best
  }

  /** The score of the child where the node's mark is placed at cell j. */
  function Child(b: Board, depth: int, maximizing: bool, j: nat): int
    requires j < 9 && b[j] == Empty
    decreases Count(b, Empty), 0, 0
  {
    PlaceCounts(b, j, Mover(maximizing));
    MinimaxValue(b[j := Mark(Mover(maximizing))], depth + 1, !maximizing)
  }

  /** `minimax`: score the terminal positions, otherwise try the node's mark
      on every empty cell in row-major order and keep the maximum (O) or the
      minimum (X) of the scores. The two loops of the source differ only in
      the mark placed and in max against min, and are written here as one. */
  method Minimax(a: array2<Cell>, depth: int, isMaximizing: bool) returns (score: int)
    requires Is3x3(a)
    modifies a
    ensures Flat(a) == old(Flat(a))
    ensures score == MinimaxValue(old(Flat(a)), depth, isMaximizing)
    decreases Count(Flat(a), Empty), 1
  {
    ghost var b := Flat(a);
    if CheckWinner(Flat(a), O) == Some(O) {
      return 10 - depth;
    }
    if CheckWinner(Flat(a), X) == Some(X) {
      return depth - 10;
    }
    if IsFull(Flat(a)) {
      return 0;
    }
    var bestScore: Option<int> := None;
    for row := 0 to 3
      invariant Flat(a) == b
      invariant bestScore == BestBelow(b, depth, isMaximizing, row * 3)
    {
      for col := 0 to 3
        invariant Flat(a) == b
        invariant bestScore == BestBelow(b, depth, isMaximizing, row * 3 + col)
      {
        assert a[row, col] == b[Index(row, col)];
        if a[row, col] == Empty {
          var s := TryCell(a, row, col, depth, isMaximizing);
          bestScore := Some(Combine(isMaximizing, bestScore, s));
        }
      }
    }
    score := bestScore.value;
  }

  /** The loop body of `minimax` at an empty cell: place the node's mark,
      recurse one ply deeper for the other side, and reset the cell to EMPTY. */
  method TryCell(a: array2<Cell>, row: int, col: int, depth: int, isMaximizing: bool) returns (score: int)
    requires Is3x3(a) && 0 <= row < 3 && 0 <= col < 3 && a[row, col] == Empty
    modifies a
    ensures Flat(a) == old(Flat(a))
    ensures score == Child(old(Flat(a)), depth, isMaximizing, Index(row, col))
    decreases Count(Flat(a), Empty), 0
  {
    ghost var b := Flat(a);
    var mark := if isMaximizing then O else X;
    PlaceCounts(b, Index(row, col), mark);
    Place(a, row, col, Mark(mark));
    score := Minimax(a, depth + 1, !isMaximizing);
    Place(a, row, col, Empty);
    assert Flat(a) == b;
  }

  /** v is at least w at a maximising node, at most w at a minimising one. */
  predicate Prefers(maximizing: bool, v: int, w: int)
  {
    if maximizing then v >= w else v <= w
  }

  /** The running best over the first k cells is the maximum (minimum) of the
      children over the empty ones among them, and one of them attains it. */
  lemma {:induction false} BestBelowIsExtreme(b: Board, depth: int, maximizing: bool, k: nat)
    requires k <= 9
    ensures var r := BestBelow(b, depth, maximizing, k);
      r.Some? ==>
        (forall j :: 0 <= j < k && b[j] == Empty ==> Prefers(maximizing, r.value, Child(b, depth, maximizing, j))) &&
        (exists j :: 0 <= j < k && b[j] == Empty && r.value == Child(b, depth, maximizing, j))
  {
    if k > 0 {
      BestBelowIsExtreme(b, depth, maximizing, k - 1);
      var prev := BestBelow(b, depth, maximizing, k - 1);
      if b[k - 1] == Empty && prev.Some? {
        var j :| 0 <= j < k - 1 && b[j] == Empty && prev.value == Child(b, depth, maximizing, j);
      }
    }
  }

  /** What `minimax` computes: O's line scores 10 - depth and is checked
      first, X's line scores depth - 10, a full board without a line scores 0;
      otherwise a maximising node takes the largest and a minimising node the
      smallest score of its children, where O (resp. X) is placed one ply
      deeper and the other side moves next. */
  lemma NodeValue(b: Board, depth: int, maximizing: bool)
    ensures HasLine(b, O) ==> MinimaxValue(b, depth, maximizing) == 10 - depth
    ensures !HasLine(b, O) && HasLine(b, X) ==> MinimaxValue(b, depth, maximizing) == depth - 10
    ensures !HasLine(b, O) && !HasLine(b, X) && IsFull(b) ==> MinimaxValue(b, depth, maximizing) == 0
    ensures !HasLine(b, O) && !HasLine(b, X) && !IsFull(b) ==>
      (forall j :: 0 <= j < 9 && b[j] == Empty ==>
        Prefers(maximizing, MinimaxValue(b, depth, maximizing), Child(b, depth, maximizing, j))) &&
      (exists j :: 0 <= j < 9 && b[j] == Empty && MinimaxValue(b, depth, maximizing) == Child(b, depth, maximizing, j))
  {
    BestBelowIsExtreme(b, depth, maximizing, 9);
  }

  /** Every score lies in [depth - 10, 10 - depth] when no more plies remain
      than 10 - depth (in the game, depth plus empty cells never exceeds 8). */
  lemma {:induction false} ScoreBounds(b: Board, depth: int, maximizing: bool)
    requires depth + Count(b, Empty) <= 10
    ensures depth - 10 <= MinimaxValue(b, depth, maximizing) <= 10 - depth
    decreases Count(b, Empty), 1
  {
    if CheckWinner(b, O) != Some(O) && CheckWinner(b, X) != Some(X) && !IsFull(b) {
      BestBelowBounds(b, depth, maximizing, 9);
    }
  }

  lemma {:induction false} BestBelowBounds(b: Board, depth: int, maximizing: bool, k: nat)
    requires k <= 9 && depth + Count(b, Empty) <= 10
    ensures var r := BestBelow(b, depth, maximizing, k);
      r.Some? ==> depth - 10 <= r.value <= 10 - depth
    decreases Count(b, Empty), 0, k
  {
    if k > 0 {
      BestBelowBounds(b, depth, maximizing, k - 1);
      if b[k - 1] == Empty {
        PlaceCounts(b, k - 1, Mover(maximizing));
        ScoreBounds(b[k - 1 := Mark(Mover(maximizing))], depth + 1, !maximizing);
      }
    }
  }

  /** The score `getBestMove` gives to O playing at cell i: minimax at depth
      0 with X to move, that is, the child of a maximising node at depth -1. */
  function RootScore(b: Board, i: nat): (s: int)
    requires i < 9 && b[i] == Empty
    ensures s == MinimaxValue(b[i := Mark(O)], 0, false)
  {
    Child(b, -1, true, i)
  }

  /** The scores of the root loop: RootScore at every empty cell (the
      entries at occupied cells are never read). The ensures is what the
      scan lemmas use to read an entry back as its RootScore. */
  function RootScores(b: Board): (s: seq<int>)
    ensures |s| == 9 && forall i :: 0 <= i < 9 && b[i] == Empty ==> s[i] == RootScore(b, i)
  {
    seq(9, i requires 0 <= i < 9 => if b[i] == Empty then RootScore(b, i) else 0)
  }

  /** The loop state (`bestScore`, `move`) of `getBestMove` after the first k
      cells, for given cell scores; None stands for the initial -Infinity. A
      cell replaces the best only when its score is strictly greater. */
  function Scan(b: Board, scores: seq<int>, k: nat): (Option<int>, Move)
    requires k <= 9 && |scores| == 9
  {
    if k == 0 then (None, NoMove)
    else
      var prev := Scan(b, scores, k - 1);
      if b[k - 1] == Empty && (prev.0.None? || scores[k - 1] > prev.0.value) then
        (Some(scores[k - 1]), CellAt(k - 1))
      else prev
  }

  /** The loop state of `getBestMove` after the first k cells. */
  function RootScan(b: Board, k: nat): (Option<int>, Move)
    requires k <= 9
  {
    Scan(b, RootScores(b), k)
  }

  /** The move `getBestMove` returns. */
  function BestMove(b: Board): Move
  {
    RootScan(b, 9).1
  }

  /** m is an empty cell whose score no empty cell beats, and every empty
      cell before it in row-major order scores strictly less. */
  predicate IsFirstBest(b: Board, m: Move)
  {
    OnBoard(m) && b[Index(m.row, m.col)] == Empty &&
    (forall j :: 0 <= j < 9 && b[j] == Empty ==> RootScore(b, j) <= RootScore(b, Index(m.row, m.col))) &&
    (forall j :: 0 <= j < Index(m.row, m.col) && b[j] == Empty ==> RootScore(b, j) < RootScore(b, Index(m.row, m.col)))
  }

  /** No empty cell among the first k scores more than v. */
  predicate NoneAbove(b: Board, scores: seq<int>, k: nat, v: int)
    requires k <= 9 && |scores| == 9
  {
    forall j :: 0 <= j < k && b[j] == Empty ==> scores[j] <= v
  }

  /** Every empty cell before cell i scores less than v. */
  predicate AllBelow(b: Board, scores: seq<int>, i: nat, v: int)
    requires i <= 9 && |scores| == 9
  {
    forall j :: 0 <= j < i && b[j] == Empty ==> scores[j] < v
  }

  /** The loop state after the first k cells: -Infinity and {-1, -1} exactly
      while no cell was empty; otherwise the best score so far, held by the
      earliest empty cell that scores it. */
  lemma {:induction false} ScanInvariant(b: Board, scores: seq<int>, k: nat)
    requires k <= 9 && |scores| == 9
    ensures var (best, move) := Scan(b, scores, k);
      (best.None? <==> forall j :: 0 <= j < k ==> b[j] != Empty) &&
      (best.None? ==> move == NoMove) &&
      (best.Some? ==> exists i :: 0 <= i < k && b[i] == Empty && move == CellAt(i) && best.value == scores[i] &&
                                  NoneAbove(b, scores, k, best.value) && AllBelow(b, scores, i, best.value))
  {
    if k > 0 {
      ScanInvariant(b, scores, k - 1);
      var (best, move) := Scan(b, scores, k - 1);
      if best.Some? {
        var i :| 0 <= i < k - 1 && b[i] == Empty && move == CellAt(i) && best.value == scores[i] &&
          NoneAbove(b, scores, k - 1, best.value) && AllBelow(b, scores, i, best.value);
        if b[k - 1] == Empty && scores[k - 1] > best.value {
          assert NoneAbove(b, scores, k, scores[k - 1]) && AllBelow(b, scores, k - 1, scores[k - 1]);
        } else {
          assert NoneAbove(b, scores, k, best.value);
        }
      }
    }
  }

  /** `getBestMove` returns the empty cell with the greatest score, ties
      going to the earliest in row-major order, and {-1, -1} exactly when the
      board is full. */
  lemma BestMoveIsFirstBest(b: Board)
    ensures IsFull(b) <==> BestMove(b) == NoMove
    ensures !IsFull(b) ==> IsFirstBest(b, BestMove(b))
  {
    var scores := RootScores(b);
    ScanInvariant(b, scores, 9);
    var (best, move) := Scan(b, scores, 9);
    if !IsFull(b) {
      var i :| 0 <= i < 9 && b[i] == Empty && move == CellAt(i) && best.value == scores[i] &&
        NoneAbove(b, scores, 9, best.value) && AllBelow(b, scores, i, best.value);
      assert Index(move.row, move.col) == i;
    }
  }

  /** Every root score lies in [-10, 10]. */
  lemma RootScoreBounds(b: Board, i: nat)
    requires i < 9 && b[i] == Empty
    ensures -10 <= RootScore(b, i) <= 10
  {
    PlaceCounts(b, i, O);
    ScoreBounds(b[i := Mark(O)], 0, false);
  }

  /** `getBestMove`: try O on every empty cell in row-major order, score it
      with `minimax(board, 0, false)`, reset the cell, and keep the cell only
      when its score is strictly greater than the best so far. */
  method GetBestMove(a: array2<Cell>) returns (move: Move)
    requires Is3x3(a)
    modifies a
    ensures Flat(a) == old(Flat(a))
    ensures move == BestMove(old(Flat(a)))
  {
    ghost var b := Flat(a);
    var bestScore: Option<int> := None;
    move := NoMove;
    for row := 0 to 3
      invariant Flat(a) == b
      invariant (bestScore, move) == RootScan(b, row * 3)
    {
      for col := 0 to 3
        invariant Flat(a) == b
        invariant (bestScore, move) == RootScan(b, row * 3 + col)
      {
        assert a[row, col] == b[Index(row, col)];
        if a[row, col] == Empty {
          Place(a, row, col, Mark(O));
          var score := Minimax(a, 0, false);
          Place(a, row, col, Empty);
          assert Flat(a) == b;
          if bestScore.None? || score > bestScore.value {
            bestScore := Some(score);
            move := Move(row, col);
          }
        }
      }
    }
  }
}
