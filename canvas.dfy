/** The game logic of TicTacToeCanvas.jsx: a flat nine-cell board updated by
    copy, the first-complete-line winner scan, the tally effect that runs
    whenever the stored result changes, and the restart that keeps the
    tally. Every operation replaces state values wholesale. */
module Canvas {
  import opened Rules

  /** The component's state: board, stored result, mark to move, tally. */
  datatype Game = Game(board: Board, winner: Result, current: Player, tally: Tally)

  /** The initial state: nine empty cells, no result, X to move, zero counts. */
  function Initial(): (g: Game)
    ensures Count(g.board, Empty) == 9 && g.winner == Pending && g.current == X
  {
    var b: Board := [Empty, Empty, Empty, Empty, Empty, Empty, Empty, Empty, Empty];
    assert multiset(b) == multiset{Empty, Empty, Empty, Empty, Empty, Empty, Empty, Empty, Empty};
    Game(b, Pending, X, Tally(0, 0, 0))
  }

  /** `handleCanvasClick` for the cell (row, col): ignored once a result is
      stored, and when `board[row * 3 + col]` is not null (an occupied cell,
      or an index outside the board, where the entry is undefined). Otherwise
      the current mark is written at that index; the first complete line
      decides the winner, else a full board is a draw, else the other mark
      moves. */
  function Click(g: Game, row: int, col: int): (r: Game)
    ensures var index := row * 3 + col;
      g.winner != Pending || !(0 <= index < 9) || g.board[index] != Empty ==> r == g
    ensures var index := row * 3 + col;
      g.winner == Pending && 0 <= index < 9 && g.board[index] == Empty ==>
        r.board == g.board[index := Mark(g.current)] && r.tally == g.tally &&
        (CalculateWinner(r.board).Some? ==> r.winner == Won(CalculateWinner(r.board).value) && r.current == g.current) &&
        (CalculateWinner(r.board).None? && IsFull(r.board) ==> r.winner == Drawn && r.current == g.current) &&
        (CalculateWinner(r.board).None? && !IsFull(r.board) ==> r.winner == Pending && r.current == Other(g.current))
  {
    var index := row * 3 + col;
    if g.winner != Pending || !(0 <= index < 9) || g.board[index] != Empty then g
    else
      var newBoard := g.board[index := Mark(g.current)];
      var newWinner := CalculateWinner(newBoard);
      if newWinner.Some? then g.(board := newBoard, winner := Won(newWinner.value))
      else if IsFull(newBoard) then g.(board := newBoard, winner := Drawn)
      else g.(board := newBoard, current := Other(g.current))
  }

  /** The sum of the three counters. */
  function Total(t: Tally): nat
  {
    t.wins + t.losses + t.draws
  }

  /** The effect on `[winner]`: a draw adds a draw, "O" a win and any other
      mark a loss; no result leaves the counts alone. */
  function TallyEffect(w: Result, t: Tally): (t': Tally)
    ensures w != Pending ==> Total(t') == Total(t) + 1
    ensures w == Pending ==> t' == t
    ensures t'.wins >= t.wins && t'.losses >= t.losses && t'.draws >= t.draws
  {
    match w
    case Pending => t
    case Drawn => t.(draws := t.draws + 1)
    case Won(p) => if p == O then t.(wins := t.wins + 1) else t.(losses := t.losses + 1)
  }

  /** Exactly one counter goes up by one for each result, and which one
      depends only on the result. */
  lemma TallyEffectBumpsOne(w: Result, t: Tally)
    requires w != Pending
    ensures var t' := TallyEffect(w, t);
      (t'.draws == t.draws + 1 <==> w == Drawn) &&
      (t'.wins == t.wins + 1 <==> w == Won(O)) &&
      (t'.losses == t.losses + 1 <==> w == Won(X))
  {
  }

  /** `restartGame`: nine empty cells, no result, X to move; the counts are
      kept. */
  function Restart(g: Game): (r: Game)
    ensures Count(r.board, Empty) == 9 && r.winner == Pending && r.current == X
    ensures r.tally == g.tally
  {
    Game(Initial().board, Pending, X, g.tally)
  }

  /** A user action. */
  datatype Event = ClickAt(row: int, col: int) | RestartGame

  /** One action followed by the tally effect, which runs when the stored
      result has changed. */
  function Step(g: Game, e: Event): Game
  {
    var r := match e
      case ClickAt(row, col) => Click(g, row, col)
      case RestartGame => Restart(g);
    if r.winner != g.winner then r.(tally := TallyEffect(r.winner, r.tally)) else r
  }

  /** A run of actions. */
  function Play(g: Game, events: seq<Event>): Game
    decreases |events|
  {
    if events == [] then g else Play(Step(g, events[0]), events[1..])
  }

  /** The counts grow by one exactly on the action that ends a game. */
  lemma StepCountsFinishedGame(g: Game, e: Event)
    ensures var r := Step(g, e);
      Total(r.tally) == Total(g.tally) + (if g.winner == Pending && r.winner != Pending then 1 else 0)
  {
  }

  /** No line holds three equal marks. */
  predicate NoCompleteLine(b: Board)
  {
    forall k :: 0 <= k < 8 ==> !Complete(b, k)
  }

  /** The invariant of a game played from the start: X leads O by at most one
      mark, with X to move when the counts are equal; and while no result is
      stored, no line is complete. */
  predicate Sound(g: Game)
  {
    TurnOrder(g.board, g.current, g.winner) && (g.winner == Pending ==> NoCompleteLine(g.board))
  }

  /** On a board without a complete line, any line complete after p marks
      cell i is p's own; so the canvas scan and the 2-D `checkWinner` on the
      mover agree. */
  lemma NewLineIsMovers(b: Board, i: nat, p: Player)
    requires i < 9 && b[i] == Empty && NoCompleteLine(b)
    ensures CalculateWinner(b[i := Mark(p)]).Some? <==> HasLine(b[i := Mark(p)], p)
    ensures CalculateWinner(b[i := Mark(p)]).Some? ==> CalculateWinner(b[i := Mark(p)]) == Some(p)
  {
    var b' := b[i := Mark(p)];
    forall k | 0 <= k < 8 && Complete(b', k) ensures Filled(b', k, p) {
      var l := Line(k);
      assert !Complete(b, k);
      assert l.0 == i || l.1 == i || l.2 == i;
    }
    if CalculateWinner(b').Some? {
      var q := CalculateWinner(b').value;
      var k :| 0 <= k < 8 && Filled(b', k, q) && (forall j :: 0 <= j < k ==> !Complete(b', j));
      assert Complete(b', k);
      assert Filled(b', k, p);
    }
    if HasLine(b', p) {
      var k :| 0 <= k < 8 && Filled(b', k, p);
      assert Complete(b', k);
    }
  }

  /** In a sound game a click decides the result as the 2-D handlers do:
      OutcomeAfter the new board for the mark that moved. */
  lemma ClickAgreesWithOutcomeAfter(g: Game, row: int, col: int)
    requires Sound(g) && g.winner == Pending
    requires 0 <= row * 3 + col < 9 && g.board[row * 3 + col] == Empty
    ensures Click(g, row, col).winner == OutcomeAfter(g.board[row * 3 + col := Mark(g.current)], g.current)
  {
    NewLineIsMovers(g.board, row * 3 + col, g.current);
  }

  /** A restart yields a sound game. */
  lemma RestartIsSound(g: Game)
    ensures Sound(Restart(g))
  {
    var r := Restart(g);
    assert r.board == Initial().board;
    assert multiset(r.board) == multiset{Empty, Empty, Empty, Empty, Empty, Empty, Empty, Empty, Empty};
    forall k | 0 <= k < 8 ensures !Complete(r.board, k) {
      assert r.board[Line(k).0] == Empty;
    }
  }

  /** A click keeps a game sound. */
  lemma ClickKeepsSound(g: Game, row: int, col: int)
    requires Sound(g)
    ensures Sound(Click(g, row, col))
  {
    var index := row * 3 + col;
    if g.winner == Pending && 0 <= index < 9 && g.board[index] == Empty {
      var b' := g.board[index := Mark(g.current)];
      PlaceCounts(g.board, index, g.current);
      assert TurnOrder(b', Other(g.current), Pending);
      if CalculateWinner(b').None? {
        assert NoCompleteLine(b');
      }
    }
  }

  /** Every action, with the tally effect after it, keeps a game sound. */
  lemma StepKeepsSound(g: Game, e: Event)
    requires Sound(g)
    ensures Sound(Step(g, e))
  {
    match e
    case RestartGame => RestartIsSound(g);
    case ClickAt(row, col) => ClickKeepsSound(g, row, col);
  }

  /** From the initial state, any run of clicks and restarts keeps the turn
      order: X's count minus O's count stays 0 or 1. */
  lemma {:induction false} PlayKeepsSound(g: Game, events: seq<Event>)
    requires Sound(g)
    ensures Sound(Play(g, events))
    decreases |events|
  {
    if events != [] {
      StepKeepsSound(g, events[0]);
      PlayKeepsSound(Step(g, events[0]), events[1..]);
    }
  }

  /** The initial state is sound, hence so is every state reached from it. */
  lemma PlayFromInitialKeepsTurnOrder(events: seq<Event>)
    ensures var g := Play(Initial(), events);
      var x, o := Count(g.board, Mark(X)), Count(g.board, Mark(O));
      x == o || x == o + 1
  {
    RestartIsSound(Initial());
    assert Restart(Initial()) == Initial();
    PlayKeepsSound(Initial(), events);
  }
}
