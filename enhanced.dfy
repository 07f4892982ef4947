/** The game logic of EnhancedTicTacToe.jsx: the human click handler, the
    medium-tier `getBlockingMove` with its random fallback, and `makeAIMove`,
    which dispatches on the tier and writes O into the board in place. */
module Enhanced {
  import opened Rules
  import opened Grid
  import opened Strategies
  import opened Minimax

  /** The component's game state apart from the board. */
  datatype Status = Status(current: Player, winner: Result, gameOver: bool, tally: Tally)

  /** `gameOver` is set exactly when a result is stored in `winner`. */
  predicate Consistent(st: Status)
  {
    st.gameOver <==> st.winner != Pending
  }

  /** The counters after a move with result r: in the game against the
      computer a win of X is a win and a win of O a loss; a draw is counted in
      either mode. The ensures spells out each case for the proofs that use
      Settle; what the tally promises is stated by TallyAfterBumpsOne. */
  function TallyAfter(t: Tally, r: Result, vsAI: bool): (t': Tally)
    ensures r == Drawn ==> t' == t.(draws := t.draws + 1)
    ensures r == Won(X) ==> t' == (if vsAI then t.(wins := t.wins + 1) else t)
    ensures r == Won(O) ==> t' == (if vsAI then t.(losses := t.losses + 1) else t)
    ensures r == Pending ==> t' == t
  {
    match r
    case Won(p) => if !vsAI then t else if p == X then t.(wins := t.wins + 1) else t.(losses := t.losses + 1)
    case Drawn => t.(draws := t.draws + 1)
    case Pending => t
  }

  /** Against the computer each result raises exactly one counter by one and
      leaves the other two alone, and which counter rises depends only on the
      result; without the computer the tally changes exactly on a draw. */
  lemma TallyAfterBumpsOne(t: Tally, r: Result, vsAI: bool)
    ensures var t' := TallyAfter(t, r, vsAI);
      t'.wins >= t.wins && t'.losses >= t.losses && t'.draws >= t.draws &&
      (t'.wins + t'.losses + t'.draws) - (t.wins + t.losses + t.draws) == (if r == Drawn || (vsAI && r != Pending) then 1 else 0)
    ensures var t' := TallyAfter(t, r, vsAI);
      vsAI ==>
        (t'.wins == t.wins + 1 <==> r == Won(X)) &&
        (t'.losses == t.losses + 1 <==> r == Won(O)) &&
        (t'.draws == t.draws + 1 <==> r == Drawn)
    ensures !vsAI ==> (TallyAfter(t, r, vsAI) != t <==> r == Drawn)
  {
  }

  /** What a move handler does once `mover` has played and the board is b:
      a line of the mover (checked before a full board) or a draw is stored
      in `winner`, ends the game and is counted; otherwise only the turn
      passes to the other mark. */
  function Settle(st: Status, b: Board, mover: Player, vsAI: bool): (r: Status)
    ensures OutcomeAfter(b, mover) == Pending ==> r == st.(current := Other(mover))
    ensures OutcomeAfter(b, mover) != Pending ==>
      r == st.(winner := OutcomeAfter(b, mover), gameOver := true,
               tally := TallyAfter(st.tally, OutcomeAfter(b, mover), vsAI))
    ensures Consistent(st) && !st.gameOver ==> Consistent(r) && r.winner == OutcomeAfter(b, mover)
  {
    var result := OutcomeAfter(b, mover);
    if result == Pending then st.(current := Other(mover))
    else st.(winner := result, gameOver := true, tally := TallyAfter(st.tally, result, vsAI))
  }

  /** Placing the mover's mark on an empty cell of a running game that keeps
      the turn order, with the mover to move, leaves a state that keeps it. */
  lemma SettleKeepsTurnOrder(b: Board, i: nat, st: Status, vsAI: bool)
    requires i < 9 && b[i] == Empty
    requires Consistent(st) && !st.gameOver && TurnOrder(b, st.current, st.winner)
    ensures var b' := b[i := Mark(st.current)];
      var st' := Settle(st, b', st.current, vsAI);
      Consistent(st') && TurnOrder(b', st'.current, st'.winner)
  {
    PlaceCounts(b, i, st.current);
  }

  /** The new board of `handleCellClick`: `board.map` with the current mark
      at (row, col); it differs from the old board at that cell only. */
  function MarkCell(b: Board, row: int, col: int, p: Player): (r: Board)
    requires 0 <= row < 3 && 0 <= col < 3
    ensures r == b[Index(row, col) := Mark(p)]
  {
    seq(9, i requires 0 <= i < 9 => if i / 3 == row && i % 3 == col then Mark(p) else b[i])
  }

  /** The state after a click, and whether the computer's reply is scheduled. */
  datatype ClickResult = ClickResult(board: Board, status: Status, aiScheduled: bool)

  /** `handleCellClick(row, col)`: a click counts only while the game is not
      over and the cell is empty; the mark is placed, a line of the mover is
      reported before a full board, and otherwise the turn passes to the
      other mark, with the computer's move scheduled when that is O in the
      game against the computer. */
  function Click(b: Board, st: Status, row: int, col: int, vsAI: bool): (r: ClickResult)
    requires 0 <= row < 3 && 0 <= col < 3
    ensures st.gameOver || b[Index(row, col)] != Empty ==> r == ClickResult(b, st, false)
    ensures !st.gameOver && b[Index(row, col)] == Empty ==>
      r.board == b[Index(row, col) := Mark(st.current)] &&
      r.status == Settle(st, r.board, st.current, vsAI) &&
      r.aiScheduled == (vsAI && OutcomeAfter(r.board, st.current) == Pending && Other(st.current) == O)
  {
    if !st.gameOver && b[Index(row, col)] == Empty then
      var updated := MarkCell(b, row, col, st.current);
      var st' := Settle(st, updated, st.current, vsAI);
      ClickResult(updated, st', vsAI && OutcomeAfter(updated, st.current) == Pending && Other(st.current) == O)
    else ClickResult(b, st, false)
  }

  /** A click keeps the turn order and the consistency of the state. */
  lemma ClickKeepsTurnOrder(b: Board, st: Status, row: int, col: int, vsAI: bool)
    requires 0 <= row < 3 && 0 <= col < 3
    requires Consistent(st) && TurnOrder(b, st.current, st.winner)
    ensures var r := Click(b, st, row, col, vsAI);
      Consistent(r.status) && TurnOrder(r.board, r.status.current, r.status.winner)
  {
    if !st.gameOver && b[Index(row, col)] == Empty {
      SettleKeepsTurnOrder(b, Index(row, col), st, vsAI);
    }
  }

  /** `getBlockingMove(currentBoard, player)`: the first tactical cell, else
      `getRandomMove(currentBoard)`; the probes leave the board as it was. */
  method GetBlockingMove(a: array2<Cell>, player: Player, pick: nat) returns (mv: Option<Move>)
    requires Is3x3(a)
    modifies a
    ensures Flat(a) == old(Flat(a))
    ensures mv == BlockingChoice(old(Flat(a)), player, pick)
  {
    mv := FindTactic(a, player);
    if mv.None? {
      mv := GetRandomMove(a, pick);
    }
  }

  /** The move the `switch (aiMode)` of `makeAIMove` selects: random for
      'easy' and unknown modes, the blocking heuristic for O on 'medium', the
      exhaustive search on 'hard'. None is the `undefined` of an empty list. */
  function AiChoice(b: Board, mode: AiMode, pick: nat): Option<Move>
  {
    match mode
    case Easy => RandomPick(b, pick)
    case Medium => BlockingChoice(b, O, pick)
    case Hard => Some(BestMove(b))
    case Unrecognized => RandomPick(b, pick)
  }

  /** Every tier answers with an empty cell while one is left; on a full
      board it yields nothing, or {-1, -1} from the search. */
  lemma AiChoiceIsPlayable(b: Board, mode: AiMode, pick: nat)
    ensures !IsFull(b) ==> AiChoice(b, mode, pick).Some? && Playable(b, AiChoice(b, mode, pick).value)
    ensures IsFull(b) ==> AiChoice(b, mode, pick) in {None, Some(NoMove)}
  {
    BestMoveIsFirstBest(b);
  }

  /** `switch (aiMode)` of `makeAIMove`. */
  method SelectMove(a: array2<Cell>, mode: AiMode, pick: nat) returns (mv: Option<Move>)
    requires Is3x3(a)
    modifies a
    ensures Flat(a) == old(Flat(a))
    ensures mv == AiChoice(old(Flat(a)), mode, pick)
  {
    match mode
    case Easy =>
      mv := GetRandomMove(a, pick);
    case Medium =>
      mv := GetBlockingMove(a, O, pick);
    case Hard =>
      var best := GetBestMove(a);
      mv := Some(best);
    case Unrecognized =>
      mv := GetRandomMove(a, pick);
  }

  /** `makeAIMove(aiMode, currentBoard)`: nothing happens once the game is
      over; otherwise the selected move, unless it is {-1, -1}, is written as
      O into the board in place and the result settled as after a click (an O
      line is a loss, a full board a draw, else X moves). When the strategy
      yields no move (an empty list, only on a full board), reading its row
      throws and nothing changes. */
  method MakeAIMove(a: array2<Cell>, st: Status, mode: AiMode, pick: nat) returns (st': Status, applied: Option<Move>)
    requires Is3x3(a)
    modifies a
    ensures applied.None? ==> Flat(a) == old(Flat(a)) && st' == st
    ensures applied.Some? ==>
      !st.gameOver && applied == AiChoice(old(Flat(a)), mode, pick) &&
      Playable(old(Flat(a)), applied.value) &&
      Flat(a) == old(Flat(a))[Index(applied.value.row, applied.value.col) := Mark(O)] &&
      st' == Settle(st, Flat(a), O, true)
    ensures !st.gameOver && !IsFull(old(Flat(a))) ==> applied.Some?
  {
    if st.gameOver {
      return st, None;
    }
    ghost var b := Flat(a);
    var aiMove := SelectMove(a, mode, pick);
    AiChoiceIsPlayable(b, mode, pick);
    if aiMove.None? {
      return st, None;
    }
    var m := aiMove.value;
    if m.row != -1 && m.col != -1 {
      Place(a, m.row, m.col, Mark(O));
      st' := Settle(st, Flat(a), O, true);
      applied := Some(m);
    } else {
      st', applied := st, None;
    }
  }

  /** `handleModeChange(mode)`: the new tier is stored, and when the computer
      is to move in a running game against it, it moves at once with that
      tier. */
  method HandleModeChange(a: array2<Cell>, st: Status, mode: AiMode, vsAI: bool, pick: nat) returns (st': Status, applied: Option<Move>)
    requires Is3x3(a)
    modifies a
    ensures st.gameOver || st.current != O || !vsAI ==> Flat(a) == old(Flat(a)) && st' == st && applied == None
    ensures !st.gameOver && st.current == O && vsAI && !IsFull(old(Flat(a))) ==>
      applied == AiChoice(old(Flat(a)), mode, pick) && applied.Some? &&
      Playable(old(Flat(a)), applied.value) &&
      Flat(a) == old(Flat(a))[Index(applied.value.row, applied.value.col) := Mark(O)] &&
      st' == Settle(st, Flat(a), O, true)
  {
    if !st.gameOver && st.current == O && vsAI {
      st', applied := MakeAIMove(a, st, mode, pick);
    } else {
      st', applied := st, None;
    }
  }
}
