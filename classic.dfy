/** The game logic of TicTacToe.jsx: the click handler, which writes through
    a shallow copy into the shared rows of the board, and `makeAIMove`, which
    dispatches on the tier, retries until the move lands on an empty cell and
    writes O in place. There is no tally, and the 'hard' tier calls
    `getBestMoveMinimax`, which this file neither declares nor imports, so
    the call throws and the tier falls back to a random move. */
module Classic {
  import opened Rules
  import opened Grid
  import opened Strategies

  /** The component's game state apart from the board. */
  datatype Status = Status(current: Player, winner: Result, gameOver: bool)

  /** `gameOver` is set exactly when a result is stored in `winner`. */
  predicate Consistent(st: Status)
  {
    st.gameOver <==> st.winner != Pending
  }

  /** The result handling after `mover` has played on b: a line of the mover
      (checked before a full board) or a draw is stored and ends the game;
      otherwise the turn passes to the other mark. */
  function Settle(st: Status, b: Board, mover: Player): (r: Status)
    ensures OutcomeAfter(b, mover) == Pending ==> r == st.(current := Other(mover))
    ensures OutcomeAfter(b, mover) != Pending ==> r == st.(winner := OutcomeAfter(b, mover), gameOver := true)
    ensures Consistent(st) && !st.gameOver ==> Consistent(r) && r.winner == OutcomeAfter(b, mover)
  {
    var result := OutcomeAfter(b, mover);
    if result == Pending then st.(current := Other(mover))
    else st.(winner := result, gameOver := true)
  }

  /** Placing the mover's mark on an empty cell of a running game that keeps
      the turn order, with the mover to move, leaves a state that keeps it. */
  lemma SettleKeepsTurnOrder(b: Board, i: nat, st: Status)
    requires i < 9 && b[i] == Empty
    requires Consistent(st) && !st.gameOver && TurnOrder(b, st.current, st.winner)
    ensures var b' := b[i := Mark(st.current)];
      var st' := Settle(st, b', st.current);
      Consistent(st') && TurnOrder(b', st'.current, st'.winner)
  {
    PlaceCounts(b, i, st.current);
  }

  /** The move the dispatch of `makeAIMove` selects. 'medium' is
      `getBlockingMove(board, O) || getRandomMove(board)`. 'hard' calls
      `getBestMoveMinimax`, which the component neither declares nor imports:
      the reference throws, and the `catch` falls back to `getRandomMove`. 'easy' and any other value take
      a random move. None is the `undefined` of an empty list. */
  function ClassicChoice(b: Board, mode: AiMode, pick: nat): (r: Option<Move>)
    ensures r.None? <==> IsFull(b)
    ensures r.Some? ==> Playable(b, r.value)
    ensures mode == Medium ==> r == BlockingChoice(b, O, pick)
    ensures mode != Medium ==> r == RandomPick(b, pick)
  {
    match mode
    case Medium => BlockingChoice(b, O, pick)
    case _ => RandomPick(b, pick)
  }

  /** One pass of the `switch (aiMode)` of `makeAIMove`; every probe of the
      blocking scan is undone. */
  method Dispatch(a: array2<Cell>, mode: AiMode, pick: nat) returns (mv: Option<Move>)
    requires Is3x3(a)
    modifies a
    ensures Flat(a) == old(Flat(a))
    ensures mv == ClassicChoice(old(Flat(a)), mode, pick)
  {
    match mode
    case Medium =>
      mv := FindTactic(a, O);
      if mv.None? {
        mv := GetRandomMove(a, pick);
      }
    case _ =>
      mv := GetRandomMove(a, pick);
  }

  /** The retry loop of `makeAIMove`: while the move has row or column -1 or
      targets an occupied cell, dispatch again (with a fresh random draw).
      A move from the dispatch is always on an empty cell, so the loop runs
      at most once; None (undefined) leaves the loop, where reading its row
      throws. */
  method RetryUntilPlayable(a: array2<Cell>, mode: AiMode, first: Option<Move>, retryPick: nat) returns (mv: Option<Move>)
    requires Is3x3(a)
    requires first.Some? ==> first.value.row == -1 || first.value.col == -1 || OnBoard(first.value)
    modifies a
    ensures Flat(a) == old(Flat(a))
    ensures mv.None? || Playable(old(Flat(a)), mv.value)
    ensures first.None? || Playable(old(Flat(a)), first.value) ==> mv == first
    ensures first.Some? && !Playable(old(Flat(a)), first.value) ==> mv == ClassicChoice(old(Flat(a)), mode, retryPick)
  {
    ghost var b := Flat(a);
    mv := first;
    while mv.Some? && (mv.value.row == -1 || mv.value.col == -1 || a[mv.value.row, mv.value.col] != Empty)
      invariant Flat(a) == b
      invariant mv.Some? ==> mv.value.row == -1 || mv.value.col == -1 || OnBoard(mv.value)
      invariant mv == first || mv == ClassicChoice(b, mode, retryPick)
      invariant first.None? || Playable(b, first.value) ==> mv == first
      decreases if mv.Some? && !Playable(b, mv.value) then 1 else 0
    {
      mv := Dispatch(a, mode, retryPick);
    }
  }

  /** `makeAIMove(aiMode)`: dispatch, retry, then write O into the shared rows
      at the chosen cell and settle the result (an O line wins, a full board
      draws, otherwise X moves). There is no game-over check. When the
      strategy yields no move (only on a full board), reading its row throws
      and nothing changes. */
  method MakeAIMove(a: array2<Cell>, st: Status, mode: AiMode, pick: nat, retryPick: nat) returns (st': Status, applied: Option<Move>)
    requires Is3x3(a)
    modifies a
    ensures applied.None? ==> IsFull(old(Flat(a))) && Flat(a) == old(Flat(a)) && st' == st
    ensures applied.Some? ==>
      applied == ClassicChoice(old(Flat(a)), mode, pick) &&
      Playable(old(Flat(a)), applied.value) &&
      Flat(a) == old(Flat(a))[Index(applied.value.row, applied.value.col) := Mark(O)] &&
      st' == Settle(st, Flat(a), O)
  {
    var aiMove := Dispatch(a, mode, pick);
    aiMove := RetryUntilPlayable(a, mode, aiMove, retryPick);
    if aiMove.None? {
      return st, None;
    }
    var m := aiMove.value;
    Place(a, m.row, m.col, Mark(O));
    st' := Settle(st, Flat(a), O);
    applied := Some(m);
  }

  /** The mode argument the click handler passes to `makeAIMove` as written:
      it passes the board, which matches none of 'easy', 'medium' or 'hard'. */
  function ScheduledArgAsWritten(aiMode: AiMode): AiMode
  {
    Unrecognized
  }

  /** The mode argument the click handler evidently means to pass: the
      selected tier. */
  function ScheduledArg(aiMode: AiMode): AiMode
  {
    aiMode
  }

  /** As written, the reply to a click is a random move whatever tier is
      selected. */
  lemma ScheduledReplyIgnoresTier(b: Board, aiMode: AiMode, pick: nat)
    ensures ClassicChoice(b, ScheduledArgAsWritten(aiMode), pick) == RandomPick(b, pick)
  {
  }

  /** With the selected tier passed, the 'medium' reply takes the first
      tactical cell whenever there is one. */
  lemma ScheduledReplyHonoursTier(b: Board, pick: nat)
    ensures TacticFrom(b, O, 0).Some? ==> ClassicChoice(b, ScheduledArg(Medium), pick) == TacticFrom(b, O, 0)
    ensures ClassicChoice(b, ScheduledArg(Medium), pick) == BlockingChoice(b, O, pick)
  {
  }

  /** The position _,_,X / O,O,_ / X,X,_: O to move, O completes its row at
      (1,2), and X would complete the bottom row at (2,2). */
  function Witness(): Board
  {
    [Empty, Empty, Mark(X), Mark(O), Mark(O), Empty, Mark(X), Mark(X), Empty]
  }

  /** On Witness() with 'medium' selected, the reply as written takes the
      first empty cell for pick 0, (0,0), which neither wins for O nor stops
      X at (2,2). */
  lemma MediumReplyAsWrittenMissesWin()
    ensures TurnOrder(Witness(), O, Pending)
    ensures ClassicChoice(Witness(), ScheduledArgAsWritten(Medium), 0) == Some(Move(0, 0))
    ensures !WinsAt(Witness(), 0, O) && WinsAt(Witness(), 5, O) && WinsAt(Witness(), 8, X)
  {
    var b := Witness();
    assert multiset(b)[Mark(X)] == 3 && multiset(b)[Mark(O)] == 2;
    TopLeftListedFirst(b, 9);
    assert Filled(b[5 := Mark(O)], 1, O);
    assert Filled(b[8 := Mark(X)], 2, X);
    NoWinAt(b, 0, O);
  }

  /** Marking cell i of Witness(), for i in {0, 1}, completes no line. */
  lemma NoWinAt(b: Board, i: nat, p: Player)
    requires b == Witness() && i in {0, 1}
    ensures !WinsAt(b, i, p)
  {
    var c := b[i := Mark(p)];
    forall k | 0 <= k < 8 ensures !Filled(c, k, p) {
      assert k == 0 || k == 1 || k == 2 || k == 3 || k == 4 || k == 5 || k == 6 || k == 7;
    }
  }

  /** On Witness(), the reply with the selected tier passed takes (1,2) and
      wins. */
  lemma MediumReplyTakesWin()
    ensures ClassicChoice(Witness(), ScheduledArg(Medium), 0) == Some(Move(1, 2))
  {
    var b := Witness();
    assert Filled(b[5 := Mark(O)], 1, O);
    NoWinAt(b, 0, O);
    NoWinAt(b, 0, X);
    NoWinAt(b, 1, O);
    NoWinAt(b, 1, X);
    TacticFound(b, O, 0, 5);
  }

  /** `handleCellClick(row, col)`: while the game is not over and the cell is
      empty, the current mark is written into the shared row (the shallow
      copy `[...board]` shares it) and the result settled. When X has moved
      and the game goes on, the computer's reply is scheduled as
      `makeAIMove(updatedBoard)`: the board lands in the `aiMode` parameter,
      so the reply takes the random default whatever tier is selected (see
      ScheduledArgAsWritten). */
  method HandleCellClick(a: array2<Cell>, st: Status, row: int, col: int, aiMode: AiMode) returns (st': Status, scheduled: Option<AiMode>)
    requires Is3x3(a) && 0 <= row < 3 && 0 <= col < 3
    modifies a
    ensures st.gameOver || old(Flat(a))[Index(row, col)] != Empty ==>
      Flat(a) == old(Flat(a)) && st' == st && scheduled == None
    ensures !st.gameOver && old(Flat(a))[Index(row, col)] == Empty ==>
      Flat(a) == old(Flat(a))[Index(row, col) := Mark(st.current)] &&
      st' == Settle(st, Flat(a), st.current) &&
      scheduled == (if OutcomeAfter(Flat(a), st.current) == Pending && st.current == X then Some(ScheduledArgAsWritten(aiMode)) else None)
  {
    if !st.gameOver && a[row, col] == Empty {
      Place(a, row, col, Mark(st.current));
      st' := Settle(st, Flat(a), st.current);
      if OutcomeAfter(Flat(a), st.current) == Pending && st.current == X {
        scheduled := Some(ScheduledArgAsWritten(aiMode));
      } else {
        scheduled := None;
      }
    } else {
      st', scheduled := st, None;
    }
  }

  /** `handleModeChange(mode)`: when O is to move in a running game the
      computer moves at once; the call passes no tier, so the default branch
      (a random move) is taken. */
  method HandleModeChange(a: array2<Cell>, st: Status, mode: AiMode, pick: nat, retryPick: nat) returns (st': Status, applied: Option<Move>)
    requires Is3x3(a)
    modifies a
    ensures st.gameOver || st.current != O ==> Flat(a) == old(Flat(a)) && st' == st && applied == None
    ensures !st.gameOver && st.current == O && !IsFull(old(Flat(a))) ==>
      applied == RandomPick(old(Flat(a)), pick) && applied.Some? &&
      Flat(a) == old(Flat(a))[Index(applied.value.row, applied.value.col) := Mark(O)] &&
      st' == Settle(st, Flat(a), O)
  {
    if !st.gameOver && st.current == O {
      st', applied := MakeAIMove(a, st, Unrecognized, pick, retryPick);
    } else {
      st', applied := st, None;
    }
  }
}
