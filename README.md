# Tic-tac-toe rules engine and computer opponents

This project models the game logic of the three React tic-tac-toe components
and proves properties of that model:

- `EnhancedTicTacToe.jsx`: a 3x3 array board, a human-versus-computer mode
  with three tiers (random, blocking heuristic, minimax) and a win, loss and
  draw tally.
- `TicTacToe.jsx`: the same board and tiers, a retry loop around the tier
  dispatch, and no tally.
- `TicTacToeCanvas.jsx`: a flat nine-cell board and a first-complete-line
  winner scan, with a tally effect and a restart.

All three share one rules engine (module `Rules`). The flat board is a
`Board` of nine cells, where cell (row, col) sits at index `row * 3 + col`.
The 2-D components' board is an `array2<Cell>` that the code writes in
place; `Grid.Flat` reads it as a `Board`.

The parts of the source that write the shared board step by step are
methods on that array, and each one is proved equal to a function on
`Board`:

- `minimax`, `getBestMove` and `getBlockingMove` place a mark, evaluate,
  and reset the cell. Their methods also prove that the board comes back
  unchanged.
- `getRandomMove` fills a list inside nested loops.
- `makeAIMove` writes O in place.
- `handleCellClick` of `TicTacToe.jsx` writes through a shallow copy into
  the shared rows.

`Math.random()` is a `pick: nat` parameter: the chosen entry of the list of
n empty cells is `pick % n`. JavaScript's `undefined` result of an empty
list is `None`.

Modules:

- `Rules`: the board, lines, winners, fullness, outcomes and turn order.
- `Grid`: the array board.
- `Strategies`: the random and blocking strategies.
- `Minimax`: the exhaustive search.
- `Enhanced`, `Classic` and `Canvas`: the three components' handlers.

Behaviour worth knowing, all of it as the code is written:

- In `TicTacToe.jsx` the 'hard' tier calls `getBestMoveMinimax`, which that
  file neither declares nor imports (its only import is React's, at line 2).
  The reference throws inside the `try`, and the `catch` falls back to a
  random move, so `Classic.ClassicChoice` treats 'hard' as random.
- `handleModeChange` of `TicTacToe.jsx` calls `makeAIMove()` with no
  argument, so that reply also takes the default, random branch.
- The blocking scan stops at the first cell where either mark would
  complete a line. An earlier block therefore beats a later own win
  (`Strategies.BlockPreemptsLaterWin`).
- The canvas tally counts a win of O as a win and any other winner as a
  loss. Restarting keeps the tally.

## Model

| member | source | states |
|---|---|---|
| Rules.Index | src/components/TicTacToeCanvas.jsx:43 | `row * 3 + col` lies in 0..8 for row and col in 0..2, and gives back the row (`/ 3`) and the column (`% 3`), so it is injective |
| Rules.CellAt | src/components/TicTacToeCanvas.jsx:41-43 | every index in 0..8 is `row * 3 + col` for some row and col in 0..2; with Index, a bijection onto the cells |
| Rules.CheckWinner | src/components/EnhancedTicTacToe.jsx:336-352 | `checkWinner(b, p)` returns p exactly when some row, column or diagonal is entirely p, and null otherwise |
| Rules.ScanLines | src/components/TicTacToe.jsx:208-224 | the loop of `checkWinner` from iteration i on (row i, column i, then the diagonals after the loop) finds p exactly when a line it has still to test is entirely p |
| Rules.CalculateWinner | src/components/TicTacToeCanvas.jsx:113-133 | null exactly when no line holds three equal non-null marks; otherwise the mark filling the first such line in table order (rows, columns, diagonals) |
| Rules.FirstComplete | src/components/TicTacToeCanvas.jsx:125-130 | the `for (const line of lines)` loop from line k: the first complete line from k on decides, none means null |
| Rules.FullIffNoEmptyCount | src/components/EnhancedTicTacToe.jsx:354-356 | `isBoardFull` (every cell non-empty; same code at TicTacToe.jsx:226-228 and TicTacToeCanvas.jsx:135-137) holds exactly when the board counts no empty cell |
| Rules.OutcomeAfter | src/components/EnhancedTicTacToe.jsx:167-186 | after a move the mover wins exactly when it owns a line; a draw exactly when it does not and the board is full; the game goes on otherwise (the win is checked before the draw) |
| Rules.PlaceCounts | src/components/TicTacToeCanvas.jsx:45-47 | marking an empty cell adds one to the mover's count, leaves the other mark's count alone and removes one empty cell |
| Rules.CanvasWinnerHasLine | src/components/TicTacToeCanvas.jsx:125-129 | a mark the canvas scan reports owns a line, so the 2-D `checkWinner` reports it too |
| Rules.SoleLineOwnerReported | src/components/TicTacToeCanvas.jsx:113-133 | when exactly one mark owns a line, the canvas scan reports that mark |
| Rules.EachLineWins | src/components/TicTacToeCanvas.jsx:114-123 | each of the eight lines, filled alone with one mark, is recognised by both scans, and the other mark is not reported |
| Rules.AlternatingFullBoardDraws | src/components/EnhancedTicTacToe.jsx:178-182 | the full board X,O,X / O,X,O / O,X,O has no line: both scans find no winner and the outcome is a draw whoever moved last |
| Grid.Flat | src/components/EnhancedTicTacToe.jsx:205-207 | the array cell `board[row][col]` is entry `row * 3 + col` of the flat board |
| Grid.Place | src/components/EnhancedTicTacToe.jsx:208 | `board[row][col] = c` changes the flat board at `row * 3 + col` and nowhere else |
| Strategies.EmptyMovesBelow | src/components/EnhancedTicTacToe.jsx:252-259 | the list the nested loops push holds exactly the empty cells before index k, in strictly increasing row-major order, and is empty exactly when those cells are all filled |
| Strategies.RandomPick | src/components/EnhancedTicTacToe.jsx:260 | the random move is undefined exactly on a full board; otherwise it is an empty cell on the board and a member of the row-major list of empty cells |
| Strategies.RandomPickReachesEveryEmptyCell | src/components/EnhancedTicTacToe.jsx:260 | every empty cell is the random move for some draw, so taking the draw modulo the number of empty cells leaves no empty cell unreachable |
| Strategies.TopLeftListedFirst | src/components/EnhancedTicTacToe.jsx:253-256 | an empty top-left cell is the first entry of the list of empty cells |
| Strategies.GetRandomMove | src/components/EnhancedTicTacToe.jsx:251-261 | `getRandomMove` builds the list of empty cells row by row and returns entry `pick % n` of it, or undefined when it is empty (same code at TicTacToe.jsx:90-101) |
| Strategies.TacticFromIsFirst | src/components/EnhancedTicTacToe.jsx:265-285 | the scan from cell i returns the first empty cell at which the acting mark or its opponent would complete a line, and null exactly when no cell from i on qualifies |
| Strategies.TacticFound | src/components/EnhancedTicTacToe.jsx:265-285 | when no earlier cell qualifies, the scan returns the first cell that does |
| Strategies.ProbeCell | src/components/EnhancedTicTacToe.jsx:267-282 | at an empty cell, the own-win probe runs before the block probe; each is undone, the board comes back unchanged, and the cell is reported exactly when either probe completes a line |
| Strategies.FindTactic | src/components/TicTacToe.jsx:103-135 | `getBlockingMove` of TicTacToe.jsx returns the first qualifying cell in row-major order, or null, and restores every probed cell |
| Strategies.BlockingChoice | src/components/TicTacToe.jsx:146 | `getBlockingMove(board, O) \|\| getRandomMove(board)` is undefined only on a full board and otherwise an empty cell on the board |
| Strategies.BlockPreemptsLaterWin | src/components/EnhancedTicTacToe.jsx:265-283 | on X,X,_ / O,O,_ / X,_,_ the scan returns the block at (0,2) although O would win at (1,2) |
| Minimax.BestBelow | src/components/EnhancedTicTacToe.jsx:204-214 | the running best of the nested loops is defined exactly when one of the first k cells is empty |
| Minimax.Minimax | src/components/EnhancedTicTacToe.jsx:197-230 | `minimax` returns MinimaxValue of its input board and leaves the board exactly as it found it |
| Minimax.TryCell | src/components/EnhancedTicTacToe.jsx:207-212 | the loop body places the node's mark, recurses one ply deeper for the other side, resets the cell and returns that child's score |
| Minimax.BestBelowIsExtreme | src/components/EnhancedTicTacToe.jsx:211 | the running best is the maximum (minimum) of the children over the empty cells seen so far, and one of those children attains it |
| Minimax.NodeValue | src/components/EnhancedTicTacToe.jsx:198-229 | an O line scores 10 - depth and is checked first, an X line depth - 10, a full board 0; otherwise a maximising node takes the greatest and a minimising node the least score of its children, where O (X) is placed one ply deeper and the other side moves next |
| Minimax.ScoreBounds | src/components/EnhancedTicTacToe.jsx:198-201 | every score lies in [depth - 10, 10 - depth] when depth plus the number of empty cells is at most 10 |
| Minimax.BestBelowBounds | src/components/EnhancedTicTacToe.jsx:204-214 | the running best of a node stays in [depth - 10, 10 - depth] under the same condition |
| Minimax.ScanInvariant | src/components/EnhancedTicTacToe.jsx:233-247 | for any cell scores, after the first k cells `bestScore` is -Infinity exactly when none of them is empty (and then the move is {-1,-1}); otherwise the move is an empty cell whose score is the best so far and beats every earlier empty cell strictly |
| Minimax.BestMoveIsFirstBest | src/components/EnhancedTicTacToe.jsx:232-249 | `getBestMove` returns {-1,-1} exactly on a full board; otherwise an empty cell whose score no cell beats, with ties going to the earliest cell in row-major order |
| Minimax.RootScoreBounds | src/components/EnhancedTicTacToe.jsx:239 | every root score lies in [-10, 10] |
| Minimax.GetBestMove | src/components/EnhancedTicTacToe.jsx:232-249 | `getBestMove` returns BestMove of its input board and leaves the board unchanged |
| Enhanced.TallyAfterBumpsOne | src/components/EnhancedTicTacToe.jsx:171-183 | against the computer every result raises exactly one counter by one, the other two stay, and which counter (wins for X, losses for O, draws for a draw) depends only on the result; without the computer the tally changes exactly on a draw; no result changes nothing |
| Enhanced.Settle | src/components/EnhancedTicTacToe.jsx:167-186 | a result (win before draw) is stored, ends the game and is counted; otherwise only the turn passes to the other mark; a running, consistent state stays consistent |
| Enhanced.SettleKeepsTurnOrder | src/components/EnhancedTicTacToe.jsx:158-186 | a move by the mark to move, on an empty cell, keeps X's count at O's or one more, with X to move exactly when they are equal |
| Enhanced.MarkCell | src/components/EnhancedTicTacToe.jsx:158-160 | the `board.map` copy differs from the old board at (row, col) only, which holds the current mark |
| Enhanced.Click | src/components/EnhancedTicTacToe.jsx:153-194 | a click changes nothing once the game is over or on an occupied cell; otherwise it marks the cell, settles the result, and schedules the computer exactly when this move neither wins nor fills the board, in the game against it, with O next |
| Enhanced.ClickKeepsTurnOrder | src/components/EnhancedTicTacToe.jsx:154-186 | every click keeps the turn order and the consistency of `winner` and `gameOver` |
| Enhanced.GetBlockingMove | src/components/EnhancedTicTacToe.jsx:263-287 | `getBlockingMove` returns the first qualifying cell, else a random empty cell, and leaves the board unchanged |
| Enhanced.AiChoiceIsPlayable | src/components/EnhancedTicTacToe.jsx:295-308 | while a cell is empty every tier answers with an empty cell on the board; on a full board there is no move, or {-1,-1} from the search |
| Enhanced.SelectMove | src/components/EnhancedTicTacToe.jsx:295-308 | the `switch (aiMode)` returns the tier's move and leaves the board unchanged |
| Enhanced.MakeAIMove | src/components/EnhancedTicTacToe.jsx:289-334 | nothing changes once the game is over or when no move is found; otherwise O lands on the chosen empty cell, the board changes there only, and the result is settled with a win of O counted as a loss; on a board with an empty cell a move is always applied |
| Enhanced.HandleModeChange | src/components/EnhancedTicTacToe.jsx:368-374 | the computer moves at once with the new tier exactly when the game runs against it with O to move |
| Classic.Settle | src/components/TicTacToe.jsx:74-85 | a result (win before draw) is stored and ends the game; otherwise only the turn passes to the other mark |
| Classic.SettleKeepsTurnOrder | src/components/TicTacToe.jsx:69-85 | a move by the mark to move keeps the turn order |
| Classic.ClassicChoice | src/components/TicTacToe.jsx:141-159 | 'medium' takes the blocking move, else a random one; every other tier, 'hard' included, takes a random move; the move is undefined exactly on a full board and otherwise empty |
| Classic.Dispatch | src/components/TicTacToe.jsx:141-159 | the dispatch returns ClassicChoice of the board and leaves the board unchanged |
| Classic.RetryUntilPlayable | src/components/TicTacToe.jsx:162-182 | the loop ends with no move or with an empty cell on the board; an empty-cell first move is kept, and any other is replaced by a fresh dispatch |
| Classic.MakeAIMove | src/components/TicTacToe.jsx:138-198 | without checking for game over, O lands on the chosen empty cell, the board changes there only, and the result is settled; no move is applied only on a full board |
| Classic.ScheduledReplyIgnoresTier | src/components/TicTacToe.jsx:84 | as written, the reply to a click is a random move whatever tier is selected |
| Classic.ScheduledReplyHonoursTier | src/components/TicTacToe.jsx:146 | with the selected tier passed, the 'medium' reply is the blocking scan, which takes the first tactical cell whenever there is one |
| Classic.MediumReplyAsWrittenMissesWin | src/components/TicTacToe.jsx:84 | on _,_,X / O,O,_ / X,X,_ with 'medium' selected, the reply as written plays (0,0), which neither wins nor stops X |
| Classic.NoWinAt | src/components/TicTacToe.jsx:208-224 | on that position no mark completes a line at (0,0) or (0,1) |
| Classic.MediumReplyTakesWin | src/components/TicTacToe.jsx:146 | on the same position the intended 'medium' reply plays (1,2) |
| Classic.HandleCellClick | src/components/TicTacToe.jsx:68-88 | a click changes nothing once the game is over or on an occupied cell; otherwise the current mark is written into the shared rows, the board changes there only, the result is settled, and after an X move that neither wins nor fills the board the reply is scheduled with the board as its mode argument, which is the random default whatever tier is selected |
| Classic.HandleModeChange | src/components/TicTacToe.jsx:201-206 | when O is to move in a running game the computer moves at once, with a random move |
| Canvas.Initial | src/components/TicTacToeCanvas.jsx:5-10 | nine empty cells, no result, X to move |
| Canvas.Click | src/components/TicTacToeCanvas.jsx:32-59 | a click is ignored once a result is stored or when the entry at `row * 3 + col` is not null; otherwise the board changes at that index only, to the current mark; the first complete line wins, else a full board draws, else the other mark moves |
| Canvas.TallyEffect | src/components/TicTacToeCanvas.jsx:18-30 | a result adds exactly one to the total count and no counter goes down; no result changes nothing |
| Canvas.TallyEffectBumpsOne | src/components/TicTacToeCanvas.jsx:19-28 | a draw adds a draw, O a win and X a loss, and no other counter goes up by one |
| Canvas.Restart | src/components/TicTacToeCanvas.jsx:139-146 | nine empty cells, no result, X to move, and the tally kept |
| Canvas.StepCountsFinishedGame | src/components/TicTacToeCanvas.jsx:18-30 | across one action the total count grows by one exactly when that action ends a game |
| Canvas.NewLineIsMovers | src/components/TicTacToeCanvas.jsx:50-51 | on a board without a complete line, a line completed by the new mark is the mover's, and the canvas scan reports exactly that |
| Canvas.ClickAgreesWithOutcomeAfter | src/components/TicTacToeCanvas.jsx:50-57 | in a game played from the start, a click decides the result exactly as the 2-D handlers do |
| Canvas.RestartIsSound | src/components/TicTacToeCanvas.jsx:139-142 | a restart yields a board with no marks, hence the turn order holds and no line is complete |
| Canvas.ClickKeepsSound | src/components/TicTacToeCanvas.jsx:45-57 | a click keeps the turn order, and no line is complete while no result is stored |
| Canvas.StepKeepsSound | src/components/TicTacToeCanvas.jsx:45-57 | clicks and restarts keep the turn order and keep every line incomplete while no result is stored |
| Canvas.PlayKeepsSound | src/components/TicTacToeCanvas.jsx:32-59 | any run of actions from a sound state ends in a sound state |
| Canvas.PlayFromInitialKeepsTurnOrder | src/components/TicTacToeCanvas.jsx:5-7 | from the initial state, any run of clicks and restarts keeps X's count minus O's count at 0 or 1 |

## Left out

- Drawing on the canvas, gradients, animations and sound: these are browser rendering and audio, not game logic.
- React state hooks, `setTimeout` delays and `async` scheduling. A scheduled reply is returned to the caller instead of being run later, and stale closure values are modelled as the state passed in.
- Turning pointer coordinates into a cell: the canvas model takes `row` and `col` directly.
- `Math.random()` is modelled as the `pick` parameter.
- `getBestMoveMinimax` is not part of this model: `TicTacToe.jsx` neither declares nor imports it, so the reference throws there, and that throw is what the 'hard' tier of `TicTacToe.jsx` models.
- `resetGame` of the two 2-D components is not modelled: it only replaces the state with its initial values. The canvas `restartGame` is modelled.
- The `App.jsx` composition and the styling configuration are not part of this model.
- A thrown `TypeError` is modelled as "nothing changes". This covers reading the row of an undefined move (only possible on a full board), and it leaves out the `isAnimating` flag that the enhanced component then leaves set.
- Enhanced.Click: does not model the `isAnimating` guard. That flag is a timing device; a click during an animation is treated like any other.
- Minimax.ScoreBounds: requires that depth plus the number of empty cells is at most 10. This is a simple sufficient condition, not the weakest one (depth 3 with 8 empty cells also stays inside its bounds): every search started by `getBestMove` meets it, since it starts at depth 0 with at most 8 empty cells and each ply adds one to the depth and fills one cell.
- Minimax.Minimax: the source's two loops (maximising and minimising) are one loop here, parameterised by the mark and by max against min.
- The claim that two perfect players always draw is not stated: it needs the full game tree, which the solver cannot evaluate.

## Findings

| source | as written | input that shows it | evidently intended | confidence | as-written member | corrected member |
|---|---|---|---|---|---|---|
| src/components/TicTacToe.jsx:84 | `makeAIMove(updatedBoard)` passes the board as the `aiMode` parameter, so the dispatch always takes the `default` (random) branch | board _,_,X / O,O,_ / X,X,_ with O to move, tier 'medium', pick 0: the reply is (0,0) and X then wins at (2,2) | pass the selected tier, so 'medium' plays the winning (1,2) | high, not executed | Classic.MediumReplyAsWrittenMissesWin | Classic.MediumReplyTakesWin |
