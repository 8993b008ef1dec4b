# Gomoku engine core

A model of `GomokuGame`, the five-in-a-row engine of the gomoku monorepo
(`packages/core-gomoku/src/game.ts`). The engine keeps a 15 x 15 board, the
player to move, the game status, the last move, the move count, the move
history, the winning line and the per-player thinking time. `makeMove`
places a stone after three checks: the game is in progress, the position
is on the board, and the cell is empty. It then scans the four axes through
the new stone for a line of five or more. `undo` takes back the last move
while the game is in progress, and `reset` starts over.

The project has five modules:

- `GomokuTypes` (`types.dfy`) holds the entities. Players, statuses, move
  records, winning lines, move results and the configuration are
  datatypes. The board constants and the position check also live here.
- `MoveHistory` (`history.dfy`) covers the move history and what it
  determines. Replaying it on an empty board (`Occupant`) gives the stone
  on each cell, and it also gives the last move and the number of moves
  each player made.
- `LineScan` (`line_scan.dfy`) is the win scan as pure functions over the
  board. `Ray` is the run of one player's stones from a cell along a step.
  `Line` is the line through a cell that `getWinningLineInDirection`
  builds. `WinScan` is the outcome of `checkWinWithLine`. The lemmas prove
  two things:
  - the line is a maximal run of the player's stones through the cell;
  - the scan is sound and complete: it reports a win exactly when some axis
    holds five in a row through the stone.
- `GameState` (`state.dfy`) holds the engine's fields other than the board
  as one value, `GameData`, with the invariant `Consistent`. The history
  plays distinct on-board cells, Black first and then in turn. The count,
  last move and turn follow the history. A draw is a full board. A winning
  line is stored exactly after a win. `Play`, `Unplay` and `InitialData`
  say what `makeMove`, `undo` and a new game do to that value. The
  properties of the game are proved about these functions.
- `Gomoku` (`game.dfy`) is the class `GomokuGame`. The fields are updated
  in place, and the board is an `array2<Player>`. Its object invariant
  `Valid` adds two things to `Consistent`: the board is what replaying the
  history leaves, and a stored winning line is a maximal run on that board.
  Each state-changing method is proved to move its fields as `Play`,
  `Unplay`, `InitialData` or `MergeConfig` prescribe. The win scan's
  methods are proved to return what the `LineScan` functions define.

Stones are the datatype `Player` (`Nobody`, `Black`, `White`) in place of
the numbers 0, 1, 2. The clock (`Date.now()`) is the parameter `now` of
every operation that reads it.

Several lemmas follow directly from the definitions they speak about.
They state the promises of the source, and their bodies, where they have
one, only guide the solver:

- `GomokuTypes`: `InitialConfigDefaults`, `MergeConfigLaws`;
- `MoveHistory`: `OccupantAppend`, `OccupiedIffPlayed`;
- `LineScan`: `AtStep`, `BudgetShrinks`, `ContiguousSteps`, `CountAhead`,
  `FirstLongNone`, `OffsetsContiguous`, `RayStops`, `RayUnfold`,
  `ReverseCons`, `WalkAhead`, `WalkBehind`, `WalkBehindStops`;
- `GameState`: `EmptyBoardInv`, `GameOverIsFinal`, `PlayAccepts`,
  `PlayClock`, `PlayOutcome`, `PlayPlaces`, `PlayThenUnplay`,
  `UnplayConsistent`.

## Model

| member | source | states |
|---|---|---|
| Gomoku.GomokuGame.constructor | packages/core-gomoku/src/game.ts:91-107 | a new game: empty board, Black to move, in progress, no history or winning line, clock started at `now`, times zero, configuration from the options; the invariant holds |
| GomokuTypes.InitialConfigDefaults | packages/core-gomoku/src/game.ts:92-95 | the constructor's configuration is the options merged, as `updateConfig` merges, over the defaults: no time limit (0) and sound on |
| GameState.InitialData | packages/core-gomoku/src/game.ts:97-106 | the state of a new game satisfies the invariant, with an empty history and Black to move |
| Gomoku.GomokuGame.MakeMove | packages/core-gomoku/src/game.ts:121-206 | the new state and the result are those `Play` gives for the old state and the win scan of the new board; the board object stays; the invariant is kept |
| Gomoku.GomokuGame.RecordStone | packages/core-gomoku/src/game.ts:149-170 | an accepted stone adds the elapsed time to the mover, goes on the board and into the history, and the board still replays the history |
| Gomoku.GomokuGame.Settle | packages/core-gomoku/src/game.ts:172-205 | a win ends the game with the line, the 225th move ends it in a draw, otherwise the turn and the clock pass on; the fields and result are `Play`'s. The invariant it ensures is the one its caller establishes for `Play`'s state through `PlaceKeepsInvariant` |
| GameState.PlayAccepts | packages/core-gomoku/src/game.ts:122-147 | a move is accepted iff the game is in progress and the cell is on the board and empty; a refusal changes nothing and reports the first failed check's message |
| GameState.PlayPlaces | packages/core-gomoku/src/game.ts:159-170 | an accepted move appends one record by the player to move, increments the count, sets the last move and changes the stone of that cell only |
| GameState.PlayOutcome | packages/core-gomoku/src/game.ts:172-205 | a win gives the mover's win status and line; otherwise the 225th move is a draw; only a move that ends nothing hands the turn to the opponent and restarts the clock |
| GameState.PlayClock | packages/core-gomoku/src/game.ts:149-157 | an accepted move adds the time since the turn began to the mover's total only; a refused move adds nothing |
| GameState.PlayConsistent | packages/core-gomoku/src/game.ts:121-206 | makeMove keeps the invariant, given a win check that fits the mover |
| GameState.PlaceKeepsInvariant | packages/core-gomoku/src/game.ts:172-184 | on the board with the new stone, the win scan names the mover or nobody, and the resulting state with its winning line satisfies the invariant on that board |
| GameState.GameOverIsFinal | packages/core-gomoku/src/game.ts:123-129 | once the game is over, makeMove and undo change nothing and report failure |
| Gomoku.GomokuGame.Undo | packages/core-gomoku/src/game.ts:211-232 | the new state and the answer are those `Unplay` gives; the invariant is kept, so the last stone's cell is cleared |
| GameState.UnplayEffect | packages/core-gomoku/src/game.ts:211-232 | undo succeeds iff there is a move and the game is in progress; it drops the last record, clears that cell and no other, gives the turn back to that record's player and restarts the clock; the times stay |
| GameState.UnplayConsistent | packages/core-gomoku/src/game.ts:211-232 | undo keeps the invariant |
| GameState.PlayThenUnplay | packages/core-gomoku/src/game.ts:211-232 | undoing a move that left the game in progress restores the history, count, turn, last move, status and winning line |
| MoveHistory.LastPos | packages/core-gomoku/src/game.ts:224-226 | the last move is absent exactly when the history is empty |
| MoveHistory.OccupiedIffPlayed | packages/core-gomoku/src/game.ts:141 | a cell is occupied exactly when some record played it, and then by that record's player |
| MoveHistory.OccupantAppend | packages/core-gomoku/src/game.ts:160-170 | recording a move changes the replayed stone of its own cell only |
| MoveHistory.BoardCellsShape | packages/core-gomoku/src/game.ts:187 | the board has exactly BOARD_SIZE * BOARD_SIZE = 225 cells, the valid positions |
| MoveHistory.PlayedIsBoard | packages/core-gomoku/src/game.ts:186-193 | 225 distinct on-board moves name every cell of the board (pigeonhole) |
| MoveHistory.FullHistoryFillsBoard | packages/core-gomoku/src/game.ts:186-193 | after 225 distinct on-board moves every cell holds a stone, so the draw check at 225 moves is a check for a full board |
| GameState.DrawFillsBoard | packages/core-gomoku/src/game.ts:186-193 | in a drawn game every cell of the board holds a stone |
| GameState.OccupiedCellsArePlayed | packages/core-gomoku/src/game.ts:160-170 | the occupied cells of the board are exactly the cells the history names |
| GameState.OccupiedCount | packages/core-gomoku/src/game.ts:160-162 | the number of stones on the board equals the move count |
| MoveHistory.CountAlternating | packages/core-gomoku/src/game.ts:385-389 | in an alternating history Black has made half the moves rounded up, White half rounded down, nobody else any |
| Gomoku.GomokuGame.CheckWinWithLine | packages/core-gomoku/src/game.ts:244-271 | the result is the win scan of the board at (row, col) |
| LineScan.FirstLongNone | packages/core-gomoku/src/game.ts:256-270 | a scan that finds nothing reports no winner, and every line it tried is shorter than five |
| LineScan.FirstLongSome | packages/core-gomoku/src/game.ts:256-270 | a scan that finds a line reports the player with the first line, in axis order, of at least five, and that line's axis |
| LineScan.WinScanSound | packages/core-gomoku/src/game.ts:244-271 | winner and line are present together; a winner owns (row, col) and comes with the first axis line of five or more, which is a maximal run through (row, col); no winner means an empty cell or all four lines shorter than five |
| LineScan.WinScanComplete | packages/core-gomoku/src/game.ts:244-271 | five or more of the player's stones in a row through (row, col) on any axis make the scan report that player's win |
| Gomoku.GomokuGame.GetWinningLineInDirection | packages/core-gomoku/src/game.ts:276-304 | the positions are the line through (row, col) along (dr, dc) |
| Gomoku.GomokuGame.AppendAhead | packages/core-gomoku/src/game.ts:285-292 | the walk ahead appends the run of the player's stones after (row, col) |
| Gomoku.GomokuGame.PrependBehind | packages/core-gomoku/src/game.ts:294-301 | the walk behind prepends the run of the player's stones before (row, col), nearest last |
| LineScan.LineShape | packages/core-gomoku/src/game.ts:276-304 | the line is the run behind, (row, col) and the run ahead, in order of offset along the axis, all but (row, col) owned by the player |
| LineScan.LineContiguous | packages/core-gomoku/src/game.ts:276-304 | consecutive positions of the line are one step apart |
| LineScan.LineClosedBehind | packages/core-gomoku/src/game.ts:294-301 | the cell before the first position is off the board or not the player's |
| LineScan.LineClosedAhead | packages/core-gomoku/src/game.ts:285-292 | the cell after the last position is off the board or not the player's |
| LineScan.LineProperties | packages/core-gomoku/src/game.ts:276-304 | the line holds (row, col), each position is the previous one plus (dr, dc), it cannot be extended at either end, and it is a maximal run when (row, col) is the player's |
| LineScan.LineCovers | packages/core-gomoku/src/game.ts:276-304 | if the cells at offsets lo .. hi are the player's, the line is at least hi - lo + 1 long |
| Gomoku.GomokuGame.CountDirection | packages/core-gomoku/src/game.ts:309-330 | the count is the length of the run of the player's stones just past (row, col) |
| Gomoku.GomokuGame.GetBoardState | packages/core-gomoku/src/game.ts:335-337 | a 15 x 15 copy whose cells are the stones that replaying the history leaves |
| Gomoku.GomokuGame.GetCurrentPlayer | packages/core-gomoku/src/game.ts:342-344 | never `Nobody`; while in progress the player after the last move, once over the player who moved last |
| Gomoku.GomokuGame.IsGameOver | packages/core-gomoku/src/game.ts:349-351 | over exactly when a winning line is stored or the game is drawn; a drawn game has made 225 moves and has a stone on every cell |
| Gomoku.GomokuGame.GetGameStatus | packages/core-gomoku/src/game.ts:356-358 | a win status exactly when a winning line is stored, naming the player of the last move; a draw only after 225 moves, with a stone on every cell; in progress only before the 225th move |
| Gomoku.GomokuGame.GetLastMove | packages/core-gomoku/src/game.ts:363-365 | absent exactly before the first move, otherwise the cell of the last record |
| Gomoku.GomokuGame.GetWinningLine | packages/core-gomoku/src/game.ts:370-372 | present exactly after a win, and then five or more positions forming a maximal run of the winner's stones through the last move |
| Gomoku.GomokuGame.GetHistory | packages/core-gomoku/src/game.ts:377-379 | as many records as moves, on distinct board cells, Black first and then in turn, replaying to the board |
| Gomoku.GomokuGame.GetPlayerStats | packages/core-gomoku/src/game.ts:384-393 | the moves are the player's records: (n + 1) / 2 for Black, n / 2 for White, 0 for anyone else; the time is Black's total for Black and White's otherwise |
| Gomoku.GomokuGame.GetCurrentMoveTime | packages/core-gomoku/src/game.ts:398-401 | zero once the game is over; while it is on, exactly the time a move accepted at the same clock reading adds to the mover's total (lines 151-157) |
| GomokuTypes.MergeConfigLaws | packages/core-gomoku/src/game.ts:413-415 | merging an empty update changes nothing, and merging the same update twice is merging it once |
| Gomoku.GomokuGame.UpdateConfig | packages/core-gomoku/src/game.ts:413-415 | only the configuration changes, to the merge of the update over it; the invariant is kept |
| Gomoku.GomokuGame.Reset | packages/core-gomoku/src/game.ts:420-431 | a fresh empty board and the state of a new game at `now`, keeping the configuration |
| Gomoku.GomokuGame.GetBoardSize | packages/core-gomoku/src/game.ts:436-438 | 15; the board's cells, the valid positions, number exactly n * n = 225, the move count of a draw |

## Left out

- `Date.now()` becomes the parameter `now`. `makeMove` reads the clock
  twice (the move's timestamp and the restart of the turn). The model uses
  the one reading `now` for both.
- `PlayerStats.averageTime` is a floating-point division and is not
  modelled. `GetPlayerStats` returns the move count and the total time.
- `exportState` and `importState` are not part of this model. They
  serialise the engine through JSON, and `importState` trusts whatever the
  text holds, so the invariant cannot be stated for it.
- Gomoku.GomokuGame.GetHistory, Gomoku.GomokuGame.GetWinningLine and the
  result of Gomoku.GomokuGame.MakeMove are values here. In the source they
  share objects with the engine:
  - `makeMove` returns the engine's own winning-line object;
  - `getWinningLine` copies only the outer object, so the `positions` array
    is shared;
  - `getHistory` copies the array but shares the records.
  A caller that writes to those objects changes the engine's state. For
  example, moving the last record makes `undo` clear another cell. The model
  cannot express this sharing and promises nothing for such writes.
- Coordinates are integers. The source's `number` also admits fractions,
  which `isValidPosition` lets through:
  - `makeMove(7.5, 3)` throws a TypeError, because `board[7.5]` is undefined;
  - `makeMove(7, 3.5)` is refused as "Position already occupied", because
    `undefined` is not `Player.NONE`.
- `updateConfig` with a field given explicitly as `undefined`: the spread
  copies such a field, so the stored field becomes `undefined`. The model
  treats a field as either present with a value or absent. The constructor
  has no such gap. Its `||` and `!== false` treat an explicit `undefined`
  like a missing field, which is `InitialConfig`'s `None`.
- The step (dr, dc) of the line walks is one of the four unit axes, as at
  every call site. With the step (0, 0), the walks of
  `getWinningLineInDirection` and `countDirection` would never end on a
  cell holding the player's stone. Their preconditions exclude that step,
  and their termination measure relies on it.
- `createEmptyBoard` is the `array2` allocation in the constructor and in
  `Reset`.
- `getConfig` returns the stored configuration. It has no contract beyond
  that, so it has no row above.
- `isValidPosition` is the predicate `GomokuTypes.IsValidPosition`. Its
  meaning is stated by `GetBoardSize`.
- Gomoku.GomokuGame.MakeMove: the body of `makeMove` is split into
  `RecordStone` (the bookkeeping) and `Settle` (the outcome). Likewise, the
  two walks of `getWinningLineInDirection` are the helper methods
  `AppendAhead` and `PrependBehind`. The statements are the source's, in
  the same order.
- `InitialConfig` and `MergeConfig` are the definitions of
  `game.ts:92-95` and `game.ts:414` and carry no contract of their own.
  Their meaning is stated by `InitialConfigDefaults` and `MergeConfigLaws`.
