# Gobang engine of the xechat plugin

This project models the five-in-a-row (Gobang) engine of the xechat IntelliJ
plugin, `Gobang.java`, and proves properties of it. The engine keeps:

- a 15 x 15 board of stone codes (0 empty, 1 black, 2 white);
- a counter of placed stones and the last move;
- a status (0 playing, 1 won, 2 drawn) and a game-over flag read from it;
- the set of highlighted winning cells;
- the game mode, the colour the local player places, and a turn lock.

The model has two modules.

- `GobangRules` (`rules.dfy`) holds the pure reference definitions and their
  lemmas. A board is a value `Grid` (`seq<seq<int>>`). The file defines
  `Run`, which counts matching stones from a cell in one direction, the same
  way the Java engine's scan loops do. It also defines `AxisWins` and `AxisCells`
  for one axis, and `FirstWin` for the first winning axis in the Java
  engine's order. `HasFive` is an independent definition of five in a row through a
  cell. `Count` counts the stones on a board. `Board`/`Move` give one move's
  effect on the state as a value, and `Invariant` is what holds between
  moves.
  Apart from `Run`'s bound `r <= n`, these definitions have no contract of
  their own; the lemmas in the table state what they mean. `Move` is `setChess` (Gobang.java lines 388-402),
  `Verdict` and `FirstWin` are `checkWinner` (lines 420-581), and
  `AxisWins`/`AxisCells` are the result and highlight of one axis (for
  example lines 421-457).
- `GobangGame` (`game.dfy`) holds the datatype `GameMode`, the three game
  modes with their display names (Gobang.java lines 79-86), and the class `Gobang`, written over an
  `array2<int>` the way the Java engine is.
  - A ghost `grid` mirrors the array.
  - `State()` packs the fields a move changes into a `Board`.
  - Every placing method is proved to produce exactly
    `Move(old(State()), cell, stone)`.
  - The eight scan loops of `checkWinner` are one loop, `Scan`, with
    parameters for the direction and the starting count. `ScanAxis` runs the
    two halves of one axis.
  - The Java field `type` is named `chessType`, because `type` is a keyword.
  - The highlight map, keyed by `"x,y"` strings, is a `set` of cells.

## Model

| member | source | states |
|---|---|---|
| GobangRules.EmptyGrid | xechat-plugin/src/main/java/cn/xeblog/plugin/game/Gobang.java:70 | a new board is 15 x 15 and every cell is empty |
| GobangRules.PlaceCells | xechat-plugin/src/main/java/cn/xeblog/plugin/game/Gobang.java:394-397 | writing a stone changes only the chosen cell, which then holds that stone |
| GobangRules.Run | xechat-plugin/src/main/java/cn/xeblog/plugin/game/Gobang.java:424-437 | a scan counts at most as many steps as it may take |
| GobangRules.RunSpec | xechat-plugin/src/main/java/cn/xeblog/plugin/game/Gobang.java:424-437 | the counted cells all hold the stone; the scan stopped at the step limit, the board edge or the first cell of another code |
| GobangRules.RunAtLeast | xechat-plugin/src/main/java/cn/xeblog/plugin/game/Gobang.java:424-437 | when the first m cells match, the scan counts at least m |
| GobangRules.RunStops | xechat-plugin/src/main/java/cn/xeblog/plugin/game/Gobang.java:424-437 | when the first m cells match and the next one does not, the scan counts exactly m |
| GobangRules.RayCells | xechat-plugin/src/main/java/cn/xeblog/plugin/game/Gobang.java:434 | the cells one scan highlights are exactly its first m steps |
| GobangRules.RaySize | xechat-plugin/src/main/java/cn/xeblog/plugin/game/Gobang.java:434 | m distinct steps put m distinct cells into the highlight |
| GobangRules.AxisFromScans | xechat-plugin/src/main/java/cn/xeblog/plugin/game/Gobang.java:421-457 | from the two halves' results, one axis wins exactly when its count reaches five, and its highlight is the axis's matching cells |
| GobangRules.FirstWinSound | xechat-plugin/src/main/java/cn/xeblog/plugin/game/Gobang.java:420-575 | the axis the win check stops at wins; when it finds none, no axis wins |
| GobangRules.FirstWinIsFirst | xechat-plugin/src/main/java/cn/xeblog/plugin/game/Gobang.java:420-575 | the win check reports the earliest winning axis in the order horizontal, vertical, left diagonal, right diagonal |
| GobangRules.FiveFromRuns | xechat-plugin/src/main/java/cn/xeblog/plugin/game/Gobang.java:421-457 | backward and forward runs adding up to five give five stones in a row through the cell |
| GobangRules.RunsFromFive | xechat-plugin/src/main/java/cn/xeblog/plugin/game/Gobang.java:421-457 | five stones in a row through the cell make the backward and forward runs add up to five |
| GobangRules.AxisWinsIffFive | xechat-plugin/src/main/java/cn/xeblog/plugin/game/Gobang.java:421-457 | one axis's count reaches five exactly when five stones of the code lie in a row on it through the cell, so longer lines win too |
| GobangRules.FiveMakesWin | xechat-plugin/src/main/java/cn/xeblog/plugin/game/Gobang.java:420-575 | five in a row through the cell on any axis makes the win check find a winning axis |
| GobangRules.WinIffFive | xechat-plugin/src/main/java/cn/xeblog/plugin/game/Gobang.java:420-575 | the win check finds a win exactly when some axis holds five in a row through the placed stone |
| GobangRules.AxisCellsOnAxis | xechat-plugin/src/main/java/cn/xeblog/plugin/game/Gobang.java:422-437 | every highlighted cell holds the stone, lies within four steps of the placed cell on that axis, and is not the placed cell |
| GobangRules.HalvesOnAxis | xechat-plugin/src/main/java/cn/xeblog/plugin/game/Gobang.java:424-455 | the cells of the two halves of a scan are on the board, hold the stone, are not the origin and do not overlap |
| GobangRules.AxisCellsSize | xechat-plugin/src/main/java/cn/xeblog/plugin/game/Gobang.java:422-437 | a winning axis highlights exactly four cells |
| GobangRules.CountRow | xechat-plugin/src/main/java/cn/xeblog/plugin/game/Gobang.java:396 | a row holds no more stones than cells, and as many exactly when none of its cells is empty |
| GobangRules.CountEmpty | xechat-plugin/src/main/java/cn/xeblog/plugin/game/Gobang.java:70-71 | a new board holds no stones, matching the reset counter |
| GobangRules.CountPlace | xechat-plugin/src/main/java/cn/xeblog/plugin/game/Gobang.java:394-396 | a stone on an empty cell adds exactly one to the number of stones |
| GobangRules.CountFull | xechat-plugin/src/main/java/cn/xeblog/plugin/game/Gobang.java:407-411 | the stone count is at most 225, and it is 225 exactly when no cell is empty |
| GobangRules.MoveEffects | xechat-plugin/src/main/java/cn/xeblog/plugin/game/Gobang.java:388-397 | an occupied cell changes nothing; an empty cell gets the stone and no other cell changes; the counter grows by one; the last move is the cell; no stone already down is removed or replaced |
| GobangRules.InitialInvariant | xechat-plugin/src/main/java/cn/xeblog/plugin/game/Gobang.java:70-77 | the reset state meets the invariant: the counter equals the number of stones, and the status and highlight agree with the board |
| GobangRules.MoveKeepsInvariant | xechat-plugin/src/main/java/cn/xeblog/plugin/game/Gobang.java:388-402 | every move of a black or white stone keeps the invariant, so the counter always equals the number of stones |
| GobangRules.MoveWins | xechat-plugin/src/main/java/cn/xeblog/plugin/game/Gobang.java:388-402 | in a game not already won, a move wins exactly when its cell was empty and it makes five in a row through that cell |
| GobangRules.MoveWinHighlight | xechat-plugin/src/main/java/cn/xeblog/plugin/game/Gobang.java:420-437 | a move on an empty cell that makes five sets the status to 1 and highlights exactly four cells, none of them the placed cell, all holding the stone; with the placed cell they are the five in a row on the winning axis |
| GobangRules.WinningFive | xechat-plugin/src/main/java/cn/xeblog/plugin/game/Gobang.java:421-457 | on a winning axis the highlight is s cells behind the placed stone and 4 - s ahead, and with it they are five consecutive stones |
| GobangRules.WinningCells | xechat-plugin/src/main/java/cn/xeblog/plugin/game/Gobang.java:420-575 | the first winning axis highlights exactly four cells other than the placed one, all holding the stone, which with it form five in a row on that axis |
| GobangRules.MoveDraws | xechat-plugin/src/main/java/cn/xeblog/plugin/game/Gobang.java:407-411 | in a game not already drawn, a move on an empty cell draws exactly when it makes no five and fills the board, so a five on the last cell is a win |
| GobangGame.ModeNamesDistinct | xechat-plugin/src/main/java/cn/xeblog/plugin/game/Gobang.java:79-86 | the three modes have pairwise different display names, so a name picks out at most one mode |
| GobangGame.GetMode | xechat-plugin/src/main/java/cn/xeblog/plugin/game/Gobang.java:88-96 | returns the mode with the given name, or human versus computer when no mode has that name |
| GobangGame.NewChessData | xechat-plugin/src/main/java/cn/xeblog/plugin/game/Gobang.java:70 | a fresh 15 x 15 array of empty cells |
| GobangGame.Gobang.constructor | xechat-plugin/src/main/java/cn/xeblog/plugin/game/Gobang.java:70-77 | an empty board with no stones, no result, no lock and no highlight, meeting the invariant |
| GobangGame.Gobang.InitValue | xechat-plugin/src/main/java/cn/xeblog/plugin/game/Gobang.java:70-77 | resets to a fresh empty board, counter 0, status 0, game not over, no lock, empty highlight, and leaves colour and mode alone |
| GobangGame.Gobang.ClearBoard | xechat-plugin/src/main/java/cn/xeblog/plugin/game/Gobang.java:70 | the array is new and empty, and the grid mirrors it |
| GobangGame.Gobang.InitChessPanel | xechat-plugin/src/main/java/cn/xeblog/plugin/game/Gobang.java:142-168 | with an opponent: online mode, black and unlocked for the side that invited, white and locked for the other; without one: the mode is kept, no lock, and a hot-seat game starts with black |
| GobangGame.Gobang.StartGame | xechat-plugin/src/main/java/cn/xeblog/plugin/game/Gobang.java:333-339 | the chosen mode name is looked up and the chosen colour set, then the game is set up as InitChessPanel states |
| GobangGame.Gobang.CheckStatus | xechat-plugin/src/main/java/cn/xeblog/plugin/game/Gobang.java:113-129 | the game is over exactly when the status is not 0 |
| GobangGame.Gobang.LocalMove | xechat-plugin/src/main/java/cn/xeblog/plugin/game/Gobang.java:198-222 | a click while locked, after game over or off the board changes nothing and sends nothing; otherwise the state becomes Move of the local stone, even on an occupied cell; online then locks and sends the last move; hot-seat then switches colour with 3 - type |
| GobangGame.Gobang.EndLocalTurn | xechat-plugin/src/main/java/cn/xeblog/plugin/game/Gobang.java:203-221 | after a placement the game-over flag follows the status; online locks the turn and sends; human versus computer does nothing; hot-seat switches the colour, which stays black or white |
| GobangGame.Gobang.Handle | xechat-plugin/src/main/java/cn/xeblog/plugin/game/Gobang.java:99-111 | a received move turns the state into Move of the opponent's stone, with no game-over check; the lock is released unless the game is now over |
| GobangGame.Gobang.EndRemoteTurn | xechat-plugin/src/main/java/cn/xeblog/plugin/game/Gobang.java:104-109 | the game-over flag follows the status, and the lock is released unless the game is over |
| GobangGame.Gobang.PutChess | xechat-plugin/src/main/java/cn/xeblog/plugin/game/Gobang.java:358-386 | rejects the move without change after game over or off the board; otherwise performs Move and reports success, even on an occupied cell |
| GobangGame.Gobang.SetChess | xechat-plugin/src/main/java/cn/xeblog/plugin/game/Gobang.java:388-402 | the state becomes exactly Move of the stone at the cell (nothing at all on an occupied cell), and the invariant is kept |
| GobangGame.Gobang.WriteStone | xechat-plugin/src/main/java/cn/xeblog/plugin/game/Gobang.java:394-397 | records the last move, adds one to the counter and writes the stone into the array and the grid |
| GobangGame.Gobang.CheckPeace | xechat-plugin/src/main/java/cn/xeblog/plugin/game/Gobang.java:407-411 | the status becomes 2 when the counter is 225 and is otherwise unchanged |
| GobangGame.Gobang.CheckWinner | xechat-plugin/src/main/java/cn/xeblog/plugin/game/Gobang.java:420-581 | status and highlight are the Verdict: a win with the first winning axis's cells, or else an empty highlight and the draw check |
| GobangGame.Gobang.ScanAxis | xechat-plugin/src/main/java/cn/xeblog/plugin/game/Gobang.java:421-457 | one axis reports a win exactly when AxisWins holds, and leaves that axis's matching cells as the highlight |
| GobangGame.Gobang.Scan | xechat-plugin/src/main/java/cn/xeblog/plugin/game/Gobang.java:424-437 | the count grows by the run in that direction, capped at five, and exactly the counted cells join the highlight |
| GobangGame.Gobang.Winner | xechat-plugin/src/main/java/cn/xeblog/plugin/game/Gobang.java:583-586 | the status becomes 1 |
| GobangGame.Gobang.Peacemaker | xechat-plugin/src/main/java/cn/xeblog/plugin/game/Gobang.java:588-590 | the status becomes 2 |
| GobangGame.Gobang.Send | xechat-plugin/src/main/java/cn/xeblog/plugin/game/Gobang.java:592-600 | the sent record carries the given cell and the local stone code, which is black or white |
| GobangGame.Gobang.IsHighlight | xechat-plugin/src/main/java/cn/xeblog/plugin/game/Gobang.java:618-624 | a highlighted cell is on the board and holds a stone |

## Left out

- Swing rendering and widgets (board painting, the start form, tip labels, the restart button): user interface only.
- Converting pixel coordinates to a cell with floating-point rounding, and the circle hit test: both are floating point. `PutChess` takes the resolved cell and keeps only the game-over and range checks.
- Network delivery and the global lookups (user cache, opponent name and whether this side invited): these are foreign calls and global state. The opponent's presence and who invited are parameters of `InitChessPanel`. `Send` builds the record that would be sent and leaves out the opponent's id.
- Player and opponent names and the tip strings, including the name swap in hot-seat play: display only.
- The computer opponent: human versus computer does nothing after a move.
- Interleaving of the user-interface thread with network delivery: concurrency, with no synchronisation in Gobang.java.
- The transport-level response dispatch and the game message holder: they contain no logic.
- GobangGame.Gobang.Handle: requires an in-board cell and a black or white stone. Gobang.java checks neither on this path, and an out-of-range cell would throw there.
- GobangGame.Gobang.constructor: Gobang.java has no such step and starts with no mode; the model starts in human versus computer with black to move, a state any game start overwrites.
- GobangGame.Gobang.Handle and GobangGame.Gobang.LocalMove: Gobang.java does not check that a received move is well formed or that it arrives on the opponent's turn, and neither does the model.
