# Connect Four engine in Dafny

A model of the game-state and win-detection engine of a browser Connect Four
game (`connect4.js`). Two players take turns dropping pieces into the 7 columns
of a 6-row board. The game ends when the player to move completes four in a
row (horizontally, vertically or on either diagonal) or when the board fills up.

The JavaScript keeps three globals: `board` (rows of cells, `board[y][x]`, row 0
at the top), `currPlayer` and `isOver`. Here they form one immutable `Game`
record. Each function of the engine becomes a pure function from state to
state:

- `board.dfy` (module `Board`) holds the grid, `makeBoard`, the board part of
  `reset`, `findSpotForCol`, the tie test, and the single-cell write
  `board[y][x] = currPlayer`. A cell is `Empty` (`null`) or `Piece(owner)`,
  where the owner is any integer, as in the JavaScript. "Every cell is empty, 1
  or 2" is therefore an invariant that has to be proved; the types do not give
  it for free.
- `win.dfy` (module `Win`) holds `checkForWin` and its inner `_win`. The two
  nested loops over start cells become one row-major recursion, `Scan`. The
  four candidate lines per cell are built exactly as the JavaScript builds
  them. The scan is proved equal to an independent definition: `HasFour` holds
  when some start cell and some direction give four in-bounds cells, all owned
  by the player.
- `engine.dfy` (module `Engine`) holds the state-changing part of `handleClick`
  as `Drop`. `Drop` also returns which branch the click took, so that
  properties can be stated per branch. The module also holds the state part
  of `reset` and `endGame`, and `Play`, which is a sequence of clicks. It
  proves:
  - the invariants every reachable state keeps;
  - that ended games are terminal;
  - that the player alternates.
- `scenarios.dfy` (module `Scenarios`) holds concrete drops on the real board.
  Player 1 builds a bottom-row run while player 2 stacks in the last column.
  Player 1's fourth piece wins. A drop into column 7 changes nothing.

Points where the code's own behaviour is easy to miss:

- A click on a column outside `[0, 7)` is ignored like a click on a full
  column: `row[x]` is `undefined` there, so `lastIndexOf(null)` finds nothing
  (`OutOfRangeDropIsNoOp`). Both cases are the `NoSpot` outcome.
- On a tie the code ends the game but has no `return` before the player
  switch, so `currPlayer` is toggled after a tie as well. `Drop`'s `Tied` case
  says so.
- `handleClick` returns nothing. The `Outcome` of a `Move` names the branch it
  took, so that properties can be stated per branch.
- `checkForWin` returns `undefined` when no line is found. The model reads this
  as `false`.

## Model

| member | source | states |
|---|---|---|
| Board.MakeBoard | connect4.js:19-29 | the new board has HEIGHT rows of WIDTH cells and every cell is `null` |
| Board.Clear | connect4.js:191-196 | clearing every cell of any 6 x 7 board gives exactly the board `makeBoard` builds |
| Board.FindSpot | connect4.js:68-75 | a returned row is on the board, its cell in column x is `null`, and no row below it has a `null` cell in column x; `null` is returned only when no row has a `null` cell in column x |
| Board.LastNullBelow | connect4.js:70-72 | `lastIndexOf(null)` on the first n rows: the same three facts relative to row n |
| Board.OutOfRangeColumnHasNoSpot | connect4.js:70-74 | a column outside [0, WIDTH) never yields a spot |
| Board.NoSpotIffColumnFull | connect4.js:66-75 | for a column on the board, there is no spot exactly when every cell of the column is occupied |
| Board.SpotIsTopOfStack | connect4.js:66-75 | on a board obeying gravity, the spot is the top of the column's stack: empty at and above it, occupied below |
| Board.IsFull | connect4.js:134 | the tie test: every cell of every row is truthy, so neither `null` nor `0` |
| Board.FullIffNoSpot | connect4.js:134 | on a board of empty, 1 and 2 cells, the tie test holds exactly when no column offers a spot |
| Board.SetCell | connect4.js:124 | writing one cell sets that cell and leaves every other cell and the board's shape unchanged |
| Board.PlacingOnSpotKeepsInvariants | connect4.js:117-124 | putting player 1's or 2's piece on the spot keeps every cell in {empty, 1, 2} and keeps every column settled |
| Win.AllOwned | connect4.js:148-161 | `_win`: every cell of the list has 0 <= y < HEIGHT, 0 <= x < WIDTH and holds the player's piece |
| Win.AllOwnedLine | connect4.js:148-161 | `_win` on a candidate line holds exactly when the four cells (y + k·dy, x + k·dx) are on the board and hold the player's piece |
| Win.WinsFrom | connect4.js:174 | the disjunction of `_win` on the horiz, vert, diagDR and diagDL lines of one start cell |
| Win.WinsFromIffLine | connect4.js:167-174 | trying the horiz, vert, diagDR and diagDL lines from one start cell succeeds exactly when some direction gives a line there |
| Win.Scan | connect4.js:164-178 | the loop from start cell (y, x) onward returns true exactly when a line starts at or after (y, x) in row-major order |
| Win.LineStartsOnBoard | connect4.js:164-165 | every line's first cell is one of the start cells the loops visit |
| Win.CheckForWin | connect4.js:147-179 | checkForWin is true exactly when the player has four in a row in one of the four directions |
| Win.PlacingKeepsOthersLines | connect4.js:124 | writing player p's piece into one cell cannot give any other player a new line |
| Engine.Toggle | connect4.js:139 | player 1 becomes 2 and player 2 becomes 1 |
| Engine.Initial | connect4.js:11-13 | the page-load state: an empty 6 x 7 board, player 1 to move, game not over |
| Engine.Reset | connect4.js:190-205 | restarting any game gives the page-load state |
| Engine.EndGame | connect4.js:96-98 | the game becomes over and the board and player are unchanged |
| Engine.Drop | connect4.js:107-141 | an ended game and a column with no spot leave the state unchanged; otherwise the spot gets the player's piece; a win ends the game and keeps the player; a full board without a win ends the game and toggles the player; anything else keeps the game going and toggles the player |
| Engine.AfterPlacing | connect4.js:126-139 | after the piece is placed, the outcome is a win exactly when the player has four in a row and a tie exactly when there is no win and the board is full; the game ends unless play continues |
| Engine.DropChangesOneCell | connect4.js:117-124 | a drop that places a piece leaves every cell other than the spot unchanged |
| Engine.DropWritesSpot | connect4.js:117-124 | a drop into a column with a spot writes the player's piece into that spot and changes nothing else |
| Engine.DropContinues | connect4.js:126-139 | a drop that neither wins nor fills the board gives a game in progress with the other player to move |
| Engine.DropWins | connect4.js:126-130 | a drop that completes a line gives an ended game with the same player to move |
| Engine.EmptyBoardHasNoLine | connect4.js:147-179 | an empty board has no line for any player and is not full |
| Engine.InitialValid | connect4.js:11-13 | the start state satisfies every invariant, including that `isOver` is false exactly when nobody has won and the board is not full |
| Engine.RunningGameHasMove | connect4.js:116-124 | in a valid game that is not over, some column on the board offers a spot |
| Engine.DropPreservesValid | connect4.js:107-141 | every drop keeps the invariants: cells in {empty, 1, 2}, player in {1, 2}, gravity in every column, and `isOver` agreeing with the board |
| Engine.OutOfRangeDropIsNoOp | connect4.js:114-120 | a click on a column outside [0, WIDTH) changes nothing, and in a running game it takes the no-spot branch |
| Engine.Play | connect4.js:107-141 | a run of clicks keeps the board 6 x 7 and switches the player at most once per click |
| Engine.TurnAfterToggle | connect4.js:139 | toggling once and then n more times is toggling n + 1 times |
| Engine.TurnParity | connect4.js:139 | for players 1 and 2, an even number of toggles gives the same player and an odd number the other one |
| Engine.PlayTurns | connect4.js:127-139 | after any clicks, the player to move is the starting one toggled once per drop that placed a piece without winning |
| Engine.FreshGameAlternates | connect4.js:139 | from a fresh game, player 1 is to move after an even number of non-winning placed drops and player 2 after an odd number |
| Engine.PlayAfterEndIsNoOp | connect4.js:109-111 | once the game is over, no sequence of clicks changes the state or switches the player |
| Engine.PlayPreservesValid | connect4.js:107-141 | every state reached by clicks from a valid state is valid |
| Engine.PlayAppend | connect4.js:107-141 | clicks xs followed by clicks ys end where ys ends when started from the end of xs |
| Win.NoLineInSmallBox | connect4.js:167-170 | pieces that fit in a 3 x 3 box contain no line of four |
| Scenarios.PositionUndecided | connect4.js:127-135 | a run of at most three against a stack of at most three is neither a win nor a tie |
| Scenarios.RunOfFourWins | connect4.js:167 | four bottom-row pieces in columns 0 to 3 are a horizontal line |
| Scenarios.InitialIsEmptyPosition | connect4.js:19-29 | the start state is the position with no pieces |
| Scenarios.SpotBesideRun | connect4.js:68-75 | the column just right of player 1's bottom-row run has its spot in the bottom row |
| Scenarios.SpotOnStack | connect4.js:68-75 | in the last column the spot is the cell just above player 2's stack |
| Scenarios.RunGrows | connect4.js:124 | player 1's piece next to the run extends it by one |
| Scenarios.StackGrows | connect4.js:124 | player 2's piece on the stack makes it one higher |
| Scenarios.PlayerOneExtendsRun | connect4.js:107-141 | player 1's drops into columns 0, 1 and 2 extend the run, do not end the game, and pass the turn to player 2 |
| Scenarios.PlayerTwoStacks | connect4.js:107-141 | player 2's drop into the last column lands on its own stack, does not end the game, and passes the turn to player 1 |
| Scenarios.PlayerOneCompletesRun | connect4.js:124-130 | player 1's fourth bottom-row piece wins, ends the game and keeps player 1 as the current player |
| Scenarios.ColumnSevenIsRejected | connect4.js:114-120 | a click on column 7 of a fresh game changes nothing |

## Left out

- Rendering is left out because it does not touch the engine state: `makeHtmlBoard`, `placeInTable` and its `console.assert`, `createPosId`, `getTdsByCol`, `getPlayerColor`, the background and border colour writes, and the removal of piece elements in `reset`.
- `endGame`'s delayed `alert` is left out because it is a timer and a dialog. Only `isOver = true` is kept.
- Event wiring is left out: the click, hover and restart listeners. A click is a call `Drop(g, x)` with an integer column. The `+evt.target.id` string-to-number conversion is not modelled; an id that is not a number gives `NaN`, which, like any out-of-range column, finds no spot.
- Board.Clear and Engine.Reset require a 6 x 7 board. `reset` only clears the cells inside HEIGHT x WIDTH, and the board always has that shape once `makeBoard` has run.
- Board.MakeBoard builds the board from nothing. The JavaScript fills the existing global array in place, and at page load that array is empty.
- The game state is a value, not the three mutable globals. A click is handled to completion before the next one, so the sequence of states is the whole story.
- The full seven-click game from a fresh board is stated as a chain of per-drop lemmas, not as a single `Play` over the seven clicks.
