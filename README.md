# Tic-tac-toe board and move search

This project models the core of a browser tic-tac-toe game in which a human
plays against the computer (`scripts/tic-tac-toe.js`). The model has two
modules:

- `Game` (`board.dfy`) covers the board. Its nine cells hold either the empty
  string or a mark, `X` or `O`. The eight line tests (`completeRow`,
  `completeColumn` and the two diagonal tests) feed `updateState`, which
  computes the game state (OVER, DRAW or ONGOING) and the winner. It also
  covers `isTerminal` and `getPossibleMoves`. The `Board` object is a class
  whose methods update its fields in place:
  - `makeMove` pushes the index on the move stack (`changedIndices`), writes
    the mark and recomputes the state;
  - `revertLastMove` pops the index, empties that cell and recomputes the
    state.
- `Search` (`search.dfy`) covers `otherMark`, `minMax` and `getBestMove`.
  - `minMax` is not classical minimax. It returns 0 on a draw, and 1 or -1
    on a finished game. On an ongoing board it returns the sum, over every
    empty cell, of the child's value times 1/depth. `depth` is the
    incremented depth.
  - `getBestMove` plays each possible move for the maximizer and scores it
    with `minMax`, with the opponent to move. It keeps the first move whose
    score is strictly larger than the best so far.
  - Both explore by applying and reverting moves on the single shared board
    object.

Each method is proved against specification functions:

- `Evaluate` is the verdict `updateState` assigns. Its winner part counts only
  when the state is not ONGOING: on an ongoing board `updateState` leaves the
  winner field as it was, and `Evaluate` returns `Unset` there.
- `PossibleMoves` is the list `getPossibleMoves` returns.
- `Score`, `ChildSum`, `ChildScore`, `AfterMove` and `AfterUpdate` give the
  value `minMax` returns:
  - `AfterMove` is the value after a mark is placed on an empty cell;
  - `AfterUpdate` is the value on cells whose state was just recomputed.
- `MoveScore` is the score `getBestMove` gives a move.
- `Scan` and `BestPick` give the candidate `getBestMove` holds after each
  pass of its loop.
- `IsFirstBest` says that a move is a possible move with the highest score
  and that every lower index scores strictly less.

The lemmas then relate these functions to reference definitions:

- the eight `Lines` and the predicates `HeldBy`, `Wins` and `Complete`;
- the set of empty cells;
- zero-sum symmetry between the two players;
- concrete boards.

Marks are a datatype. The empty string is `Cell.Empty`. The board's `winner`
field is a `Winner`:
- `Unset` means it has not been assigned yet;
- `Player(m)` is a mark;
- `DrawMarker` stands for the text "Draw".

The JavaScript numbers that `minMax` computes are modelled as exact reals.

## Model

| member | source | states |
|---|---|---|
| Game.CompleteRow | scripts/tic-tac-toe.js:76-78 | no contract; row r holds three equal non-empty cells; tied to `Lines` by TestsMatchLines |
| Game.CompleteColumn | scripts/tic-tac-toe.js:80-82 | no contract; column c holds three equal non-empty cells; tied to `Lines` by TestsMatchLines |
| Game.CompleteFirstDiagonal | scripts/tic-tac-toe.js:84-86 | no contract; cells 0, 4 and 8 are equal and non-empty; tied to `Lines` by TestsMatchLines |
| Game.CompleteSecondDiagonal | scripts/tic-tac-toe.js:88-90 | no contract; cells 6, 4 and 2 are equal and non-empty; tied to `Lines` by TestsMatchLines |
| Game.IsTerminal | scripts/tic-tac-toe.js:52-54 | no contract; no cell is empty; tied to the move list by TerminalIffNoMoves |
| Game.MovesFrom | scripts/tic-tac-toe.js:57-60 | no contract; the empty cells' indices from a position on, by recursion; its meaning is given by MovesFromExact and MovesFromSkipsFilled |
| Game.PossibleMoves | scripts/tic-tac-toe.js:56-61 | no contract; MovesFrom from index 0; its meaning is given by PossibleMovesExact and TerminalIffNoMoves |
| Game.Evaluate | scripts/tic-tac-toe.js:32-49 | no contract; the three groups of line tests in source order, with the winner read from cell 0, 4 or 8, then DRAW on a full board, else ONGOING; tied to `Wins` by EvaluateOver and EvaluateNotOver, and to the class by Board.UpdateState |
| Search.Sum | scripts/tic-tac-toe.js:110 | no contract; the reduce, adding from left to right from 0; tied to the loop by AccumulateChild |
| Search.Score | scripts/tic-tac-toe.js:94-111 | no contract; 0 on DRAW, 1 or -1 on OVER, else the sum of the weighted children; tied to minMax by MinMax and given its symmetry by ScoreZeroSum |
| Game.TestsMatchLines | scripts/tic-tac-toe.js:76-90 | each of the eight tests (rows 0-2, columns 0-2, both diagonals) holds exactly when one mark occupies the corresponding line of the reference list |
| Game.MovesFromExact | scripts/tic-tac-toe.js:56-61 | the index/filter pipeline, from a given position on, yields exactly the empty cells, strictly ascending |
| Game.MovesFromSkipsFilled | scripts/tic-tac-toe.js:56-61 | a run of filled cells adds nothing to the list of moves |
| Game.PossibleMovesAreEmpty | scripts/tic-tac-toe.js:56-61 | every index getPossibleMoves returns is an empty cell of the board |
| Game.PossibleMovesExact | scripts/tic-tac-toe.js:56-61 | getPossibleMoves returns every empty cell, each once, in strictly ascending order |
| Game.TerminalIffNoMoves | scripts/tic-tac-toe.js:52-61 | isTerminal holds exactly when getPossibleMoves is empty |
| Game.HistoryAndMovesFit | scripts/tic-tac-toe.js:56-74 | on a board whose move stack holds distinct filled cells, the possible moves plus the stack's length are at most nine |
| Game.HistoryAndMovesFill | scripts/tic-tac-toe.js:56-74 | when, in addition, every filled cell is on the move stack, the possible moves plus the stack's length are exactly nine |
| Game.TrackedBoardFills | scripts/tic-tac-toe.js:56-74 | on a board whose filled cells are all on its move stack, the possible moves and the stack number exactly nine |
| Game.FillShrinks | scripts/tic-tac-toe.js:63-65 | writing a mark on an empty cell strictly shrinks the set of empty cells, which makes the search terminate |
| Game.HeldLineIsTested | scripts/tic-tac-toe.js:32-44 | a line held by a mark is caught by one of the eight tests updateState makes |
| Game.LineWins | scripts/tic-tac-toe.js:76-90 | a mark holding a listed line wins |
| Game.EvaluateOver | scripts/tic-tac-toe.js:32-44 | the state is OVER exactly when some mark holds a line, and the winner read from cell 0, 4 or 8 is then a mark holding a line |
| Game.EvaluateNotOver | scripts/tic-tac-toe.js:45-54 | DRAW (winner "Draw") exactly when no line is held and no move is left; ONGOING exactly when no line is held and a move is left |
| Game.OnlyMoverCanWin | scripts/tic-tac-toe.js:32-44 | a move on a board without a winner cannot complete a line for the other mark; if the game ends, the winner is the mover |
| Game.Board.constructor | scripts/tic-tac-toe.js:14-19 | the board holds the given cells with an empty move stack and state ONGOING, while the cells are not inspected; started on empty cells, every filled cell is on the stack |
| Game.Board.UpdateState | scripts/tic-tac-toe.js:32-50 | state and winner become the verdict of the cells; on an ongoing board the winner keeps its old value; cells and stack unchanged |
| Game.Board.MakeMove | scripts/tic-tac-toe.js:63-68 | the index is pushed, the cell gets the mark, the state is recomputed, the stack still holds distinct filled cells, and a board whose filled cells were all on the stack stays so |
| Game.Board.RevertLastMove | scripts/tic-tac-toe.js:70-74 | the last index is popped, its cell emptied, the state recomputed; a board whose filled cells were all on the stack stays so |
| Game.MoveRoundTrip | scripts/tic-tac-toe.js:63-74 | makeMove then revertLastMove gives back the cells and the stack, and also the state when the state was up to date |
| Game.WonBoardKeepsMoves | scripts/tic-tac-toe.js:32-35 | with the top row held by X, X wins and the four empty cells are still possible moves |
| Game.FullBoardIsDraw | scripts/tic-tac-toe.js:45-47 | a full board with no line held is a draw with no possible moves |
| Search.OtherMark | scripts/tic-tac-toe.js:136-138 | the other mark differs from the given one |
| Search.OtherMarkInvolution | scripts/tic-tac-toe.js:136-138 | applying otherMark twice gives the mark back |
| Search.ScoreZeroSum | scripts/tic-tac-toe.js:94-111 | scoring for the opponent with the turn flag flipped negates minMax's value |
| Search.ChildSumZeroSum | scripts/tic-tac-toe.js:102-110 | the sum of the children's values flips sign with the roles |
| Search.ChildScoreZeroSum | scripts/tic-tac-toe.js:103-106 | one child's weighted value flips sign with the roles |
| Search.ScoreReadsWinnerOnlyWhenOver | scripts/tic-tac-toe.js:96-100 | the winner field matters to minMax only when the state is OVER |
| Search.ScoredChild | scripts/tic-tac-toe.js:103-106 | minMax's value after a move, times 1/depth, is that move's term of the sum |
| Search.AccumulateChild | scripts/tic-tac-toe.js:102-110 | pushing one more weighted child keeps the running scores equal to the explored part of the sum |
| Search.ScoredMove | scripts/tic-tac-toe.js:120-121 | minMax's value after getBestMove played a move is that move's score |
| Search.Scan | scripts/tic-tac-toe.js:119-128 | after n moves the candidate is undefined exactly when n is 0, and its position is below n |
| Search.ScanKeepsFirstMax | scripts/tic-tac-toe.js:124-127 | the candidate's score is its move's score, no scanned move scores more, and every earlier move scores strictly less |
| Search.BestPick | scripts/tic-tac-toe.js:113-130 | the full scan gives no candidate exactly when there is no possible move, and otherwise a position in the move list |
| Search.BestPickIsFirstBest | scripts/tic-tac-toe.js:113-130 | the full scan's candidate is a possible move of highest score with every lower index scoring strictly less |
| Search.FirstBestUnique | scripts/tic-tac-toe.js:124-127 | at most one move is a first best move (ties go to the first) |
| Search.MinMax | scripts/tic-tac-toe.js:94-111 | the value is Score of the board on entry; 0 on a draw, 1 or -1 on a finished game; cells and move stack restored; the state restored when it was up to date, and brought up to date when it was ONGOING and a move was explored |
| Search.ExploreChild | scripts/tic-tac-toe.js:103-108 | one loop pass of minMax: its value is the move's term of the sum, and the board is restored |
| Search.ExploreMove | scripts/tic-tac-toe.js:120-123 | one loop pass of getBestMove: its value is the move's score, and the board is restored |
| Search.GetBestMove | scripts/tic-tac-toe.js:113-130 | the result is the move BestPick selects: undefined exactly when there is no possible move, otherwise the first move of highest score; cells and move stack restored; the state up to date when a move was explored, and unchanged when it was already up to date |
| Search.LastMoveWins | scripts/tic-tac-toe.js:94-111 | a board whose only empty cell wins for the maximizer to move is worth 1/(depth+1) |
| Search.TwoRepliesOfHalf | scripts/tic-tac-toe.js:102-110 | two replies worth 1/2 each add up to 1 at depth 0 |
| Search.MiddleMoveBoard | scripts/tic-tac-toe.js:56-61 | on m o m / o m o / _ _ _ after m takes cell 7, the game goes on with cells 6 and 8 |
| Search.RepliesToMiddleMove | scripts/tic-tac-toe.js:94-111 | on that board either reply by the opponent is worth 1/2 to m |
| Search.TiesGoToLowestIndex | scripts/tic-tac-toe.js:113-130 | on m o m / o m o / _ _ _ all three moves score 1, getBestMove keeps cell 6, and cell 6 wins at once |

## Left out

- The DOM is not part of this model:
  - the `cells` elements and their `textContent`;
  - `updateCellsContents` and `updateGameBoard` (lines 21-30), and their calls in makeMove and revertLastMove (lines 67, 73).
  
  The model keeps `cellsContent` only, as the `cells` field.
- console output in getBestMove (lines 118, 122) is not modelled.
- The driver (lines 132-134 and 140-198) is not modelled. This covers `random`, the timers, `alert` and the click handlers. It writes human moves straight into the DOM, so those moves never reach the move stack.
- Arithmetic is exact on reals. IEEE rounding in the sums and the 1/depth factors is not modelled, so ties that rounding could break or create are not captured. The `-Infinity` start value of `bestScore` is modelled as `bestMove == None`.
- Cell contents other than "", "X" or "O" are not modelled.
- Game.Board.MakeMove: requires an empty cell and a valid board. The source also writes over an occupied cell.
- Game.Board.RevertLastMove: requires a non-empty move stack. The source would write to the index `undefined`.
- Search.MinMax: the winner field on return is stated only when the state on entry was not ONGOING. When the state on entry was a stale ONGOING on a board with no empty cell, the state on return (then unchanged) is not related to the cells. After a search, the winner field may hold the outcome of the last game explored.
- Search.GetBestMove: when there is no possible move and the state was stale on entry, the state on return is not related to the cells. The winner field is not stated.
- An empty board with X to play: an unbeatable bot is expected to open in a corner or the centre. This is not proved, because unfolding the full game tree is beyond the verifier.
- The code differs in several places from the behaviour the game is described as having. The model follows the code:
  - possible moves are described as empty on a won board, but the code lists the empty cells (`Game.WonBoardKeepsMoves`);
  - finished games are described as scoring ±1/depth, but the code returns ±1 and the caller weights the child by 1/depth;
  - for the board X O X / O X O / _ _ _ the best move is described as cell 8, but all three moves score 1 and the code returns cell 6, which also wins at once (`Search.TiesGoToLowestIndex`);
  - the possible moves plus the move stack are described as always numbering nine. This holds only when every filled cell came from makeMove, because human moves bypass the stack. The model proves the bound "at most nine" for every board (`Game.HistoryAndMovesFit`), and "exactly nine" for boards whose filled cells are all on the stack (`Game.HistoryAndMovesFill`, `Game.TrackedBoardFills`), a property makeMove and revertLastMove preserve.
