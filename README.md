# Gomoku engine, modelled and verified in Dafny

This project models the game engine of a single-page Gomoku (five in a row) application written
as one React component (`app/page.tsx`). The board is 15 × 15. Black always opens. The winner is
the first side to put five stones in a row horizontally, vertically or on a diagonal. In AI mode
the computer plays white. The engine has four parts, and each is a module here:

- `Gomoku` (`gomoku.dfy`) holds the board, its cells and the constants of lines 10-20. A cell
  holds `Black`, `White` or `Empty`, where `Empty` is the source's `null`. `Place` is the copy of
  the board with one cell set, which the source builds with `board.map(r => [...r])`.
- `WinDetector` (`winner.dfy`) models `checkWinner`. Along each of four axes it counts the
  player's stones on both sides of the cell, at most four per side, and reports a win when the
  cell plus both runs reach five. `Run` is the walk as a function, and `CountRun` and
  `CheckWinner` are the source's loops, proved to compute it. The lemmas characterise the answer
  as "the four other cells of some window of five through the cell hold the player's stones". They also show that
  the answer never depends on the cell itself, and that it is unchanged by turning the board by
  180 degrees. Every board access in the loops is proved to stay within rows and columns 0..14.
- `Scorer` (`score.dfy`) models `evaluatePosition`. Each axis is walked both ways, counting the
  player's stones and noting whether the walk stopped on an empty cell (an open end). The pair
  (count, open ends) is looked up in the reward table, and the four rewards are summed. An
  occupied cell or a missing player scores -1000. The stone count of a walk is the win detector's
  `Run`, so the lemmas can state that the score reaches 100000 exactly when the stone would win.
- `MoveChooser` (`movechooser.dfy`) models `getAIMove`, which does one pass over the board in
  row-major order:
  - A cell is a candidate when it is empty and either has a stone within two rows and columns,
    or is the first empty cell met while no move has been collected yet.
  - The first candidate where white, or else black, would complete five is returned at once.
    Every empty cell where a stone completes five is a candidate, so the AI never misses an
    immediate win or block; when several cells are forced, it takes the first in row-major order,
    which may be a block even though a win for white exists further on.
  - Otherwise the candidate with the best total `white score + 1.1 × black score` wins, ties
    going to the earliest cell.

  `AIMoveSpec` states all of this as a relation. `GetAIMove` is the source's nested loops with
  early returns and the `moves` array, proved to satisfy it.
- `GameState` (`game.dfy`) models the component's state as the class `Game`. It has the board,
  the current player, the mode, the winner, the move history and the AI-thinking flag. Its
  transitions are:
  - a click on a cell (`handleCellClick`), including the AI's reply;
  - `resetGame`;
  - the two mode buttons.

  The invariant `ValidState` says that board and history agree, that turns alternate, and that a
  declared winner really completed five with the last move.

The source's loops stay loops, proved equal to the specification functions. The game state is a
class whose methods update its fields.

The fallback move of line 177 is the centre (7, 7), yet `getAIMove` answers (0, 0) on an empty
board, because the first empty cell is always admitted as a candidate: `EmptyBoardOpening` proves
it. In play the AI never moves on an empty board, since black, the human, always moves first; the
same rule makes the first empty cell a candidate in every position. (7, 7) is answered only when
the board has no empty cell at all.

## Model

| member | source | states |
|---|---|---|
| Gomoku.Opponent | app/page.tsx:248 | the side to move after a player is the other player, never `Empty` |
| Gomoku.EmptyBoard | app/page.tsx:23-27 | a 15 × 15 board with every cell empty |
| Gomoku.Place | app/page.tsx:237-238 | the copied board differs from the original in the one assigned cell only |
| WinDetector.Run | app/page.tsx:50-64 | a walk looking at no more than n cells counts at most n stones |
| WinDetector.AxisCount | app/page.tsx:47-81 | an axis count is the cell plus the two runs, between 1 and 9 |
| WinDetector.Winner | app/page.tsx:36-88 | what `checkWinner` returns: a player is given and some axis count reaches five (characterised by `WinnerIffFive`) |
| WinDetector.CountRun | app/page.tsx:50-64 | the counting loop returns the length of the walk of at most four steps, stopping at the edge or at a cell not holding the player |
| WinDetector.CheckWinner | app/page.tsx:36-88 | the loops over the four axes return `Winner`, and false for no player |
| WinDetector.LineHasCells | app/page.tsx:50-64 | a line of m cells holds the player at every step below m |
| WinDetector.CellsMakeLine | app/page.tsx:50-64 | cells of the player at every step below m make a line of m cells |
| WinDetector.LineCells | app/page.tsx:50-64 | a line of m cells is exactly: the cell j steps on holds the player, for each j below m |
| WinDetector.RunAtLeast | app/page.tsx:50-64 | a walk capped at n reaches m stones exactly when its first m cells are on the board and hold the player |
| WinDetector.AxisFiveHasWindow | app/page.tsx:83-85 | an axis reaching five has a window of five through the cell whose four other cells hold the player's stones, the one ending where the forward run ends |
| WinDetector.WindowMakesAxisFive | app/page.tsx:83-85 | a window of five through the cell whose four other cells hold the player's stones makes its axis reach five, whatever the cell itself holds |
| WinDetector.AxisFive | app/page.tsx:83-85 | an axis reaches five exactly when the four other cells of some window of five along it through the cell hold the player's stones |
| WinDetector.WinnerIffFive | app/page.tsx:36-88 | a win is reported exactly when the player is not `null` and, on one of the four axes, the four other cells of some window of five through the cell are on the board and hold the player's stones; the cell itself is never looked at |
| WinDetector.RunIgnoresOrigin | app/page.tsx:50-81 | a walk starting ahead of the origin never returns to it |
| WinDetector.AxisCountIgnoresOrigin | app/page.tsx:47-81 | each axis count is the same with or without a stone on the origin |
| WinDetector.WinnerIgnoresOrigin | app/page.tsx:201-203 | testing a board with the stone placed gives the same answer as testing the board without it |
| WinDetector.RunRotate | app/page.tsx:50-81 | a walk on the board turned by 180 degrees is the opposite walk on the original |
| WinDetector.AxisCountRotate | app/page.tsx:39-81 | each axis count is unchanged by turning board and cell by 180 degrees |
| WinDetector.WinnerRotate | app/page.tsx:36-88 | the win test is unchanged by turning board and cell by 180 degrees |
| Scorer.Reward | app/page.tsx:153-167 | the table gives 0..100000 for an axis, 100000 exactly for a count of five or more, and at most 10000 otherwise |
| Scorer.OpenEnd | app/page.tsx:108-150 | the walk stops on an empty cell on the board after at most n - 1 of the player's stones (characterised by `OpenEndAfterRun`) |
| Scorer.AxisEnds | app/page.tsx:105-150 | an axis has zero, one or two open ends |
| Scorer.AxisReward | app/page.tsx:153-167 | the table entry of an axis lies in 0..100000 and is 100000 exactly when the axis count reaches five |
| Scorer.AxisSum | app/page.tsx:102-168 | the rewards of the first n axes sum to between 0 and n × 100000 |
| Scorer.Score | app/page.tsx:92-171 | the score is -1000 exactly when the player is `null` or the cell is occupied, and 0..400000 otherwise |
| Scorer.Walk | app/page.tsx:108-128 | the walking loop adds the run of the player's stones to `count` and one open end exactly when it stops on an empty cell within four steps |
| Scorer.AxisGain | app/page.tsx:102-168 | both walks and the table add the reward of the axis's count and open ends |
| Scorer.EvaluatePosition | app/page.tsx:92-171 | the loops return `Score` |
| Scorer.AxisSumWithoutFive | app/page.tsx:153-167 | with no axis at five, the axes earn at most 10000 each |
| Scorer.AxisSumWithFive | app/page.tsx:153-154 | with an axis at five, the sum reaches 100000 |
| Scorer.ScoreDetectsFive | app/page.tsx:92-171 | on an empty cell the score reaches 100000 exactly when the stone placed there would win by `checkWinner` |
| Scorer.FullRunNoEnd | app/page.tsx:110-128 | a walk that finds the player's stone on every one of its cells records no open end |
| Scorer.OpenEndAfterRun | app/page.tsx:108-150 | the walk records an open end exactly when its run of the player's stones stops short of its cells and the cell just past the run is on the board and empty |
| Scorer.OpenEndRotate | app/page.tsx:108-150 | an open end on the turned board is an open end of the opposite walk on the original |
| Scorer.AxisEndsRotate | app/page.tsx:108-150 | each axis has the same open ends after turning board and cell by 180 degrees |
| Scorer.AxisRewardRotate | app/page.tsx:102-168 | each axis earns the same reward after turning |
| Scorer.AxisSumRotate | app/page.tsx:102-168 | the axes earn the same sum after turning |
| Scorer.ScoreRotate | app/page.tsx:92-171 | the score is unchanged by turning board and cell by 180 degrees: the forward and backward walks trade places |
| Scorer.RewardMonotone | app/page.tsx:153-167 | more stones or more open ends never earn an axis less |
| MoveChooser.IsCandidate | app/page.tsx:184-199 | the scan admits an empty cell that has a stone within two rows and columns, or is the first empty cell of the board |
| MoveChooser.Total | app/page.tsx:215-217 | the total `aiScore + playerScore * 1.1`, scaled by ten: 21 × -1000 on an occupied cell, 0..8400000 on an empty one |
| MoveChooser.AIMoveSpec | app/page.tsx:174-230 | what `getAIMove` returns: the first candidate where white or black would complete five, else the earliest candidate of highest total, else (7, 7) |
| MoveChooser.HasNeighbor | app/page.tsx:186-197 | the neighbour loops find a stone exactly when one lies within two rows and two columns |
| MoveChooser.FirstBest | app/page.tsx:226-227 | the head of the stably sorted moves is the first entry of highest score |
| MoveChooser.GetAIMove | app/page.tsx:174-230 | the scan returns the position `AIMoveSpec` describes: the first forced candidate, else the earliest best-scored candidate, else (7, 7) |
| MoveChooser.AdmittedIsCandidate | app/page.tsx:199 | on an empty cell, `hasNeighbor \|\| moves.length === 0` holds exactly for candidates |
| MoveChooser.ForcedIsCandidate | app/page.tsx:182-212 | an empty cell where a stone of either side completes five always passes the neighbour filter of line 199 |
| MoveChooser.AnyForcedIsTaken | app/page.tsx:182-212 | whenever some empty cell lets either side complete five, the answer is such a cell, and no empty cell before it in row-major order is one |
| MoveChooser.ForcedIsFirst | app/page.tsx:201-212 | a forced candidate met by the scan is the first forced candidate, and is the answer |
| MoveChooser.CollectedPush | app/page.tsx:215-219 | collecting a non-forced candidate with its total keeps the scan's invariant |
| MoveChooser.CollectedSkip | app/page.tsx:184-199 | passing a cell that is not admitted keeps the scan's invariant |
| MoveChooser.CollectedNextRow | app/page.tsx:182-183 | the end of a row is the start of the next one |
| MoveChooser.BestOfCollected | app/page.tsx:226-227 | after the whole board, the first best collected move is the best-scored candidate, earliest among equals |
| MoveChooser.NothingCollected | app/page.tsx:177 | when no move was collected there is no candidate and the answer is (7, 7) |
| MoveChooser.HasEmptyHasCandidate | app/page.tsx:199 | the first empty cell is always admitted, so a board with an empty cell has a candidate |
| MoveChooser.ChosenCellIsEmpty | app/page.tsx:182-227 | when the board has an empty cell, the answer is an empty cell on the board |
| MoveChooser.AIMoveSpecUnique | app/page.tsx:174-230 | the answer is determined by the board: the choice is deterministic |
| MoveChooser.EmptyBoardOpening | app/page.tsx:199 | `getAIMove` answers (0, 0) on the empty board, not the centre |
| MoveChooser.FullBoardChoosesOccupied | app/page.tsx:177 | on a full board the answer is (7, 7), an occupied cell |
| GameState.ValidState | app/page.tsx:23-33 | the reachable states: board and history agree, the side to move alternates, a declared winner completed five with the last move, in AI mode black is to move while the game is open and a cell is free, and the AI is not thinking between clicks |
| GameState.ColorOf | app/page.tsx:28 | the stone of every move is black or white |
| GameState.ColorAlternates | app/page.tsx:248 | consecutive moves are played by opposite sides |
| GameState.PlaceKeepsMovesOnBoard | app/page.tsx:237-240 | after a move on an empty cell, every move of the history is still on the board with its colour |
| GameState.PlaceKeepsMovesDistinct | app/page.tsx:237-240 | a move on an empty cell does not repeat a cell of the history |
| GameState.PlaceKeepsStonesPlayed | app/page.tsx:237-240 | after the move, every stone on the board is in the history |
| GameState.PlaceKeepsConsistent | app/page.tsx:237-240 | the next move on an empty cell keeps board and history in agreement |
| GameState.WinningMoveKeepsValid | app/page.tsx:242-245 | a move completing five makes its player the winner and keeps the invariant |
| GameState.QuietMoveKeepsValid | app/page.tsx:248-249 | a move completing nothing passes the turn and keeps the invariant |
| GameState.ReplyKeepsValid | app/page.tsx:255-266 | white's reply on a free cell ends the game on five and returns the turn to black otherwise |
| GameState.UnguardedReplyBreaksConsistency | app/page.tsx:252-259 | the reply as written, on a full board, repeats (7, 7) in the history |
| GameState.Game.constructor | app/page.tsx:23-32 | the initial state: empty board, black to move, AI mode, no winner, no history, not thinking |
| GameState.Game.AIReply | app/page.tsx:253-267 | white's stone goes on the free cell `getAIMove` picks and the history grows by it; five makes white the winner, otherwise black is to move |
| GameState.Game.HandleCellClick | app/page.tsx:233-272 | nothing changes on an occupied cell, after a win or while the AI thinks. Otherwise the clicked cell alone gets the current player's stone and the history grows by it. Five makes that player the winner with the turn kept; otherwise the turn passes. In AI mode white then replies on the cell `getAIMove` picks, while a cell is free. No stone is ever overwritten, and the invariant is kept |
| GameState.Game.ResetGame | app/page.tsx:275-286 | empty board, black to move, no winner, empty history, not thinking; the mode is kept |
| GameState.Game.SelectMode | app/page.tsx:309-312 | the mode button sets the mode, then resets the game |

## Left out

- The rendering, styling, star points, badges, cards and the win dialog (`showWinDialog`,
  `getPieceStyle`, lines 288-483) are presentation with no algorithmic content.
- React's `useState` setters and `useCallback` memoisation are not modelled. The state is the
  plain fields of `Game`, assigned directly.
- The 500 ms `setTimeout` before the AI reply is not modelled; the reply runs at once, as one
  step after the human's stone. `isAiThinking` is set and cleared around the reply and only
  guards clicks. Interleavings inside the delay (a click or a mode button pressed while the AI
  thinks) are therefore not modelled.
- Floating point is not modelled. The total `aiScore + playerScore * 1.1` is modelled as the
  integer `10 * aiScore + 11 * playerScore`, which orders candidates as the exact real values do.
  Under IEEE rounding two totals that are equal as reals can differ in the last bit, so the
  tie-breaking that `AIMoveSpec` states holds for the integer model.
- `MoveChooser.FirstBest`: the `moves.sort` call is not modelled as a sort. Only `moves[0]` is
  read after it, and the head of a stable descending sort is the first entry of highest score,
  which is what `FirstBest` computes and states.
- The unused `blocked` counter and `bestScore` constant (lines 106 and 176) are left out.
- The board copies of `board.map(r => [...r])` are values: `Place` returns a new board. The class
  holds the board as a value field reassigned by each transition, as the source's `setBoard` does.

## Findings

| source | as written | input that shows it | evidently intended | confidence | as-written member | corrected member |
|---|---|---|---|---|---|---|
| app/page.tsx:252-259 | In AI mode the reply runs whenever the turn passes to white, even when the human's stone filled the last free cell. `getAIMove` then finds no candidate and answers (7, 7), and white's stone is written over the stone already there. | An AI-mode game in which black, to move with one free cell left and no five on the board, plays that cell without completing five. Black places the last stone, since 225 cells is an odd number of moves. | A full board ends the game without a reply, so a stone once placed is never replaced. | medium: the position needs a full board with no five, not executed | GameState.UnguardedReplyBreaksConsistency | GameState.Game.HandleCellClick |
