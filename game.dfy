/**
 * The game state of the component (app/page.tsx, lines 22-33) and its transitions: a click on a
 * cell (`handleCellClick`, lines 233-272, with the AI reply of lines 252-268), `resetGame`
 * (lines 275-286) and the two mode buttons (lines 309-312 and 320-323), which set the mode and
 * reset. The AI reply runs at once after the human's stone, as one step.
 */
module GameState {
  import opened Gomoku
  import opened WinDetector
  import opened MoveChooser

  /** The source's `GameMode`: against the AI, or two humans at one board. */
  datatype Mode = AI | Human

  /** The colour of the stone of move `i` of a game: black opens and the turns alternate. */
  function ColorOf(i: int): (p: Player)
    ensures p != Empty
  {
    if i % 2 == 0 then Black else White
  }

  /** Consecutive moves are played by opposite sides. */
  lemma ColorAlternates(i: int)
    ensures ColorOf(i + 1) == Opponent(ColorOf(i))
  {
  }

  /** Move `i` is a cell on the board that holds the stone of move `i`. */
  ghost predicate MovesOnBoard(board: Board, history: seq<Position>)
  {
    forall i :: 0 <= i < |history| ==>
      InBounds(history[i].row, history[i].col) && board[history[i].row][history[i].col] == ColorOf(i)
  }

  /** No cell is played twice. */
  ghost predicate MovesDistinct(history: seq<Position>)
  {
    forall i, j :: 0 <= i < j < |history| ==> history[i] != history[j]
  }

  /** Every stone on the board was played by some move. */
  ghost predicate StonesPlayed(board: Board, history: seq<Position>)
  {
    forall r, c :: InBounds(r, c) && board[r][c] != Empty ==> Position(r, c) in history
  }

  /** The board and the move history agree. */
  ghost predicate Consistent(board: Board, history: seq<Position>)
  {
    MovesOnBoard(board, history) && MovesDistinct(history) && StonesPlayed(board, history)
  }

  lemma PlaceKeepsMovesOnBoard(board: Board, history: seq<Position>, row: int, col: int, p: Player)
    requires MovesOnBoard(board, history) && InBounds(row, col) && board[row][col] == Empty && p == ColorOf(|history|)
    ensures MovesOnBoard(Place(board, row, col, p), history + [Position(row, col)])
  {
    var nb := Place(board, row, col, p);
    var nh := history + [Position(row, col)];
    forall i | 0 <= i < |nh|
      ensures InBounds(nh[i].row, nh[i].col) && nb[nh[i].row][nh[i].col] == ColorOf(i)
    {
      if i < |history| {
        assert nh[i] == history[i];
        assert board[history[i].row][history[i].col] != Empty;
      }
    }
  }

  lemma PlaceKeepsMovesDistinct(board: Board, history: seq<Position>, row: int, col: int)
    requires MovesOnBoard(board, history) && MovesDistinct(history) && InBounds(row, col) && board[row][col] == Empty
    ensures MovesDistinct(history + [Position(row, col)])
  {
    forall i | 0 <= i < |history|
      ensures history[i] != Position(row, col)
    {
      assert board[history[i].row][history[i].col] != Empty;
    }
  }

  lemma PlaceKeepsStonesPlayed(board: Board, history: seq<Position>, row: int, col: int, p: Player)
    requires StonesPlayed(board, history) && InBounds(row, col)
    ensures StonesPlayed(Place(board, row, col, p), history + [Position(row, col)])
  {
    var nb := Place(board, row, col, p);
    var nh := history + [Position(row, col)];
    forall r, c | InBounds(r, c) && nb[r][c] != Empty
      ensures Position(r, c) in nh
    {
      if r != row || c != col {
        assert Position(r, c) in history;
      } else {
        assert nh[|history|] == Position(r, c);
      }
    }
  }

  /** Playing the next move on an empty cell keeps the board and the history in agreement. */
  lemma PlaceKeepsConsistent(board: Board, history: seq<Position>, row: int, col: int)
    requires Consistent(board, history) && InBounds(row, col) && board[row][col] == Empty
    ensures Consistent(Place(board, row, col, ColorOf(|history|)), history + [Position(row, col)])
  {
    PlaceKeepsMovesOnBoard(board, history, row, col, ColorOf(|history|));
    PlaceKeepsMovesDistinct(board, history, row, col);
    PlaceKeepsStonesPlayed(board, history, row, col, ColorOf(|history|));
  }

  /**
   * The invariant every transition keeps: the board agrees with the history; without a winner it
   * is the turn of the colour of the next move, which in AI mode is black while a cell is free; a
   * winner is the side that played the last move, and that move completed five; and outside a
   * transition the AI is not thinking.
   */
  ghost predicate ValidState(board: Board, currentPlayer: Player, gameMode: Mode, winner: Player,
                             history: seq<Position>, isAiThinking: bool)
  {
    Consistent(board, history)
    && (winner == Empty ==> currentPlayer == ColorOf(|history|))
    && (winner != Empty ==>
          |history| > 0 && winner == currentPlayer && winner == ColorOf(|history| - 1)
          && Winner(board, history[|history| - 1].row, history[|history| - 1].col, winner))
    && (gameMode == AI && winner == Empty && HasEmpty(board) ==> currentPlayer == Black)
    && !isAiThinking
  }

  /** A stone of player `p`, the side to move, on a free cell, that completes five wins the game. */
  lemma WinningMoveKeepsValid(board: Board, history: seq<Position>, mode: Mode, row: int, col: int, p: Player)
    requires Consistent(board, history) && InBounds(row, col) && board[row][col] == Empty
    requires p == ColorOf(|history|) && Winner(Place(board, row, col, p), row, col, p)
    ensures ValidState(Place(board, row, col, p), p, mode, p, history + [Position(row, col)], false)
  {
    PlaceKeepsConsistent(board, history, row, col);
  }

  /**
   * A stone of `p` on a free cell that completes nothing passes the turn, as long as no AI reply
   * is due.
   */
  lemma QuietMoveKeepsValid(board: Board, history: seq<Position>, mode: Mode, row: int, col: int, p: Player)
    requires Consistent(board, history) && InBounds(row, col) && board[row][col] == Empty && p == ColorOf(|history|)
    requires !(mode == AI && Opponent(p) == White && HasEmpty(Place(board, row, col, p)))
    ensures ValidState(Place(board, row, col, p), Opponent(p), mode, Empty, history + [Position(row, col)], false)
  {
    PlaceKeepsConsistent(board, history, row, col);
    ColorAlternates(|history|);
  }

  /** White's reply on a free cell ends the game if it completes five and hands the turn to black otherwise. */
  lemma ReplyKeepsValid(board: Board, history: seq<Position>, mode: Mode, reply: Position, won: bool)
    requires Consistent(board, history) && InBounds(reply.row, reply.col) && board[reply.row][reply.col] == Empty
    requires ColorOf(|history|) == White && won == Winner(Place(board, reply.row, reply.col, White), reply.row, reply.col, White)
    ensures ValidState(Place(board, reply.row, reply.col, White), if won then White else Black, mode,
                       if won then White else Empty, history + [reply], false)
  {
    PlaceKeepsConsistent(board, history, reply.row, reply.col);
    ColorAlternates(|history|);
  }

  /**
   * The AI reply as the source writes it (lines 252-259) runs even when the human's stone filled
   * the last free cell. `getAIMove` then answers (7, 7), which holds a stone, and writing white
   * there breaks the agreement of board and history that every other move keeps: (7, 7) appears
   * in the history twice.
   */
  lemma UnguardedReplyBreaksConsistency(board: Board, history: seq<Position>, reply: Position)
    requires Consistent(board, history) && !HasEmpty(board) && AIMoveSpec(board, reply)
    ensures !Consistent(Place(board, reply.row, reply.col, White), history + [reply])
  {
    FullBoardChoosesOccupied(board, reply);
    assert reply in history;
    var i :| 0 <= i < |history| && history[i] == reply;
    var nh := history + [reply];
    assert nh[i] == nh[|history|];
    assert !MovesDistinct(nh);
  }

  class Game {
    var board: Board
    var currentPlayer: Player
    var gameMode: Mode
    var winner: Player
    var gameHistory: seq<Position>
    var isAiThinking: bool

    /** The class invariant: `ValidState` of the fields. */
    ghost predicate Valid()
      reads this
    {
      ValidState(board, currentPlayer, gameMode, winner, gameHistory, isAiThinking)
    }

    /** The initial state of lines 23-32: an empty board, black to move, AI mode. */
    constructor ()
      ensures Valid()
      ensures board == EmptyBoard() && currentPlayer == Black && gameMode == AI
      ensures winner == Empty && gameHistory == [] && !isAiThinking
    {
      board := EmptyBoard();
      currentPlayer := Black;
      gameMode := AI;
      winner := Empty;
      gameHistory := [];
      isAiThinking := false;
    }

    /**
     * The AI reply of lines 254-267, with white to move on a board that has a free cell: white's
     * stone goes on the cell `getAIMove` picks, which is free, and the history grows by it; a five
     * makes white the winner, else black is to move.
     */
    method AIReply()
      requires Consistent(board, gameHistory) && HasEmpty(board)
      requires winner == Empty && currentPlayer == White && ColorOf(|gameHistory|) == White
      modifies this
      ensures Valid()
      ensures gameMode == old(gameMode) && |gameHistory| == |old(gameHistory)| + 1
      ensures gameHistory[..|old(gameHistory)|] == old(gameHistory)
      ensures var reply := gameHistory[|old(gameHistory)|];
              AIMoveSpec(old(board), reply) && InBounds(reply.row, reply.col) && old(board)[reply.row][reply.col] == Empty
              && board == Place(old(board), reply.row, reply.col, White)
              && if Winner(board, reply.row, reply.col, White) then winner == White && currentPlayer == White
                 else winner == Empty && currentPlayer == Black
    {
      var b, h := board, gameHistory;
      isAiThinking := true;
      var aiMove := GetAIMove(b);
      ChosenCellIsEmpty(b, aiMove);
      var aiBoard := Place(b, aiMove.row, aiMove.col, White);
      var aiWon := CheckWinner(aiBoard, aiMove.row, aiMove.col, White);
      ReplyKeepsValid(b, h, gameMode, aiMove, aiWon);
      board := aiBoard;
      gameHistory := h + [aiMove];
      assert gameHistory[|h|] == aiMove && gameHistory[..|h|] == h;
      if aiWon {
        winner := White;
      } else {
        currentPlayer := Black;
      }
      isAiThinking := false;
    }

    /**
     * A click on (row, col) (lines 233-272). Nothing happens on an occupied cell, after a win or
     * while the AI thinks. Otherwise the current player's stone goes on that cell alone and the
     * history grows by it; a five makes that player the winner and keeps the turn, else the turn
     * passes. In AI mode, when white is to move and a cell is still free, `AIReply` follows at once.
     */
    method HandleCellClick(row: int, col: int)
      requires Valid() && InBounds(row, col)
      modifies this
      ensures Valid()
      ensures gameMode == old(gameMode)
      ensures old(board[row][col] != Empty || winner != Empty || isAiThinking) ==>
                board == old(board) && currentPlayer == old(currentPlayer) && winner == old(winner)
                && gameHistory == old(gameHistory) && isAiThinking == old(isAiThinking)
      ensures old(board[row][col] == Empty && winner == Empty && !isAiThinking) ==>
                var p := old(currentPlayer);
                var placed := Place(old(board), row, col, p);
                var n := |old(gameHistory)|;
                |gameHistory| > n && gameHistory[..n + 1] == old(gameHistory) + [Position(row, col)]
                && if Winner(placed, row, col, p) then
                     board == placed && winner == p && currentPlayer == p && |gameHistory| == n + 1
                   else if gameMode == AI && Opponent(p) == White && HasEmpty(placed) then
                     |gameHistory| == n + 2
                     && var reply := gameHistory[n + 1];
                     AIMoveSpec(placed, reply) && InBounds(reply.row, reply.col) && placed[reply.row][reply.col] == Empty
                     && board == Place(placed, reply.row, reply.col, White)
                     && if Winner(board, reply.row, reply.col, White) then winner == White && currentPlayer == White
                        else winner == Empty && currentPlayer == Black
                   else
                     board == placed && winner == Empty && currentPlayer == Opponent(p) && |gameHistory| == n + 1
      ensures forall r, c :: InBounds(r, c) && old(board)[r][c] != Empty ==> board[r][c] == old(board)[r][c]
    {
      var b, h, p := board, gameHistory, currentPlayer;
      if b[row][col] != Empty || winner != Empty || isAiThinking {
        return;
      }
      var newBoard := Place(b, row, col, p);
      var won := CheckWinner(newBoard, row, col, p);
      board := newBoard;
      gameHistory := h + [Position(row, col)];
      if won {
        WinningMoveKeepsValid(b, h, gameMode, row, col, p);
        winner := p;
        return;
      }
      var nextPlayer := if p == Black then White else Black;
      currentPlayer := nextPlayer;
      if gameMode == AI && nextPlayer == White && HasEmpty(newBoard) {
        PlaceKeepsConsistent(b, h, row, col);
        ColorAlternates(|h|);
        AIReply();
      } else {
        QuietMoveKeepsValid(b, h, gameMode, row, col, p);
      }
    }

    /** `resetGame` (lines 275-286): an empty board, black to move, no winner, no history; the mode stays. */
    method ResetGame()
      modifies this
      ensures Valid()
      ensures board == EmptyBoard() && currentPlayer == Black && winner == Empty
      ensures gameHistory == [] && !isAiThinking && gameMode == old(gameMode)
    {
      board := EmptyBoard();
      currentPlayer := Black;
      winner := Empty;
      gameHistory := [];
      isAiThinking := false;
    }

    /** A mode button (lines 309-312 and 320-323): set the mode, then reset the game. */
    method SelectMode(mode: Mode)
      modifies this
      ensures Valid()
      ensures gameMode == mode && board == EmptyBoard() && currentPlayer == Black && winner == Empty
      ensures gameHistory == [] && !isAiThinking
    {
      gameMode := mode;
      ResetGame();
    }
  }
}
