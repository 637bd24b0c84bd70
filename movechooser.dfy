/**
 * The AI move chooser `getAIMove` (app/page.tsx, lines 174-230). The AI plays white and the human
 * black. One pass over the board in row-major order admits as candidates the empty cells with a
 * stone within two rows and two columns, and also the first empty cell met while no candidate has
 * been collected. A candidate where white, or else black, would complete five is returned at once;
 * otherwise every candidate is scored and the best total wins, ties going to the earliest cell.
 */
module MoveChooser {
  import opened Gomoku
  import opened WinDetector
  import opened Scorer

  /** An entry of the source's `moves` array: a candidate cell and its total score. */
  datatype Move = Move(pos: Position, score: int)

  /** The answer when no candidate is collected (line 177). */
  const Fallback: Position := Position(7, 7)

  /** Some cell within two rows and two columns of (row, col) is on the board and holds a stone. */
  predicate NearStone(b: Board, row: int, col: int)
  {
    exists nr, nc :: row - 2 <= nr <= row + 2 && col - 2 <= nc <= col + 2 && InBounds(nr, nc) && b[nr][nc] != Empty
  }

  /** Some cell before (row, col) in row-major order is empty. */
  predicate EmptyBefore(b: Board, row: int, col: int)
  {
    exists r, c :: 0 <= r < Size && 0 <= c < Size && Before(r, c, row, col) && b[r][c] == Empty
  }

  /**
   * The cells the scan admits (lines 185-199): empty, and either near a stone or the first empty
   * cell of the board. While `moves` is empty the scan has met no empty cell yet, since the first
   * one it meets is always admitted.
   */
  predicate IsCandidate(b: Board, row: int, col: int)
  {
    InBounds(row, col) && b[row][col] == Empty && (NearStone(b, row, col) || !EmptyBefore(b, row, col))
  }

  /** A stone of `p` on (row, col) completes five (lines 201-212). */
  predicate Wins(b: Board, row: int, col: int, p: Player)
    requires InBounds(row, col)
  {
    Winner(Place(b, row, col, p), row, col, p)
  }

  /** White wins at once on (row, col), or black would. */
  predicate IsForced(b: Board, row: int, col: int)
    requires InBounds(row, col)
  {
    Wins(b, row, col, White) || Wins(b, row, col, Black)
  }

  /**
   * The total of line 217, `aiScore + playerScore * 1.1`, scaled by ten so that it stays an
   * integer: the order of the totals is that of the real-number values.
   */
  function Total(b: Board, row: int, col: int): (t: int)
    requires InBounds(row, col)
    ensures b[row][col] != Empty ==> t == 21 * Sentinel
    ensures b[row][col] == Empty ==> 0 <= t <= 21 * |Axes| * FiveReward
  {
    10 * Score(b, row, col, White) + 11 * Score(b, row, col, Black)
  }

  /** `pos` is the first forced candidate in row-major order. */
  ghost predicate FirstForced(b: Board, pos: Position)
  {
    IsCandidate(b, pos.row, pos.col) && IsForced(b, pos.row, pos.col)
    && forall r, c :: Before(r, c, pos.row, pos.col) && IsCandidate(b, r, c) ==> !IsForced(b, r, c)
  }

  /** `pos` is a candidate with the highest total, and the earliest in row-major order among those. */
  ghost predicate BestScored(b: Board, pos: Position)
  {
    IsCandidate(b, pos.row, pos.col)
    && (forall r, c :: IsCandidate(b, r, c) ==> Total(b, r, c) <= Total(b, pos.row, pos.col))
    && (forall r, c :: IsCandidate(b, r, c) && Before(r, c, pos.row, pos.col) ==> Total(b, r, c) < Total(b, pos.row, pos.col))
  }

  /** What `getAIMove(board)` returns. */
  ghost predicate AIMoveSpec(b: Board, pos: Position)
  {
    if exists r, c :: IsCandidate(b, r, c) && IsForced(b, r, c) then FirstForced(b, pos)
    else if exists r, c :: IsCandidate(b, r, c) then BestScored(b, pos)
    else pos == Fallback
  }

  /** The neighbour scan of lines 188-197, with its `hasNeighbor` flag and both early breaks. */
  method HasNeighbor(b: Board, row: int, col: int) returns (hasNeighbor: bool)
    ensures hasNeighbor == NearStone(b, row, col)
  {
    hasNeighbor := false;
    var dr := -2;
    while dr <= 2
      invariant -2 <= dr <= 3
      invariant hasNeighbor ==> NearStone(b, row, col)
      invariant !hasNeighbor ==> forall nr, nc :: row - 2 <= nr < row + dr && col - 2 <= nc <= col + 2 && InBounds(nr, nc) ==> b[nr][nc] == Empty
    {
      ghost var r := row + dr;
      var dc := -2;
      while dc <= 2
        invariant -2 <= dc <= 3
        invariant hasNeighbor ==> NearStone(b, row, col)
        invariant !hasNeighbor ==> forall nc :: col - 2 <= nc < col + dc && InBounds(r, nc) ==> b[r][nc] == Empty
      {
        var nr := row + dr;
        var nc := col + dc;
        if nr >= 0 && nr < Size && nc >= 0 && nc < Size && b[nr][nc] != Empty {
          hasNeighbor := true;
          break;
        }
        dc := dc + 1;
      }
      if hasNeighbor {
        break;
      }
      dr := dr + 1;
    }
  }

  /**
   * The state of the scan of lines 182-224 before cell (row, col): every collected move is a
   * candidate met earlier, with its total, in scan order; every earlier candidate was collected
   * and none of them was forced; and `moves` is empty only while no empty cell has been met.
   */
  ghost predicate Collected(b: Board, moves: seq<Move>, row: int, col: int)
  {
    (forall i :: 0 <= i < |moves| ==>
       IsCandidate(b, moves[i].pos.row, moves[i].pos.col) && Before(moves[i].pos.row, moves[i].pos.col, row, col)
       && moves[i].score == Total(b, moves[i].pos.row, moves[i].pos.col))
    && (forall i, j :: 0 <= i < j < |moves| ==> Before(moves[i].pos.row, moves[i].pos.col, moves[j].pos.row, moves[j].pos.col))
    && (forall r, c :: Before(r, c, row, col) && IsCandidate(b, r, c) ==>
          !IsForced(b, r, c) && exists i :: 0 <= i < |moves| && moves[i].pos == Position(r, c))
    && (|moves| == 0 ==> forall r, c :: InBounds(r, c) && Before(r, c, row, col) ==> b[r][c] != Empty)
  }

  /** The head of `moves` after the stable descending sort of line 226: the first entry of highest score. */
  method FirstBest(moves: seq<Move>) returns (best: int)
    requires |moves| > 0
    ensures 0 <= best < |moves|
    ensures forall j :: 0 <= j < |moves| ==> moves[j].score <= moves[best].score
    ensures forall j :: 0 <= j < best ==> moves[j].score < moves[best].score
  {
    best := 0;
    var i := 1;
    while i < |moves|
      invariant 0 <= best < i <= |moves|
      invariant forall j :: 0 <= j < i ==> moves[j].score <= moves[best].score
      invariant forall j :: 0 <= j < best ==> moves[j].score < moves[best].score
    {
      if moves[i].score > moves[best].score {
        best := i;
      }
      i := i + 1;
    }
  }

  /** The scan of lines 182-224 followed by the choice of lines 226-227. */
  method GetAIMove(b: Board) returns (pos: Position)
    ensures AIMoveSpec(b, pos)
  {
    var moves: seq<Move> := [];
    var row := 0;
    while row < Size
      invariant 0 <= row <= Size
      invariant Collected(b, moves, row, 0)
    {
      var col := 0;
      while col < Size
        invariant 0 <= col <= Size
        invariant Collected(b, moves, row, col)
      {
        if b[row][col] == Empty {
          var hasNeighbor := HasNeighbor(b, row, col);
          AdmittedIsCandidate(b, moves, row, col, hasNeighbor);
          if hasNeighbor || |moves| == 0 {
            var won := CheckWinner(Place(b, row, col, White), row, col, White);
            if won {
              ForcedIsFirst(b, moves, row, col);
              return Position(row, col);
            }
            won := CheckWinner(Place(b, row, col, Black), row, col, Black);
            if won {
              ForcedIsFirst(b, moves, row, col);
              return Position(row, col);
            }
            var aiScore := EvaluatePosition(b, row, col, White);
            var playerScore := EvaluatePosition(b, row, col, Black);
            var totalScore := 10 * aiScore + 11 * playerScore;
            CollectedPush(b, moves, row, col, totalScore);
            moves := moves + [Move(Position(row, col), totalScore)];
          } else {
            CollectedSkip(b, moves, row, col);
          }
        } else {
          CollectedSkip(b, moves, row, col);
        }
        col := col + 1;
      }
      CollectedNextRow(b, moves, row);
      row := row + 1;
    }
    if |moves| > 0 {
      var best := FirstBest(moves);
      pos := moves[best].pos;
      BestOfCollected(b, moves, best);
    } else {
      pos := Fallback;
      NothingCollected(b);
    }
  }

  /** The admission test of line 199 on an empty cell is `IsCandidate`. */
  lemma AdmittedIsCandidate(b: Board, moves: seq<Move>, row: int, col: int, hasNeighbor: bool)
    requires InBounds(row, col) && b[row][col] == Empty
    requires Collected(b, moves, row, col) && hasNeighbor == NearStone(b, row, col)
    ensures (hasNeighbor || |moves| == 0) <==> IsCandidate(b, row, col)
  {
    if |moves| > 0 {
      var m := moves[0].pos;
      assert 0 <= m.row < Size && 0 <= m.col < Size && Before(m.row, m.col, row, col) && b[m.row][m.col] == Empty;
      assert EmptyBefore(b, row, col);
    }
  }

  /**
   * An empty cell where a stone of either side completes five is always a candidate: five needs a
   * stone of that side right next to the cell on one axis, well within the two-cell neighbourhood.
   */
  lemma ForcedIsCandidate(b: Board, row: int, col: int)
    requires InBounds(row, col) && b[row][col] == Empty && IsForced(b, row, col)
    ensures IsCandidate(b, row, col)
  {
    var p := if Wins(b, row, col, White) then White else Black;
    WinnerIgnoresOrigin(b, row, col, p, p);
    var k :| 0 <= k < |Axes| && AxisCount(b, row, col, p, k) >= WinningLength;
    var dr, dc := Axes[k].0, Axes[k].1;
    assert -1 <= dr <= 1 && -1 <= dc <= 1;
    if Run(b, row + dr, col + dc, dr, dc, p, WinningLength - 1) > 0 {
      assert Holds(b, row + dr, col + dc, p);
    } else {
      assert Holds(b, row - dr, col - dc, p) by {
        assert Run(b, row - dr, col - dc, -dr, -dc, p, WinningLength - 1) > 0;
      }
    }
  }

  /**
   * Whenever some empty cell lets either side complete five, `getAIMove` answers a cell that does
   * too, and no empty cell before it in row-major order does: the AI never misses an immediate win
   * or block, and takes the first one the scan meets.
   */
  lemma AnyForcedIsTaken(b: Board, row: int, col: int, pos: Position)
    requires InBounds(row, col) && b[row][col] == Empty && IsForced(b, row, col) && AIMoveSpec(b, pos)
    ensures InBounds(pos.row, pos.col) && IsForced(b, pos.row, pos.col)
    ensures forall r, c :: InBounds(r, c) && b[r][c] == Empty && Before(r, c, pos.row, pos.col) ==> !IsForced(b, r, c)
  {
    ForcedIsCandidate(b, row, col);
    assert FirstForced(b, pos);
    forall r, c | InBounds(r, c) && b[r][c] == Empty && Before(r, c, pos.row, pos.col)
      ensures !IsForced(b, r, c)
    {
      if IsForced(b, r, c) {
        ForcedIsCandidate(b, r, c);
      }
    }
  }

  /** A forced candidate met by the scan is the first forced candidate. */
  lemma ForcedIsFirst(b: Board, moves: seq<Move>, row: int, col: int)
    requires Collected(b, moves, row, col)
    requires IsCandidate(b, row, col) && IsForced(b, row, col)
    ensures AIMoveSpec(b, Position(row, col))
  {
  }

  /** Collecting a non-forced candidate keeps the scan's state for the next cell. */
  lemma CollectedPush(b: Board, moves: seq<Move>, row: int, col: int, score: int)
    requires Collected(b, moves, row, col) && col < Size
    requires IsCandidate(b, row, col) && !IsForced(b, row, col) && score == Total(b, row, col)
    ensures Collected(b, moves + [Move(Position(row, col), score)], row, col + 1)
  {
    var ms := moves + [Move(Position(row, col), score)];
    forall r, c | Before(r, c, row, col + 1) && IsCandidate(b, r, c)
      ensures !IsForced(b, r, c) && exists i :: 0 <= i < |ms| && ms[i].pos == Position(r, c)
    {
      if r == row && c == col {
        assert ms[|moves|].pos == Position(r, c);
      } else {
        var i :| 0 <= i < |moves| && moves[i].pos == Position(r, c);
        assert ms[i].pos == Position(r, c);
      }
    }
  }

  /** Passing over a cell that is not admitted keeps the scan's state for the next cell. */
  lemma CollectedSkip(b: Board, moves: seq<Move>, row: int, col: int)
    requires Collected(b, moves, row, col) && InBounds(row, col)
    requires !IsCandidate(b, row, col)
    requires |moves| == 0 ==> b[row][col] != Empty
    ensures Collected(b, moves, row, col + 1)
  {
  }

  /** The end of a row is the start of the next one. */
  lemma CollectedNextRow(b: Board, moves: seq<Move>, row: int)
    requires Collected(b, moves, row, Size)
    ensures Collected(b, moves, row + 1, 0)
  {
  }

  /** After the whole board, the first best of the collected moves is the best-scored candidate. */
  lemma BestOfCollected(b: Board, moves: seq<Move>, best: int)
    requires Collected(b, moves, Size, 0) && 0 <= best < |moves|
    requires forall j :: 0 <= j < |moves| ==> moves[j].score <= moves[best].score
    requires forall j :: 0 <= j < best ==> moves[j].score < moves[best].score
    ensures AIMoveSpec(b, moves[best].pos)
  {
    var pos := moves[best].pos;
    assert IsCandidate(b, pos.row, pos.col);
    forall r, c | IsCandidate(b, r, c)
      ensures Total(b, r, c) <= Total(b, pos.row, pos.col)
      ensures Before(r, c, pos.row, pos.col) ==> Total(b, r, c) < Total(b, pos.row, pos.col)
    {
      var i :| 0 <= i < |moves| && moves[i].pos == Position(r, c);
      if Before(r, c, pos.row, pos.col) {
        assert !(best <= i);
      }
    }
  }

  /** With nothing collected after the whole board, there is no candidate at all. */
  lemma NothingCollected(b: Board)
    requires Collected(b, [], Size, 0)
    ensures AIMoveSpec(b, Fallback)
  {
  }

  /** The first empty cell in row-major order is always a candidate, so a board with an empty cell has one. */
  lemma HasEmptyHasCandidate(b: Board)
    requires HasEmpty(b)
    ensures exists r, c :: IsCandidate(b, r, c)
  {
    var r0, c0 :| 0 <= r0 < Size && 0 <= c0 < Size && b[r0][c0] == Empty;
    var r := 0;
    while r < r0 && forall c :: 0 <= c < Size ==> b[r][c] != Empty
      invariant 0 <= r <= r0
      invariant forall r2, c2 :: 0 <= r2 < r && 0 <= c2 < Size ==> b[r2][c2] != Empty
    {
      r := r + 1;
    }
    var c := 0;
    while b[r][c] != Empty
      invariant 0 <= c < Size
      invariant forall c2 :: 0 <= c2 < c ==> b[r][c2] != Empty
      invariant r == r0 ==> c <= c0
      invariant r < r0 ==> exists c2 :: c <= c2 < Size && b[r][c2] == Empty
      decreases Size - c
    {
      c := c + 1;
    }
    assert !EmptyBefore(b, r, c);
    assert IsCandidate(b, r, c);
  }

  /** When the board has an empty cell, `getAIMove` picks an empty cell on the board (line 183). */
  lemma ChosenCellIsEmpty(b: Board, pos: Position)
    requires HasEmpty(b) && AIMoveSpec(b, pos)
    ensures InBounds(pos.row, pos.col) && b[pos.row][pos.col] == Empty
  {
    HasEmptyHasCandidate(b);
  }

  /** Before is a strict total order on cells. */
  lemma BeforeTotal(r1: int, c1: int, r2: int, c2: int)
    ensures Position(r1, c1) == Position(r2, c2) || Before(r1, c1, r2, c2) || Before(r2, c2, r1, c1)
    ensures !(Before(r1, c1, r2, c2) && Before(r2, c2, r1, c1))
  {
  }

  /** `AIMoveSpec` determines one position: `getAIMove` is deterministic. */
  lemma AIMoveSpecUnique(b: Board, p1: Position, p2: Position)
    requires AIMoveSpec(b, p1) && AIMoveSpec(b, p2)
    ensures p1 == p2
  {
    BeforeTotal(p1.row, p1.col, p2.row, p2.col);
    if exists r, c :: IsCandidate(b, r, c) && IsForced(b, r, c) {
      assert FirstForced(b, p1) && FirstForced(b, p2);
    } else if exists r, c :: IsCandidate(b, r, c) {
      assert BestScored(b, p1) && BestScored(b, p2);
    }
  }

  /** A stone of `p` alone on the board completes nothing. */
  lemma LoneStoneDoesNotWin(row: int, col: int, p: Player)
    requires InBounds(row, col) && p != Empty
    ensures !Wins(EmptyBoard(), row, col, p)
  {
    var e: Board := EmptyBoard();
    WinnerIgnoresOrigin(e, row, col, p, p);
    forall k | 0 <= k < |Axes|
      ensures AxisCount(e, row, col, p, k) < WinningLength
    {
      var dr, dc := Axes[k].0, Axes[k].1;
      assert Run(e, row + dr, col + dc, dr, dc, p, WinningLength - 1) == 0;
      assert Run(e, row - dr, col - dc, -dr, -dc, p, WinningLength - 1) == 0;
    }
  }

  /**
   * On the empty board the first cell, (0, 0), is the only candidate, so `getAIMove` answers (0, 0)
   * and not the centre point.
   */
  lemma EmptyBoardOpening(pos: Position)
    requires AIMoveSpec(EmptyBoard(), pos)
    ensures pos == Position(0, 0)
  {
    var e: Board := EmptyBoard();
    assert !EmptyBefore(e, 0, 0);
    assert IsCandidate(e, 0, 0);
    forall r, c | IsCandidate(e, r, c)
      ensures r == 0 && c == 0
    {
      assert !NearStone(e, r, c);
    }
    LoneStoneDoesNotWin(0, 0, White);
    LoneStoneDoesNotWin(0, 0, Black);
    assert !IsForced(e, 0, 0);
  }

  /**
   * On a full board no cell is a candidate and `getAIMove` falls back to (7, 7), which holds a
   * stone: the caller that places white there overwrites it.
   */
  lemma FullBoardChoosesOccupied(b: Board, pos: Position)
    requires !HasEmpty(b) && AIMoveSpec(b, pos)
    ensures pos == Fallback && b[pos.row][pos.col] != Empty
  {
  }
}
