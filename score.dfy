/**
 * The position scorer `evaluatePosition` (app/page.tsx, lines 92-171): for an empty cell and a
 * player, each axis is walked both ways counting the player's stones and noting whether the walk
 * ended on an empty cell (an open end); the (count, open ends) pair of each axis is looked up in a
 * fixed table and the four rewards are summed. An occupied cell or a missing player scores -1000.
 */
module Scorer {
  import opened Gomoku
  import opened WinDetector

  /** The score of an occupied cell, or of no player. */
  const Sentinel: int := -1000

  /** The reward for five or more in a row. */
  const FiveReward: int := 100000

  /**
   * The walk of lines 108-128 (and, with the step negated, 130-150) from (r, c) onwards, looking at
   * no more than `n` cells, ends on an open end: past the stones of `p`, which it counts exactly as
   * the win detector's `Run` does, it meets an empty cell on the board. An opponent's stone or the
   * edge of the board stops it with no open end.
   */
  predicate OpenEnd(b: Board, r: int, c: int, dr: int, dc: int, p: Player, n: nat)
    decreases n
  {
    n > 0 && InBounds(r, c) && (if b[r][c] == p then OpenEnd(b, r + dr, c + dc, dr, dc, p, n - 1) else b[r][c] == Empty)
  }

  /** The open ends one walk contributes: one or none. */
  function Ends(open: bool): int
  {
    if open then 1 else 0
  }

  /** The reward table of lines 153-167 for one axis. */
  function Reward(count: int, openEnds: int): (r: int)
    ensures 0 <= r <= FiveReward
    ensures r == FiveReward <==> count >= WinningLength
    ensures count < WinningLength ==> r <= 10000
  {
    if count >= 5 then 100000
    else if count == 4 then (if openEnds == 2 then 10000 else if openEnds == 1 then 1000 else 0)
    else if count == 3 then (if openEnds == 2 then 1000 else if openEnds == 1 then 100 else 0)
    else if count == 2 then (if openEnds == 2 then 100 else if openEnds == 1 then 10 else 0)
    else 0
  }

  /** The open ends of axis `k`: none, one or two. */
  function AxisEnds(b: Board, row: int, col: int, p: Player, k: int): (e: int)
    requires 0 <= k < |Axes|
    ensures 0 <= e <= 2
  {
    var dr, dc := Axes[k].0, Axes[k].1;
    Ends(OpenEnd(b, row + dr, col + dc, dr, dc, p, WinningLength - 1))
      + Ends(OpenEnd(b, row - dr, col - dc, -dr, -dc, p, WinningLength - 1))
  }

  /** The reward of axis `k`: the table entry for the win detector's count and the axis's open ends. */
  function AxisReward(b: Board, row: int, col: int, p: Player, k: int): (r: int)
    requires 0 <= k < |Axes|
    ensures 0 <= r <= FiveReward
    ensures r == FiveReward <==> AxisCount(b, row, col, p, k) >= WinningLength
  {
    Reward(AxisCount(b, row, col, p, k), AxisEnds(b, row, col, p, k))
  }

  /** The rewards of the first `n` axes, summed. */
  function AxisSum(b: Board, row: int, col: int, p: Player, n: int): (s: int)
    requires 0 <= n <= |Axes|
    ensures 0 <= s <= n * FiveReward
  {
    if n == 0 then 0 else AxisSum(b, row, col, p, n - 1) + AxisReward(b, row, col, p, n - 1)
  }

  /** What `evaluatePosition(board, row, col, player)` returns. */
  function Score(b: Board, row: int, col: int, p: Player): (s: int)
    requires InBounds(row, col)
    ensures s == Sentinel <==> p == Empty || b[row][col] != Empty
    ensures s != Sentinel ==> 0 <= s <= |Axes| * FiveReward
  {
    if p == Empty || b[row][col] != Empty then Sentinel else AxisSum(b, row, col, p, |Axes|)
  }

  /**
   * One walking loop of `evaluatePosition` (lines 108-128; the loop of lines 130-150 is this one
   * with the step negated): the stones it adds to `count` and the open end it adds to `openEnds`.
   * The source's `blocked` counter is never read and is left out.
   */
  method Walk(b: Board, row: int, col: int, dx: int, dy: int, p: Player) returns (stones: int, openEnd: int)
    ensures stones == Run(b, row + dx, col + dy, dx, dy, p, WinningLength - 1)
    ensures openEnd == Ends(OpenEnd(b, row + dx, col + dy, dx, dy, p, WinningLength - 1))
  {
    stones, openEnd := 0, 0;
    var i := 1;
    while i < WinningLength
      invariant 1 <= i <= WinningLength
      invariant stones == i - 1 && openEnd == 0
      invariant Run(b, row + dx, col + dy, dx, dy, p, WinningLength - 1)
             == stones + Run(b, row + dx * i, col + dy * i, dx, dy, p, WinningLength - i)
      invariant OpenEnd(b, row + dx, col + dy, dx, dy, p, WinningLength - 1)
             == OpenEnd(b, row + dx * i, col + dy * i, dx, dy, p, WinningLength - i)
    {
      var newRow := row + dx * i;
      var newCol := col + dy * i;
      NextStep(dx, i);
      NextStep(dy, i);
      if 0 <= newRow && newRow < Size && 0 <= newCol && newCol < Size {
        if b[newRow][newCol] == p {
          stones := stones + 1;
        } else if b[newRow][newCol] == Empty {
          openEnd := openEnd + 1;
          break;
        } else {
          break;
        }
      } else {
        break;
      }
      i := i + 1;
    }
  }

  /** The body of the axis loop of `evaluatePosition` (lines 102-168): both walks, then the reward table. */
  method AxisGain(b: Board, row: int, col: int, p: Player, k: int) returns (gain: int)
    requires 0 <= k < |Axes|
    ensures gain == AxisReward(b, row, col, p, k)
  {
    var (dx, dy) := Axes[k];
    var count := 1;
    var openEnds := 0;
    var stones, openEnd := Walk(b, row, col, dx, dy, p);
    count, openEnds := count + stones, openEnds + openEnd;
    stones, openEnd := Walk(b, row, col, -dx, -dy, p);
    count, openEnds := count + stones, openEnds + openEnd;
    assert count == AxisCount(b, row, col, p, k) && openEnds == AxisEnds(b, row, col, p, k);
    gain := 0;
    if count >= 5 {
      gain := 100000;
    } else if count == 4 {
      if openEnds == 2 {
        gain := 10000;
      } else if openEnds == 1 {
        gain := 1000;
      }
    } else if count == 3 {
      if openEnds == 2 {
        gain := 1000;
      } else if openEnds == 1 {
        gain := 100;
      }
    } else if count == 2 {
      if openEnds == 2 {
        gain := 100;
      } else if openEnds == 1 {
        gain := 10;
      }
    }
  }

  /** The loops of `evaluatePosition`, proved to compute `Score`. */
  method EvaluatePosition(b: Board, row: int, col: int, p: Player) returns (score: int)
    requires InBounds(row, col)
    ensures score == Score(b, row, col, p)
  {
    if p == Empty || b[row][col] != Empty {
      return -1000;
    }
    score := 0;
    var k := 0;
    while k < |Axes|
      invariant 0 <= k <= |Axes|
      invariant score == AxisSum(b, row, col, p, k)
    {
      var gain := AxisGain(b, row, col, p, k);
      score := score + gain;
      k := k + 1;
    }
  }

  /** With no axis at five, the first `n` axes earn at most 10000 each. */
  lemma {:induction false} AxisSumWithoutFive(b: Board, row: int, col: int, p: Player, n: int)
    requires 0 <= n <= |Axes|
    requires forall k :: 0 <= k < n ==> AxisCount(b, row, col, p, k) < WinningLength
    ensures AxisSum(b, row, col, p, n) <= n * 10000
  {
    if n > 0 {
      AxisSumWithoutFive(b, row, col, p, n - 1);
    }
  }

  /** With some axis at five among the first `n`, their sum reaches the reward for five. */
  lemma {:induction false} AxisSumWithFive(b: Board, row: int, col: int, p: Player, n: int, k: int)
    requires 0 <= k < n <= |Axes|
    requires AxisCount(b, row, col, p, k) >= WinningLength
    ensures AxisSum(b, row, col, p, n) >= FiveReward
  {
    if n - 1 != k {
      AxisSumWithFive(b, row, col, p, n - 1, k);
    }
  }

  /**
   * On an empty cell the score reaches the reward for five exactly when placing the stone there
   * wins: the scorer and the win detector agree, and no combination of lesser patterns (at most
   * four open fours, 40000) is mistaken for five.
   */
  lemma ScoreDetectsFive(b: Board, row: int, col: int, p: Player)
    requires InBounds(row, col) && p != Empty && b[row][col] == Empty
    ensures Score(b, row, col, p) >= FiveReward <==> Winner(Place(b, row, col, p), row, col, p)
  {
    WinnerIgnoresOrigin(b, row, col, p, p);
    if Winner(b, row, col, p) {
      var k :| 0 <= k < |Axes| && AxisCount(b, row, col, p, k) >= WinningLength;
      AxisSumWithFive(b, row, col, p, |Axes|, k);
    } else {
      AxisSumWithoutFive(b, row, col, p, |Axes|);
    }
  }

  /**
   * A walk that finds `p`'s stone on each of its `n` cells records no open end: four own stones in a
   * row leave the walk of lines 110-128 with `count` raised by four and `openEnds` untouched.
   */
  lemma {:induction false} FullRunNoEnd(b: Board, r: int, c: int, dr: int, dc: int, p: Player, n: nat)
    requires Run(b, r, c, dr, dc, p, n) == n
    ensures !OpenEnd(b, r, c, dr, dc, p, n)
    decreases n
  {
    if n > 0 {
      FullRunNoEnd(b, r + dr, c + dc, dr, dc, p, n - 1);
    }
  }

  /**
   * The walk ends on an open end exactly when its run of `p`'s stones stops short of `n` cells and
   * the cell just past the run is on the board and empty.
   */
  lemma {:induction false} OpenEndAfterRun(b: Board, r: int, c: int, dr: int, dc: int, p: Player, n: nat)
    requires Unit(dr) && Unit(dc)
    ensures var k := Run(b, r, c, dr, dc, p, n);
            OpenEnd(b, r, c, dr, dc, p, n) <==>
            k < n && InBounds(r + Offset(dr, k), c + Offset(dc, k)) && b[r + Offset(dr, k)][c + Offset(dc, k)] == Empty
    decreases n
  {
    if n > 0 && Holds(b, r, c, p) {
      OpenEndAfterRun(b, r + dr, c + dc, dr, dc, p, n - 1);
      var k := Run(b, r + dr, c + dc, dr, dc, p, n - 1);
      OffsetShift(dr, k);
      OffsetShift(dc, k);
    }
  }

  /** An open end on the board turned by 180 degrees is an open end of the opposite walk on the original. */
  lemma {:induction false} OpenEndRotate(b: Board, rb: Board, rr: int, rc: int, r: int, c: int,
                                         dr: int, dc: int, er: int, ec: int, p: Player, n: nat)
    requires Rotated(b, rb)
    requires rr == Size - 1 - r && rc == Size - 1 - c && er == -dr && ec == -dc
    ensures OpenEnd(rb, rr, rc, dr, dc, p, n) == OpenEnd(b, r, c, er, ec, p, n)
    decreases n
  {
    if n > 0 {
      OpenEndRotate(b, rb, rr + dr, rc + dc, r + er, c + ec, dr, dc, er, ec, p, n - 1);
    }
  }

  /** Each axis has the same open ends after turning: its two walks trade places. */
  lemma AxisEndsRotate(b: Board, rb: Board, row: int, col: int, p: Player, k: int)
    requires Rotated(b, rb) && 0 <= k < |Axes|
    ensures AxisEnds(rb, Size - 1 - row, Size - 1 - col, p, k) == AxisEnds(b, row, col, p, k)
  {
    var dr, dc := Axes[k].0, Axes[k].1;
    var rr, rc := Size - 1 - row, Size - 1 - col;
    OpenEndRotate(b, rb, rr + dr, rc + dc, row - dr, col - dc, dr, dc, -dr, -dc, p, WinningLength - 1);
    OpenEndRotate(b, rb, rr - dr, rc - dc, row + dr, col + dc, -dr, -dc, dr, dc, p, WinningLength - 1);
  }

  /** Each axis earns the same reward after turning. */
  lemma AxisRewardRotate(b: Board, rb: Board, row: int, col: int, p: Player, k: int)
    requires Rotated(b, rb) && 0 <= k < |Axes|
    ensures AxisReward(rb, Size - 1 - row, Size - 1 - col, p, k) == AxisReward(b, row, col, p, k)
  {
    AxisCountRotate(b, rb, row, col, p, k);
    AxisEndsRotate(b, rb, row, col, p, k);
  }

  /** The first `n` axes earn the same sum after turning. */
  lemma {:induction false} AxisSumRotate(b: Board, rb: Board, row: int, col: int, p: Player, n: int)
    requires Rotated(b, rb) && 0 <= n <= |Axes|
    ensures AxisSum(rb, Size - 1 - row, Size - 1 - col, p, n) == AxisSum(b, row, col, p, n)
  {
    if n > 0 {
      var rr, rc := Size - 1 - row, Size - 1 - col;
      AxisSumRotate(b, rb, row, col, p, n - 1);
      AxisRewardRotate(b, rb, row, col, p, n - 1);
      assert AxisSum(rb, rr, rc, p, n) == AxisSum(rb, rr, rc, p, n - 1) + AxisReward(rb, rr, rc, p, n - 1);
    }
  }

  /**
   * The score is unchanged by turning the board and the cell by 180 degrees: swapping the forward
   * and backward walks of every axis leaves the sum as it was.
   */
  lemma ScoreRotate(b: Board, rb: Board, row: int, col: int, p: Player)
    requires Rotated(b, rb) && InBounds(row, col)
    ensures Score(rb, Size - 1 - row, Size - 1 - col, p) == Score(b, row, col, p)
  {
    AxisSumRotate(b, rb, row, col, p, |Axes|);
  }

  /** More stones, or more open ends, never earn an axis less. */
  lemma RewardMonotone(c1: int, e1: int, c2: int, e2: int)
    requires c1 <= c2 && 0 <= e1 <= e2 <= 2
    ensures Reward(c1, e1) <= Reward(c2, e2)
  {
  }
}
