/**
 * The win detector `checkWinner` (app/page.tsx, lines 36-89): along each of four axes it counts
 * the player's stones on both sides of (row, col), at most four per side, and reports a win when
 * the origin plus both runs reach five.
 */
module WinDetector {
  import opened Gomoku

  /**
   * The stones of `p` met walking from (r, c) onwards in steps of (dr, dc), looking at no more than
   * `n` cells and stopping at the first cell that is off the board or does not hold `p`.
   */
  function Run(b: Board, r: int, c: int, dr: int, dc: int, p: Player, n: nat): (k: nat)
    ensures k <= n
    decreases n
  {
    if n == 0 || !Holds(b, r, c, p) then 0
    else 1 + Run(b, r + dr, c + dc, dr, dc, p, n - 1)
  }

  /** The origin plus the runs on both sides of it along axis `k`, each side walked at most four steps. */
  function AxisCount(b: Board, row: int, col: int, p: Player, k: int): (count: int)
    requires 0 <= k < |Axes|
    ensures 1 <= count <= 2 * WinningLength - 1
  {
    var dr, dc := Axes[k].0, Axes[k].1;
    1 + Run(b, row + dr, col + dc, dr, dc, p, WinningLength - 1)
      + Run(b, row - dr, col - dc, -dr, -dc, p, WinningLength - 1)
  }

  /** What `checkWinner(board, row, col, player)` returns. */
  predicate Winner(b: Board, row: int, col: int, p: Player)
  {
    p != Empty && exists k :: 0 <= k < |Axes| && AxisCount(b, row, col, p, k) >= WinningLength
  }

  /**
   * One of the two counting loops of `checkWinner` (lines 50-64 and 67-81): steps 1 .. 4 from
   * (row, col) in steps of (dx, dy), counting `p`'s stones up to the first cell that is off the
   * board or not `p`'s. The second loop is this one with the step negated.
   */
  method CountRun(b: Board, row: int, col: int, dx: int, dy: int, p: Player) returns (n: int)
    ensures n == Run(b, row + dx, col + dy, dx, dy, p, WinningLength - 1)
  {
    n := 0;
    var i := 1;
    while i < WinningLength
      invariant 1 <= i <= WinningLength
      invariant n == i - 1
      invariant Run(b, row + dx, col + dy, dx, dy, p, WinningLength - 1)
             == n + Run(b, row + dx * i, col + dy * i, dx, dy, p, WinningLength - i)
    {
      var newRow := row + dx * i;
      var newCol := col + dy * i;
      NextStep(dx, i);
      NextStep(dy, i);
      if 0 <= newRow && newRow < Size && 0 <= newCol && newCol < Size && b[newRow][newCol] == p {
        n := n + 1;
      } else {
        break;
      }
      i := i + 1;
    }
  }

  /** The loops of `checkWinner`, proved to compute `Winner`. */
  method CheckWinner(b: Board, row: int, col: int, p: Player) returns (won: bool)
    ensures won == Winner(b, row, col, p)
    ensures p == Empty ==> !won
  {
    if p == Empty {
      return false;
    }
    var k := 0;
    while k < |Axes|
      invariant 0 <= k <= |Axes|
      invariant forall j :: 0 <= j < k ==> AxisCount(b, row, col, p, j) < WinningLength
    {
      var (dx, dy) := Axes[k];
      var forward := CountRun(b, row, col, dx, dy, p);
      var backward := CountRun(b, row, col, -dx, -dy, p);
      var count := 1 + forward + backward;
      assert count == AxisCount(b, row, col, p, k);
      if count >= WinningLength {
        return true;
      }
      k := k + 1;
    }
    return false;
  }

  /** The `m` cells from (r, c) onwards in steps of (dr, dc) are all on the board and hold `p`. */
  ghost predicate Line(b: Board, r: int, c: int, dr: int, dc: int, p: Player, m: nat)
    decreases m
  {
    m == 0 || (Holds(b, r, c, p) && Line(b, r + dr, c + dc, dr, dc, p, m - 1))
  }

  /** One step of `d` followed by `j` more is `j + 1` steps. */
  lemma OffsetShift(d: int, j: int)
    requires Unit(d)
    ensures d + Offset(d, j) == Offset(d, j + 1)
  {
  }

  /** A line of `m` cells holds `p` at every step j below m. */
  lemma {:induction false} LineHasCells(b: Board, r: int, c: int, dr: int, dc: int, p: Player, m: nat, j: int)
    requires Unit(dr) && Unit(dc) && 0 <= j < m
    requires Line(b, r, c, dr, dc, p, m)
    ensures Holds(b, r + Offset(dr, j), c + Offset(dc, j), p)
    decreases m
  {
    if j > 0 {
      LineHasCells(b, r + dr, c + dc, dr, dc, p, m - 1, j - 1);
      OffsetShift(dr, j - 1);
      OffsetShift(dc, j - 1);
    }
  }

  /** Cells of `p` at every step j below m make a line of `m` cells. */
  lemma {:induction false} CellsMakeLine(b: Board, r: int, c: int, dr: int, dc: int, p: Player, m: nat)
    requires Unit(dr) && Unit(dc)
    requires forall j :: 0 <= j < m ==> Holds(b, r + Offset(dr, j), c + Offset(dc, j), p)
    ensures Line(b, r, c, dr, dc, p, m)
    decreases m
  {
    if m > 0 {
      forall j | 0 <= j < m - 1
        ensures Holds(b, r + dr + Offset(dr, j), c + dc + Offset(dc, j), p)
      {
        OffsetShift(dr, j);
        OffsetShift(dc, j);
        assert Holds(b, r + Offset(dr, j + 1), c + Offset(dc, j + 1), p);
      }
      CellsMakeLine(b, r + dr, c + dc, dr, dc, p, m - 1);
      assert Holds(b, r + Offset(dr, 0), c + Offset(dc, 0), p);
    }
  }

  /** A line of `m` cells, spelled out: the cell `j` steps from (r, c) holds `p`, for each j below m. */
  lemma LineCells(b: Board, r: int, c: int, dr: int, dc: int, p: Player, m: nat)
    requires Unit(dr) && Unit(dc)
    ensures Line(b, r, c, dr, dc, p, m) <==> forall j :: 0 <= j < m ==> Holds(b, r + Offset(dr, j), c + Offset(dc, j), p)
  {
    if Line(b, r, c, dr, dc, p, m) {
      forall j | 0 <= j < m
        ensures Holds(b, r + Offset(dr, j), c + Offset(dc, j), p)
      {
        LineHasCells(b, r, c, dr, dc, p, m, j);
      }
    } else if forall j :: 0 <= j < m ==> Holds(b, r + Offset(dr, j), c + Offset(dc, j), p) {
      CellsMakeLine(b, r, c, dr, dc, p, m);
    }
  }

  /** A capped walk reaches `m` stones exactly when its first `m` cells form a line of `p`. */
  lemma {:induction false} RunAtLeast(b: Board, r: int, c: int, dr: int, dc: int, p: Player, n: nat, m: nat)
    requires m <= n
    ensures Run(b, r, c, dr, dc, p, n) >= m <==> Line(b, r, c, dr, dc, p, m)
    decreases m
  {
    if m > 0 {
      RunAtLeast(b, r + dr, c + dc, dr, dc, p, n - 1, m - 1);
    }
  }

  /**
   * Along axis `k` the window of five cells from step s to step s + 4 through (row, col) is `p`'s:
   * the s + 4 cells after (row, col) and the -s cells before it are on the board and hold `p`.
   */
  ghost predicate FiveThrough(b: Board, row: int, col: int, p: Player, k: int, s: int)
    requires 0 <= k < |Axes| && -(WinningLength - 1) <= s <= 0
  {
    var dr, dc := Axes[k].0, Axes[k].1;
    Line(b, row + dr, col + dc, dr, dc, p, s + WinningLength - 1) && Line(b, row - dr, col - dc, -dr, -dc, p, -s)
  }

  /**
   * An axis that reaches five has a window of five cells through (row, col) whose other four cells
   * are `p`'s: the one ending where the forward run ends.
   */
  lemma AxisFiveHasWindow(b: Board, row: int, col: int, p: Player, k: int)
    requires 0 <= k < |Axes|
    requires AxisCount(b, row, col, p, k) >= WinningLength
    ensures FiveThrough(b, row, col, p, k, Run(b, row + Axes[k].0, col + Axes[k].1, Axes[k].0, Axes[k].1, p, WinningLength - 1) - (WinningLength - 1))
  {
    var dr, dc := Axes[k].0, Axes[k].1;
    var f := Run(b, row + dr, col + dc, dr, dc, p, WinningLength - 1);
    RunAtLeast(b, row + dr, col + dc, dr, dc, p, WinningLength - 1, f);
    RunAtLeast(b, row - dr, col - dc, -dr, -dc, p, WinningLength - 1, WinningLength - 1 - f);
  }

  /** A window of five cells of `p` along axis `k` through (row, col) makes the axis reach five. */
  lemma WindowMakesAxisFive(b: Board, row: int, col: int, p: Player, k: int, s: int)
    requires 0 <= k < |Axes| && -(WinningLength - 1) <= s <= 0
    requires FiveThrough(b, row, col, p, k, s)
    ensures AxisCount(b, row, col, p, k) >= WinningLength
  {
    var dr, dc := Axes[k].0, Axes[k].1;
    RunAtLeast(b, row + dr, col + dc, dr, dc, p, WinningLength - 1, s + WinningLength - 1);
    RunAtLeast(b, row - dr, col - dc, -dr, -dc, p, WinningLength - 1, -s);
  }

  /** An axis reaches five exactly when some window of five cells along it through (row, col) is `p`'s. */
  lemma AxisFive(b: Board, row: int, col: int, p: Player, k: int)
    requires 0 <= k < |Axes|
    ensures AxisCount(b, row, col, p, k) >= WinningLength
        <==> exists s :: -(WinningLength - 1) <= s <= 0 && FiveThrough(b, row, col, p, k, s)
  {
    if AxisCount(b, row, col, p, k) >= WinningLength {
      AxisFiveHasWindow(b, row, col, p, k);
    }
    if s :| -(WinningLength - 1) <= s <= 0 && FiveThrough(b, row, col, p, k, s) {
      WindowMakesAxisFive(b, row, col, p, k, s);
    }
  }

  /**
   * `checkWinner` reports a win exactly when `p` is a player and, along one of the four axes, the
   * cells of some window of five through (row, col) are on the board and hold `p` (the origin
   * itself is not looked at). A run of four flush against an edge therefore never counts as five.
   */
  lemma WinnerIffFive(b: Board, row: int, col: int, p: Player)
    ensures Winner(b, row, col, p)
        <==> p != Empty && exists k, s :: 0 <= k < |Axes| && -(WinningLength - 1) <= s <= 0 && FiveThrough(b, row, col, p, k, s)
  {
    if Winner(b, row, col, p) {
      var k :| 0 <= k < |Axes| && AxisCount(b, row, col, p, k) >= WinningLength;
      AxisFive(b, row, col, p, k);
    }
    if p != Empty && exists k, s :: 0 <= k < |Axes| && -(WinningLength - 1) <= s <= 0 && FiveThrough(b, row, col, p, k, s) {
      var k, s :| 0 <= k < |Axes| && -(WinningLength - 1) <= s <= 0 && FiveThrough(b, row, col, p, k, s);
      AxisFive(b, row, col, p, k);
    }
  }

  /** (r, c) lies strictly ahead of (orow, ocol) for a walk in steps of (dr, dc). */
  predicate Ahead(r: int, c: int, orow: int, ocol: int, dr: int, dc: int)
  {
    (dr > 0 && r > orow) || (dr < 0 && r < orow) || (dr == 0 && ((dc > 0 && c > ocol) || (dc < 0 && c < ocol)))
  }

  /** A walk that starts ahead of a cell never comes back to it, so a stone placed there does not change it. */
  lemma {:induction false} RunIgnoresOrigin(b: Board, orow: int, ocol: int, q: Player,
                                            r: int, c: int, dr: int, dc: int, p: Player, n: nat)
    requires InBounds(orow, ocol) && Ahead(r, c, orow, ocol, dr, dc)
    ensures Run(Place(b, orow, ocol, q), r, c, dr, dc, p, n) == Run(b, r, c, dr, dc, p, n)
    decreases n
  {
    if n > 0 {
      RunIgnoresOrigin(b, orow, ocol, q, r + dr, c + dc, dr, dc, p, n - 1);
    }
  }

  /** Along each axis the count is the same with or without a stone on the origin. */
  lemma AxisCountIgnoresOrigin(b: Board, row: int, col: int, q: Player, p: Player, k: int)
    requires InBounds(row, col) && 0 <= k < |Axes|
    ensures AxisCount(Place(b, row, col, q), row, col, p, k) == AxisCount(b, row, col, p, k)
  {
    var dr, dc := Axes[k].0, Axes[k].1;
    RunIgnoresOrigin(b, row, col, q, row + dr, col + dc, dr, dc, p, WinningLength - 1);
    RunIgnoresOrigin(b, row, col, q, row - dr, col - dc, -dr, -dc, p, WinningLength - 1);
  }

  /**
   * `checkWinner` never reads the origin cell, so testing a board on which the stone has been
   * placed (lines 201-203, 208-210, 238-242) gives the same answer as testing the board without it.
   */
  lemma WinnerIgnoresOrigin(b: Board, row: int, col: int, q: Player, p: Player)
    requires InBounds(row, col)
    ensures Winner(Place(b, row, col, q), row, col, p) == Winner(b, row, col, p)
  {
    forall k | 0 <= k < |Axes| {
      AxisCountIgnoresOrigin(b, row, col, q, p, k);
    }
  }

  /**
   * Walking from (rr, rc) on the board turned by 180 degrees is walking from the matching cell
   * (r, c) the opposite way, in steps of (er, ec), on the original.
   */
  lemma {:induction false} RunRotate(b: Board, rb: Board, rr: int, rc: int, r: int, c: int,
                                     dr: int, dc: int, er: int, ec: int, p: Player, n: nat)
    requires Rotated(b, rb)
    requires rr == Size - 1 - r && rc == Size - 1 - c && er == -dr && ec == -dc
    ensures Run(rb, rr, rc, dr, dc, p, n) == Run(b, r, c, er, ec, p, n)
    decreases n
  {
    if n > 0 {
      RunRotate(b, rb, rr + dr, rc + dc, r + er, c + ec, dr, dc, er, ec, p, n - 1);
    }
  }

  /** Along each axis the count is unchanged by turning the board and the cell by 180 degrees. */
  lemma AxisCountRotate(b: Board, rb: Board, row: int, col: int, p: Player, k: int)
    requires Rotated(b, rb) && 0 <= k < |Axes|
    ensures AxisCount(rb, Size - 1 - row, Size - 1 - col, p, k) == AxisCount(b, row, col, p, k)
  {
    var dr, dc := Axes[k].0, Axes[k].1;
    var rr, rc := Size - 1 - row, Size - 1 - col;
    RunRotate(b, rb, rr + dr, rc + dc, row - dr, col - dc, dr, dc, -dr, -dc, p, WinningLength - 1);
    RunRotate(b, rb, rr - dr, rc - dc, row + dr, col + dc, -dr, -dc, dr, dc, p, WinningLength - 1);
  }

  /** The win test is unchanged by turning the board and the cell by 180 degrees. */
  lemma WinnerRotate(b: Board, rb: Board, row: int, col: int, p: Player)
    requires Rotated(b, rb)
    ensures Winner(rb, Size - 1 - row, Size - 1 - col, p) == Winner(b, row, col, p)
  {
    if Winner(b, row, col, p) {
      var k :| 0 <= k < |Axes| && AxisCount(b, row, col, p, k) >= WinningLength;
      AxisCountRotate(b, rb, row, col, p, k);
    }
    if Winner(rb, Size - 1 - row, Size - 1 - col, p) {
      var k :| 0 <= k < |Axes| && AxisCount(rb, Size - 1 - row, Size - 1 - col, p, k) >= WinningLength;
      AxisCountRotate(b, rb, row, col, p, k);
    }
  }
}
