/** The board, its cells and the fixed constants of the game (app/page.tsx, lines 10-20). */
module Gomoku {

  /** What a cell holds, and the player argument of the scans; `Empty` is the source's `null`. */
  datatype Player = Empty | Black | White

  /** A board coordinate; the source's `Position`. */
  datatype Position = Position(row: int, col: int)

  const Size: int := 15
  const WinningLength: int := 5

  /**
   * The four axes both scans walk, in the source's order: horizontal, vertical, diagonal and
   * anti-diagonal (lines 39-44 and 96-101). Each is walked forwards and backwards.
   */
  const Axes: seq<(int, int)> := [(0, 1), (1, 0), (1, 1), (1, -1)]

  /** A step component: -1, 0 or 1. */
  predicate Unit(d: int)
  {
    -1 <= d <= 1
  }

  /** The change of a coordinate after `i` steps of `d`, written without multiplication. */
  function Offset(d: int, i: int): int
    requires Unit(d)
  {
    if d == 0 then 0 else if d == 1 then i else -i
  }

  /** One more step moves a coordinate by one more `d`: `d * (i + 1) == d * i + d`. */
  lemma NextStep(d: int, i: int)
    ensures d * (i + 1) == d * i + d
  {
  }

  /** (r, c) is on the board and holds `p`. */
  predicate Holds(b: Board, r: int, c: int, p: Player)
  {
    InBounds(r, c) && b[r][c] == p
  }

  /** The side that moves after `p`; the source writes `currentPlayer === "black" ? "white" : "black"`. */
  function Opponent(p: Player): (q: Player)
    ensures p != Empty ==> q != Empty && q != p
  {
    if p == Black then White else Black
  }

  predicate InBounds(row: int, col: int)
  {
    0 <= row < Size && 0 <= col < Size
  }

  predicate WellFormed(b: seq<seq<Player>>)
  {
    |b| == Size && forall r :: 0 <= r < Size ==> |b[r]| == Size
  }

  /** A 15 x 15 board, indexed `b[row][col]`. */
  type Board = b: seq<seq<Player>> | WellFormed(b) witness EmptyBoard()

  /** The board the game starts from and returns to on reset. */
  function EmptyBoard(): (b: seq<seq<Player>>)
    ensures WellFormed(b)
    ensures forall r, c :: InBounds(r, c) ==> b[r][c] == Empty
  {
    seq(Size, _ => seq(Size, _ => Empty))
  }

  /** The board with (row, col) set to `p`: what the source builds by copying the rows and assigning one cell. */
  function Place(b: Board, row: int, col: int, p: Player): (nb: Board)
    requires InBounds(row, col)
    ensures forall r, c :: InBounds(r, c) ==> nb[r][c] == if r == row && c == col then p else b[r][c]
  {
    b[row := b[row][col := p]]
  }

  /** Row-major order: (r1, c1) is scanned strictly before (r2, c2). */
  predicate Before(r1: int, c1: int, r2: int, c2: int)
  {
    r1 < r2 || (r1 == r2 && c1 < c2)
  }

  /** Some cell of the board is empty. */
  predicate HasEmpty(b: Board)
  {
    exists r, c :: 0 <= r < Size && 0 <= c < Size && b[r][c] == Empty
  }

  /** `rb` is `b` turned by 180 degrees: cell (r, c) of `rb` is cell (14 - r, 14 - c) of `b`. */
  ghost predicate Rotated(b: Board, rb: Board)
  {
    forall r, c {:trigger rb[r][c]} :: InBounds(r, c) ==> rb[r][c] == b[Size - 1 - r][Size - 1 - c]
  }
}
