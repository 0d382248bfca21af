/**
 * The cell record of the Rug Sweeper board and the closed set of events a
 * cell can hide.  A board is a list of rows, each a list of cells, cell
 * [r][c] carrying its own position as (x, y) = (r, c).
 */
module Cells {

  /** The six event tags of the game; `Bomb` is the "rug". */
  datatype Event = Bomb | CoinFlip | UpDown | RockPaperScissors | DiceRoll | Nothing

  /** The four events that open a mini-game in the modal. */
  predicate IsMiniGame(e: Event) {
    e == CoinFlip || e == UpDown || e == RockPaperScissors || e == DiceRoll
  }

  datatype Cell = Cell(
    x: int,
    y: int,
    isRevealed: bool,
    isFlagged: bool,
    neighborMines: int,
    event: Event)

  type Grid = seq<seq<Cell>>

  /** (x, y) names a cell of `g`, as `g[x][y]` needs in order not to throw. */
  predicate InGrid(g: Grid, x: int, y: int) {
    0 <= x < |g| && 0 <= y < |g[x]|
  }

  /** Same rows, same row lengths, same event in every cell. */
  predicate SameLayout(g: Grid, h: Grid) {
    && |g| == |h|
    && (forall r :: 0 <= r < |g| ==> |g[r]| == |h[r]|)
    && (forall r, c :: 0 <= r < |g| && 0 <= c < |g[r]| ==> g[r][c].event == h[r][c].event)
  }
}
