/**
 * What revealCell and flagCell do to the board.  Both work on a deep copy of
 * the board, so as values: the board handed in is never changed, and the
 * functions below give the copy after the change.
 */
module RevealEngine {
  import opened Cells
  import opened GridBuilder

  /**
   * `h` differs from `g` in nothing but isRevealed, and no cell that was
   * revealed in `g` is hidden in `h`.
   */
  ghost predicate RevealsOnly(g: Grid, h: Grid) {
    && |h| == |g|
    && (forall i :: 0 <= i < |g| ==> |h[i]| == |g[i]|)
    && (forall i, j :: InGrid(g, i, j) ==>
          h[i][j] == g[i][j].(isRevealed := h[i][j].isRevealed) && (g[i][j].isRevealed ==> h[i][j].isRevealed))
  }

  /** `newGrid[x][y].isRevealed = true` on the copy. */
  function SetRevealed(g: Grid, x: int, y: int): (h: Grid)
    requires InGrid(g, x, y)
    ensures RevealsOnly(g, h)
    ensures h[x][y].isRevealed
    ensures forall i, j :: InGrid(g, i, j) && (i, j) != (x, y) ==> h[i][j] == g[i][j]
  {
    g[x := g[x][y := g[x][y].(isRevealed := true)]]
  }

  /** The board with every bomb cell revealed and nothing else changed. */
  function BombsRevealed(g: Grid): (h: Grid)
    ensures RevealsOnly(g, h)
    ensures forall i, j :: InGrid(g, i, j) ==> h[i][j].isRevealed == (g[i][j].isRevealed || g[i][j].event == Bomb)
  {
    seq(|g|, i requires 0 <= i < |g| =>
      seq(|g[i]|, j requires 0 <= j < |g[i]| =>
        if g[i][j].event == Bomb then g[i][j].(isRevealed := true) else g[i][j]))
  }

  /** The bomb branch's walk over every row and cell of the copy. */
  method RevealAllBombs(g: Grid) returns (h: Grid)
    ensures h == BombsRevealed(g)
  {
    h := g;
    var i := 0;
    while i < |h|
      invariant 0 <= i <= |g| == |h|
      invariant forall k :: 0 <= k < |g| ==> |h[k]| == |g[k]|
      invariant forall k, j :: InGrid(g, k, j) ==>
        h[k][j] == if k < i && g[k][j].event == Bomb then g[k][j].(isRevealed := true) else g[k][j]
    {
      var j := 0;
      while j < |h[i]|
        invariant |h| == |g| && forall k :: 0 <= k < |g| ==> |h[k]| == |g[k]|
        invariant 0 <= j <= |h[i]|
        invariant forall k, l :: InGrid(g, k, l) ==>
          h[k][l] == if (k < i || (k == i && l < j)) && g[k][l].event == Bomb then g[k][l].(isRevealed := true) else g[k][l]
      {
        if h[i][j].event == Bomb {
          h := h[i := h[i][j := h[i][j].(isRevealed := true)]];
        }
        j := j + 1;
      }
      i := i + 1;
    }
    assert forall k :: 0 <= k < |g| ==> h[k] == BombsRevealed(g)[k];
  }

  /**
   * The board after a reveal that passed its guards: the target is revealed,
   * and when it is a bomb, so is every other bomb.
   */
  function RevealedGrid(g: Grid, x: int, y: int): (h: Grid)
    requires InGrid(g, x, y)
    ensures RevealsOnly(g, h)
    ensures SameBoard(g, h)
    ensures h[x][y].isRevealed
  {
    var h := SetRevealed(g, x, y);
    if h[x][y].event == Bomb then BombsRevealed(h) else h
  }

  /** A reveal keeps the board invariant. */
  lemma RevealKeepsWellFormed(g: Grid, x: int, y: int, rows: int, cols: int)
    requires InGrid(g, x, y)
    ensures WellFormed(g, rows, cols) ==> WellFormed(RevealedGrid(g, x, y), rows, cols)
  {
    if WellFormed(g, rows, cols) {
      WellFormedKept(g, RevealedGrid(g, x, y), rows, cols);
    }
  }

  /** Revealing a bomb reveals every bomb cell and no other hidden cell. */
  lemma RevealBombEffect(g: Grid, x: int, y: int)
    requires InGrid(g, x, y) && g[x][y].event == Bomb
    ensures forall i, j :: InGrid(g, i, j) ==>
      RevealedGrid(g, x, y)[i][j].isRevealed == (g[i][j].isRevealed || g[i][j].event == Bomb)
    ensures forall i, j :: InGrid(g, i, j) ==> RevealedGrid(g, x, y)[i][j].isFlagged == g[i][j].isFlagged
  {
  }

  /** Revealing anything else reveals the target and leaves every other cell as it was. */
  lemma RevealSafeEffect(g: Grid, x: int, y: int)
    requires InGrid(g, x, y) && g[x][y].event != Bomb
    ensures RevealedGrid(g, x, y)[x][y] == g[x][y].(isRevealed := true)
    ensures forall i, j :: InGrid(g, i, j) && (i, j) != (x, y) ==> RevealedGrid(g, x, y)[i][j] == g[i][j]
  {
  }

  /** `h` differs from `g` at most in the isFlagged mark of cell (x, y). */
  ghost predicate FlagsOnly(g: Grid, h: Grid, x: int, y: int) {
    && |h| == |g|
    && (forall i :: 0 <= i < |g| ==> |h[i]| == |g[i]|)
    && (forall i, j :: InGrid(g, i, j) ==>
          h[i][j] == if (i, j) == (x, y) then g[i][j].(isFlagged := h[i][j].isFlagged) else g[i][j])
  }

  /** `newGrid[x][y].isFlagged = !newGrid[x][y].isFlagged` on the copy. */
  function FlagToggled(g: Grid, x: int, y: int): (h: Grid)
    requires InGrid(g, x, y)
    ensures FlagsOnly(g, h, x, y)
    ensures SameBoard(g, h)
    ensures h[x][y].isFlagged != g[x][y].isFlagged
  {
    g[x := g[x][y := g[x][y].(isFlagged := !g[x][y].isFlagged)]]
  }

  /** Toggling the flag twice gives back the board. */
  lemma FlagTwice(g: Grid, x: int, y: int)
    requires InGrid(g, x, y)
    ensures FlagToggled(FlagToggled(g, x, y), x, y) == g
  {
    var h := FlagToggled(FlagToggled(g, x, y), x, y);
    assert h[x] == g[x];
  }
}
