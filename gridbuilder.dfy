/**
 * Board construction: the rows x cols grid of fresh cells, then the
 * bomb-adjacency count of every cell.  The event of each cell is drawn at
 * random in the game; here the draws are an input, `layout(r, c)` being the
 * event drawn for cell [r][c].
 */
module GridBuilder {
  import opened Cells

  /** How many times `for (i = 0; i < n; i++)` runs. */
  function Dim(n: int): nat {
    if n > 0 then n else 0
  }

  /**
   * Builds the board row by row: `rows` rows of `cols` cells, each at its own
   * position, unrevealed, unflagged, with a zero placeholder count.
   */
  method CreateEmptyGrid(rows: int, cols: int, layout: (int, int) -> Event) returns (grid: Grid)
    ensures |grid| == Dim(rows)
    ensures forall r :: 0 <= r < |grid| ==> |grid[r]| == Dim(cols)
    ensures forall r, c :: InGrid(grid, r, c) ==>
      && grid[r][c].x == r && grid[r][c].y == c
      && !grid[r][c].isRevealed && !grid[r][c].isFlagged
      && grid[r][c].neighborMines == 0
      && grid[r][c].event == layout(r, c)
  {
    grid := [];
    var r := 0;
    while r < rows
      invariant 0 <= r <= Dim(rows)
      invariant |grid| == r
      invariant forall i :: 0 <= i < r ==> |grid[i]| == Dim(cols)
      invariant forall i, j :: InGrid(grid, i, j) ==> grid[i][j] == Cell(i, j, false, false, 0, layout(i, j))
    {
      var row: seq<Cell> := [];
      var c := 0;
      while c < cols
        invariant 0 <= c <= Dim(cols)
        invariant |row| == c
        invariant forall j :: 0 <= j < c ==> row[j] == Cell(r, j, false, false, 0, layout(r, j))
      {
        row := row + [Cell(r, c, false, false, 0, layout(r, c))];
        c := c + 1;
      }
      grid := grid + [row];
      r := r + 1;
    }
  }

  /** The eight neighbour offsets, in the order `calculateNeighborMines` scans them. */
  const Directions: seq<(int, int)> :=
    [(-1, -1), (-1, 0), (-1, 1),
     (0, -1),           (0, 1),
     (1, -1),  (1, 0),  (1, 1)]

  /** Every row has at least `cols` cells, so `g[r][c]` exists for c < cols. */
  predicate Covers(g: Grid, cols: int) {
    forall r :: 0 <= r < |g| ==> cols <= |g[r]|
  }

  /** (nr, nc) lies on the board (rows = |g|, cols as given) and holds a bomb. */
  predicate BombAt(g: Grid, cols: int, nr: int, nc: int) {
    0 <= nr < |g| && 0 <= nc < cols && nc < |g[nr]| && g[nr][nc].event == Bomb
  }

  /** How many of the offsets `ds`, taken from (r, c), land on a bomb. */
  function CountBombs(g: Grid, cols: int, r: int, c: int, ds: seq<(int, int)>): (n: nat)
    ensures n <= |ds|
    decreases |ds|
  {
    if ds == [] then 0
    else
      var d := ds[|ds| - 1];
      CountBombs(g, cols, r, c, ds[..|ds| - 1]) + (if BombAt(g, cols, r + d.0, c + d.1) then 1 else 0)
  }

  /** The value calculateNeighborMines stores in cell [r][c]. */
  function MinesAt(g: Grid, cols: int, r: int, c: int): (m: int)
    requires InGrid(g, r, c)
    ensures -1 <= m <= 8
    ensures m == -1 <==> g[r][c].event == Bomb
  {
    if g[r][c].event == Bomb then -1 else CountBombs(g, cols, r, c, Directions)
  }

  /** The scan over the eight directions with a running count. */
  method CountNeighborBombs(g: Grid, cols: int, r: int, c: int) returns (count: nat)
    requires Covers(g, cols)
    ensures count == CountBombs(g, cols, r, c, Directions)
  {
    var rows := |g|;
    count := 0;
    var k := 0;
    while k < |Directions|
      invariant 0 <= k <= |Directions|
      invariant count == CountBombs(g, cols, r, c, Directions[..k])
    {
      var (dr, dc) := Directions[k];
      var nr, nc := r + dr, c + dc;
      if 0 <= nr < rows && 0 <= nc < cols && g[nr][nc].event == Bomb {
        count := count + 1;
      }
      assert Directions[..k + 1][..k] == Directions[..k];
      k := k + 1;
    }
    assert Directions[..k] == Directions;
  }

  /** The counts only look at the events, so they agree on boards of the same layout. */
  lemma {:induction false} CountBombsLayout(g: Grid, h: Grid, cols: int, r: int, c: int, ds: seq<(int, int)>)
    requires SameLayout(g, h)
    ensures CountBombs(g, cols, r, c, ds) == CountBombs(h, cols, r, c, ds)
    decreases |ds|
  {
    if ds != [] {
      CountBombsLayout(g, h, cols, r, c, ds[..|ds| - 1]);
    }
  }

  lemma MinesAtLayout(g: Grid, h: Grid, cols: int, r: int, c: int)
    requires SameLayout(g, h) && InGrid(g, r, c)
    ensures InGrid(h, r, c) && MinesAt(g, cols, r, c) == MinesAt(h, cols, r, c)
  {
    CountBombsLayout(g, h, cols, r, c, Directions);
  }

  /**
   * Fills in every cell's count in place: -1 on a bomb, else the number of
   * bombs among its in-bounds neighbours.  rows = |grid| and cols = |grid[0]|;
   * `calculateNeighborMines` reads grid[0] (so the grid must have a row) and every row up to
   * cols (so every row must be at least that long).  Cells past cols are not
   * visited.  Nothing but the counts changes.
   */
  method CalculateNeighborMines(grid: Grid) returns (result: Grid)
    requires |grid| > 0
    requires Covers(grid, |grid[0]|)
    ensures SameLayout(grid, result)
    ensures forall r, c :: InGrid(grid, r, c) && c < |grid[0]| ==>
      result[r][c] == grid[r][c].(neighborMines := MinesAt(grid, |grid[0]|, r, c))
    ensures forall r, c :: InGrid(grid, r, c) && |grid[0]| <= c ==> result[r][c] == grid[r][c]
  {
    var rows := |grid|;
    var cols := |grid[0]|;
    result := grid;
    var r := 0;
    while r < rows
      invariant 0 <= r <= rows
      invariant SameLayout(grid, result)
      invariant forall i, j :: InGrid(grid, i, j) ==>
        result[i][j] == if i < r && j < cols then grid[i][j].(neighborMines := MinesAt(grid, cols, i, j)) else grid[i][j]
    {
      var c := 0;
      while c < cols
        invariant 0 <= c <= cols
        invariant SameLayout(grid, result)
        invariant forall i, j :: InGrid(grid, i, j) ==>
          result[i][j] ==
            if (i < r || (i == r && j < c)) && j < cols
            then grid[i][j].(neighborMines := MinesAt(grid, cols, i, j))
            else grid[i][j]
      {
        if result[r][c].event == Bomb {
          result := result[r := result[r][c := result[r][c].(neighborMines := -1)]];
        } else {
          var count := CountNeighborBombs(result, cols, r, c);
          CountBombsLayout(result, grid, cols, r, c, Directions);
          result := result[r := result[r][c := result[r][c].(neighborMines := count)]];
        }
        c := c + 1;
      }
      r := r + 1;
    }
  }

  /** The in-bounds bomb cells among the eight neighbours of (r, c). */
  ghost function BombNeighbours(g: Grid, cols: int, r: int, c: int): set<(int, int)> {
    set nr: int, nc: int | r - 1 <= nr <= r + 1 && c - 1 <= nc <= c + 1 && (nr, nc) != (r, c) && BombAt(g, cols, nr, nc)
      :: (nr, nc)
  }

  /** The bomb positions reached from (r, c) by the offsets of `ds`. */
  ghost function Hits(g: Grid, cols: int, r: int, c: int, ds: seq<(int, int)>): set<(int, int)>
    decreases |ds|
  {
    if ds == [] then {}
    else
      var d := ds[|ds| - 1];
      Hits(g, cols, r, c, ds[..|ds| - 1]) + (if BombAt(g, cols, r + d.0, c + d.1) then {(r + d.0, c + d.1)} else {})
  }

  lemma {:induction false} HitsMembers(g: Grid, cols: int, r: int, c: int, ds: seq<(int, int)>, q: (int, int))
    ensures q in Hits(g, cols, r, c, ds) <==> BombAt(g, cols, q.0, q.1) && (q.0 - r, q.1 - c) in ds
    decreases |ds|
  {
    if ds != [] {
      var n := |ds| - 1;
      HitsMembers(g, cols, r, c, ds[..n], q);
      assert ds == ds[..n] + [ds[n]];
    }
  }

  lemma {:induction false} CountIsHits(g: Grid, cols: int, r: int, c: int, ds: seq<(int, int)>)
    requires forall i, j :: 0 <= i < j < |ds| ==> ds[i] != ds[j]
    ensures CountBombs(g, cols, r, c, ds) == |Hits(g, cols, r, c, ds)|
    decreases |ds|
  {
    if ds != [] {
      var n := |ds| - 1;
      var p := ds[..n];
      CountIsHits(g, cols, r, c, p);
      var last := (r + ds[n].0, c + ds[n].1);
      HitsMembers(g, cols, r, c, p, last);
      assert (last.0 - r, last.1 - c) == ds[n];
      assert ds[n] !in p;
    }
  }

  /** `Directions` lists each of the eight neighbour offsets exactly once. */
  lemma DirectionsAreNeighbourOffsets()
    ensures forall i, j :: 0 <= i < j < |Directions| ==> Directions[i] != Directions[j]
    ensures forall dr, dc :: (dr, dc) in Directions <==> -1 <= dr <= 1 && -1 <= dc <= 1 && (dr, dc) != (0, 0)
  {
  }

  /**
   * The count the scan computes is exactly the number of bomb cells among
   * the in-bounds 8-neighbours.
   */
  lemma NeighbourCountIsCardinality(g: Grid, cols: int, r: int, c: int)
    ensures CountBombs(g, cols, r, c, Directions) == |BombNeighbours(g, cols, r, c)|
  {
    DirectionsAreNeighbourOffsets();
    CountIsHits(g, cols, r, c, Directions);
    var hs := Hits(g, cols, r, c, Directions);
    var bs := BombNeighbours(g, cols, r, c);
    forall q ensures q in hs <==> q in bs {
      HitsMembers(g, cols, r, c, Directions, q);
    }
    assert hs == bs;
  }

  /** A safe cell's count is its number of bomb neighbours, so it is in 0..8. */
  lemma SafeCountBounds(g: Grid, cols: int, r: int, c: int)
    requires InGrid(g, r, c) && g[r][c].event != Bomb
    ensures MinesAt(g, cols, r, c) == |BombNeighbours(g, cols, r, c)|
    ensures 0 <= MinesAt(g, cols, r, c) <= 8
  {
    NeighbourCountIsCardinality(g, cols, r, c);
  }

  /**
   * The board invariant the game keeps from the moment the board is built:
   * rows x cols cells, each at its own position, each count agreeing with
   * the event layout.
   */
  ghost predicate WellFormed(g: Grid, rows: int, cols: int) {
    && |g| == rows
    && (forall r :: 0 <= r < |g| ==> |g[r]| == cols)
    && (forall r, c :: InGrid(g, r, c) ==>
          g[r][c].x == r && g[r][c].y == c && g[r][c].neighborMines == MinesAt(g, cols, r, c))
  }

  /** Same layout, and every cell keeps its position and count: only the flags may differ. */
  ghost predicate SameBoard(g: Grid, h: Grid) {
    && SameLayout(g, h)
    && (forall r, c :: InGrid(g, r, c) ==>
          h[r][c].x == g[r][c].x && h[r][c].y == g[r][c].y && h[r][c].neighborMines == g[r][c].neighborMines)
  }

  /** Changing only the revealed and flagged marks keeps the board invariant. */
  lemma WellFormedKept(g: Grid, h: Grid, rows: int, cols: int)
    requires WellFormed(g, rows, cols) && SameBoard(g, h)
    ensures WellFormed(h, rows, cols)
  {
    forall r, c | InGrid(h, r, c) ensures h[r][c].neighborMines == MinesAt(h, cols, r, c) {
      MinesAtLayout(g, h, cols, r, c);
    }
  }
}
