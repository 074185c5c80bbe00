/** The toroidal board of the Life engine: cells, the wrap-around index
    arithmetic, and the number of live neighbours of a cell. */
module Torus {

  /** A board as rows of cells: `g[y][x]` is the cell in row `y`, column `x`. */
  type Grid = seq<seq<bool>>

  /** `g` has exactly `rows` rows of `cols` cells each. */
  predicate IsGrid(g: Grid, rows: nat, cols: nat) {
    |g| == rows && forall y :: 0 <= y < rows ==> |g[y]| == cols
  }

  /** The all-dead board of the given size. */
  function DeadGrid(rows: nat, cols: nat): (g: Grid)
    ensures IsGrid(g, rows, cols)
    ensures forall y, x :: 0 <= y < rows && 0 <= x < cols ==> !g[y][x]
  {
    seq(rows, _ => seq(cols, _ => false))
  }

  /** Two boards of the same size that agree on every cell are equal. */
  lemma SameCells(g: Grid, h: Grid, rows: nat, cols: nat)
    requires IsGrid(g, rows, cols) && IsGrid(h, rows, cols)
    requires forall y, x :: 0 <= y < rows && 0 <= x < cols ==> g[y][x] == h[y][x]
    ensures g == h
  {
    forall y | 0 <= y < rows
      ensures g[y] == h[y]
    {
      assert forall x :: 0 <= x < cols ==> g[y][x] == h[y][x];
    }
  }

  /** Division truncated toward zero, the quotient behind JavaScript's `%`:
      `n * q` is the multiple of `n` nearest to `a` on the side of zero. */
  function JsQuot(a: int, n: int): (q: int)
    requires n > 0
    ensures a >= 0 ==> n * q <= a < n * q + n
    ensures a < 0 ==> n * q - n < a <= n * q
  {
    if a >= 0 then a / n else -((-a) / n)
  }

  /** JavaScript's `%` operator: the remainder takes the sign of the dividend
      and is what is left after taking away the truncated quotient, whereas
      Dafny's own `%` never yields a negative remainder. */
  function JsRem(a: int, n: int): (r: int)
    requires n > 0
    ensures a >= 0 ==> 0 <= r < n
    ensures a < 0 ==> -n < r <= 0
    ensures a == n * JsQuot(a, n) + r
  {
    if a >= 0 then a % n else -((-a) % n)
  }

  /** On the interval [0, 2n] the remainder is a subtraction of 0, n or 2n. */
  lemma RemSmall(a: int, n: int)
    requires 0 < n && 0 <= a <= 2 * n
    ensures JsRem(a, n) == if a < n then a else if a < 2 * n then a - n else 0
  {
  }

  /** The coordinate one step `d` away from `i` on a ring of `n` cells: a step
      off either edge comes back in on the opposite edge, every other step is
      plain addition. */
  function Wrap(i: int, d: int, n: nat): (r: nat)
    requires 0 <= i < n && -1 <= d <= 1
    ensures r < n
  {
    if i + d < 0 then n - 1 else if i + d == n then 0 else i + d
  }

  /** The engine computes the wrapped coordinate as `(i + d + n) % n`, with
      JavaScript's `%`; that is exactly the wrap-around step. */
  lemma WrapIsJsRem(i: int, d: int, n: nat)
    requires 0 <= i < n && -1 <= d <= 1
    ensures JsRem(i + d + n, n) == Wrap(i, d, n)
  {
    RemSmall(i + d + n, n);
  }

  /** Whether the cell one step (dx, dy) away from (x, y), wrapping at the
      edges, is alive; away from the edges it is the plain offset cell. */
  predicate Neighbor(g: Grid, rows: nat, cols: nat, x: int, y: int, dx: int, dy: int)
    requires IsGrid(g, rows, cols) && 0 <= x < cols && 0 <= y < rows
    requires -1 <= dx <= 1 && -1 <= dy <= 1
    ensures 0 <= x + dx < cols && 0 <= y + dy < rows ==>
      (Neighbor(g, rows, cols, x, y, dx, dy) <==> g[y + dy][x + dx])
  {
    g[Wrap(y, dy, rows)][Wrap(x, dx, cols)]
  }

  /** The neighbour is the very cell the engine reads, `grid[ny][nx]` with
      `nx = (x + dx + cols) % cols` and `ny = (y + dy + rows) % rows`. */
  lemma NeighborIsJsRead(g: Grid, rows: nat, cols: nat, x: int, y: int, dx: int, dy: int)
    requires IsGrid(g, rows, cols) && 0 <= x < cols && 0 <= y < rows
    requires -1 <= dx <= 1 && -1 <= dy <= 1
    ensures Neighbor(g, rows, cols, x, y, dx, dy) ==
      g[JsRem(y + dy + rows, rows)][JsRem(x + dx + cols, cols)]
  {
    WrapIsJsRem(y, dy, rows);
    WrapIsJsRem(x, dx, cols);
  }

  /** What step (dx, dy) adds to the count: nothing for the centre (0, 0),
      which is the cell itself and is skipped, and one for any other step
      that reaches a live cell. */
  function Seen(g: Grid, rows: nat, cols: nat, x: int, y: int, dx: int, dy: int): (n: nat)
    requires IsGrid(g, rows, cols) && 0 <= x < cols && 0 <= y < rows
    requires -1 <= dx <= 1 && -1 <= dy <= 1
    ensures n <= 1
  {
    if dx == 0 && dy == 0 then 0 else if Neighbor(g, rows, cols, x, y, dx, dy) then 1 else 0
  }

  /** What the steps (-1, dy), ..., (end - 1, dy) of one row of the 3x3
      window see together: the count the engine's inner loop has added for
      row `dy` once `dx` has reached `end`. */
  function RowTally(g: Grid, rows: nat, cols: nat, x: int, y: int, dy: int, end: int): (n: nat)
    requires IsGrid(g, rows, cols) && 0 <= x < cols && 0 <= y < rows
    requires -1 <= dy <= 1 && -1 <= end <= 2
  {
    (if end >= 0 then Seen(g, rows, cols, x, y, -1, dy) else 0) +
    (if end >= 1 then Seen(g, rows, cols, x, y, 0, dy) else 0) +
    (if end >= 2 then Seen(g, rows, cols, x, y, 1, dy) else 0)
  }

  /** What the whole rows -1, ..., end - 1 of the window see together: the
      count once the engine's outer loop has reached `dy == end`. */
  function Tally(g: Grid, rows: nat, cols: nat, x: int, y: int, end: int): (n: nat)
    requires IsGrid(g, rows, cols) && 0 <= x < cols && 0 <= y < rows
    requires -1 <= end <= 2
  {
    (if end >= 0 then RowTally(g, rows, cols, x, y, -1, 2) else 0) +
    (if end >= 1 then RowTally(g, rows, cols, x, y, 0, 2) else 0) +
    (if end >= 2 then RowTally(g, rows, cols, x, y, 1, 2) else 0)
  }

  /** The number of live cells the eight steps around (x, y) reach, wrapping
      at the edges: one per step, so at most eight. The centre step is
      skipped, but on a board one row or one column wide some of the other
      steps wrap back onto the cell itself, and it is then counted. */
  function NeighborCount(g: Grid, rows: nat, cols: nat, x: int, y: int): (n: nat)
    requires IsGrid(g, rows, cols) && 0 <= x < cols && 0 <= y < rows
    ensures n <= 8
  {
    Tally(g, rows, cols, x, y, 2)
  }

  /** A cell has no live neighbour exactly when none of the eight cells around
      it, wrapped onto the board, is alive. */
  lemma NoLiveNeighbors(g: Grid, rows: nat, cols: nat, x: int, y: int)
    requires IsGrid(g, rows, cols) && 0 <= x < cols && 0 <= y < rows
    ensures NeighborCount(g, rows, cols, x, y) == 0 <==>
      forall dx, dy :: -1 <= dx <= 1 && -1 <= dy <= 1 && (dx, dy) != (0, 0) ==>
        !Neighbor(g, rows, cols, x, y, dx, dy)
  {
  }

  /** A cell has eight live neighbours exactly when all eight cells around
      it, wrapped onto the board, are alive. */
  lemma AllLiveNeighbors(g: Grid, rows: nat, cols: nat, x: int, y: int)
    requires IsGrid(g, rows, cols) && 0 <= x < cols && 0 <= y < rows
    ensures NeighborCount(g, rows, cols, x, y) == 8 <==>
      forall dx, dy :: -1 <= dx <= 1 && -1 <= dy <= 1 && (dx, dy) != (0, 0) ==>
        Neighbor(g, rows, cols, x, y, dx, dy)
  {
  }

  /** Toroidal wrap at a corner: the top-left cell counts three cells across
      the wrapped edges as neighbours, the bottom-right corner
      (rows - 1, cols - 1), the bottom-left corner (rows - 1, 0) and the
      top-right corner (0, cols - 1). */
  lemma CornerSeesOppositeEdges(g: Grid, rows: nat, cols: nat)
    requires IsGrid(g, rows, cols) && rows > 0 && cols > 0
    ensures g[rows - 1][cols - 1] || g[rows - 1][0] || g[0][cols - 1] ==>
      NeighborCount(g, rows, cols, 0, 0) > 0
  {
    NoLiveNeighbors(g, rows, cols, 0, 0);
    assert Neighbor(g, rows, cols, 0, 0, -1, -1) == g[rows - 1][cols - 1];
    assert Neighbor(g, rows, cols, 0, 0, 0, -1) == g[rows - 1][0];
    assert Neighbor(g, rows, cols, 0, 0, -1, 0) == g[0][cols - 1];
  }
}
