/** The Life engine object: a fixed rows x cols board, stepped one generation
    at a time and seeded by the preset patterns or at random. */
module Engine {
  import opened Torus
  import opened Conway
  import opened Patterns

  class Game {
    const rows: nat
    const cols: nat
    /** Pixel pitch of a cell on screen; only the renderer reads it. */
    const cellSize: int
    /** The board: `grid[y][x]` is the cell in row `y`, column `x`. The engine
        replaces it wholesale (update, randomize) or sets single cells alive
        (the preset patterns). */
    var grid: Grid
    /** Whether the driver's timer is stepping the board; the engine itself
        never reads it. */
    var isRunning: bool

    /** The board always has the dimensions the game was built with. */
    ghost predicate Valid()
      reads this
    {
      IsGrid(grid, rows, cols)
    }

    /** A game of the given size starts all dead and not running. */
    constructor (rows: nat, cols: nat, cellSize: int)
      ensures this.rows == rows && this.cols == cols && this.cellSize == cellSize
      ensures Valid()
      ensures forall y, x :: 0 <= y < rows && 0 <= x < cols ==> !grid[y][x]
      ensures !isRunning
    {
      this.rows := rows;
      this.cols := cols;
      this.cellSize := cellSize;
      grid := DeadGrid(rows, cols);
      isRunning := false;
    }

    /** A board of the game's size with every cell dead. */
    function CreateEmptyGrid(): (g: Grid)
      ensures IsGrid(g, rows, cols)
      ensures forall y, x :: 0 <= y < rows && 0 <= x < cols ==> !g[y][x]
    {
      DeadGrid(rows, cols)
    }

    /** Replaces every cell of the board, row by row, by the draw for its
        position; the board keeps its shape. */
    method Randomize(draw: (nat, nat) -> bool)
      requires Valid()
      modifies this
      ensures Valid()
      ensures forall y, x :: 0 <= y < rows && 0 <= x < cols ==> grid[y][x] == draw(y, x)
      ensures isRunning == old(isRunning)
    {
      grid := seq(|grid|, (y: int) requires 0 <= y < |grid| reads this =>
        seq(|grid[y]|, (x: int) requires 0 <= x => draw(y, x)));
    }

    /** The number of live cells among the eight neighbours of (x, y),
        wrapping around the edges of the board. */
    method CountNeighbors(x: int, y: int) returns (count: nat)
      requires Valid() && 0 <= x < cols && 0 <= y < rows
      ensures count == NeighborCount(grid, rows, cols, x, y)
    {
      count := 0;
      var dy := -1;
      while dy <= 1
        invariant -1 <= dy <= 2
        invariant count == Tally(grid, rows, cols, x, y, dy)
      {
        var dx := -1;
        while dx <= 1
          invariant -1 <= dx <= 2
          invariant count == Tally(grid, rows, cols, x, y, dy) + RowTally(grid, rows, cols, x, y, dy, dx)
        {
          if !(dx == 0 && dy == 0) {
            var nx := JsRem(x + dx + cols, cols);
            var ny := JsRem(y + dy + rows, rows);
            WrapIsJsRem(x, dx, cols);
            WrapIsJsRem(y, dy, rows);
            if grid[ny][nx] {
              count := count + 1;
            }
          }
          dx := dx + 1;
        }
        dy := dy + 1;
      }
    }

    /** Advances the board one generation: every cell of a fresh board is
        decided from the current board, then the fresh board replaces it. */
    method Update()
      requires Valid()
      modifies this
      ensures Valid()
      ensures grid == NextGen(old(grid), rows, cols)
      ensures isRunning == old(isRunning)
    {
      var newGrid := CreateEmptyGrid();
      var y := 0;
      while y < rows
        invariant 0 <= y <= rows
        invariant grid == old(grid) && isRunning == old(isRunning)
        invariant IsGrid(newGrid, rows, cols)
        invariant forall v, u {:trigger newGrid[v][u]} :: 0 <= v < y && 0 <= u < cols ==>
          newGrid[v][u] == NextCell(grid[v][u], NeighborCount(grid, rows, cols, u, v))
      {
        var x := 0;
        while x < cols
          invariant 0 <= x <= cols
          invariant grid == old(grid) && isRunning == old(isRunning)
          invariant IsGrid(newGrid, rows, cols)
          invariant forall v, u {:trigger newGrid[v][u]} :: 0 <= v < y && 0 <= u < cols ==>
            newGrid[v][u] == NextCell(grid[v][u], NeighborCount(grid, rows, cols, u, v))
          invariant forall u {:trigger newGrid[y][u]} :: 0 <= u < x ==>
            newGrid[y][u] == NextCell(grid[y][u], NeighborCount(grid, rows, cols, u, y))
        {
          var neighbors := CountNeighbors(x, y);
          var isAlive := grid[y][x];
          newGrid := newGrid[y := newGrid[y][x := (isAlive && (neighbors == 2 || neighbors == 3)) ||
                                                 (!isAlive && neighbors == 3)]];
          x := x + 1;
        }
        y := y + 1;
      }
      SameCells(newGrid, NextGen(grid, rows, cols), rows, cols);
      grid := newGrid;
    }

    /** Sets the cells of `pattern`, shifted by (offsetX, offsetY), alive, one
        table entry after the other; nothing is cleared first. */
    method Stamp(pattern: Pattern, offsetX: int, offsetY: int)
      requires Valid() && FitsAt(pattern, offsetX, offsetY, rows, cols)
      modifies this
      ensures Valid()
      ensures grid == Stamped(old(grid), rows, cols, pattern, offsetX, offsetY)
      ensures AddsExactly(old(grid), grid, rows, cols, pattern, offsetX, offsetY)
      ensures isRunning == old(isRunning)
    {
      var i := 0;
      while i < |pattern|
        invariant 0 <= i <= |pattern|
        invariant isRunning == old(isRunning)
        invariant grid == Stamped(old(grid), rows, cols, pattern[..i], offsetX, offsetY)
      {
        var (x, y) := pattern[i];
        assert pattern[..i + 1][..i] == pattern[..i];
        grid := grid[y + offsetY := grid[y + offsetY][x + offsetX := true]];
        i := i + 1;
      }
      assert pattern[..i] == pattern;
      StampedCells(old(grid), rows, cols, pattern, offsetX, offsetY);
    }

    /** Stamps Gosper's glider gun at half the board less 7 on each axis; the
        board must be large enough for all 36 cells to land on it. */
    method DrawGliderGun()
      requires Valid() && rows >= 12 && cols >= 61
      modifies this
      ensures Valid() && FitsAt(GliderGun, cols / 2 - 7, rows / 2 - 7, rows, cols)
      ensures grid == Stamped(old(grid), rows, cols, GliderGun, cols / 2 - 7, rows / 2 - 7)
      ensures AddsExactly(old(grid), grid, rows, cols, GliderGun, cols / 2 - 7, rows / 2 - 7)
      ensures isRunning == old(isRunning)
    {
      GliderGunFits(rows, cols);
      Stamp(GliderGun, cols / 2 - 7, rows / 2 - 7);
    }

    /** Stamps the pulsar at half the board less 7 on each axis; the board
        must be large enough for all 48 cells to land on it. */
    method DrawPulsar()
      requires Valid() && rows >= 15 && cols >= 15
      modifies this
      ensures Valid() && FitsAt(Pulsar, cols / 2 - 7, rows / 2 - 7, rows, cols)
      ensures grid == Stamped(old(grid), rows, cols, Pulsar, cols / 2 - 7, rows / 2 - 7)
      ensures AddsExactly(old(grid), grid, rows, cols, Pulsar, cols / 2 - 7, rows / 2 - 7)
      ensures isRunning == old(isRunning)
    {
      PulsarFits(rows, cols);
      Stamp(Pulsar, cols / 2 - 7, rows / 2 - 7);
    }

    /** Stamps the pentadecathlon at half the board less 5 columns and less 1
        row; the board must be large enough for all 12 cells to land on it. */
    method DrawPentaDecathlon()
      requires Valid() && rows >= 3 && cols >= 11
      modifies this
      ensures Valid() && FitsAt(PentaDecathlon, cols / 2 - 5, rows / 2 - 1, rows, cols)
      ensures grid == Stamped(old(grid), rows, cols, PentaDecathlon, cols / 2 - 5, rows / 2 - 1)
      ensures AddsExactly(old(grid), grid, rows, cols, PentaDecathlon, cols / 2 - 5, rows / 2 - 1)
      ensures isRunning == old(isRunning)
    {
      PentaDecathlonFits(rows, cols);
      Stamp(PentaDecathlon, cols / 2 - 5, rows / 2 - 1);
    }
  }

  /** The board the page builds, 130 rows by 250 columns, is large enough for
      every preset pattern to land on it. */
  lemma PageBoardFitsPresets()
    ensures FitsAt(GliderGun, 250 / 2 - 7, 130 / 2 - 7, 130, 250)
    ensures FitsAt(Pulsar, 250 / 2 - 7, 130 / 2 - 7, 130, 250)
    ensures FitsAt(PentaDecathlon, 250 / 2 - 5, 130 / 2 - 1, 130, 250)
  {
    GliderGunFits(130, 250);
    PulsarFits(130, 250);
    PentaDecathlonFits(130, 250);
  }
}
