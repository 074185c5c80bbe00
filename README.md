# Game of Life engine, modelled in Dafny

This project models the `Game` class of the browser Game of Life in
`challenge-2/script.js`. The class is the engine behind the page. It keeps a
fixed `rows x cols` board of boolean cells whose edges wrap around, so the
board is a torus. It can:

- start all dead;
- refill the board at random;
- stamp three preset patterns (Gosper's glider gun, the pulsar and the
  pentadecathlon) at a position centred on the board;
- count a cell's eight wrapped neighbours;
- advance the whole board one generation under Conway's B3/S23 rule.

The project has four modules:

- `Torus` (`torus.dfy`) covers the board as rows of cells and JavaScript's
  truncating `%`. It also holds the wrap-around step and the neighbour count.
  The neighbour count is built from partial sums that follow the engine's two
  nested loops over `dy` and `dx`.
- `Conway` (`conway.dfy`) holds the per-cell rule and one generation of the
  whole board, computed from the old board only.
- `Patterns` (`patterns.dfy`) holds the three coordinate tables and stamping.
  It also says exactly when a table placed at its centred offset lands on the
  board.
- `Engine` (`game.dfy`) holds `class Game`. Its `grid` field is a
  `seq<seq<bool>>` that the methods reassign, cell by cell (the patterns) or
  wholesale (update, randomize). Its methods carry the source's loops, and
  each loop is proved against the pure functions above.

## Model

| member | source | states |
|---|---|---|
| Engine.Game.constructor | challenge-2/script.js:2-8 | A new game keeps its dimensions and cell size, has a board of exactly `rows` rows of `cols` cells that are all dead, and is not running |
| Engine.Game.CreateEmptyGrid | challenge-2/script.js:10-12 | The result has exactly `rows` rows of `cols` cells each, every cell dead |
| Torus.DeadGrid | challenge-2/script.js:11 | The all-dead board has the requested dimensions and no live cell |
| Engine.Game.Randomize | challenge-2/script.js:14-18 | The board keeps its dimensions, every cell becomes the random draw for its position, and the running flag is untouched |
| Torus.JsQuot | challenge-2/script.js:83-84 | The quotient behind JavaScript's `%` truncates toward zero: `n * q` is the multiple of `n` nearest to the dividend on the side of zero |
| Torus.JsRem | challenge-2/script.js:83-84 | JavaScript's `%`: the remainder has the dividend's sign, is smaller than the divisor in size, and is what is left after taking away the quotient truncated toward zero |
| Torus.RemSmall | challenge-2/script.js:83-84 | On the range [0, 2n] that the engine's `(i + d + n) % n` can reach, the remainder is the argument less 0, n or 2n |
| Torus.Wrap | challenge-2/script.js:83-84 | A wrapped coordinate always lies on the board |
| Torus.WrapIsJsRem | challenge-2/script.js:83-84 | The engine's `(i + d + n) % n` is the wrap-around step: a step off either edge comes back in on the opposite edge, and every other step is plain addition |
| Torus.Neighbor | challenge-2/script.js:83-85 | Away from the edges, the neighbour one step (dx, dy) away is the plain offset cell `g[y + dy][x + dx]` |
| Torus.NeighborIsJsRead | challenge-2/script.js:83-85 | The neighbour is exactly the cell the engine reads, `grid[(y + dy + rows) % rows][(x + dx + cols) % cols]` with JavaScript's `%` |
| Torus.Seen | challenge-2/script.js:82-85 | Each of the nine steps adds at most one, and the centre step adds nothing |
| Torus.NeighborCount | challenge-2/script.js:78-89 | The neighbour count is never more than 8 |
| Torus.NoLiveNeighbors | challenge-2/script.js:78-89 | The count is 0 exactly when none of the eight wrapped neighbours is alive |
| Torus.AllLiveNeighbors | challenge-2/script.js:78-89 | The count is 8 exactly when all eight wrapped neighbours are alive |
| Torus.CornerSeesOppositeEdges | challenge-2/script.js:83-85 | The top-left cell counts three cells across the wrapped edges as neighbours: the bottom-right corner (rows - 1, cols - 1), the bottom-left corner (rows - 1, 0) and the top-right corner (0, cols - 1). If any of them is alive, its count is positive |
| Engine.Game.CountNeighbors | challenge-2/script.js:78-89 | The nested loop over `dy` and `dx` skips the centre and reads only in-range cells through the truncating `%`. It returns the toroidal neighbour count |
| Conway.NextCell | challenge-2/script.js:97-98 | The engine's rule is B3/S23 in short form: a cell with exactly 3 live neighbours is alive next whatever its state, a cell with exactly 2 keeps its state, and every other cell is dead next |
| Conway.NextGen | challenge-2/script.js:91-102 | The next board has the same dimensions, and each of its cells is alive exactly when the old cell was alive with 2 or 3 live neighbours or dead with exactly 3. Neighbours are counted on the old board |
| Conway.DeadGridIsFixedPoint | challenge-2/script.js:91-102 | An all-dead board steps to an all-dead board |
| Conway.LoneCellDies | challenge-2/script.js:91-102 | On a board of at least 2 x 2 cells, a cell that is the only live one dies in the next step |
| Conway.LoneCellOnOneRowSurvives | challenge-2/script.js:80-85 | On a single row of at least 3 cells, the steps straight up and straight down wrap back onto a lone cell. It therefore counts itself twice and survives |
| Conway.BlinkerOscillates | challenge-2/script.js:91-102 | On a 5 x 5 board, an upright blinker (three live cells in the middle column) steps to a flat one (three live cells in the middle row), and the flat one steps back: the blinker oscillates with period 2 |
| Engine.Game.Update | challenge-2/script.js:91-102 | The board becomes the next generation of the old board, keeps its dimensions, and the running flag is untouched |
| Patterns.GliderGunAscendingTop | challenge-2/script.js:22-25 | The glider gun's first 15 entries, its rows 1 to 4, are listed row by row |
| Patterns.GliderGunAscendingBottom | challenge-2/script.js:25-31 | Its entries from the last one of row 4 on, its rows 4 to 9, are listed row by row |
| Patterns.GliderGunTable | challenge-2/script.js:21-31 | The glider-gun table has 36 different cells, listed row by row, all in columns 2 to 37 of rows 1 to 9 |
| Patterns.PulsarTable | challenge-2/script.js:42-52 | The pulsar table has 48 different cells, all in columns 2 to 14 of rows 2 to 14 |
| Patterns.PulsarVerticalBarsAscending | challenge-2/script.js:42-45 | The pulsar's first 24 entries, its vertical bars, are listed column by column |
| Patterns.PulsarVerticalBarsRows | challenge-2/script.js:42-45 | The vertical bars lie in rows 4 to 6 and 10 to 12 |
| Patterns.PulsarHorizontalBarsAscending | challenge-2/script.js:47-50 | The pulsar's last 24 entries, its horizontal bars, are listed row by row |
| Patterns.PulsarHorizontalBarsRows | challenge-2/script.js:47-50 | The horizontal bars lie in rows 2, 7, 9 and 14, so no horizontal-bar cell is a vertical-bar cell |
| Patterns.PentaDecathlonTable | challenge-2/script.js:64-68 | The pentadecathlon table has 12 different cells, all in columns 1 to 10 of rows 0 to 2 |
| Patterns.Stamped | challenge-2/script.js:36-38 | Stamping a pattern keeps the board's dimensions |
| Patterns.StampedAt | challenge-2/script.js:36-38 | After stamping, a cell is alive exactly when it was alive before or is one of the pattern's shifted cells. Nothing else changes, and no live cell is cleared |
| Patterns.StampedCells | challenge-2/script.js:36-75 | Stamping adds exactly the pattern's shifted cells: it is the StampedAt statement for every cell of the board at once |
| Patterns.StampedOnDeadGrid | challenge-2/script.js:176-192 | On an all-dead board, stamping leaves alive exactly the pattern's shifted cells. This is what each seed button shows: it resets the board, then draws its pattern |
| Patterns.StampIdempotent | challenge-2/script.js:36-38 | Stamping the same pattern at the same place twice is the same as stamping it once |
| Patterns.FitsBox | challenge-2/script.js:37 | A pattern in a bounding box that it touches on all four sides fits on the board exactly when the shifted box does |
| Patterns.GliderGunFits | challenge-2/script.js:21-37 | The glider gun, placed at `floor(cols / 2) - 7`, `floor(rows / 2) - 7`, lands on the board exactly when the board has at least 12 rows and 61 columns |
| Patterns.PulsarFits | challenge-2/script.js:42-58 | The pulsar, placed at the same offset, lands on the board exactly when the board has at least 15 rows and 15 columns |
| Patterns.PentaDecathlonFits | challenge-2/script.js:64-74 | The pentadecathlon, placed at `floor(cols / 2) - 5`, `floor(rows / 2) - 1`, lands on the board exactly when the board has at least 3 rows and 11 columns |
| Engine.Game.Stamp | challenge-2/script.js:36-38 | Setting the table's cells alive one entry after the other yields the stamped board. It adds exactly the pattern's shifted cells, keeps every other cell, clears none, and leaves the running flag untouched |
| Engine.Game.DrawGliderGun | challenge-2/script.js:20-39 | The cells of the 36-entry glider-gun table at the centred offset become alive, every other cell keeps its state, and no cell is cleared |
| Engine.Game.DrawPulsar | challenge-2/script.js:41-60 | The cells of the 48-entry pulsar table at the centred offset become alive, every other cell keeps its state, and no cell is cleared |
| Engine.Game.DrawPentaDecathlon | challenge-2/script.js:63-76 | The cells of the 12-entry pentadecathlon table at the centred offset become alive, every other cell keeps its state, and no cell is cleared |
| Engine.PageBoardFitsPresets | challenge-2/script.js:133 | The 130 x 250 board the page builds is large enough for all three presets to land on it |

## Left out

- The `Renderer` class (challenge-2/script.js:105-130) draws on a browser
  canvas. It only reads the board, and the canvas API is not part of this
  model.
- The page wiring (challenge-2/script.js:132-195) is left out: the timer that
  calls `update`, the speed slider, the buttons and the toggling of
  `isRunning`. Every board button first resets the board to `CreateEmptyGrid()`
  (challenge-2/script.js:165-192):
  - the clear button does nothing more;
  - the random button then calls `randomize`;
  - the three pattern buttons each call their draw method, and
    `Patterns.StampedOnDeadGrid` states what the board then shows.
- Engine.Game.Randomize: `Math.random() > 0.85` is not modelled. The draw for
  each cell is a parameter, so the model does not capture the roughly 15%
  density or the independence of the draws.
- Engine.Game.Stamp, DrawGliderGun, DrawPulsar, DrawPentaDecathlon: these
  require every shifted cell to lie on the board. The source behaves
  differently outside that range:
  - An out-of-range row throws, because the row is `undefined`.
  - A negative column adds a property that is not an array index, so the row
    keeps its length.
  - A column at or past `cols` makes the row longer. On a 12 x 40 board, for
    example, `drawGliderGun` (offset 13, -1) writes columns up to 50, so rows 2
    and 3 grow to 51 cells, with columns 40 to 48 left as holes, and the
    board is no longer `rows x cols`. A later `randomize` keeps each row's
    length, but `map` skips holes, so the holes stay holes
    (challenge-2/script.js:15-16).
  The model cannot represent a board of uneven shape.
  `GliderGunFits`, `PulsarFits` and `PentaDecathlonFits` show that each of
  these requirements is exactly a lower bound on the board's size.
- The three `forEach` loops over the pattern tables share one method,
  `Engine.Game.Stamp`, which each draw method calls with its own table and
  offset.
- Engine.Game.CountNeighbors requires `(x, y)` to lie on the board, which its
  only caller, `update`, guarantees. Off the board, the JavaScript does the
  following:
  - A coordinate past the far edge wraps like any other, and a count comes
    back.
  - A coordinate far enough below zero that `y + dy + rows` (or
    `x + dx + cols`) is negative gets a negative remainder from JavaScript's
    `%`. For example, y = -rows - 1 with dy = 0 gives ny = -1.
  - A negative row index makes `this.grid[ny]` `undefined`, and reading
    `this.grid[ny][nx]` then throws a TypeError (challenge-2/script.js:84-85).
  - A negative column index only reads `undefined`, which counts as dead.
- JavaScript numbers are doubles. All board indices here are small integers,
  so the model uses unbounded integers.
- The source has no way to place a pattern at absolute coordinates: each draw
  method centres its pattern on the board.
- The source does not reject an out-of-range pattern at start-up.
- The glider gun emitting a glider every 30 generations is not proved. It
  needs 30 generations of concrete evaluation on a board of at least 12 x 61
  cells, which is out of reach of the solver's budget here. The blinker's
  period-2 oscillation is proved, on a 5 x 5 board.
- `challenge-1/script.js`, a DOM accordion, is not part of this model.
