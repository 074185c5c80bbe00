/** Conway's B3/S23 rule and one generation of the whole board. */
module Conway {
  import opened Torus

  /** The next state of a cell that is `alive` now and has `n` live
      neighbours: a live cell survives with 2 or 3, a dead cell is born
      with exactly 3, every other cell is dead next. Put shortly: a cell with
      3 live neighbours is alive next whatever its state, one with 2 keeps
      its state, and every other cell dies. */
  predicate NextCell(alive: bool, n: nat)
    ensures NextCell(alive, n) <==> n == 3 || (alive && n == 2)
  {
    (alive && (n == 2 || n == 3)) || (!alive && n == 3)
  }

  /** The next generation: every cell is decided from the board as it was,
      none from a cell already updated in the same step. */
  function NextGen(g: Grid, rows: nat, cols: nat): (h: Grid)
    requires IsGrid(g, rows, cols)
    ensures IsGrid(h, rows, cols)
    ensures forall y, x {:trigger h[y][x]} :: 0 <= y < rows && 0 <= x < cols ==>
      h[y][x] == NextCell(g[y][x], NeighborCount(g, rows, cols, x, y))
  {
    seq(rows, y requires 0 <= y < rows =>
      seq(cols, x requires 0 <= x < cols =>
        NextCell(g[y][x], NeighborCount(g, rows, cols, x, y))))
  }

  /** An all-dead board stays all dead: no cell has a live neighbour, so
      none is born. */
  lemma DeadGridIsFixedPoint(rows: nat, cols: nat)
    ensures NextGen(DeadGrid(rows, cols), rows, cols) == DeadGrid(rows, cols)
  {
    var g := DeadGrid(rows, cols);
    forall y, x | 0 <= y < rows && 0 <= x < cols
      ensures NeighborCount(g, rows, cols, x, y) == 0
    {
      NoLiveNeighbors(g, rows, cols, x, y);
    }
    SameCells(NextGen(g, rows, cols), g, rows, cols);
  }

  /** On a board of at least 2 x 2 cells no step but the centre leads back to
      the cell itself, so a cell that is the only live one on the board has no
      live neighbour and dies. (On a single row the steps straight up and down
      both wrap back to the cell itself.) */
  lemma LoneCellDies(g: Grid, rows: nat, cols: nat, x: int, y: int)
    requires IsGrid(g, rows, cols) && rows >= 2 && cols >= 2
    requires 0 <= x < cols && 0 <= y < rows
    requires forall v, u :: 0 <= v < rows && 0 <= u < cols ==> (g[v][u] <==> v == y && u == x)
    ensures g[y][x] && !NextGen(g, rows, cols)[y][x]
  {
    forall dx, dy | -1 <= dx <= 1 && -1 <= dy <= 1 && (dx, dy) != (0, 0)
      ensures !Neighbor(g, rows, cols, x, y, dx, dy)
    {
      assert Wrap(y, dy, rows) != y || Wrap(x, dx, cols) != x;
    }
    NoLiveNeighbors(g, rows, cols, x, y);
  }

  /** A lone cell on a single row of at least three cells survives, since the
      steps straight up and straight down both wrap back onto it. */
  lemma LoneCellOnOneRowSurvives(g: Grid, cols: nat, x: int)
    requires IsGrid(g, 1, cols) && cols >= 3 && 0 <= x < cols
    requires forall u :: 0 <= u < cols ==> (g[0][u] <==> u == x)
    ensures NeighborCount(g, 1, cols, x, 0) == 2
    ensures NextGen(g, 1, cols)[0][x]
  {
    assert Wrap(x, -1, cols) != x && Wrap(x, 1, cols) != x;
  }

  /** A blinker on a 5 x 5 board: three live cells through the centre,
      standing upright when `vertical` holds and lying flat otherwise. */
  function Blinker(vertical: bool): (g: Grid)
    ensures IsGrid(g, 5, 5)
  {
    var o, l := false, true;
    if vertical then
      [[o, o, o, o, o],
       [o, o, l, o, o],
       [o, o, l, o, o],
       [o, o, l, o, o],
       [o, o, o, o, o]]
    else
      [[o, o, o, o, o],
       [o, o, o, o, o],
       [o, l, l, l, o],
       [o, o, o, o, o],
       [o, o, o, o, o]]
  }

  /** Row `y` of the next board is row `y` of `b` when every cell of that
      row of `b` is what the rule makes of the matching cell of `a` and its
      neighbours. */
  lemma StepsRow(a: Grid, b: Grid, rows: nat, cols: nat, y: int)
    requires IsGrid(a, rows, cols) && IsGrid(b, rows, cols) && 0 <= y < rows
    requires forall x :: 0 <= x < cols ==>
      NextCell(a[y][x], NeighborCount(a, rows, cols, x, y)) == b[y][x]
    ensures NextGen(a, rows, cols)[y] == b[y]
  {
    var h := NextGen(a, rows, cols);
    assert forall x :: 0 <= x < cols ==> h[y][x] == b[y][x];
  }

  /** Row 0 of the upright blinker steps to row 0 of the flat one. */
  lemma UprightStepsRow0()
    ensures NextGen(Blinker(true), 5, 5)[0] == Blinker(false)[0]
  {
    var a, b := Blinker(true), Blinker(false);
    assert NextCell(a[0][0], NeighborCount(a, 5, 5, 0, 0)) == b[0][0];
    assert NextCell(a[0][1], NeighborCount(a, 5, 5, 1, 0)) == b[0][1];
    assert NextCell(a[0][2], NeighborCount(a, 5, 5, 2, 0)) == b[0][2];
    assert NextCell(a[0][3], NeighborCount(a, 5, 5, 3, 0)) == b[0][3];
    assert NextCell(a[0][4], NeighborCount(a, 5, 5, 4, 0)) == b[0][4];
    StepsRow(a, b, 5, 5, 0);
  }

  /** Row 1 of the upright blinker steps to row 1 of the flat one. */
  lemma UprightStepsRow1()
    ensures NextGen(Blinker(true), 5, 5)[1] == Blinker(false)[1]
  {
    var a, b := Blinker(true), Blinker(false);
    assert NextCell(a[1][0], NeighborCount(a, 5, 5, 0, 1)) == b[1][0];
    assert NextCell(a[1][1], NeighborCount(a, 5, 5, 1, 1)) == b[1][1];
    assert NextCell(a[1][2], NeighborCount(a, 5, 5, 2, 1)) == b[1][2];
    assert NextCell(a[1][3], NeighborCount(a, 5, 5, 3, 1)) == b[1][3];
    assert NextCell(a[1][4], NeighborCount(a, 5, 5, 4, 1)) == b[1][4];
    StepsRow(a, b, 5, 5, 1);
  }

  /** Row 2 of the upright blinker steps to row 2 of the flat one. */
  lemma UprightStepsRow2()
    ensures NextGen(Blinker(true), 5, 5)[2] == Blinker(false)[2]
  {
    var a, b := Blinker(true), Blinker(false);
    assert NextCell(a[2][0], NeighborCount(a, 5, 5, 0, 2)) == b[2][0];
    assert NextCell(a[2][1], NeighborCount(a, 5, 5, 1, 2)) == b[2][1];
    assert NextCell(a[2][2], NeighborCount(a, 5, 5, 2, 2)) == b[2][2];
    assert NextCell(a[2][3], NeighborCount(a, 5, 5, 3, 2)) == b[2][3];
    assert NextCell(a[2][4], NeighborCount(a, 5, 5, 4, 2)) == b[2][4];
    StepsRow(a, b, 5, 5, 2);
  }

  /** Row 3 of the upright blinker steps to row 3 of the flat one. */
  lemma UprightStepsRow3()
    ensures NextGen(Blinker(true), 5, 5)[3] == Blinker(false)[3]
  {
    var a, b := Blinker(true), Blinker(false);
    assert NextCell(a[3][0], NeighborCount(a, 5, 5, 0, 3)) == b[3][0];
    assert NextCell(a[3][1], NeighborCount(a, 5, 5, 1, 3)) == b[3][1];
    assert NextCell(a[3][2], NeighborCount(a, 5, 5, 2, 3)) == b[3][2];
    assert NextCell(a[3][3], NeighborCount(a, 5, 5, 3, 3)) == b[3][3];
    assert NextCell(a[3][4], NeighborCount(a, 5, 5, 4, 3)) == b[3][4];
    StepsRow(a, b, 5, 5, 3);
  }

  /** Row 4 of the upright blinker steps to row 4 of the flat one. */
  lemma UprightStepsRow4()
    ensures NextGen(Blinker(true), 5, 5)[4] == Blinker(false)[4]
  {
    var a, b := Blinker(true), Blinker(false);
    assert NextCell(a[4][0], NeighborCount(a, 5, 5, 0, 4)) == b[4][0];
    assert NextCell(a[4][1], NeighborCount(a, 5, 5, 1, 4)) == b[4][1];
    assert NextCell(a[4][2], NeighborCount(a, 5, 5, 2, 4)) == b[4][2];
    assert NextCell(a[4][3], NeighborCount(a, 5, 5, 3, 4)) == b[4][3];
    assert NextCell(a[4][4], NeighborCount(a, 5, 5, 4, 4)) == b[4][4];
    StepsRow(a, b, 5, 5, 4);
  }

  /** Row 0 of the flat blinker steps to row 0 of the upright one. */
  lemma FlatStepsRow0()
    ensures NextGen(Blinker(false), 5, 5)[0] == Blinker(true)[0]
  {
    var a, b := Blinker(false), Blinker(true);
    assert NextCell(a[0][0], NeighborCount(a, 5, 5, 0, 0)) == b[0][0];
    assert NextCell(a[0][1], NeighborCount(a, 5, 5, 1, 0)) == b[0][1];
    assert NextCell(a[0][2], NeighborCount(a, 5, 5, 2, 0)) == b[0][2];
    assert NextCell(a[0][3], NeighborCount(a, 5, 5, 3, 0)) == b[0][3];
    assert NextCell(a[0][4], NeighborCount(a, 5, 5, 4, 0)) == b[0][4];
    StepsRow(a, b, 5, 5, 0);
  }

  /** Row 1 of the flat blinker steps to row 1 of the upright one. */
  lemma FlatStepsRow1()
    ensures NextGen(Blinker(false), 5, 5)[1] == Blinker(true)[1]
  {
    var a, b := Blinker(false), Blinker(true);
    assert NextCell(a[1][0], NeighborCount(a, 5, 5, 0, 1)) == b[1][0];
    assert NextCell(a[1][1], NeighborCount(a, 5, 5, 1, 1)) == b[1][1];
    assert NextCell(a[1][2], NeighborCount(a, 5, 5, 2, 1)) == b[1][2];
    assert NextCell(a[1][3], NeighborCount(a, 5, 5, 3, 1)) == b[1][3];
    assert NextCell(a[1][4], NeighborCount(a, 5, 5, 4, 1)) == b[1][4];
    StepsRow(a, b, 5, 5, 1);
  }

  /** Row 2 of the flat blinker steps to row 2 of the upright one. */
  lemma FlatStepsRow2()
    ensures NextGen(Blinker(false), 5, 5)[2] == Blinker(true)[2]
  {
    var a, b := Blinker(false), Blinker(true);
    assert NextCell(a[2][0], NeighborCount(a, 5, 5, 0, 2)) == b[2][0];
    assert NextCell(a[2][1], NeighborCount(a, 5, 5, 1, 2)) == b[2][1];
    assert NextCell(a[2][2], NeighborCount(a, 5, 5, 2, 2)) == b[2][2];
    assert NextCell(a[2][3], NeighborCount(a, 5, 5, 3, 2)) == b[2][3];
    assert NextCell(a[2][4], NeighborCount(a, 5, 5, 4, 2)) == b[2][4];
    StepsRow(a, b, 5, 5, 2);
  }

  /** Row 3 of the flat blinker steps to row 3 of the upright one. */
  lemma FlatStepsRow3()
    ensures NextGen(Blinker(false), 5, 5)[3] == Blinker(true)[3]
  {
    var a, b := Blinker(false), Blinker(true);
    assert NextCell(a[3][0], NeighborCount(a, 5, 5, 0, 3)) == b[3][0];
    assert NextCell(a[3][1], NeighborCount(a, 5, 5, 1, 3)) == b[3][1];
    assert NextCell(a[3][2], NeighborCount(a, 5, 5, 2, 3)) == b[3][2];
    assert NextCell(a[3][3], NeighborCount(a, 5, 5, 3, 3)) == b[3][3];
    assert NextCell(a[3][4], NeighborCount(a, 5, 5, 4, 3)) == b[3][4];
    StepsRow(a, b, 5, 5, 3);
  }

  /** Row 4 of the flat blinker steps to row 4 of the upright one. */
  lemma FlatStepsRow4()
    ensures NextGen(Blinker(false), 5, 5)[4] == Blinker(true)[4]
  {
    var a, b := Blinker(false), Blinker(true);
    assert NextCell(a[4][0], NeighborCount(a, 5, 5, 0, 4)) == b[4][0];
    assert NextCell(a[4][1], NeighborCount(a, 5, 5, 1, 4)) == b[4][1];
    assert NextCell(a[4][2], NeighborCount(a, 5, 5, 2, 4)) == b[4][2];
    assert NextCell(a[4][3], NeighborCount(a, 5, 5, 3, 4)) == b[4][3];
    assert NextCell(a[4][4], NeighborCount(a, 5, 5, 4, 4)) == b[4][4];
    StepsRow(a, b, 5, 5, 4);
  }

  /** Two boards of five rows are equal when each row is. */
  lemma SameFiveRows(g: Grid, h: Grid)
    requires |g| == 5 && |h| == 5
    requires g[0] == h[0] && g[1] == h[1] && g[2] == h[2] && g[3] == h[3] && g[4] == h[4]
    ensures g == h
  {
  }

  /** The upright blinker steps to the flat one. */
  lemma UprightStepsToFlat()
    ensures NextGen(Blinker(true), 5, 5) == Blinker(false)
  {
    UprightStepsRow0();
    UprightStepsRow1();
    UprightStepsRow2();
    UprightStepsRow3();
    UprightStepsRow4();
    SameFiveRows(NextGen(Blinker(true), 5, 5), Blinker(false));
  }

  /** The flat blinker steps to the upright one. */
  lemma FlatStepsToUpright()
    ensures NextGen(Blinker(false), 5, 5) == Blinker(true)
  {
    FlatStepsRow0();
    FlatStepsRow1();
    FlatStepsRow2();
    FlatStepsRow3();
    FlatStepsRow4();
    SameFiveRows(NextGen(Blinker(false), 5, 5), Blinker(true));
  }

  /** The blinker oscillates with period 2: upright it steps to flat, flat it
      steps back to upright, and the two boards differ. */
  lemma BlinkerOscillates()
    ensures NextGen(Blinker(true), 5, 5) == Blinker(false)
    ensures NextGen(Blinker(false), 5, 5) == Blinker(true)
    ensures Blinker(true) != Blinker(false)
  {
    UprightStepsToFlat();
    FlatStepsToUpright();
    assert Blinker(true)[1][2] != Blinker(false)[1][2];
  }
}
