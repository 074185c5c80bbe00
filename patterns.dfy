/** The engine's three preset patterns, each a table of (x, y) cells, and
    what stamping one onto the board does. */
module Patterns {
  import opened Torus

  /** A pattern as (x, y) pairs: `x` is the column, `y` the row, both
      relative to the offset the pattern is placed at. */
  type Pattern = seq<(int, int)>

  /** Gosper's glider gun, 36 cells. */
  const GliderGun: Pattern :=
    [(26, 1)] +
    [(24, 2), (26, 2)] +
    [(14, 3), (15, 3), (22, 3), (23, 3), (36, 3), (37, 3)] +
    [(13, 4), (17, 4), (22, 4), (23, 4), (36, 4), (37, 4)] +
    [(2, 5), (3, 5), (12, 5), (18, 5), (22, 5), (23, 5)] +
    [(2, 6), (3, 6), (12, 6), (16, 6), (18, 6), (19, 6), (24, 6), (26, 6)] +
    [(12, 7), (18, 7), (26, 7)] +
    [(13, 8), (17, 8)] +
    [(14, 9), (15, 9)]

  /** The pulsar, a period-3 oscillator of 48 cells. */
  const Pulsar: Pattern :=
    [(2, 4), (2, 5), (2, 6), (2, 10), (2, 11), (2, 12)] +
    [(7, 4), (7, 5), (7, 6), (7, 10), (7, 11), (7, 12)] +
    [(9, 4), (9, 5), (9, 6), (9, 10), (9, 11), (9, 12)] +
    [(14, 4), (14, 5), (14, 6), (14, 10), (14, 11), (14, 12)] +
    [(4, 2), (5, 2), (6, 2), (10, 2), (11, 2), (12, 2)] +
    [(4, 7), (5, 7), (6, 7), (10, 7), (11, 7), (12, 7)] +
    [(4, 9), (5, 9), (6, 9), (10, 9), (11, 9), (12, 9)] +
    [(4, 14), (5, 14), (6, 14), (10, 14), (11, 14), (12, 14)]

  /** The pentadecathlon, a period-15 oscillator of 12 cells. */
  const PentaDecathlon: Pattern :=
    [(3, 0), (8, 0)] +
    [(1, 1), (2, 1), (4, 1), (5, 1), (6, 1), (7, 1), (9, 1), (10, 1)] +
    [(3, 2), (8, 2)]

  /** No cell is listed twice in `p`. */
  predicate Distinct(p: Pattern) {
    DistinctBetween(p, 0, |p|)
  }

  /** No cell occurs twice among `p[lo]`, ..., `p[hi - 1]`. */
  predicate DistinctBetween(p: Pattern, lo: int, hi: int) {
    forall i, j :: 0 <= lo <= i < j < hi <= |p| ==> p[i] != p[j]
  }

  /** Cell `a` comes before cell `b` in row-major order (row first, then
      column), or, when `byColumn` holds, in column-major order (column first,
      then row). */
  predicate Before(a: (int, int), b: (int, int), byColumn: bool) {
    if byColumn then a.0 < b.0 || (a.0 == b.0 && a.1 < b.1)
    else a.1 < b.1 || (a.1 == b.1 && a.0 < b.0)
  }

  /** Each of the cells `p[lo]`, ..., `p[hi - 1]` comes before the next one,
      in row-major order or, when `byColumn` holds, in column-major order. */
  predicate AscendingBetween(p: Pattern, lo: int, hi: int, byColumn: bool) {
    forall i :: lo < i < hi && 0 < i < |p| ==> Before(p[i - 1], p[i], byColumn)
  }

  /** A stretch of a table in ascending order lists no cell twice. */
  lemma {:induction false} AscendingIsDistinct(p: Pattern, lo: int, hi: int, byColumn: bool)
    requires AscendingBetween(p, lo, hi, byColumn)
    ensures DistinctBetween(p, lo, hi)
  {
    forall i, j | 0 <= lo <= i < j < hi <= |p|
      ensures Before(p[i], p[j], byColumn)
    {
      var k := i + 1;
      while k < j
        invariant i < k <= j
        invariant Before(p[i], p[k], byColumn)
      {
        k := k + 1;
      }
    }
  }

  /** Every cell of `p`, shifted by (ox, oy), lies on a rows x cols board. */
  predicate FitsAt(p: Pattern, ox: int, oy: int, rows: nat, cols: nat) {
    forall i :: 0 <= i < |p| ==> 0 <= p[i].0 + ox < cols && 0 <= p[i].1 + oy < rows
  }

  /** Stamping `p` at (ox, oy) onto `g`, one table entry after the other as
      the engine does: each entry's cell is set alive, nothing is cleared. */
  function Stamped(g: Grid, rows: nat, cols: nat, p: Pattern, ox: int, oy: int): (h: Grid)
    requires IsGrid(g, rows, cols) && FitsAt(p, ox, oy, rows, cols)
    ensures IsGrid(h, rows, cols)
    decreases |p|
  {
    if p == [] then g
    else
      var last := |p| - 1;
      assert forall q :: q in p[..last] ==> q in p;
      var h := Stamped(g, rows, cols, p[..last], ox, oy);
      var (x, y) := (p[last].0 + ox, p[last].1 + oy);
      h[y := h[y][x := true]]
  }

  /** After stamping, a cell is alive exactly when it was alive before or is
      one of the pattern's cells: cells outside the pattern keep their state
      and no live cell is cleared. */
  lemma {:induction false} StampedAt(g: Grid, rows: nat, cols: nat, p: Pattern, ox: int, oy: int, x: int, y: int)
    requires IsGrid(g, rows, cols) && FitsAt(p, ox, oy, rows, cols)
    requires 0 <= x < cols && 0 <= y < rows
    ensures Stamped(g, rows, cols, p, ox, oy)[y][x] == (g[y][x] || (x - ox, y - oy) in p)
    decreases |p|
  {
    if p != [] {
      var last := |p| - 1;
      assert p == p[..last] + [p[last]];
      assert forall q :: q in p[..last] ==> q in p;
      StampedAt(g, rows, cols, p[..last], ox, oy, x, y);
    }
  }

  /** `h` is `g` with the cells of `p`, shifted by (ox, oy), set alive: a cell
      of `h` is alive exactly when it was alive in `g` or is one of the
      pattern's cells, so every other cell keeps its state and none is
      cleared. */
  ghost predicate AddsExactly(g: Grid, h: Grid, rows: nat, cols: nat, p: Pattern, ox: int, oy: int)
    requires IsGrid(g, rows, cols) && IsGrid(h, rows, cols)
  {
    forall y, x :: 0 <= y < rows && 0 <= x < cols ==> (h[y][x] <==> g[y][x] || (x - ox, y - oy) in p)
  }

  /** Stamping adds exactly the pattern's cells. */
  lemma StampedCells(g: Grid, rows: nat, cols: nat, p: Pattern, ox: int, oy: int)
    requires IsGrid(g, rows, cols) && FitsAt(p, ox, oy, rows, cols)
    ensures AddsExactly(g, Stamped(g, rows, cols, p, ox, oy), rows, cols, p, ox, oy)
  {
    forall y, x | 0 <= y < rows && 0 <= x < cols
      ensures Stamped(g, rows, cols, p, ox, oy)[y][x] <==> g[y][x] || (x - ox, y - oy) in p
    {
      StampedAt(g, rows, cols, p, ox, oy, x, y);
    }
  }

  /** Stamped onto an all-dead board, a pattern leaves alive exactly its own
      cells, shifted by the offset: what the seed buttons show after clearing
      the board. */
  lemma StampedOnDeadGrid(rows: nat, cols: nat, p: Pattern, ox: int, oy: int, x: int, y: int)
    requires FitsAt(p, ox, oy, rows, cols)
    requires 0 <= x < cols && 0 <= y < rows
    ensures Stamped(DeadGrid(rows, cols), rows, cols, p, ox, oy)[y][x] <==> (x - ox, y - oy) in p
  {
    StampedAt(DeadGrid(rows, cols), rows, cols, p, ox, oy, x, y);
  }

  /** Stamping the same pattern twice at the same place is stamping it once. */
  lemma StampIdempotent(g: Grid, rows: nat, cols: nat, p: Pattern, ox: int, oy: int)
    requires IsGrid(g, rows, cols) && FitsAt(p, ox, oy, rows, cols)
    ensures Stamped(Stamped(g, rows, cols, p, ox, oy), rows, cols, p, ox, oy) ==
      Stamped(g, rows, cols, p, ox, oy)
  {
    var once := Stamped(g, rows, cols, p, ox, oy);
    var twice := Stamped(once, rows, cols, p, ox, oy);
    forall y, x | 0 <= y < rows && 0 <= x < cols
      ensures twice[y][x] == once[y][x]
    {
      StampedAt(g, rows, cols, p, ox, oy, x, y);
      StampedAt(once, rows, cols, p, ox, oy, x, y);
    }
    SameCells(twice, once, rows, cols);
  }

  /** Every cell of `p` lies in the box [x0, x1] x [y0, y1]. */
  predicate InBox(p: Pattern, x0: int, x1: int, y0: int, y1: int) {
    forall i :: 0 <= i < |p| ==> x0 <= p[i].0 <= x1 && y0 <= p[i].1 <= y1
  }

  /** The glider gun's first 15 entries, its rows 1 to 4, are in row-major
      order. */
  lemma GliderGunAscendingTop()
    ensures AscendingBetween(GliderGun, 0, 15, false)
  {
  }

  /** So are its entries from the last one of row 4 on, its rows 4 to 9. */
  lemma GliderGunAscendingBottom()
    ensures AscendingBetween(GliderGun, 14, 36, false)
  {
  }

  /** The glider gun lists 36 different cells, row by row, in columns 2 to
      37 of rows 1 to 9. */
  lemma GliderGunTable()
    ensures |GliderGun| == 36 && InBox(GliderGun, 2, 37, 1, 9)
    ensures Distinct(GliderGun)
  {
    assert InBox(GliderGun, 2, 37, 1, 9);
    GliderGunAscendingTop();
    GliderGunAscendingBottom();
    AscendingIsDistinct(GliderGun, 0, 36, false);
  }

  /** The pulsar's first 24 entries, its vertical bars, are in column-major
      order. */
  lemma PulsarVerticalBarsAscending()
    ensures AscendingBetween(Pulsar, 0, 24, true)
  {
  }

  /** They lie in rows 4 to 6 and 10 to 12. */
  lemma PulsarVerticalBarsRows()
    ensures forall i :: 0 <= i < 24 <= |Pulsar| ==> Pulsar[i].1 in {4, 5, 6, 10, 11, 12}
  {
  }

  /** Its last 24 entries, its horizontal bars, are in row-major order. */
  lemma PulsarHorizontalBarsAscending()
    ensures AscendingBetween(Pulsar, 24, 48, false)
  {
  }

  /** They lie in rows 2, 7, 9 and 14. */
  lemma PulsarHorizontalBarsRows()
    ensures forall i :: 24 <= i < 48 <= |Pulsar| ==> Pulsar[i].1 in {2, 7, 9, 14}
  {
  }

  /** The pulsar lists 48 different cells, in columns 2 to 14 of rows 2 to
      14. */
  lemma PulsarTable()
    ensures |Pulsar| == 48 && InBox(Pulsar, 2, 14, 2, 14)
    ensures Distinct(Pulsar)
  {
    assert InBox(Pulsar, 2, 14, 2, 14);
    PulsarVerticalBarsAscending();
    PulsarVerticalBarsRows();
    PulsarHorizontalBarsAscending();
    PulsarHorizontalBarsRows();
    AscendingIsDistinct(Pulsar, 0, 24, true);
    AscendingIsDistinct(Pulsar, 24, 48, false);
  }

  /** The pentadecathlon lists 12 different cells, in columns 1 to 10 of rows
      0 to 2, row by row. */
  lemma PentaDecathlonTable()
    ensures |PentaDecathlon| == 12 && InBox(PentaDecathlon, 1, 10, 0, 2)
    ensures Distinct(PentaDecathlon)
  {
    assert InBox(PentaDecathlon, 1, 10, 0, 2);
    assert AscendingBetween(PentaDecathlon, 0, 12, false);
    AscendingIsDistinct(PentaDecathlon, 0, 12, false);
  }

  /** A pattern inside the box [x0, x1] x [y0, y1] that touches all four of
      its sides fits at (ox, oy) exactly when the box does. */
  lemma FitsBox(p: Pattern, x0: int, x1: int, y0: int, y1: int, ox: int, oy: int, rows: nat, cols: nat,
                left: (int, int), right: (int, int), top: (int, int), bottom: (int, int))
    requires InBox(p, x0, x1, y0, y1)
    requires left in p && left.0 == x0 && right in p && right.0 == x1
    requires top in p && top.1 == y0 && bottom in p && bottom.1 == y1
    ensures FitsAt(p, ox, oy, rows, cols) <==>
      0 <= x0 + ox && x1 + ox < cols && 0 <= y0 + oy && y1 + oy < rows
  {
  }

  /** The glider gun, placed at half the board less 7 on each axis, fits
      exactly when the board has at least 12 rows and 61 columns. */
  lemma GliderGunFits(rows: nat, cols: nat)
    ensures FitsAt(GliderGun, cols / 2 - 7, rows / 2 - 7, rows, cols) <==> rows >= 12 && cols >= 61
  {
    GliderGunTable();
    FitsBox(GliderGun, 2, 37, 1, 9, cols / 2 - 7, rows / 2 - 7, rows, cols, (2, 5), (37, 3), (26, 1), (14, 9));
  }

  /** The pulsar, placed at half the board less 7 on each axis, fits exactly
      when the board has at least 15 rows and 15 columns. */
  lemma PulsarFits(rows: nat, cols: nat)
    ensures FitsAt(Pulsar, cols / 2 - 7, rows / 2 - 7, rows, cols) <==> rows >= 15 && cols >= 15
  {
    PulsarTable();
    FitsBox(Pulsar, 2, 14, 2, 14, cols / 2 - 7, rows / 2 - 7, rows, cols, (2, 12), (14, 4), (4, 2), (4, 14));
  }

  /** The pentadecathlon, placed at half the board less 5 columns and less 1
      row, fits exactly when the board has at least 3 rows and 11 columns. */
  lemma PentaDecathlonFits(rows: nat, cols: nat)
    ensures FitsAt(PentaDecathlon, cols / 2 - 5, rows / 2 - 1, rows, cols) <==> rows >= 3 && cols >= 11
  {
    PentaDecathlonTable();
    FitsBox(PentaDecathlon, 1, 10, 0, 2, cols / 2 - 5, rows / 2 - 1, rows, cols, (1, 1), (10, 1), (3, 0), (3, 2));
  }
}
