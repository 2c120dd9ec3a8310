/**
 * The three tilers of `AABBHelpers` (`split`, `split_extended`, `split_extended_origin_aligned`), each a loop
 * that builds a vector of boxes, specified by the exact grid of tiles it produces.
 */
module Tiling {
  import opened Vectors
  import opened Geometry

  // ---------------------------------------------------------------------------------------------
  // Arithmetic helpers

  function Pow2(n: nat): (r: nat)
    ensures r >= 1
  {
    if n == 0 then 1 else 2 * Pow2(n - 1)
  }

  lemma {:induction false} Pow2Exceeds(n: nat)
    ensures Pow2(n) > n
  {
    if n > 0 {
      Pow2Exceeds(n - 1);
    }
  }

  lemma {:induction false} Pow2Monotone(i: nat, j: nat)
    requires i <= j
    ensures Pow2(i) <= Pow2(j)
  {
    if i < j {
      Pow2Monotone(i, j - 1);
    }
  }

  /** Euclidean division is determined by its defining equation. */
  lemma DivModUnique(n: int, d: int, q: int, r: int)
    requires d > 0 && 0 <= r < d && n == q * d + r
    ensures n / d == q && n % d == r
  {
    var q', r' := n / d, n % d;
    assert n == q' * d + r' && 0 <= r' < d;
    if q' < q {
      MulAtLeast(q - q', d);
    } else if q' > q {
      MulAtLeast(q' - q, d);
    }
  }

  lemma DivMod(n: int, d: int)
    requires d > 0
    ensures n == (n / d) * d + n % d && 0 <= n % d < d
  {
  }

  lemma RealFree(q: int, c: int, d: int)
    requires d >= 1 && q >= c
    ensures q * d >= c * d
  {
    assert q * d - c * d == (q - c) * d;
  }

  /** An index below `c * d` has quotient below `c`. */
  lemma QuotientBound(n: nat, c: nat, d: nat)
    requires d >= 1 && n < c * d
    ensures n / d < c
  {
    if n / d >= c {
      RealFree(n / d, c, d);
    }
  }

  lemma MulAtLeast(a: int, d: int)
    requires a >= 1 && d > 0
    ensures a * d >= d
  {
    assert a * d - d == (a - 1) * d;
  }

  lemma RealMulMonotone(k: real, a: real, b: real)
    requires k >= 0.0 && a <= b
    ensures a * k <= b * k
  {
    assert b * k - a * k == (b - a) * k;
  }

  lemma DivNonNegative(a: real, s: real)
    requires a >= 0.0 && s > 0.0
    ensures a / s >= 0.0
  {
    assert (a / s) * s == a;
  }

  lemma RealMulStrict(k: real, a: real, b: real)
    requires k > 0.0 && a < b
    ensures a * k < b * k
  {
    assert b * k - a * k == (b - a) * k;
  }

  /** The floor of a quotient brackets the dividend between two consecutive multiples of the divisor. */
  lemma FloorDivBounds(a: real, s: real)
    requires s > 0.0
    ensures (a / s).Floor as real * s <= a < ((a / s).Floor + 1) as real * s
  {
    var f := (a / s).Floor;
    assert f as real <= a / s < (f + 1) as real;
    RealMulMonotone(s, f as real, a / s);
    RealMulStrict(s, a / s, (f + 1) as real);
    assert (a / s) * s == a;
  }

  // ---------------------------------------------------------------------------------------------
  // Offsets along an axis

  /** The `c`-th offset along an axis: `start` plus `c` steps, accumulated one step at a time. */
  function Offset(start: real, step: real, c: nat): real {
    if c == 0 then start else Offset(start, step, c - 1) + step
  }

  lemma {:induction false} OffsetClosed(start: real, step: real, c: nat)
    ensures Offset(start, step, c) == start + c as real * step
  {
    if c > 0 {
      OffsetClosed(start, step, c - 1);
      assert (c - 1) as real * step + step == c as real * step;
    }
  }

  lemma {:induction false} OffsetMonotone(start: real, step: real, c: nat, c': nat)
    requires step >= 0.0 && c <= c'
    ensures Offset(start, step, c) <= Offset(start, step, c')
  {
    if c < c' {
      OffsetMonotone(start, step, c, c' - 1);
    }
  }

  /** Twice as many half steps reach the same offset. */
  lemma {:induction false} OffsetHalfSteps(start: real, step: real, c: nat)
    ensures Offset(start, 2.0 * step, c) == Offset(start, step, 2 * c)
  {
    if c > 0 {
      OffsetHalfSteps(start, step, c - 1);
    }
  }

  // ---------------------------------------------------------------------------------------------
  // split

  /** The width of a column after `k` horizontal halvings of `b`. */
  function ColumnWidth(b: AABB, k: nat): real {
    Extents(b).x / Pow2(k) as real
  }

  /** The height of a row after `m` vertical halvings of `b`. */
  function RowHeight(b: AABB, m: nat): real {
    Extents(b).y / Pow2(m) as real
  }

  lemma ColumnWidthHalves(b: AABB, k: nat)
    ensures ColumnWidth(b, k) == 2.0 * ColumnWidth(b, k + 1)
  {
  }

  lemma RowHeightHalves(b: AABB, m: nat)
    ensures RowHeight(b, m) == 2.0 * RowHeight(b, m + 1)
  {
  }

  lemma MulDivCancel(W: real, P: real)
    requires P > 0.0
    ensures P * (W / P) == W
    ensures W >= 0.0 ==> W / P >= 0.0
  {
  }

  /** `P` cells of width `W / P` span `W`. */
  lemma AxisSpan(x0: real, W: real, P: nat)
    requires P >= 1
    ensures Offset(x0, W / P as real, P) == x0 + W
    ensures W >= 0.0 ==> W / P as real >= 0.0
  {
    MulDivCancel(W, P as real);
    OffsetClosed(x0, W / P as real, P);
  }

  /** The cells together span the box. */
  lemma CellsSpan(b: AABB, k: nat, m: nat)
    ensures Offset(b.mins.x, ColumnWidth(b, k), Pow2(k)) == b.maxs.x
    ensures Offset(b.mins.y, RowHeight(b, m), Pow2(m)) == b.maxs.y
    ensures Valid(b) ==> ColumnWidth(b, k) >= 0.0 && RowHeight(b, m) >= 0.0
  {
    AxisSpan(b.mins.x, Extents(b).x, Pow2(k));
    AxisSpan(b.mins.y, Extents(b).y, Pow2(m));
  }

  /** The tile in column `i` and row `j` of the grid over `b` whose cells are `w` wide and `h` high. */
  function Cell(b: AABB, w: real, h: real, i: nat, j: nat): AABB {
    AABB(Vec2(Offset(b.mins.x, w, i), Offset(b.mins.y, h, j)), Vec2(Offset(b.mins.x, w, i + 1), Offset(b.mins.y, h, j + 1)))
  }

  /** The first `rows` cells of column `i`, bottom to top. */
  function GridColumn(b: AABB, w: real, h: real, i: nat, rows: nat): (column: seq<AABB>)
    ensures |column| == rows
  {
    if rows == 0 then [] else GridColumn(b, w, h, i, rows - 1) + [Cell(b, w, h, i, rows - 1)]
  }

  /** The first `cols` columns of `rows` cells each, left to right. */
  function GridColumns(b: AABB, w: real, h: real, cols: nat, rows: nat): seq<AABB> {
    if cols == 0 then [] else GridColumns(b, w, h, cols - 1, rows) + GridColumn(b, w, h, cols - 1, rows)
  }

  /**
   * The grid that cuts `b` into `2^k` columns and `2^m` rows of equal size, column by column and each column
   * bottom to top.
   */
  function Grid(b: AABB, k: nat, m: nat): seq<AABB> {
    GridColumns(b, ColumnWidth(b, k), RowHeight(b, m), Pow2(k), Pow2(m))
  }

  /** One horizontal round of `split`: every box replaced, in order, by its two `hsplit` halves. */
  function HSplitAll(ts: seq<AABB>): (r: seq<AABB>)
    ensures |r| == 2 * |ts|
  {
    if ts == [] then [] else HSplitAll(ts[..|ts| - 1]) + HSplit(ts[|ts| - 1])
  }

  /** One vertical round of `split`: every box replaced, in order, by its two `vsplit` halves. */
  function VSplitAll(ts: seq<AABB>): (r: seq<AABB>)
    ensures |r| == 2 * |ts|
  {
    if ts == [] then [] else VSplitAll(ts[..|ts| - 1]) + VSplit(ts[|ts| - 1])
  }

  lemma {:induction false} HSplitAllConcat(a: seq<AABB>, c: seq<AABB>)
    ensures HSplitAll(a + c) == HSplitAll(a) + HSplitAll(c)
  {
    if c != [] {
      assert (a + c)[..|a + c| - 1] == a + c[..|c| - 1];
      HSplitAllConcat(a, c[..|c| - 1]);
    } else {
      assert a + c == a;
    }
  }

  lemma {:induction false} VSplitAllConcat(a: seq<AABB>, c: seq<AABB>)
    ensures VSplitAll(a + c) == VSplitAll(a) + VSplitAll(c)
  {
    if c != [] {
      assert (a + c)[..|a + c| - 1] == a + c[..|c| - 1];
      VSplitAllConcat(a, c[..|c| - 1]);
    } else {
      assert a + c == a;
    }
  }

  lemma GridStart(b: AABB)
    ensures Grid(b, 0, 0) == [b]
  {
    var w, h := ColumnWidth(b, 0), RowHeight(b, 0);
    assert Pow2(0) == 1;
    assert w == Extents(b).x && h == Extents(b).y;
    assert Cell(b, w, h, 0, 0) == b;
    assert GridColumn(b, w, h, 0, 1) == [b];
    assert GridColumns(b, w, h, 1, 1) == GridColumns(b, w, h, 0, 1) + GridColumn(b, w, h, 0, 1);
  }

  /** Halving the cell in column `i` of a grid with columns `2 w'` wide gives columns `2i` and `2i + 1` of width `w'`. */
  lemma HalveColumn(b: AABB, w': real, h: real, i: nat)
    ensures HSplitAll([Cell(b, 2.0 * w', h, i, 0)]) == [Cell(b, w', h, 2 * i, 0), Cell(b, w', h, 2 * i + 1, 0)]
  {
    OffsetHalfSteps(b.mins.x, w', i);
    OffsetHalfSteps(b.mins.x, w', i + 1);
    assert HSplitAll([Cell(b, 2.0 * w', h, i, 0)]) == HSplit(Cell(b, 2.0 * w', h, i, 0));
  }

  /** Halving the cell in row `j` of a grid with rows `2 h'` high gives rows `2j` and `2j + 1` of height `h'`. */
  lemma HalveRow(b: AABB, w: real, h': real, i: nat, j: nat)
    ensures VSplitAll([Cell(b, w, 2.0 * h', i, j)]) == [Cell(b, w, h', i, 2 * j), Cell(b, w, h', i, 2 * j + 1)]
  {
    OffsetHalfSteps(b.mins.y, h', j);
    OffsetHalfSteps(b.mins.y, h', j + 1);
    assert VSplitAll([Cell(b, w, 2.0 * h', i, j)]) == VSplit(Cell(b, w, 2.0 * h', i, j));
  }

  /** A column of one row is its bottom cell. */
  lemma SingleCellColumn(b: AABB, w: real, h: real, i: nat)
    ensures GridColumn(b, w, h, i, 1) == [Cell(b, w, h, i, 0)]
  {
    assert GridColumn(b, w, h, i, 0) == [];
  }

  /** Two more one-row columns are two more cells. */
  lemma TwoMoreColumns(b: AABB, w: real, h: real, i: nat, cols: nat)
    requires cols == i + 1
    ensures GridColumns(b, w, h, 2 * cols, 1) == GridColumns(b, w, h, 2 * i, 1) + [Cell(b, w, h, 2 * i, 0), Cell(b, w, h, 2 * i + 1, 0)]
  {
    SingleCellColumn(b, w, h, 2 * i);
    SingleCellColumn(b, w, h, 2 * i + 1);
    assert GridColumns(b, w, h, 2 * i + 1, 1) == GridColumns(b, w, h, 2 * i, 1) + [Cell(b, w, h, 2 * i, 0)];
  }

  /** Splitting the first `i + 1` one-row columns is splitting the first `i` and then the cell of column `i`. */
  lemma SplitOneMoreColumn(b: AABB, w: real, h: real, i: nat, cols: nat)
    requires cols == i + 1
    ensures HSplitAll(GridColumns(b, w, h, cols, 1)) == HSplitAll(GridColumns(b, w, h, i, 1)) + HSplitAll([Cell(b, w, h, i, 0)])
  {
    var prev, cell := GridColumns(b, w, h, i, 1), [Cell(b, w, h, i, 0)];
    SingleCellColumn(b, w, h, i);
    assert GridColumns(b, w, h, cols, 1) == prev + cell;
    HSplitAllConcat(prev, cell);
  }

  lemma {:induction false} HRoundColumns(b: AABB, w': real, h: real, cols: nat)
    ensures HSplitAll(GridColumns(b, 2.0 * w', h, cols, 1)) == GridColumns(b, w', h, 2 * cols, 1)
  {
    if cols > 0 {
      var i := cols - 1;
      HRoundColumns(b, w', h, i);
      var prevSplit, cellSplit := HSplitAll(GridColumns(b, 2.0 * w', h, i, 1)), HSplitAll([Cell(b, 2.0 * w', h, i, 0)]);
      var prevGrid, pair := GridColumns(b, w', h, 2 * i, 1), [Cell(b, w', h, 2 * i, 0), Cell(b, w', h, 2 * i + 1, 0)];
      SplitOneMoreColumn(b, 2.0 * w', h, i, cols);
      assert HSplitAll(GridColumns(b, 2.0 * w', h, cols, 1)) == prevSplit + cellSplit;
      HalveColumn(b, w', h, i);
      assert cellSplit == pair;
      TwoMoreColumns(b, w', h, i, cols);
      assert GridColumns(b, w', h, 2 * cols, 1) == prevGrid + pair;
    }
  }

  /** Two more rows of a column are two more cells. */
  lemma TwoMoreRows(b: AABB, w: real, h: real, i: nat, j: nat, rows: nat)
    requires rows == j + 1
    ensures GridColumn(b, w, h, i, 2 * rows) == GridColumn(b, w, h, i, 2 * j) + [Cell(b, w, h, i, 2 * j), Cell(b, w, h, i, 2 * j + 1)]
  {
    assert GridColumn(b, w, h, i, 2 * j + 1) == GridColumn(b, w, h, i, 2 * j) + [Cell(b, w, h, i, 2 * j)];
  }

  lemma {:induction false} VRoundColumn(b: AABB, w: real, h': real, i: nat, rows: nat)
    ensures VSplitAll(GridColumn(b, w, 2.0 * h', i, rows)) == GridColumn(b, w, h', i, 2 * rows)
  {
    if rows > 0 {
      var j := rows - 1;
      VRoundColumn(b, w, h', i, j);
      VSplitAllConcat(GridColumn(b, w, 2.0 * h', i, j), [Cell(b, w, 2.0 * h', i, j)]);
      HalveRow(b, w, h', i, j);
      TwoMoreRows(b, w, h', i, j, rows);
    }
  }

  lemma {:induction false} VRoundColumns(b: AABB, w: real, h': real, cols: nat, rows: nat)
    ensures VSplitAll(GridColumns(b, w, 2.0 * h', cols, rows)) == GridColumns(b, w, h', cols, 2 * rows)
  {
    if cols > 0 {
      var i := cols - 1;
      var front, last := GridColumns(b, w, 2.0 * h', i, rows), GridColumn(b, w, 2.0 * h', i, rows);
      assert GridColumns(b, w, 2.0 * h', cols, rows) == front + last;
      VRoundColumns(b, w, h', i, rows);
      VSplitAllConcat(front, last);
      VRoundColumn(b, w, h', i, rows);
      assert GridColumns(b, w, h', cols, 2 * rows) == GridColumns(b, w, h', i, 2 * rows) + GridColumn(b, w, h', i, 2 * rows);
    }
  }

  lemma HRound(b: AABB, k: nat)
    ensures HSplitAll(Grid(b, k, 0)) == Grid(b, k + 1, 0)
  {
    ColumnWidthHalves(b, k);
    HRoundColumns(b, ColumnWidth(b, k + 1), RowHeight(b, 0), Pow2(k));
  }

  lemma VRound(b: AABB, k: nat, m: nat)
    ensures VSplitAll(Grid(b, k, m)) == Grid(b, k, m + 1)
  {
    RowHeightHalves(b, m);
    VRoundColumns(b, ColumnWidth(b, k), RowHeight(b, m + 1), Pow2(k), Pow2(m));
  }

  lemma {:induction false} GridColumnsLength(b: AABB, w: real, h: real, cols: nat, rows: nat)
    ensures |GridColumns(b, w, h, cols, rows)| == cols * rows
  {
    if cols > 0 {
      GridColumnsLength(b, w, h, cols - 1, rows);
      assert (cols - 1) * rows + rows == cols * rows;
    }
  }

  lemma {:induction false} GridColumnHas(b: AABB, w: real, h: real, i: nat, j: nat, rows: nat)
    requires j < rows
    ensures GridColumn(b, w, h, i, rows)[j] == Cell(b, w, h, i, j)
  {
    if j < rows - 1 {
      GridColumnHas(b, w, h, i, j, rows - 1);
    }
  }

  /** Cell `(i, j)` sits at index `i * rows + j`. */
  lemma {:induction false} GridColumnsHas(b: AABB, w: real, h: real, cols: nat, rows: nat, i: nat, j: nat)
    requires i < cols && j < rows
    ensures i * rows + j < |GridColumns(b, w, h, cols, rows)|
    ensures GridColumns(b, w, h, cols, rows)[i * rows + j] == Cell(b, w, h, i, j)
  {
    GridColumnsLength(b, w, h, cols - 1, rows);
    GridColumnsLength(b, w, h, cols, rows);
    if i < cols - 1 {
      GridColumnsHas(b, w, h, cols - 1, rows, i, j);
      assert i * rows + j < (cols - 1) * rows by { IndexOf(i, j, cols - 1, rows); }
    } else {
      GridColumnHas(b, w, h, i, j, rows);
    }
  }

  lemma Pow2Product(k: nat, m: nat)
    ensures Pow2(k) * Pow2(m) >= 1
  {
    MulAtLeast(Pow2(k), Pow2(m));
  }

  /** The grid has `2^k * 2^m` tiles, and index `n` is cell `(n / 2^m, n % 2^m)`. */
  lemma GridAt(b: AABB, k: nat, m: nat, n: int) returns (i: nat, j: nat)
    requires 0 <= n < |Grid(b, k, m)|
    ensures i < Pow2(k) && j < Pow2(m) && n == i * Pow2(m) + j
    ensures Grid(b, k, m)[n] == Cell(b, ColumnWidth(b, k), RowHeight(b, m), i, j)
  {
    var P, Q := Pow2(k), Pow2(m);
    GridColumnsLength(b, ColumnWidth(b, k), RowHeight(b, m), P, Q);
    DivMod(n, Q);
    i, j := n / Q, n % Q;
    QuotientBound(n, P, Q);
    GridColumnsHas(b, ColumnWidth(b, k), RowHeight(b, m), P, Q, i, j);
  }

  lemma GridSize(b: AABB, k: nat, m: nat)
    ensures |Grid(b, k, m)| == Pow2(k) * Pow2(m) >= 1
  {
    GridColumnsLength(b, ColumnWidth(b, k), RowHeight(b, m), Pow2(k), Pow2(m));
    Pow2Product(k, m);
  }

  lemma CellExtents(b: AABB, w: real, h: real, i: nat, j: nat)
    ensures Extents(Cell(b, w, h, i, j)) == Vec2(w, h)
  {
  }

  /** The tiles of a grid all have the same extents, `b`'s extents divided by the tile counts. */
  lemma GridExtents(b: AABB, k: nat, m: nat, n: int)
    requires 0 <= n < |Grid(b, k, m)|
    ensures Extents(Grid(b, k, m)[n]) == Vec2(ColumnWidth(b, k), RowHeight(b, m))
  {
    var i, j := GridAt(b, k, m, n);
    CellExtents(b, ColumnWidth(b, k), RowHeight(b, m), i, j);
  }

  /** When each cell fits, all tiles fit. */
  lemma GridFits(b: AABB, k: nat, m: nat, size: Vec2)
    requires ColumnWidth(b, k) <= size.x && RowHeight(b, m) <= size.y
    ensures forall t :: t in Grid(b, k, m) ==> Extents(t).x <= size.x && Extents(t).y <= size.y
  {
    forall t | t in Grid(b, k, m) ensures Extents(t).x <= size.x && Extents(t).y <= size.y {
      var n :| 0 <= n < |Grid(b, k, m)| && Grid(b, k, m)[n] == t;
      GridExtents(b, k, m, n);
    }
  }

  /**
   * `split` with positive sizes (or with sizes no smaller than the box) halves columns, then rows, until each
   * tile fits: the result is the `2^k` by `2^m` grid over the box, with the fewest halvings that make the tiles fit.
   */
  method Split(self: AABB, splittedSize: Vec2) returns (splitted: seq<AABB>, ghost k: nat, ghost m: nat)
    requires splittedSize.x > 0.0 || Extents(self).x <= splittedSize.x
    requires splittedSize.y > 0.0 || Extents(self).y <= splittedSize.y
    ensures splitted == Grid(self, k, m)
    ensures |splitted| == Pow2(k) * Pow2(m)
    ensures forall t :: t in splitted ==> Extents(t).x <= splittedSize.x && Extents(t).y <= splittedSize.y
    ensures k > 0 ==> splittedSize.x < ColumnWidth(self, k - 1)
    ensures m > 0 ==> splittedSize.y < RowHeight(self, m - 1)
  {
    splitted, k := SplitHorizontally(self, splittedSize);
    splitted, m := SplitVertically(self, splitted, k, splittedSize);
    GridFits(self, k, m, splittedSize);
    GridSize(self, k, m);
  }

  /** `split`'s first loop: halves every column while the columns are wider than `splittedSize.x`. */
  method SplitHorizontally(self: AABB, splittedSize: Vec2) returns (splitted: seq<AABB>, ghost k: nat)
    requires splittedSize.x > 0.0 || Extents(self).x <= splittedSize.x
    ensures splitted == Grid(self, k, 0)
    ensures ColumnWidth(self, k) <= splittedSize.x
    ensures k > 0 ==> splittedSize.x < ColumnWidth(self, k - 1)
  {
    splitted := [self];
    k := 0;
    GridStart(self);
    GridExtents(self, k, 0, 0);
    ghost var W := Extents(self).x;
    ghost var N: nat := 0;
    if W > 0.0 && splittedSize.x > 0.0 {
      N := (W / splittedSize.x).Floor + 1;
      HalvingsSuffice(W, splittedSize.x, N);
    }
    while splittedSize.x < Extents(splitted[0]).x
      invariant splitted == Grid(self, k, 0)
      invariant Extents(splitted[0]).x == ColumnWidth(self, k)
      invariant k == 0 || (W > 0.0 && splittedSize.x > 0.0 && k <= N)
      invariant W > 0.0 && splittedSize.x > 0.0 ==> ColumnWidth(self, N) < splittedSize.x
      invariant k > 0 ==> splittedSize.x < ColumnWidth(self, k - 1)
      decreases N - k
    {
      NotYetEnough(W, splittedSize.x, k, N);
      splitted := HalveColumns(splitted);
      HRound(self, k);
      k := k + 1;
      GridExtents(self, k, 0, 0);
    }
  }

  /** `split`'s second loop: halves every row of the `2^k`-column grid while the rows are higher than `splittedSize.y`. */
  method SplitVertically(self: AABB, columns: seq<AABB>, ghost k: nat, splittedSize: Vec2)
    returns (splitted: seq<AABB>, ghost m: nat)
    requires columns == Grid(self, k, 0)
    requires splittedSize.y > 0.0 || Extents(self).y <= splittedSize.y
    ensures splitted == Grid(self, k, m)
    ensures RowHeight(self, m) <= splittedSize.y
    ensures m > 0 ==> splittedSize.y < RowHeight(self, m - 1)
  {
    splitted := columns;
    m := 0;
    GridExtents(self, k, m, 0);
    ghost var H := Extents(self).y;
    ghost var M: nat := 0;
    if H > 0.0 && splittedSize.y > 0.0 {
      M := (H / splittedSize.y).Floor + 1;
      HalvingsSuffice(H, splittedSize.y, M);
    }
    while splittedSize.y < Extents(splitted[0]).y
      invariant splitted == Grid(self, k, m)
      invariant Extents(splitted[0]).y == RowHeight(self, m)
      invariant m == 0 || (H > 0.0 && splittedSize.y > 0.0 && m <= M)
      invariant H > 0.0 && splittedSize.y > 0.0 ==> RowHeight(self, M) < splittedSize.y
      invariant m > 0 ==> splittedSize.y < RowHeight(self, m - 1)
      decreases M - m
    {
      NotYetEnough(H, splittedSize.y, m, M);
      splitted := HalveRows(splitted);
      VRound(self, k, m);
      m := m + 1;
      GridExtents(self, k, m, 0);
    }
  }

  /** One pass of `split`'s inner loop: collects the `hsplit` halves of every box in turn. */
  method HalveColumns(splitted: seq<AABB>) returns (r: seq<AABB>)
    ensures r == HSplitAll(splitted)
  {
    r := [];
    for i := 0 to |splitted|
      invariant r == HSplitAll(splitted[..i])
    {
      assert splitted[..i + 1][..i] == splitted[..i];
      r := r + HSplit(splitted[i]);
    }
    assert splitted[..|splitted|] == splitted;
  }

  /** One pass of `split`'s second inner loop: collects the `vsplit` halves of every box in turn. */
  method HalveRows(splitted: seq<AABB>) returns (r: seq<AABB>)
    ensures r == VSplitAll(splitted)
  {
    r := [];
    for i := 0 to |splitted|
      invariant r == VSplitAll(splitted[..i])
    {
      assert splitted[..i + 1][..i] == splitted[..i];
      r := r + VSplit(splitted[i]);
    }
    assert splitted[..|splitted|] == splitted;
  }

  /** `N = floor(W / s) + 1` halvings bring `W` below `s`. */
  lemma HalvingsSuffice(W: real, s: real, N: nat)
    requires W > 0.0 && s > 0.0 && N == (W / s).Floor + 1
    ensures W / Pow2(N) as real < s
  {
    Pow2Exceeds(N);
    var P := Pow2(N) as real;
    assert W / s < P;
    RealMulStrict(s, W / s, P);
    assert W < P * s;
    assert W / P < s by {
      RealMulStrict(1.0 / P, W, P * s);
    }
  }

  /** While a tile is still too wide its halving count is below the bound `N`. */
  lemma NotYetEnough(W: real, s: real, k: nat, N: nat)
    requires W > 0.0 && s > 0.0 && W / Pow2(N) as real < s
    ensures s < W / Pow2(k) as real ==> k < N
  {
    if N <= k {
      Pow2Monotone(N, k);
    }
  }

  // ---------------------------------------------------------------------------------------------
  // The grid of `split` partitions the box

  /** Two boxes whose interiors meet. */
  predicate InteriorsOverlap(a: AABB, c: AABB) {
    a.mins.x < c.maxs.x && c.mins.x < a.maxs.x && a.mins.y < c.maxs.y && c.mins.y < a.maxs.y
  }

  /** Index arithmetic for a `count` by `inner` lattice. */
  lemma IndexOf(r: nat, c: nat, count: nat, inner: nat)
    requires r < count && c < inner
    ensures r * inner + c < count * inner
    ensures (r * inner + c) / inner == r && (r * inner + c) % inner == c
  {
    DivModUnique(r * inner + c, inner, r, c);
    assert (r + 1) * inner <= count * inner by { RealFree(count, r + 1, inner); }
  }

  /** Some cell of `P` cells of width `w` along an axis that they span holds a given point of the axis. */
  lemma AxisCellCovers(x0: real, w: real, P: nat, p: real) returns (i: nat)
    requires w >= 0.0 && P >= 1 && x0 <= p <= Offset(x0, w, P)
    ensures i < P
    ensures Offset(x0, w, i) <= p <= Offset(x0, w, i + 1)
  {
    OffsetClosed(x0, w, P);
    if w == 0.0 {
      i := 0;
    } else {
      var f := ((p - x0) / w).Floor;
      FloorDivBounds(p - x0, w);
      DivNonNegative(p - x0, w);
      if f < P {
        i := f;
      } else {
        i := P - 1;
        RealMulMonotone(w, i as real, f as real);
      }
    }
    OffsetClosed(x0, w, i);
    OffsetClosed(x0, w, i + 1);
  }

  /** Every tile of the grid lies inside a valid box. */
  lemma GridWithin(b: AABB, k: nat, m: nat, n: int)
    requires Valid(b) && 0 <= n < |Grid(b, k, m)|
    ensures Within(Grid(b, k, m)[n], b)
  {
    var i, j := GridAt(b, k, m, n);
    CellsSpan(b, k, m);
    var w, h := ColumnWidth(b, k), RowHeight(b, m);
    OffsetMonotone(b.mins.x, w, 0, i);
    OffsetMonotone(b.mins.x, w, i + 1, Pow2(k));
    OffsetMonotone(b.mins.y, h, 0, j);
    OffsetMonotone(b.mins.y, h, j + 1, Pow2(m));
  }

  /** Every point of a valid box lies in some tile of the grid. */
  lemma GridCovers(b: AABB, k: nat, m: nat, p: Vec2)
    requires Valid(b) && ContainsPoint(b, p)
    ensures exists t :: t in Grid(b, k, m) && ContainsPoint(t, p)
  {
    CellsSpan(b, k, m);
    var w, h := ColumnWidth(b, k), RowHeight(b, m);
    var i := AxisCellCovers(b.mins.x, w, Pow2(k), p.x);
    var j := AxisCellCovers(b.mins.y, h, Pow2(m), p.y);
    GridColumnsHas(b, w, h, Pow2(k), Pow2(m), i, j);
    var grid, n := Grid(b, k, m), i * Pow2(m) + j;
    assert grid[n] == Cell(b, w, h, i, j);
    assert ContainsPoint(grid[n], p);
  }

  lemma CellsApart(b: AABB, w: real, h: real, i: nat, j: nat, i': nat, j': nat)
    requires w >= 0.0 && h >= 0.0 && (i != i' || j != j')
    ensures !InteriorsOverlap(Cell(b, w, h, i, j), Cell(b, w, h, i', j'))
  {
    if i < i' {
      OffsetMonotone(b.mins.x, w, i + 1, i');
    } else if i' < i {
      OffsetMonotone(b.mins.x, w, i' + 1, i);
    } else if j < j' {
      OffsetMonotone(b.mins.y, h, j + 1, j');
    } else {
      OffsetMonotone(b.mins.y, h, j' + 1, j);
    }
  }

  /** Distinct tiles of the grid over a valid box do not overlap. */
  lemma GridDisjoint(b: AABB, k: nat, m: nat, n: int, n': int)
    requires Valid(b) && 0 <= n < |Grid(b, k, m)| && 0 <= n' < |Grid(b, k, m)| && n != n'
    ensures !InteriorsOverlap(Grid(b, k, m)[n], Grid(b, k, m)[n'])
  {
    var i, j := GridAt(b, k, m, n);
    var i', j' := GridAt(b, k, m, n');
    CellsSpan(b, k, m);
    CellsApart(b, ColumnWidth(b, k), RowHeight(b, m), i, j, i', j');
  }

  // ---------------------------------------------------------------------------------------------
  // split_extended

  /** The number of steps of size `step` from `start` before reaching `limit`, when that count is finite. */
  function Steps(start: real, limit: real, step: real): (n: nat)
    requires start >= limit || step > 0.0
  {
    if start >= limit then 0
    else
      var q := (limit - start) / step;
      CeilBounds(q);
      Ceil(q)
  }

  /** The `c`-th offset is below the limit exactly while `c` is below the step count. */
  lemma StepsExact(start: real, limit: real, step: real, c: nat)
    requires start >= limit || step > 0.0
    requires c <= Steps(start, limit, step)
    ensures Offset(start, step, c) < limit <==> c < Steps(start, limit, step)
  {
    OffsetClosed(start, step, c);
    if start < limit {
      var q := (limit - start) / step;
      CeilBounds(q);
      if c < Steps(start, limit, step) {
        assert c as real < q;
        RealMulStrict(step, c as real, q);
      } else {
        RealMulMonotone(step, q, c as real);
      }
    }
  }

  /**
   * Both loops of a raster scan end. `split_extended` as written does not end on a box with a zero extent
   * (`SplitExtendedHangsOnFlatBox`), nor, as written or corrected, on a non-positive requested size.
   */
  predicate RasterTerminates(origin: Vec2, limit: Vec2, step: Vec2) {
    && (origin.y >= limit.y || step.y > 0.0)
    && (origin.y >= limit.y || origin.x >= limit.x || step.x > 0.0)
  }

  /** The tile pushed in row `r` and column `c`: `step`-sized, with its `mins` `r` and `c` steps from `origin`. */
  function RasterTile(origin: Vec2, step: Vec2, r: nat, c: nat): (t: AABB)
    ensures Extents(t) == step
  {
    var mins := Vec2(Offset(origin.x, step.x, c), Offset(origin.y, step.y, r));
    AABB(mins, Vec2(mins.x + step.x, mins.y + step.y))
  }

  /** The first `c` tiles of row `r`, left to right. */
  function RasterRow(origin: Vec2, step: Vec2, r: nat, c: nat): (row: seq<AABB>)
    ensures |row| == c
  {
    if c == 0 then [] else RasterRow(origin, step, r, c - 1) + [RasterTile(origin, step, r, c - 1)]
  }

  /** The first `rows` rows of `cols` tiles each, bottom row first. */
  function RasterRows(origin: Vec2, step: Vec2, rows: nat, cols: nat): seq<AABB> {
    if rows == 0 then [] else RasterRows(origin, step, rows - 1, cols) + RasterRow(origin, step, rows - 1, cols)
  }

  /** What a raster scan from `origin`, stepping by `step` while the offsets are below `limit`, pushes. */
  function RasterTiles(origin: Vec2, limit: Vec2, step: Vec2): seq<AABB>
    requires RasterTerminates(origin, limit, step)
  {
    var rows := Steps(origin.y, limit.y, step.y);
    var cols := if rows == 0 then 0 else Steps(origin.x, limit.x, step.x);
    RasterRows(origin, step, rows, cols)
  }

  lemma {:induction false} RasterRowsLength(origin: Vec2, step: Vec2, rows: nat, cols: nat)
    ensures |RasterRows(origin, step, rows, cols)| == rows * cols
  {
    if rows > 0 {
      RasterRowsLength(origin, step, rows - 1, cols);
      assert (rows - 1) * cols + cols == rows * cols;
    }
  }

  lemma {:induction false} RasterRowHas(origin: Vec2, step: Vec2, r: nat, c: nat, cols: nat)
    requires c < cols
    ensures RasterRow(origin, step, r, cols)[c] == RasterTile(origin, step, r, c)
  {
    if c < cols - 1 {
      RasterRowHas(origin, step, r, c, cols - 1);
    }
  }

  /** Tile `(r, c)` sits at index `r * cols + c` of the scan. */
  lemma {:induction false} RasterRowsHas(origin: Vec2, step: Vec2, rows: nat, cols: nat, r: nat, c: nat)
    requires r < rows && c < cols
    ensures r * cols + c < |RasterRows(origin, step, rows, cols)|
    ensures RasterRows(origin, step, rows, cols)[r * cols + c] == RasterTile(origin, step, r, c)
  {
    RasterRowsLength(origin, step, rows - 1, cols);
    RasterRowsLength(origin, step, rows, cols);
    if r < rows - 1 {
      RasterRowsHas(origin, step, rows - 1, cols, r, c);
    } else {
      RasterRowHas(origin, step, r, c, cols);
    }
  }

  /**
   * The loops of `split_extended`: rows of tiles from `origin` upwards while the row offset is below `limit.y`,
   * each row from `origin.x` rightwards while the column offset is below `limit.x`.
   */
  method RasterScan(origin: Vec2, limit: Vec2, step: Vec2) returns (splittedAabbs: seq<AABB>)
    requires RasterTerminates(origin, limit, step)
    ensures splittedAabbs == RasterTiles(origin, limit, step)
  {
    splittedAabbs := [];
    var offsetX, offsetY := origin.x, origin.y;
    ghost var rows := Steps(origin.y, limit.y, step.y);
    ghost var cols := if rows == 0 then 0 else Steps(origin.x, limit.x, step.x);
    ghost var r: nat := 0;
    StepsExact(origin.y, limit.y, step.y, 0);
    while offsetY < limit.y
      invariant r <= rows
      invariant offsetX == origin.x
      invariant offsetY == Offset(origin.y, step.y, r)
      invariant offsetY < limit.y <==> r < rows
      invariant splittedAabbs == RasterRows(origin, step, r, cols)
      decreases rows - r
    {
      ghost var c: nat := 0;
      StepsExact(origin.x, limit.x, step.x, 0);
      while offsetX < limit.x
        invariant c <= cols
        invariant offsetX == Offset(origin.x, step.x, c)
        invariant offsetX < limit.x <==> c < cols
        invariant splittedAabbs == RasterRows(origin, step, r, cols) + RasterRow(origin, step, r, c)
        decreases cols - c
      {
        splittedAabbs := splittedAabbs + [AABB(Vec2(offsetX, offsetY), Vec2(offsetX + step.x, offsetY + step.y))];
        offsetX := offsetX + step.x;
        c := c + 1;
        StepsExact(origin.x, limit.x, step.x, c);
      }
      offsetX := origin.x;
      offsetY := offsetY + step.y;
      r := r + 1;
      StepsExact(origin.y, limit.y, step.y, r);
    }
  }

  /** `split_extended` shrinks a requested tile size that exceeds the box to the box's extents. */
  function ClampedSize(b: AABB, splittedSize: Vec2): (s: Vec2)
    ensures s.x <= splittedSize.x && s.y <= splittedSize.y
    ensures s.x == splittedSize.x || s.x == Extents(b).x
    ensures s.y == splittedSize.y || s.y == Extents(b).y
    ensures Extents(b).x > 0.0 && splittedSize.x > 0.0 ==> s.x > 0.0
    ensures Extents(b).y > 0.0 && splittedSize.y > 0.0 ==> s.y > 0.0
  {
    Vec2(if Extents(b).x <= splittedSize.x then Extents(b).x else splittedSize.x,
         if Extents(b).y <= splittedSize.y then Extents(b).y else splittedSize.y)
  }

  /**
   * `split_extended` as written: it starts at the box's `mins` but compares the running offsets with the box's
   * extents (its width and height), not with its `maxs`.
   */
  method SplitExtended(self: AABB, splittedSize: Vec2) returns (splittedAabbs: seq<AABB>)
    requires RasterTerminates(self.mins, Extents(self), ClampedSize(self, splittedSize))
    ensures splittedAabbs == RasterTiles(self.mins, Extents(self), ClampedSize(self, splittedSize))
  {
    var size := splittedSize;
    var width := Extents(self).x;
    var height := Extents(self).y;
    if width <= size.x {
      size := size.(x := width);
    }
    if height <= size.y {
      size := size.(y := height);
    }
    splittedAabbs := RasterScan(self.mins, Vec2(width, height), size);
  }

  /** A box whose `mins` lie at or beyond its extents on some axis is split into no tiles at all. */
  lemma SplitExtendedEmptyAwayFromOrigin(b: AABB, splittedSize: Vec2)
    requires b.mins.x >= Extents(b).x || b.mins.y >= Extents(b).y
    requires RasterTerminates(b.mins, Extents(b), ClampedSize(b, splittedSize))
    ensures RasterTiles(b.mins, Extents(b), ClampedSize(b, splittedSize)) == []
  {
    RasterRowsLength(b.mins, ClampedSize(b, splittedSize), Steps(b.mins.y, Extents(b).y, ClampedSize(b, splittedSize).y),
      if b.mins.y >= Extents(b).y then 0 else Steps(b.mins.x, Extents(b).x, ClampedSize(b, splittedSize).x));
  }

  /** The box from (10, 10) to (20, 20) cut into 5 by 5 tiles: no tiles, although the box holds (15, 15). */
  lemma SplitExtendedMissesBox()
    ensures var b := AABB(Vec2(10.0, 10.0), Vec2(20.0, 20.0));
      && RasterTerminates(b.mins, Extents(b), ClampedSize(b, Vec2(5.0, 5.0)))
      && RasterTiles(b.mins, Extents(b), ClampedSize(b, Vec2(5.0, 5.0))) == []
      && ContainsPoint(b, Vec2(15.0, 15.0))
  {
    var b := AABB(Vec2(10.0, 10.0), Vec2(20.0, 20.0));
    SplitExtendedEmptyAwayFromOrigin(b, Vec2(5.0, 5.0));
  }

  /** For a box anchored at the origin the extents are the `maxs`, so the written and intended scans agree. */
  lemma SplitExtendedAgreesAtOrigin(b: AABB, splittedSize: Vec2)
    requires b.mins == Zero() && RasterTerminates(b.mins, Extents(b), ClampedSize(b, splittedSize))
    ensures RasterTiles(b.mins, Extents(b), ClampedSize(b, splittedSize))
            == RasterTiles(b.mins, b.maxs, ClampedSize(b, splittedSize))
  {
    assert Extents(b) == b.maxs;
  }

  /** `split_extended` as evidently intended: the offsets are compared with the box's `maxs`. */
  method SplitExtendedIntended(self: AABB, splittedSize: Vec2) returns (splittedAabbs: seq<AABB>)
    requires RasterTerminates(self.mins, self.maxs, ClampedSize(self, splittedSize))
    ensures splittedAabbs == RasterTiles(self.mins, self.maxs, ClampedSize(self, splittedSize))
  {
    var size := splittedSize;
    var width := Extents(self).x;
    var height := Extents(self).y;
    if width <= size.x {
      size := size.(x := width);
    }
    if height <= size.y {
      size := size.(y := height);
    }
    splittedAabbs := RasterScan(self.mins, self.maxs, size);
  }

  /**
   * The flat box from (0, -5) to (10, -5) cut into 5 by 5 tiles: its zero height clamps the row step to 0, so
   * `split_extended` as written compares the row offset -5 with the height 0 on every row and never returns.
   */
  lemma SplitExtendedHangsOnFlatBox()
    ensures var b := AABB(Vec2(0.0, -5.0), Vec2(10.0, -5.0));
      && ClampedSize(b, Vec2(5.0, 5.0)).y == 0.0
      && !RasterTerminates(b.mins, Extents(b), ClampedSize(b, Vec2(5.0, 5.0)))
      && forall r: nat :: Offset(b.mins.y, ClampedSize(b, Vec2(5.0, 5.0)).y, r) < Extents(b).y
  {
    var b := AABB(Vec2(0.0, -5.0), Vec2(10.0, -5.0));
    forall r: nat ensures Offset(b.mins.y, ClampedSize(b, Vec2(5.0, 5.0)).y, r) < Extents(b).y {
      OffsetClosed(b.mins.y, 0.0, r);
    }
  }

  /** The corrected `split_extended` ends on every box, flat or inverted ones included, for any positive size. */
  lemma SplitExtendedIntendedTerminates(b: AABB, splittedSize: Vec2)
    requires splittedSize.x > 0.0 && splittedSize.y > 0.0
    ensures RasterTerminates(b.mins, b.maxs, ClampedSize(b, splittedSize))
  {
  }

  /** Along one axis, some step of a scan from `o` to `l` reaches every point between them. */
  lemma AxisStepCovers(o: real, l: real, s: real, p: real) returns (c: nat)
    requires s > 0.0 && o < l && o <= p <= l
    ensures c < Steps(o, l, s)
    ensures Offset(o, s, c) <= p <= Offset(o, s, c) + s
  {
    var q := (l - o) / s;
    CeilBounds(q);
    var S := Steps(o, l, s);
    var f := ((p - o) / s).Floor;
    FloorDivBounds(p - o, s);
    DivNonNegative(p - o, s);
    if f < S {
      c := f;
      MulSucc(f, s);
    } else {
      c := S - 1;
      LastStepCovers(o, l, s, p, q, S, f);
    }
    OffsetClosed(o, s, c);
  }

  lemma MulSucc(n: int, s: real)
    ensures (n + 1) as real * s == n as real * s + s
  {
  }

  /** When the floor overshoots the step count, the last step still holds the point. */
  lemma LastStepCovers(o: real, l: real, s: real, p: real, q: real, S: nat, f: int)
    requires s > 0.0 && q == (l - o) / s && q <= S as real && 1 <= S <= f
    requires f as real * s <= p - o && p <= l
    ensures o + (S - 1) as real * s <= p <= o + (S - 1) as real * s + s
  {
    RealMulMonotone(s, (S - 1) as real, f as real);
    RealMulMonotone(s, q, S as real);
    assert q * s == l - o;
    MulSucc(S - 1, s);
  }

  /** A raster scan with positive steps over a non-empty span covers every point of the span. */
  lemma RasterCovers(origin: Vec2, limit: Vec2, step: Vec2, p: Vec2)
    requires step.x > 0.0 && step.y > 0.0 && origin.x < limit.x && origin.y < limit.y
    requires Le(origin, p) && Le(p, limit)
    ensures RasterTerminates(origin, limit, step)
    ensures exists t :: t in RasterTiles(origin, limit, step) && ContainsPoint(t, p)
  {
    var c := AxisStepCovers(origin.x, limit.x, step.x, p.x);
    var r := AxisStepCovers(origin.y, limit.y, step.y, p.y);
    var rows, cols := Steps(origin.y, limit.y, step.y), Steps(origin.x, limit.x, step.x);
    RasterRowsHas(origin, step, rows, cols, r, c);
    assert ContainsPoint(RasterTile(origin, step, r, c), p);
  }

  /** The intended `split_extended` of a box with positive extents and a positive size covers the box. */
  lemma SplitExtendedIntendedCovers(b: AABB, splittedSize: Vec2, p: Vec2)
    requires Extents(b).x > 0.0 && Extents(b).y > 0.0 && splittedSize.x > 0.0 && splittedSize.y > 0.0
    requires ContainsPoint(b, p)
    ensures RasterTerminates(b.mins, b.maxs, ClampedSize(b, splittedSize))
    ensures exists t :: t in RasterTiles(b.mins, b.maxs, ClampedSize(b, splittedSize)) && ContainsPoint(t, p)
  {
    RasterCovers(b.mins, b.maxs, ClampedSize(b, splittedSize), p);
  }

  /** Every tile of a scan has the (clamped) tile size. */
  lemma RasterTilesSized(origin: Vec2, limit: Vec2, step: Vec2, t: AABB)
    requires RasterTerminates(origin, limit, step) && t in RasterTiles(origin, limit, step)
    ensures Extents(t) == step
  {
    var rows := Steps(origin.y, limit.y, step.y);
    var cols := if rows == 0 then 0 else Steps(origin.x, limit.x, step.x);
    RasterRowsSized(origin, step, rows, cols);
  }

  lemma {:induction false} RasterRowsSized(origin: Vec2, step: Vec2, rows: nat, cols: nat)
    ensures forall t :: t in RasterRows(origin, step, rows, cols) ==> Extents(t) == step
  {
    if rows > 0 {
      RasterRowsSized(origin, step, rows - 1, cols);
      RasterRowSized(origin, step, rows - 1, cols);
    }
  }

  lemma {:induction false} RasterRowSized(origin: Vec2, step: Vec2, r: nat, c: nat)
    ensures forall t :: t in RasterRow(origin, step, r, c) ==> Extents(t) == step
  {
    if c > 0 {
      RasterRowSized(origin, step, r, c - 1);
    }
  }

  // ---------------------------------------------------------------------------------------------
  // split_extended_origin_aligned

  const U32_MAX: nat := 0xFFFF_FFFF

  /** Rust's saturating `as u32` conversion of an integral float. */
  function AsU32(x: int): (r: nat)
    ensures r <= U32_MAX
    ensures 0 <= x <= U32_MAX ==> r == x
    ensures x < 0 ==> r == 0
  {
    if x < 0 then 0 else if x > U32_MAX then U32_MAX else x
  }

  /** The clamped size has no zero component, so the divisions below are by non-zero values. */
  predicate AlignedSplittable(b: AABB, splittedSize: Vec2) {
    ClampedSize(b, splittedSize).x != 0.0 && ClampedSize(b, splittedSize).y != 0.0
  }

  function AlignedColumns(b: AABB, splittedSize: Vec2): nat
    requires AlignedSplittable(b, splittedSize)
  {
    AsU32(Ceil(Extents(b).x / ClampedSize(b, splittedSize).x))
  }

  function AlignedRows(b: AABB, splittedSize: Vec2): nat
    requires AlignedSplittable(b, splittedSize)
  {
    AsU32(Ceil(Extents(b).y / ClampedSize(b, splittedSize).y))
  }

  /** The box's `mins` rounded down to multiples of the tile size. */
  function AlignedOffset(b: AABB, splittedSize: Vec2): Vec2
    requires AlignedSplittable(b, splittedSize)
  {
    var s := ClampedSize(b, splittedSize);
    Vec2((b.mins.x / s.x).Floor as real * s.x, (b.mins.y / s.y).Floor as real * s.y)
  }

  /** The `(rows + 1) * (columns + 1)` tiles of `split_extended_origin_aligned`, row by row. */
  function AlignedTiles(b: AABB, splittedSize: Vec2): seq<AABB>
    requires AlignedSplittable(b, splittedSize)
  {
    RasterRows(AlignedOffset(b, splittedSize), ClampedSize(b, splittedSize),
               AlignedRows(b, splittedSize) + 1, AlignedColumns(b, splittedSize) + 1)
  }

  method SplitExtendedOriginAligned(self: AABB, splittedSize: Vec2) returns (splittedAabbs: seq<AABB>)
    requires AlignedSplittable(self, splittedSize)
    ensures splittedAabbs == AlignedTiles(self, splittedSize)
  {
    var size := splittedSize;
    var width := Extents(self).x;
    var height := Extents(self).y;
    if width <= size.x {
      size := size.(x := width);
    }
    if height <= size.y {
      size := size.(y := height);
    }
    assert size == ClampedSize(self, splittedSize);
    var nColumns := AsU32(Ceil(Extents(self).x / size.x));
    var nRows := AsU32(Ceil(Extents(self).y / size.y));
    var offset := Vec2((self.mins.x / size.x).Floor as real * size.x, (self.mins.y / size.y).Floor as real * size.y);
    assert nColumns == AlignedColumns(self, splittedSize) && nRows == AlignedRows(self, splittedSize);
    assert offset == AlignedOffset(self, splittedSize);
    splittedAabbs := PushAlignedRows(offset, size, nRows, nColumns);
  }

  /** The nested loops of `split_extended_origin_aligned`: rows `0..=nRows`, each of columns `0..=nColumns`. */
  method PushAlignedRows(offset: Vec2, size: Vec2, nRows: nat, nColumns: nat) returns (splittedAabbs: seq<AABB>)
    ensures splittedAabbs == RasterRows(offset, size, nRows + 1, nColumns + 1)
  {
    splittedAabbs := [];
    for currentRow := 0 to nRows + 1
      invariant splittedAabbs == RasterRows(offset, size, currentRow, nColumns + 1)
    {
      for currentColumn := 0 to nColumns + 1
        invariant splittedAabbs == RasterRows(offset, size, currentRow, nColumns + 1)
                                 + RasterRow(offset, size, currentRow, currentColumn)
      {
        var mins := Vec2(offset.x + currentColumn as real * size.x, offset.y + currentRow as real * size.y);
        var maxs := Add(mins, size);
        AlignedTileAt(offset, size, currentRow, currentColumn);
        splittedAabbs := splittedAabbs + [AABB(mins, maxs)];
        assert RasterRow(offset, size, currentRow, currentColumn + 1)
            == RasterRow(offset, size, currentRow, currentColumn) + [RasterTile(offset, size, currentRow, currentColumn)];
      }
      assert RasterRows(offset, size, currentRow + 1, nColumns + 1)
          == RasterRows(offset, size, currentRow, nColumns + 1) + RasterRow(offset, size, currentRow, nColumns + 1);
    }
  }

  /** The tile computed from the row and column by multiplication is the scan's tile. */
  lemma AlignedTileAt(offset: Vec2, size: Vec2, r: nat, c: nat)
    ensures var mins := Vec2(offset.x + c as real * size.x, offset.y + r as real * size.y);
      AABB(mins, Add(mins, size)) == RasterTile(offset, size, r, c)
  {
    OffsetClosed(offset.x, size.x, c);
    OffsetClosed(offset.y, size.y, r);
  }

  lemma AlignedTilesCount(b: AABB, splittedSize: Vec2)
    requires AlignedSplittable(b, splittedSize)
    ensures |AlignedTiles(b, splittedSize)| == (AlignedRows(b, splittedSize) + 1) * (AlignedColumns(b, splittedSize) + 1)
  {
    RasterRowsLength(AlignedOffset(b, splittedSize), ClampedSize(b, splittedSize),
                     AlignedRows(b, splittedSize) + 1, AlignedColumns(b, splittedSize) + 1);
  }

  /** Tile `(r, c)` of `split_extended_origin_aligned`. */
  function AlignedTile(b: AABB, splittedSize: Vec2, r: nat, c: nat): AABB
    requires AlignedSplittable(b, splittedSize)
  {
    RasterTile(AlignedOffset(b, splittedSize), ClampedSize(b, splittedSize), r, c)
  }

  /** Tile `(r, c)` sits at index `r * (columns + 1) + c`. */
  lemma AlignedTileIndex(b: AABB, splittedSize: Vec2, r: nat, c: nat)
    requires AlignedSplittable(b, splittedSize)
    requires r <= AlignedRows(b, splittedSize) && c <= AlignedColumns(b, splittedSize)
    ensures r * (AlignedColumns(b, splittedSize) + 1) + c < |AlignedTiles(b, splittedSize)|
    ensures AlignedTiles(b, splittedSize)[r * (AlignedColumns(b, splittedSize) + 1) + c] == AlignedTile(b, splittedSize, r, c)
  {
    RasterRowsHas(AlignedOffset(b, splittedSize), ClampedSize(b, splittedSize),
                  AlignedRows(b, splittedSize) + 1, AlignedColumns(b, splittedSize) + 1, r, c);
  }

  lemma MultipleShift(f: int, c: int, s: real)
    ensures (f + c) as real * s == f as real * s + c as real * s
  {
  }

  /**
   * Every aligned tile has the clamped size and starts at whole multiples of it, so the tile corners lie on a
   * grid through the origin.
   */
  lemma AlignedTileOnOriginGrid(b: AABB, splittedSize: Vec2, r: nat, c: nat)
    requires AlignedSplittable(b, splittedSize)
    ensures var s := ClampedSize(b, splittedSize);
      && AlignedTile(b, splittedSize, r, c).mins == Vec2(((b.mins.x / s.x).Floor + c) as real * s.x,
                                                         ((b.mins.y / s.y).Floor + r) as real * s.y)
      && Extents(AlignedTile(b, splittedSize, r, c)) == s
  {
    var s, off := ClampedSize(b, splittedSize), AlignedOffset(b, splittedSize);
    OffsetClosed(off.x, s.x, c);
    OffsetClosed(off.y, s.y, r);
    MultipleShift((b.mins.x / s.x).Floor, c, s.x);
    MultipleShift((b.mins.y / s.y).Floor, r, s.y);
  }

  /** Along one axis, some aligned tile of a span of positive width reaches every point of the span. */
  lemma AxisAlignedCovers(m: real, W: real, s: real, off: real, p: real) returns (c: nat)
    requires s > 0.0 && W > 0.0 && m <= p <= m + W && off <= m < off + s
    ensures c <= Ceil(W / s)
    ensures Offset(off, s, c) <= p <= Offset(off, s, c) + s
  {
    var cf := ((p - off) / s).Floor;
    FloorDivBounds(p - off, s);
    assert (p - off) / s >= 0.0;
    c := cf;
    CountBound(W, s, c, p - off);
    OffsetClosed(off, s, c);
  }

  /** A count `c` with `c * s <= d < W + s` is at most `ceil(W / s)`. */
  lemma CountBound(W: real, s: real, c: int, d: real)
    requires s > 0.0 && c as real * s <= d < W + s
    ensures c <= Ceil(W / s)
  {
    CeilBounds(W / s);
    if c > Ceil(W / s) {
      assert (c - 1) as real >= W / s;
      RealMulMonotone(s, W / s, (c - 1) as real);
    }
  }

  /** The aligned offset lies within one tile below the box's `mins`. */
  lemma AlignedOffsetBelow(b: AABB, splittedSize: Vec2)
    requires AlignedSplittable(b, splittedSize) && ClampedSize(b, splittedSize).x > 0.0 && ClampedSize(b, splittedSize).y > 0.0
    ensures var s, off := ClampedSize(b, splittedSize), AlignedOffset(b, splittedSize);
      off.x <= b.mins.x < off.x + s.x && off.y <= b.mins.y < off.y + s.y
  {
    var s := ClampedSize(b, splittedSize);
    FloorDivBounds(b.mins.x, s.x);
    FloorDivBounds(b.mins.y, s.y);
  }

  /** For a positive size and extents within `u32` counts, the counts are the exact ceilings. */
  lemma AlignedCounts(b: AABB, splittedSize: Vec2)
    requires ClampedSize(b, splittedSize).x > 0.0 && ClampedSize(b, splittedSize).y > 0.0
    requires Extents(b).x > 0.0 && Extents(b).y > 0.0
    requires Ceil(Extents(b).x / ClampedSize(b, splittedSize).x) <= U32_MAX
    requires Ceil(Extents(b).y / ClampedSize(b, splittedSize).y) <= U32_MAX
    ensures AlignedColumns(b, splittedSize) == Ceil(Extents(b).x / ClampedSize(b, splittedSize).x)
    ensures AlignedRows(b, splittedSize) == Ceil(Extents(b).y / ClampedSize(b, splittedSize).y)
  {
    var s := ClampedSize(b, splittedSize);
    PositiveRatio(Extents(b).x, s.x);
    PositiveRatio(Extents(b).y, s.y);
  }

  lemma PositiveRatio(W: real, s: real)
    requires W > 0.0 && s > 0.0
    ensures Ceil(W / s) >= 1
  {
    CeilBounds(W / s);
  }

  /** The aligned tile holding a point of a box with positive extents and size. */
  lemma AlignedCell(b: AABB, splittedSize: Vec2, p: Vec2) returns (r: nat, c: nat)
    requires Extents(b).x > 0.0 && Extents(b).y > 0.0 && splittedSize.x > 0.0 && splittedSize.y > 0.0
    requires Ceil(Extents(b).x / ClampedSize(b, splittedSize).x) <= U32_MAX
    requires Ceil(Extents(b).y / ClampedSize(b, splittedSize).y) <= U32_MAX
    requires ContainsPoint(b, p)
    ensures AlignedSplittable(b, splittedSize)
    ensures r <= AlignedRows(b, splittedSize) && c <= AlignedColumns(b, splittedSize)
    ensures ContainsPoint(AlignedTile(b, splittedSize, r, c), p)
  {
    var s, off := ClampedSize(b, splittedSize), AlignedOffset(b, splittedSize);
    AlignedCounts(b, splittedSize);
    AlignedOffsetBelow(b, splittedSize);
    c := AxisAlignedCovers(b.mins.x, Extents(b).x, s.x, off.x, p.x);
    r := AxisAlignedCovers(b.mins.y, Extents(b).y, s.y, off.y, p.y);
  }

  /** With positive extents and size (and counts within `u32`), the aligned tiles cover the box. */
  lemma AlignedTilesCover(b: AABB, splittedSize: Vec2, p: Vec2)
    requires Extents(b).x > 0.0 && Extents(b).y > 0.0 && splittedSize.x > 0.0 && splittedSize.y > 0.0
    requires Ceil(Extents(b).x / ClampedSize(b, splittedSize).x) <= U32_MAX
    requires Ceil(Extents(b).y / ClampedSize(b, splittedSize).y) <= U32_MAX
    requires ContainsPoint(b, p)
    ensures AlignedSplittable(b, splittedSize)
    ensures exists t :: t in AlignedTiles(b, splittedSize) && ContainsPoint(t, p)
  {
    var r, c := AlignedCell(b, splittedSize, p);
    AlignedTileIndex(b, splittedSize, r, c);
  }
}
