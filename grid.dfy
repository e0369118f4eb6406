/** Grid addressing: each monitor is split into at most 676 cells, row-major,
    labelled by a monitor prefix letter and a base-26 letter pair; each cell
    has a 3x3 set of sub-points addressed by a fourth letter a-h. */
module Grid {
  import opened Geometry
  import opened Wrappers

  const TargetCellSizeDip: int := 86
  const DefaultDpi: int := 96
  /** Two-letter codes aa..zz give 26 * 26 cells per monitor. */
  const MaxCells: int := 676
  /** Monitor prefixes are 'a' + index; beyond this they would leave the
      range of characters this model uses. */
  const MaxMonitors: int := 0xD700
  const SubLabels: string := "abcdefgh"

  /** A display: its bounds in virtual-desktop coordinates and its effective
      horizontal DPI. */
  datatype Monitor = Monitor(bounds: Rect, dpiX: nat)

  datatype GridCell = GridCell(rect: Rect, lbl: string, center: Point,
                               subPoints: seq<Point>, gridRow: int, gridCol: int)

  /** Per-monitor sizes: columns and rows after the cap, cell and sub-cell sizes. */
  datatype Layout = Layout(cols: int, rows: int, cellW: int, cellH: int, subW: int, subH: int)

  /** C++ integer division by a positive divisor, which truncates toward zero. */
  function CDiv(a: int, b: int): int
    requires b > 0
  {
    if a >= 0 then a / b else -((-a) / b)
  }

  // ---------------------------------------------------------------------
  // Labels

  /** The prefix letter of the monitor enumerated at position i. */
  function Prefix(i: nat): (c: char)
    requires i < MaxMonitors
    ensures c as int == 'a' as int + i
  {
    (97 + i) as char
  }

  function Letter(i: int): char
    requires 0 <= i < 26
  {
    (97 + i) as char
  }

  /** A cell label: the monitor prefix followed by two letters, or only the
      prefix when the index is past the 676 two-letter codes. */
  function GenerateLabel(prefix: char, index: nat): (lbl: string)
    ensures |lbl| >= 1 && lbl[0] == prefix
    ensures |lbl| == 3 <==> index < MaxCells
    ensures index >= MaxCells ==> lbl == [prefix]
  {
    var first, second := index / 26, index % 26;
    if first < 26 then [prefix, Letter(first), Letter(second)] else [prefix]
  }

  /** The cell index that a three-letter label names. */
  function LabelIndex(lbl: string): int
    requires |lbl| == 3
  {
    (lbl[1] as int - 97) * 26 + (lbl[2] as int - 97)
  }

  /** Reading a generated label back gives the index it was made from, so
      distinct indices below 676 give distinct labels. */
  lemma LabelRoundTrip(prefix: char, index: nat)
    requires index < MaxCells
    ensures |GenerateLabel(prefix, index)| == 3
    ensures LabelIndex(GenerateLabel(prefix, index)) == index
    ensures 'a' <= GenerateLabel(prefix, index)[1] <= 'z' && 'a' <= GenerateLabel(prefix, index)[2] <= 'z'
  {
  }

  lemma LabelsDistinct(prefix: char, i: nat, j: nat)
    requires i < MaxCells && j < MaxCells && i != j
    ensures GenerateLabel(prefix, i) != GenerateLabel(prefix, j)
  {
    LabelRoundTrip(prefix, i);
    LabelRoundTrip(prefix, j);
  }

  // ---------------------------------------------------------------------
  // Sub-points

  /** Sub-point index for a fourth letter: a-d are 0-3, e-h are 5-8 (4, the
      middle, is skipped), anything else gives 4. */
  function GetSubPointIndex(ch: char): (idx: int)
    ensures 0 <= idx <= 8
    ensures idx == 4 <==> !('a' <= ch <= 'h')
  {
    if 'a' <= ch <= 'd' then ch as int - 'a' as int
    else if 'e' <= ch <= 'h' then ch as int - 'a' as int + 1
    else 4
  }

  /** The letter drawn in sub-cell s (0-8, not 4) when the grid is painted:
      the sub-cells are visited row by row, skipping the middle one, and take
      the letters of "abcdefgh" in turn. */
  function SubLabelOf(s: int): char
    requires 0 <= s <= 8 && s != 4
  {
    if s < 4 then SubLabels[s] else SubLabels[s - 1]
  }

  /** Typing the letter drawn in a sub-cell selects that sub-cell, and each of
      a-h selects the sub-cell it is drawn in: the two maps are inverse. */
  lemma SubLabelRoundTrip(s: int, ch: char)
    requires 0 <= s <= 8 && s != 4
    ensures GetSubPointIndex(SubLabelOf(s)) == s
    ensures 'a' <= ch <= 'h' ==> SubLabelOf(GetSubPointIndex(ch)) == ch
  {
  }

  /** Different letters a-h select different sub-points. */
  lemma SubPointIndexInjective(c1: char, c2: char)
    requires 'a' <= c1 <= 'h' && 'a' <= c2 <= 'h' && c1 != c2
    ensures GetSubPointIndex(c1) != GetSubPointIndex(c2)
  {
    SubLabelRoundTrip(0, c1);
    SubLabelRoundTrip(0, c2);
  }

  // ---------------------------------------------------------------------
  // Column and row counts

  /** Target cell size in pixels for a monitor of the given DPI. */
  function TargetCellPx(dpi: nat): int {
    TargetCellSizeDip * dpi / DefaultDpi
  }

  /** Where the shrink loop ends, in closed form: the side that is at most 26
      and not the longer one stays, the other is cut to fit 676 cells; when
      both exceed 26 the grid ends 26 x 26. */
  function CappedDims(c0: int, r0: int): (int, int)
    requires c0 >= 1 && r0 >= 1
  {
    if c0 <= 26 && c0 <= r0 then (c0, Min(r0, MaxCells / c0))
    else if r0 <= 26 then (Min(c0, MaxCells / r0), r0)
    else (26, 26)
  }

  /** One iteration of the shrink loop: the larger side loses one, rows on a tie. */
  function ShrinkStep(cols: int, rows: int): (int, int) {
    if cols > rows then (cols - 1, rows) else (cols, rows - 1)
  }

  lemma {:induction false} CappedDimsStep(c: int, r: int)
    requires c >= 1 && r >= 1 && c * r > MaxCells
    ensures ShrinkStep(c, r).0 >= 1 && ShrinkStep(c, r).1 >= 1
    ensures CappedDims(ShrinkStep(c, r).0, ShrinkStep(c, r).1) == CappedDims(c, r)
  {
    if c > r {
      if r <= 26 {
        assert c > MaxCells / r by { DivBelow(MaxCells, r, c); }
        if c - 1 == r {
          assert r * (r + 1) > MaxCells;
          assert r == 26;
        }
      }
    } else {
      if c <= 26 {
        assert r > MaxCells / c by { DivBelow(MaxCells, c, r); }
      } else if c == r && r == 27 {
        assert MaxCells / 26 == 26;
      }
    }
  }

  /** a / b < c when a < b * c. */
  lemma DivBelow(a: int, b: int, c: int)
    requires a >= 0 && b > 0 && b * c > a
    ensures a / b < c
  {
  }

  /** The closed form is a fixed point once the cap holds. */
  lemma CappedDimsFixed(c: int, r: int)
    requires c >= 1 && r >= 1 && c * r <= MaxCells
    ensures CappedDims(c, r) == (c, r)
  {
    if c <= 26 && c <= r {
      DivAtLeast(MaxCells, c, r);
    } else if r <= 26 {
      DivAtLeast(MaxCells, r, c);
    }
  }

  /** c <= a / b when b * c <= a. */
  lemma DivAtLeast(a: int, b: int, c: int)
    requires a >= 0 && b > 0 && c * b <= a
    ensures c <= a / b
  {
    var q := a / b;
    assert a == q * b + a % b && a % b < b;
    assert c * b < (q + 1) * b;
    MulCancelLess(c, q + 1, b);
  }

  lemma MulCancelLess(x: int, y: int, b: int)
    requires b > 0 && x * b < y * b
    ensures x < y
  {
  }

  /** The shrink loop: while the grid has more than 676 cells, decrement the
      larger dimension (rows on a tie). */
  method CapGrid(c0: int, r0: int) returns (cols: int, rows: int)
    requires c0 >= 1 && r0 >= 1
    ensures (cols, rows) == CappedDims(c0, r0)
  {
    cols, rows := c0, r0;
    while cols * rows > MaxCells
      invariant cols >= 1 && rows >= 1
      invariant CappedDims(cols, rows) == CappedDims(c0, r0)
      decreases cols + rows
    {
      CappedDimsStep(cols, rows);
      if cols > rows { cols := cols - 1; } else { rows := rows - 1; }
    }
    CappedDimsFixed(cols, rows);
  }

  /** What the cap guarantees: both sides at least 1 and at most their
      starting values, at most 676 cells, nothing changed when the grid
      already fits, and never shrunk further than needed. */
  lemma CappedDimsSpec(c0: int, r0: int)
    requires c0 >= 1 && r0 >= 1
    ensures var (c, r) := CappedDims(c0, r0);
      1 <= c <= c0 && 1 <= r <= r0 && c * r <= MaxCells &&
      (c0 * r0 <= MaxCells ==> c == c0 && r == r0) &&
      (c0 * r0 > MaxCells ==> (c + 1) * r > MaxCells || c * (r + 1) > MaxCells)
  {
    if c0 * r0 <= MaxCells {
      CappedDimsFixed(c0, r0);
    } else if c0 <= 26 && c0 <= r0 {
      CutToFit(c0, r0);
    } else if r0 <= 26 {
      CutToFit(r0, c0);
    }
  }

  /** Cutting the other side of a k-wide grid to 676 / k cells: at least one,
      smaller than before, fits, and one more would not. */
  lemma CutToFit(k: int, other: int)
    requires 1 <= k <= 26 && other >= 1 && k * other > MaxCells
    ensures 1 <= MaxCells / k < other
    ensures k * (MaxCells / k) <= MaxCells && (MaxCells / k) * k <= MaxCells
    ensures k * (MaxCells / k + 1) > MaxCells && (MaxCells / k + 1) * k > MaxCells
  {
    var q := MaxCells / k;
    DivBelow(MaxCells, k, other);
    DivAtLeast(MaxCells, k, 1);
    assert MaxCells == q * k + MaxCells % k && 0 <= MaxCells % k < k;
    assert (q + 1) * k == q * k + k;
  }

  // ---------------------------------------------------------------------
  // Cells

  /** Monitors the grid can be built for: the DPI gives a target cell of at
      least one pixel (the column and row counts are divided by it), and the
      prefix letters stay within range. */
  predicate ValidMonitors(ms: seq<Monitor>) {
    |ms| < MaxMonitors && forall i :: 0 <= i < |ms| ==> TargetCellPx(ms[i].dpiX) >= 1
  }

  function LayoutOf(m: Monitor): (lay: Layout)
    requires TargetCellPx(m.dpiX) >= 1
    ensures lay.cols >= 1 && lay.rows >= 1 && lay.cols * lay.rows <= MaxCells
  {
    var w, h := m.bounds.right - m.bounds.left, m.bounds.bottom - m.bounds.top;
    var t := TargetCellPx(m.dpiX);
    var c0, r0 := Max(1, CDiv(w, t)), Max(1, CDiv(h, t));
    CappedDimsSpec(c0, r0);
    var (cols, rows) := CappedDims(c0, r0);
    var cw, ch := CDiv(w, cols), CDiv(h, rows);
    Layout(cols, rows, cw, ch, CDiv(cw, 3), CDiv(ch, 3))
  }

  /** Sub-point k (row k / 3, column k % 3) of a cell whose top-left corner is
      (left, top): the middle of the k-th sub-cell of size subW x subH. */
  function SubPoint(left: int, top: int, subW: int, subH: int, k: int): Point {
    Point(left + (k % 3) * subW + CDiv(subW, 2), top + (k / 3) * subH + CDiv(subH, 2))
  }

  function SubPointsOf(left: int, top: int, subW: int, subH: int): seq<Point> {
    seq(9, k => SubPoint(left, top, subW, subH, k))
  }

  /** The cell at (row, col) of a monitor, whose label index is index. */
  function MakeCell(m: Monitor, prefix: char, lay: Layout, row: int, col: int, index: nat): GridCell {
    var left, top := m.bounds.left + col * lay.cellW, m.bounds.top + row * lay.cellH;
    GridCell(Rect(left, top, left + lay.cellW, top + lay.cellH),
             GenerateLabel(prefix, index),
             Point(left + CDiv(lay.cellW, 2), top + CDiv(lay.cellH, 2)),
             SubPointsOf(left, top, lay.subW, lay.subH),
             row, col)
  }

  /** The cells of one monitor, row-major: cell k sits at row k / cols,
      column k % cols, and carries label index k. */
  function MonitorCells(m: Monitor, prefix: char): seq<GridCell>
    requires TargetCellPx(m.dpiX) >= 1
  {
    CellsOf(m, prefix, LayoutOf(m))
  }

  function CellsOf(m: Monitor, prefix: char, lay: Layout): seq<GridCell>
    requires lay.cols >= 1 && lay.rows >= 1
  {
    seq(lay.cols * lay.rows, k requires 0 <= k => CellAt(m, prefix, lay, k))
  }

  /** Cell k of a monitor: row k / cols, column k % cols, label index k. */
  function CellAt(m: Monitor, prefix: char, lay: Layout, k: nat): GridCell
    requires lay.cols >= 1
  {
    MakeCell(m, prefix, lay, k / lay.cols, k % lay.cols, k)
  }

  /** The cells of all monitors, in enumeration order. */
  function AllCells(ms: seq<Monitor>): seq<GridCell>
    requires ValidMonitors(ms)
  {
    if ms == [] then []
    else AllCells(ms[..|ms| - 1]) + MonitorCells(ms[|ms| - 1], Prefix(|ms| - 1))
  }

  /** label -> center, built by inserting the cells in order (a later cell
      with the same label would overwrite an earlier one). */
  function LabelMap(cells: seq<GridCell>): map<string, Point> {
    if cells == [] then map[]
    else LabelMap(cells[..|cells| - 1])[cells[|cells| - 1].lbl := cells[|cells| - 1].center]
  }

  predicate DistinctLabels(cells: seq<GridCell>) {
    forall i, j :: 0 <= i < j < |cells| ==> cells[i].lbl != cells[j].lbl
  }

  // ---------------------------------------------------------------------
  // Building

  lemma RowMajor(row: int, col: int, cols: int)
    requires 0 <= row && 0 <= col < cols
    ensures (row * cols + col) / cols == row && (row * cols + col) % cols == col
  {
    var k := row * cols + col;
    var q, r := k / cols, k % cols;
    assert k == q * cols + r && 0 <= r < cols;
    assert q * cols < (row + 1) * cols;
    MulCancelLess(q, row + 1, cols);
    assert row * cols < (q + 1) * cols;
    MulCancelLess(row, q + 1, cols);
  }

  /** The nine sub-points of a cell, row by row. */
  method ComputeSubPoints(left: int, top: int, subW: int, subH: int) returns (pts: seq<Point>)
    ensures pts == SubPointsOf(left, top, subW, subH)
  {
    pts := [];
    for sy := 0 to 3
      invariant |pts| == sy * 3
      invariant forall k :: 0 <= k < |pts| ==> pts[k] == SubPoint(left, top, subW, subH, k)
    {
      for sx := 0 to 3
        invariant |pts| == sy * 3 + sx
        invariant forall k :: 0 <= k < |pts| ==> pts[k] == SubPoint(left, top, subW, subH, k)
      {
        var subIdx := sy * 3 + sx;
        pts := pts + [Point(left + sx * subW + CDiv(subW, 2), top + sy * subH + CDiv(subH, 2))];
        assert subIdx % 3 == sx && subIdx / 3 == sy;
      }
    }
  }

  /** Appends the cells of one monitor (prefix letter given) and their labels:
      the monitor's column and row counts and cell sizes, then its cells. */
  method AppendMonitorCells(mon: Monitor, prefix: char, cells0: seq<GridCell>, gridMap0: map<string, Point>)
    returns (cells: seq<GridCell>, gridMap: map<string, Point>)
    requires TargetCellPx(mon.dpiX) >= 1
    requires gridMap0 == LabelMap(cells0)
    ensures cells == cells0 + MonitorCells(mon, prefix)
    ensures gridMap == LabelMap(cells)
  {
    var monWidth := mon.bounds.right - mon.bounds.left;
    var monHeight := mon.bounds.bottom - mon.bounds.top;
    var targetCellPx := TargetCellSizeDip * mon.dpiX / DefaultDpi;
    var gridCols := Max(1, CDiv(monWidth, targetCellPx));
    var gridRows := Max(1, CDiv(monHeight, targetCellPx));
    gridCols, gridRows := CapGrid(gridCols, gridRows);
    var cellWidth := CDiv(monWidth, gridCols);
    var cellHeight := CDiv(monHeight, gridRows);
    var lay := Layout(gridCols, gridRows, cellWidth, cellHeight, CDiv(cellWidth, 3), CDiv(cellHeight, 3));
    assert lay == LayoutOf(mon);
    cells, gridMap := AppendCells(mon, prefix, lay, cells0, gridMap0);
  }

  /** The row and column loops: cells row-major, each with its label, center
      and nine sub-points, each label entered in the map. */
  method AppendCells(mon: Monitor, prefix: char, lay: Layout, cells0: seq<GridCell>, gridMap0: map<string, Point>)
    returns (cells: seq<GridCell>, gridMap: map<string, Point>)
    requires lay.cols >= 1 && lay.rows >= 1
    requires gridMap0 == LabelMap(cells0)
    ensures cells == cells0 + CellsOf(mon, prefix, lay)
    ensures gridMap == LabelMap(cells)
  {
    cells, gridMap := cells0, gridMap0;
    ghost var mine := CellsOf(mon, prefix, lay);
    var index := 0;
    for row := 0 to lay.rows
      invariant index == RowIndex(row, lay.cols)
      invariant 0 <= index <= |mine|
      invariant cells == cells0 + mine[..index]
      invariant gridMap == LabelMap(cells)
    {
      cells, gridMap, index := AppendRow(mon, prefix, lay, row, index, cells0, cells, gridMap);
    }
    RowStartBound(mon, prefix, lay, index, lay.rows);
    TakeAll(mine, index);
  }

  /** The column loop for one row, whose first cell has label index rowStart;
      returns the label index of the next row's first cell. */
  method AppendRow(mon: Monitor, prefix: char, lay: Layout, row: int, rowStart: int, base: seq<GridCell>,
                   cells0: seq<GridCell>, gridMap0: map<string, Point>)
    returns (cells: seq<GridCell>, gridMap: map<string, Point>, index: int)
    requires lay.cols >= 1 && lay.rows >= 1 && 0 <= row < lay.rows
    requires rowStart == RowIndex(row, lay.cols) && 0 <= rowStart <= |CellsOf(mon, prefix, lay)|
    requires cells0 == base + CellsOf(mon, prefix, lay)[..rowStart]
    requires gridMap0 == LabelMap(cells0)
    ensures index == RowIndex(row + 1, lay.cols) && 0 <= index <= |CellsOf(mon, prefix, lay)|
    ensures cells == base + CellsOf(mon, prefix, lay)[..index]
    ensures gridMap == LabelMap(cells)
  {
    ghost var mine := CellsOf(mon, prefix, lay);
    RowStartBound(mon, prefix, lay, rowStart, row);
    cells, gridMap := cells0, gridMap0;
    index := rowStart;
    for col := 0 to lay.cols
      invariant index == rowStart + col
      invariant cells == base + mine[..index]
      invariant gridMap == LabelMap(cells)
    {
      var cell := BuildCell(mon, prefix, lay, row, col, rowStart);
      NextPrefix(mine, base, index, cell);
      LabelMapSnoc(cells, cell);
      cells := cells + [cell];
      gridMap := gridMap[cell.lbl := cell.center];
      index := index + 1;
    }
  }

  lemma TakeAll<T>(s: seq<T>, n: int)
    requires n == |s|
    ensures s[..n] == s
  {
  }

  /** The label index of the first cell of row `row`: `row` rows of `cols`
      cells each, counted one row at a time as the loops do. */
  ghost function RowIndex(row: nat, cols: int): int {
    if row == 0 then 0 else RowIndex(row - 1, cols) + cols
  }

  lemma {:induction false} RowIndexIsProduct(row: nat, cols: int)
    ensures RowIndex(row, cols) == row * cols
  {
    if row > 0 {
      RowIndexIsProduct(row - 1, cols);
    }
  }

  /** A row's first index leaves room for the whole row; past the last row
      it is the number of cells. */
  lemma RowStartBound(m: Monitor, prefix: char, lay: Layout, index: int, row: int)
    requires lay.cols >= 1 && lay.rows >= 1 && 0 <= row <= lay.rows
    requires index == RowIndex(row, lay.cols)
    ensures 0 <= index <= |CellsOf(m, prefix, lay)|
    ensures row < lay.rows ==> index + lay.cols <= |CellsOf(m, prefix, lay)|
    ensures row == lay.rows ==> index == |CellsOf(m, prefix, lay)|
  {
    RowIndexIsProduct(row, lay.cols);
    MulLe(row, lay.rows, lay.cols);
    if row < lay.rows {
      MulLe(row + 1, lay.rows, lay.cols);
    }
  }

  /** The cell at (row, col), whose label index is rowStart + col: its
      rectangle, label, center and nine sub-points. */
  method BuildCell(mon: Monitor, prefix: char, lay: Layout, row: int, col: int, rowStart: int) returns (cell: GridCell)
    requires lay.cols >= 1 && lay.rows >= 1
    requires 0 <= row < lay.rows && 0 <= col < lay.cols
    requires rowStart == RowIndex(row, lay.cols) && 0 <= rowStart
    ensures rowStart + col < |CellsOf(mon, prefix, lay)|
    ensures cell == CellsOf(mon, prefix, lay)[rowStart + col]
  {
    CellInOrder(mon, prefix, lay, row, col, rowStart);
    var index := rowStart + col;
    var left := mon.bounds.left + col * lay.cellW;
    var top := mon.bounds.top + row * lay.cellH;
    var rect := Rect(left, top, left + lay.cellW, top + lay.cellH);
    var center := Point(left + CDiv(lay.cellW, 2), top + CDiv(lay.cellH, 2));
    var lbl := GenerateLabel(prefix, index);
    var subPoints := ComputeSubPoints(left, top, lay.subW, lay.subH);
    cell := GridCell(rect, lbl, center, subPoints, row, col);
  }

  lemma LabelMapSnoc(cs: seq<GridCell>, c: GridCell)
    ensures LabelMap(cs + [c]) == LabelMap(cs)[c.lbl := c.center]
  {
    assert (cs + [c])[..|cs|] == cs;
  }

  /** The cell built at (row, col) is the one MonitorCells puts at index
      row * cols + col. */
  lemma CellInOrder(m: Monitor, prefix: char, lay: Layout, row: int, col: int, rowStart: int)
    requires lay.cols >= 1 && lay.rows >= 1
    requires 0 <= row < lay.rows && 0 <= col < lay.cols
    requires rowStart == RowIndex(row, lay.cols) && 0 <= rowStart
    ensures rowStart + col < |CellsOf(m, prefix, lay)|
    ensures CellsOf(m, prefix, lay)[rowStart + col] == MakeCell(m, prefix, lay, row, col, rowStart + col)
  {
    var k := rowStart + col;
    RowIndexIsProduct(row, lay.cols);
    RowMajor(row, col, lay.cols);
    MulLe(row + 1, lay.rows, lay.cols);
    assert k < |CellsOf(m, prefix, lay)|;
    assert CellsOf(m, prefix, lay)[k] == CellAt(m, prefix, lay, k);
  }

  lemma NextPrefix<T>(all: seq<T>, front: seq<T>, i: nat, x: T)
    requires i < |all| && all[i] == x
    ensures front + all[..i] + [x] == front + all[..i + 1]
  {
    assert all[..i + 1] == all[..i] + [x];
  }

  lemma MulLe(a: int, b: int, c: int)
    requires a <= b && c >= 0
    ensures a * c <= b * c && c * a <= c * b
  {
  }

  /** Builds the cells of every monitor and the label -> center map. */
  method BuildGridCells(monitors: seq<Monitor>) returns (cells: seq<GridCell>, gridMap: map<string, Point>)
    requires ValidMonitors(monitors)
    ensures cells == AllCells(monitors)
    ensures gridMap == LabelMap(cells)
  {
    cells, gridMap := [], map[];
    for mi := 0 to |monitors|
      invariant ValidMonitors(monitors[..mi])
      invariant cells == AllCells(monitors[..mi])
      invariant gridMap == LabelMap(cells)
    {
      cells, gridMap := AppendMonitorCells(monitors[mi], Prefix(mi), cells, gridMap);
      assert monitors[..mi + 1][..mi] == monitors[..mi];
    }
    assert monitors[..|monitors|] == monitors;
  }

  // ---------------------------------------------------------------------
  // What the built grid guarantees

  /** Along one axis: a span [lo, lo + w) of w >= 1 pixels cut into n <= w
      parts of size cw = w / n; part i is non-empty and fits in the span,
      and its middle and its three sub-part middles (sub-part size sw) lie
      inside it. */
  lemma AxisFits(lo: int, w: int, n: int, i: int, cw: int, sw: int)
    requires 1 <= n <= w && 0 <= i < n && cw == w / n && sw == cw / 3
    ensures var start := lo + i * cw;
      lo <= start < start + cw <= lo + w &&
      start <= start + CDiv(cw, 2) < start + cw &&
      forall j :: 0 <= j < 3 ==> start <= start + j * sw + CDiv(sw, 2) < start + cw
  {
    SliceFits(w, n, i, cw);
    SubOffsetsFit(cw, sw);
  }

  /** Slice i of n equal slices of w pixels starts at i * cw >= 0 and ends
      within w. */
  lemma SliceFits(w: int, n: int, i: int, cw: int)
    requires 1 <= n <= w && 0 <= i < n && cw == w / n
    ensures cw >= 1 && 0 <= i * cw && i * cw + cw <= w
  {
    DivAtLeast(w, n, 1);
    assert w == cw * n + w % n && w % n >= 0;
    MulLe(i + 1, n, cw);
    MulLe(0, i, cw);
    assert (i + 1) * cw == i * cw + cw;
  }

  /** The middle of a slice and the middles of its three sub-slices of
      cw / 3 pixels lie inside the slice. */
  lemma SubOffsetsFit(cw: int, sw: int)
    requires cw >= 1 && sw == cw / 3
    ensures 0 <= CDiv(cw, 2) < cw
    ensures forall j :: 0 <= j < 3 ==> 0 <= j * sw + CDiv(sw, 2) < cw
  {
    assert cw == 3 * sw + cw % 3 && sw >= 0;
    forall j | 0 <= j < 3 ensures 0 <= j * sw + CDiv(sw, 2) < cw {
      if j == 0 {
      } else if j == 1 {
      } else {
        assert j * sw == 2 * sw;
      }
    }
  }

  /** Integer division of an index below cols * rows by cols gives a row
      below rows. */
  lemma RowBelow(k: int, cols: int, rows: int)
    requires cols >= 1 && 0 <= k < cols * rows
    ensures 0 <= k / cols < rows && 0 <= k % cols < cols
  {
    assert (k / cols) * cols <= k;
    MulCancelLess(k / cols, rows, cols);
  }

  /** The layout of a monitor with positive width and height: no more
      columns than pixels across, no more rows than pixels down, and cells
      of width w / cols and height h / rows. */
  lemma LayoutFits(m: Monitor)
    requires TargetCellPx(m.dpiX) >= 1 && !IsEmpty(m.bounds)
    ensures var lay, w, h := LayoutOf(m), m.bounds.right - m.bounds.left, m.bounds.bottom - m.bounds.top;
      lay.cols <= w && lay.rows <= h && lay.cellW == w / lay.cols && lay.cellH == h / lay.rows &&
      lay.subW == lay.cellW / 3 && lay.subH == lay.cellH / 3
  {
    var w, h := m.bounds.right - m.bounds.left, m.bounds.bottom - m.bounds.top;
    var t := TargetCellPx(m.dpiX);
    DimsFit(w, h, t);
    var (cols, rows) := CappedDims(Max(1, CDiv(w, t)), Max(1, CDiv(h, t)));
    assert LayoutOf(m) == Layout(cols, rows, CDiv(w, cols), CDiv(h, rows), CDiv(CDiv(w, cols), 3), CDiv(CDiv(h, rows), 3));
  }

  /** The capped column and row counts never exceed the monitor's width and
      height in pixels. */
  lemma DimsFit(w: int, h: int, t: int)
    requires w >= 1 && h >= 1 && t >= 1
    ensures var (c, r) := CappedDims(Max(1, CDiv(w, t)), Max(1, CDiv(h, t)));
      1 <= c <= w && 1 <= r <= h
  {
    var c0, r0 := Max(1, CDiv(w, t)), Max(1, CDiv(h, t));
    DivMono(w, t);
    DivMono(h, t);
    CappedDimsSpec(c0, r0);
  }

  /** A cell at (row, col) of a grid whose cells divide the monitor evenly
      is a non-empty rectangle inside the monitor holding its center and its
      nine sub-points. */
  lemma CellFits(m: Monitor, prefix: char, lay: Layout, row: int, col: int, index: nat)
    requires 0 <= row < lay.rows && 0 <= col < lay.cols
    requires lay.cols <= m.bounds.right - m.bounds.left && lay.rows <= m.bounds.bottom - m.bounds.top
    requires lay.cellW == (m.bounds.right - m.bounds.left) / lay.cols
    requires lay.cellH == (m.bounds.bottom - m.bounds.top) / lay.rows
    requires lay.subW == lay.cellW / 3 && lay.subH == lay.cellH / 3
    ensures var c := MakeCell(m, prefix, lay, row, col, index);
      !IsEmpty(c.rect) && Within(c.rect, m.bounds) && Inside(c.rect, c.center.x, c.center.y) &&
      |c.subPoints| == 9 && forall s :: 0 <= s < 9 ==> Inside(c.rect, c.subPoints[s].x, c.subPoints[s].y)
  {
    AxisFits(m.bounds.left, m.bounds.right - m.bounds.left, lay.cols, col, lay.cellW, lay.subW);
    AxisFits(m.bounds.top, m.bounds.bottom - m.bounds.top, lay.rows, row, lay.cellH, lay.subH);
    var c := MakeCell(m, prefix, lay, row, col, index);
    forall s | 0 <= s < 9 ensures Inside(c.rect, c.subPoints[s].x, c.subPoints[s].y) {
      assert c.subPoints[s] == SubPoint(c.rect.left, c.rect.top, lay.subW, lay.subH, s);
    }
  }

  /** For a monitor with positive width and height, every cell is a non-empty
      rectangle inside the monitor, and its center and all nine sub-points
      lie inside the cell. */
  lemma CellsInsideMonitor(m: Monitor, prefix: char, k: int)
    requires TargetCellPx(m.dpiX) >= 1 && !IsEmpty(m.bounds)
    requires 0 <= k < |MonitorCells(m, prefix)|
    ensures var c := MonitorCells(m, prefix)[k];
      !IsEmpty(c.rect) && Within(c.rect, m.bounds) && Inside(c.rect, c.center.x, c.center.y) &&
      |c.subPoints| == 9 && forall s :: 0 <= s < 9 ==> Inside(c.rect, c.subPoints[s].x, c.subPoints[s].y)
  {
    var lay := LayoutOf(m);
    LayoutFits(m);
    MonitorCellShape(m, prefix, k);
    RowBelow(k, lay.cols, lay.rows);
    CellFits(m, prefix, lay, k / lay.cols, k % lay.cols, k);
  }

  lemma DivMono(a: int, b: int)
    requires b >= 1
    ensures a >= 0 ==> a / b <= a
  {
    if a >= 0 {
      assert a == (a / b) * b + a % b;
      MulLe(1, b, a / b);
    }
  }

  /** Cell k of a monitor carries label index k at row k / cols, column
      k % cols; its label is three letters starting with the prefix. */
  lemma MonitorCellShape(m: Monitor, prefix: char, k: int)
    requires TargetCellPx(m.dpiX) >= 1
    requires 0 <= k < |MonitorCells(m, prefix)|
    ensures |MonitorCells(m, prefix)| == LayoutOf(m).cols * LayoutOf(m).rows <= MaxCells
    ensures var c, lay := MonitorCells(m, prefix)[k], LayoutOf(m);
      c == MakeCell(m, prefix, lay, k / lay.cols, k % lay.cols, k) &&
      c.lbl == GenerateLabel(prefix, k) && |c.lbl| == 3 && c.lbl[0] == prefix &&
      c.gridRow == k / lay.cols && c.gridCol == k % lay.cols
  {
    var lay := LayoutOf(m);
    var cells := CellsOf(m, prefix, lay);
    assert cells[k] == MakeCell(m, prefix, lay, k / lay.cols, k % lay.cols, k);
  }

  /** Labels are unique across the whole build: each is three letters, the
      first naming the monitor, and no two cells share one. */
  lemma {:induction false} AllCellsLabels(ms: seq<Monitor>)
    requires ValidMonitors(ms)
    ensures forall i :: 0 <= i < |AllCells(ms)| ==>
      |AllCells(ms)[i].lbl| == 3 && 'a' as int <= AllCells(ms)[i].lbl[0] as int < 'a' as int + |ms|
    ensures DistinctLabels(AllCells(ms))
    ensures forall i :: 0 <= i < |AllCells(ms)| ==> |AllCells(ms)[i].subPoints| == 9
  {
    if ms != [] {
      var front := ms[..|ms| - 1];
      var n := |ms| - 1;
      assert ValidMonitors(front);
      AllCellsLabels(front);
      var a, b := AllCells(front), MonitorCells(ms[n], Prefix(n));
      assert AllCells(ms) == a + b;
      forall k | 0 <= k < |b| ensures |b[k].lbl| == 3 && b[k].lbl[0] == Prefix(n) && |b[k].subPoints| == 9 {
        MonitorCellShape(ms[n], Prefix(n), k);
      }
      forall i, j | 0 <= i < j < |b| ensures b[i].lbl != b[j].lbl {
        MonitorCellShape(ms[n], Prefix(n), i);
        MonitorCellShape(ms[n], Prefix(n), j);
        LabelsDistinct(Prefix(n), i, j);
      }
      var ab := a + b;
      forall i, j | 0 <= i < j < |ab| ensures ab[i].lbl != ab[j].lbl {
        if j < |a| {
          assert ab[i] == a[i] && ab[j] == a[j];
        } else if i < |a| {
          assert ab[i].lbl[0] != ab[j].lbl[0];
        } else {
          assert ab[i] == b[i - |a|] && ab[j] == b[j - |a|];
        }
      }
    }
  }

  /** With distinct labels, the map sends each cell's label to that cell's
      center, and holds no other labels. */
  lemma LabelMapLookup(cells: seq<GridCell>)
    requires DistinctLabels(cells)
    ensures forall i :: 0 <= i < |cells| ==>
      cells[i].lbl in LabelMap(cells) && LabelMap(cells)[cells[i].lbl] == cells[i].center
    ensures forall l :: l in LabelMap(cells) ==> exists i :: 0 <= i < |cells| && cells[i].lbl == l
  {
    LabelMapValues(cells);
    LabelMapKeys(cells);
  }

  lemma {:induction false} LabelMapValues(cells: seq<GridCell>)
    requires DistinctLabels(cells)
    ensures forall i :: 0 <= i < |cells| ==>
      cells[i].lbl in LabelMap(cells) && LabelMap(cells)[cells[i].lbl] == cells[i].center
  {
    if cells != [] {
      var front := cells[..|cells| - 1];
      LabelMapValues(front);
      forall i | 0 <= i < |cells|
        ensures cells[i].lbl in LabelMap(cells) && LabelMap(cells)[cells[i].lbl] == cells[i].center
      {
        if i < |front| {
          assert cells[i] == front[i];
        }
      }
    }
  }

  lemma {:induction false} LabelMapKeys(cells: seq<GridCell>)
    ensures forall l :: l in LabelMap(cells) ==> exists i :: 0 <= i < |cells| && cells[i].lbl == l
  {
    if cells != [] {
      var front := cells[..|cells| - 1];
      LabelMapKeys(front);
      forall l | l in LabelMap(cells) ensures exists i :: 0 <= i < |cells| && cells[i].lbl == l {
        if l != cells[|cells| - 1].lbl {
          assert l in LabelMap(front);
          var i :| 0 <= i < |front| && front[i].lbl == l;
          assert cells[i].lbl == l;
        } else {
          assert cells[|cells| - 1].lbl == l;
        }
      }
    }
  }

  /** The first cell carrying lbl, if any. */
  function FirstCell(cells: seq<GridCell>, lbl: string): (r: Option<GridCell>)
    ensures r.Some? ==> r.value in cells && r.value.lbl == lbl
  {
    if cells == [] then None
    else if cells[0].lbl == lbl then Some(cells[0])
    else FirstCell(cells[1..], lbl)
  }

  /** A cell is found exactly when some cell carries the label, and what is
      found is the earliest such cell. */
  lemma {:induction false} FirstCellSpec(cells: seq<GridCell>, lbl: string)
    ensures FirstCell(cells, lbl).None? <==> forall j :: 0 <= j < |cells| ==> cells[j].lbl != lbl
    ensures FirstCell(cells, lbl).Some? ==>
      exists i :: 0 <= i < |cells| && cells[i] == FirstCell(cells, lbl).value && cells[i].lbl == lbl &&
                  forall j :: 0 <= j < i ==> cells[j].lbl != lbl
  {
    if cells != [] && cells[0].lbl != lbl {
      FirstCellSpec(cells[1..], lbl);
      if FirstCell(cells, lbl).Some? {
        var i :| 0 <= i < |cells| - 1 && cells[1..][i] == FirstCell(cells, lbl).value && cells[1..][i].lbl == lbl &&
                 forall j :: 0 <= j < i ==> cells[1..][j].lbl != lbl;
        assert forall j :: 0 <= j < i + 1 ==> cells[j].lbl != lbl by {
          forall j | 0 <= j < i + 1 ensures cells[j].lbl != lbl {
            if j > 0 { assert cells[j] == cells[1..][j - 1]; }
          }
        }
      } else {
        forall j | 0 <= j < |cells| ensures cells[j].lbl != lbl {
          if j > 0 { assert cells[j] == cells[1..][j - 1]; }
        }
      }
    }
  }

  /** The linear search of the four-letter path: the index of the first
      cell whose label is lbl, if any. */
  method FindCell(cells: seq<GridCell>, lbl: string) returns (found: Option<nat>)
    ensures found.None? <==> FirstCell(cells, lbl).None?
    ensures found.Some? ==> found.value < |cells| && FirstCell(cells, lbl) == Some(cells[found.value])
  {
    found := None;
    var i := 0;
    while i < |cells|
      invariant 0 <= i <= |cells|
      invariant FirstCell(cells[i..], lbl) == FirstCell(cells, lbl)
    {
      assert cells[i..][1..] == cells[i + 1..];
      if cells[i].lbl == lbl {
        found := Some(i);
        return;
      }
      i := i + 1;
    }
  }

  /** With distinct labels, the cell the four-letter path finds is the one
      whose center the three-letter path moves to. */
  lemma FirstCellAgreesWithMap(cells: seq<GridCell>, lbl: string)
    requires DistinctLabels(cells)
    ensures FirstCell(cells, lbl).Some? <==> lbl in LabelMap(cells)
    ensures FirstCell(cells, lbl).Some? ==> LabelMap(cells)[lbl] == FirstCell(cells, lbl).value.center
  {
    FirstCellSpec(cells, lbl);
    LabelMapLookup(cells);
  }

  /** Where the fourth letter sends the cursor within a cell: one of the
      eight outer sub-points for a to h, the cell's center otherwise. */
  function SubTarget(c: GridCell, sub: char): Point
    requires |c.subPoints| == 9
  {
    if 'a' <= sub <= 'h' then c.subPoints[GetSubPointIndex(sub)] else c.center
  }

  /** When labels are distinct, the cell the search finds is the one whose
      center the map holds for that label. */
  lemma FindAgreesWithMap(cells: seq<GridCell>, i: nat)
    requires DistinctLabels(cells) && i < |cells|
    ensures cells[i].lbl in LabelMap(cells)
    ensures LabelMap(cells)[cells[i].lbl] == cells[i].center
    ensures forall j :: 0 <= j < |cells| && cells[j].lbl == cells[i].lbl ==> j == i
  {
    LabelMapLookup(cells);
  }

  // ---------------------------------------------------------------------
  // Worked examples

  /** One 1920 x 1080 monitor at 96 DPI: 22 x 12 cells of 87 x 90 pixels;
      "aaa" is cell 0 with center (43, 45), and its sub-letter e selects
      sub-point 5 at (72, 45), east of the center. */
  lemma FullHdExample(m: Monitor, cells: seq<GridCell>)
    requires m == Monitor(Rect(0, 0, 1920, 1080), 96) && cells == AllCells([m])
    ensures ValidMonitors([m]) && LayoutOf(m) == Layout(22, 12, 87, 90, 29, 30)
    ensures |cells| == 264 && cells[0].lbl == "aaa" && cells[0].center == Point(43, 45)
    ensures "aaa" in LabelMap(cells) && LabelMap(cells)["aaa"] == Point(43, 45)
    ensures cells[0].subPoints[GetSubPointIndex('e')] == Point(72, 45)
  {
    FullHdLayout(m);
    SingleMonitorCells(m);
    MonitorCellShape(m, 'a', 0);
    FullHdFirstCell(m, LayoutOf(m));
    AllCellsLabels([m]);
    FindAgreesWithMap(cells, 0);
  }

  lemma FullHdLayout(m: Monitor)
    requires m == Monitor(Rect(0, 0, 1920, 1080), 96)
    ensures TargetCellPx(m.dpiX) >= 1 && LayoutOf(m) == Layout(22, 12, 87, 90, 29, 30)
  {
    assert TargetCellPx(96) == 86;
    assert CappedDims(22, 12) == (22, 12);
  }

  lemma FullHdFirstCell(m: Monitor, lay: Layout)
    requires m.bounds.left == 0 && m.bounds.top == 0 && lay == Layout(22, 12, 87, 90, 29, 30)
    ensures var c := MakeCell(m, 'a', lay, 0, 0, 0);
      c.lbl == "aaa" && c.center == Point(43, 45) && c.subPoints[GetSubPointIndex('e')] == Point(72, 45)
  {
    assert GenerateLabel('a', 0) == ['a', Letter(0), Letter(0)];
    assert SubPointsOf(0, 0, 29, 30)[5] == SubPoint(0, 0, 29, 30, 5);
  }

  /** With one monitor, the whole build is that monitor's cells under prefix a. */
  lemma SingleMonitorCells(m: Monitor)
    requires TargetCellPx(m.dpiX) >= 1
    ensures ValidMonitors([m]) && AllCells([m]) == MonitorCells(m, 'a')
    ensures |MonitorCells(m, 'a')| >= 1
  {
    assert [m][..0] == [];
    assert Prefix(0) == 'a';
    var lay := LayoutOf(m);
    MulLe(1, lay.rows, lay.cols);
  }

  /** Sub-point 4 is not in general the cell's center: with 86-pixel cells the
      sub-cells are 28 pixels, so sub-point 4 sits at offset 42 while the
      center sits at 43. */
  lemma SubPointFourIsNotCenter(m: Monitor)
    requires m == Monitor(Rect(0, 0, 860, 860), 96)
    ensures TargetCellPx(m.dpiX) >= 1 && |MonitorCells(m, 'a')| >= 1
    ensures MonitorCells(m, 'a')[0].center == Point(43, 43)
    ensures MonitorCells(m, 'a')[0].subPoints[4] == Point(42, 42)
  {
    SquareLayout(m);
    SingleMonitorCells(m);
    MonitorCellShape(m, 'a', 0);
    SquareFirstCell(m, LayoutOf(m));
  }

  lemma SquareLayout(m: Monitor)
    requires m == Monitor(Rect(0, 0, 860, 860), 96)
    ensures TargetCellPx(m.dpiX) >= 1 && LayoutOf(m) == Layout(10, 10, 86, 86, 28, 28)
  {
    assert TargetCellPx(96) == 86;
    assert CappedDims(10, 10) == (10, 10);
  }

  lemma SquareFirstCell(m: Monitor, lay: Layout)
    requires m.bounds.left == 0 && m.bounds.top == 0 && lay == Layout(10, 10, 86, 86, 28, 28)
    ensures var c := MakeCell(m, 'a', lay, 0, 0, 0);
      c.center == Point(43, 43) && c.subPoints[4] == Point(42, 42)
  {
    assert SubPointsOf(0, 0, 28, 28)[4] == SubPoint(0, 0, 28, 28, 4);
  }
}
