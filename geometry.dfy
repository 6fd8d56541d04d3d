/** The arithmetic of the character grid (`CharMap4Grid`): cell pitch from
    the font metrics, how many whole columns and rows fit, where a cell is
    drawn, which cell a mouse position selects, the colours of a cell, and
    the scroll position kept when the layout changes. Java's `/` and `%`
    truncate toward zero, so they appear as `JDiv` and `JRem`. */
module Geometry {
  import opened JavaLang

  const GRID_WIDTH: int := 2
  const MOUSE_DRIFT: int := 10
  const NO_MOUSE: int := -1
  const PANEL_MARGIN: int := 5
  const TEXT_MARGIN: int := 4

  function Max(a: int, b: int): int { if a >= b then a else b }
  function Min(a: int, b: int): int { if a <= b then a else b }

  /** `maxWidth = Math.max(10, fontData.getMaxAdvance())`. */
  function MaxWidth(maxAdvance: int): (w: int)
    ensures w >= 10 && w >= maxAdvance && (w == 10 || w == maxAdvance)
  {
    Max(10, maxAdvance)
  }

  /** The distance from one cell to the next: the text box, a margin on
      both sides and one grid line (`horizStep`, `vertiStep`). */
  function Step(extent: int): int {
    extent + 2 * TEXT_MARGIN + GRID_WIDTH
  }

  /** `Math.max(1, (panelSize - 2 * PANEL_MARGIN - GRID_WIDTH) / step)`: the
      number of complete columns (or rows) that fit in the panel. */
  function Fit(panelSize: int, step: int): int
    requires step > 0
  {
    Max(1, JDiv(panelSize - 2 * PANEL_MARGIN - GRID_WIDTH, step))
  }

  /** There is always at least one column and one row, and otherwise as
      many as fit whole: `n` cells fit in the space and `n + 1` do not. */
  lemma FitSpec(panelSize: int, step: int)
    requires step > 0
    ensures var n := Fit(panelSize, step);
      var room := panelSize - 2 * PANEL_MARGIN - GRID_WIDTH;
      n >= 1 && (n == 1 || n * step <= room) && room < (n + 1) * step
  {
    var room := panelSize - 2 * PANEL_MARGIN - GRID_WIDTH;
    JavaDivision(room, step);
    if room >= 0 {
      assert room == (room / step) * step + room % step;
    }
  }

  /** The grid state that placement and hit testing read. */
  datatype Layout = Layout(horizStep: int, vertiStep: int, panelColumns: int, cornerIndex: int, cellCount: int)

  predicate LayoutValid(g: Layout) {
    g.horizStep >= 2 * TEXT_MARGIN + GRID_WIDTH && g.vertiStep >= 2 * TEXT_MARGIN + GRID_WIDTH &&
    g.panelColumns >= 1 && g.cornerIndex >= 0
  }

  /** `paintGridCell`: the top-left pixel of the border of cell `index`,
      counted from the top-left cell `cornerIndex`. */
  function CellOrigin(g: Layout, index: int): (int, int)
    requires LayoutValid(g) && index >= g.cornerIndex
  {
    (JRem(index - g.cornerIndex, g.panelColumns) * g.horizStep + PANEL_MARGIN,
     JDiv(index - g.cornerIndex, g.panelColumns) * g.vertiStep + PANEL_MARGIN)
  }

  /** The widths of the text box of a cell: where a glyph is drawn, and the
      only part of the cell that a mouse position selects. */
  function BoxWidth(g: Layout): int { g.horizStep - 2 * TEXT_MARGIN - GRID_WIDTH }
  function BoxHeight(g: Layout): int { g.vertiStep - 2 * TEXT_MARGIN - GRID_WIDTH }

  /** `convertMouse` once a font has been painted: the cell whose text box
      holds the pixel `(x, y)`, or `NO_MOUSE`. */
  function CellAt(g: Layout, x: int, y: int): int
    requires LayoutValid(g)
  {
    var colOff := x - GRID_WIDTH - PANEL_MARGIN;
    var colNum := JDiv(colOff, g.horizStep);
    var colRem := JRem(colOff, g.horizStep);
    if colNum >= g.panelColumns || colRem < TEXT_MARGIN || colRem > g.horizStep - GRID_WIDTH - TEXT_MARGIN then NO_MOUSE
    else
      var rowOff := y - GRID_WIDTH - PANEL_MARGIN;
      var rowNum := JDiv(rowOff, g.vertiStep);
      var rowRem := JRem(rowOff, g.vertiStep);
      if rowRem < TEXT_MARGIN || rowRem > g.vertiStep - GRID_WIDTH - TEXT_MARGIN then NO_MOUSE
      else
        var result := g.cornerIndex + rowNum * g.panelColumns + colNum;
        if result >= g.cellCount then NO_MOUSE else result
  }

  /** Hit testing selects only defined cells from the top-left one on, and
      a position selects a cell exactly when it lies in that cell's text
      box: the box of the cell placed by `CellOrigin` starts
      `GRID_WIDTH + TEXT_MARGIN` pixels in and is `BoxWidth` by `BoxHeight`
      pixels (inclusive). Negative offsets, which truncating division maps
      to column or row 0, are refused by the remainder test. */
  lemma CellAtSpec(g: Layout, x: int, y: int)
    requires LayoutValid(g)
    ensures var r := CellAt(g, x, y);
      r == NO_MOUSE || (g.cornerIndex <= r < g.cellCount && InTextBox(g, r, x, y))
  {
    var colOff := x - GRID_WIDTH - PANEL_MARGIN;
    var rowOff := y - GRID_WIDTH - PANEL_MARGIN;
    JavaDivision(colOff, g.horizStep);
    JavaDivision(rowOff, g.vertiStep);
    var r := CellAt(g, x, y);
    if r != NO_MOUSE {
      var colNum := JDiv(colOff, g.horizStep);
      var rowNum := JDiv(rowOff, g.vertiStep);
      var k := rowNum * g.panelColumns + colNum;
      assert r == g.cornerIndex + k;
      assert 0 <= colNum < g.panelColumns;
      assert rowNum >= 0;
      JavaDivision(k, g.panelColumns);
      DivModUnique(k, g.panelColumns, rowNum, colNum);
    }
  }

  /** The converse: every pixel of the text box of a defined cell selects
      that cell. */
  lemma TextBoxSelectsCell(g: Layout, index: int, x: int, y: int)
    requires LayoutValid(g) && g.cornerIndex <= index < g.cellCount
    requires InTextBox(g, index, x, y)
    ensures CellAt(g, x, y) == index
  {
    var k := index - g.cornerIndex;
    JavaDivision(k, g.panelColumns);
    var col := k % g.panelColumns;
    var row := k / g.panelColumns;
    var colOff := x - GRID_WIDTH - PANEL_MARGIN;
    var rowOff := y - GRID_WIDTH - PANEL_MARGIN;
    var dx := colOff - col * g.horizStep;
    var dy := rowOff - row * g.vertiStep;
    assert TEXT_MARGIN <= dx < g.horizStep;
    assert TEXT_MARGIN <= dy < g.vertiStep;
    JavaDivision(colOff, g.horizStep);
    JavaDivision(rowOff, g.vertiStep);
    DivModUnique(colOff, g.horizStep, col, dx);
    DivModUnique(rowOff, g.vertiStep, row, dy);
    assert k == row * g.panelColumns + col;
  }

  /** `(x, y)` lies in the text box of cell `index`. */
  predicate InTextBox(g: Layout, index: int, x: int, y: int)
    requires LayoutValid(g) && index >= g.cornerIndex
  {
    var (ox, oy) := CellOrigin(g, index);
    0 <= x - (ox + GRID_WIDTH + TEXT_MARGIN) <= BoxWidth(g) &&
    0 <= y - (oy + GRID_WIDTH + TEXT_MARGIN) <= BoxHeight(g)
  }

  /** Quotient and remainder are determined by the division equation. */
  lemma DivModUnique(a: int, b: int, q: int, r: int)
    requires b > 0 && 0 <= r < b && a == q * b + r
    ensures a / b == q && a % b == r
  {
    assert a == (a / b) * b + a % b;
    var d := a / b - q;
    assert d * b == r - a % b;
    if d >= 1 {
      MulAtLeast(d, b);
    } else if d <= -1 {
      MulAtLeast(-d, b);
    }
  }

  /** Multiplying by a non-negative factor keeps the order. */
  lemma MulMono(x: int, y: int, b: int)
    requires b >= 0
    ensures x <= y ==> x * b <= y * b
  {
    if x < y && b >= 1 {
      MulAtLeast(y - x, b);
      assert y * b == x * b + (y - x) * b;
    }
  }

  lemma {:induction false} MulAtLeast(d: int, b: int)
    requires d >= 1 && b >= 1
    ensures d * b >= b
    decreases d
  {
    if d > 1 {
      MulAtLeast(d - 1, b);
      assert d * b == (d - 1) * b + b;
    }
  }

  /** The three colours a cell uses. */
  datatype Colour = Black | White | LightGray

  /** The interior of a cell in `paintGridCell`: reversed (black) when the
      cell is being clicked, left in the grid colour when the mouse is over
      it, white otherwise. */
  function CellFill(index: int, clickIndex: int, hoverIndex: int): Colour {
    if index == clickIndex then Black
    else if index == hoverIndex then LightGray
    else White
  }

  /** The colour the glyph is drawn in. */
  function CellInk(index: int, clickIndex: int): Colour {
    if index == clickIndex then White else Black
  }

  /** The glyph is always visible against its interior, and the three
      highlight states are told apart: black for a click, grey for the
      mouse, white for anything else. */
  lemma CellColoursSpec(index: int, clickIndex: int, hoverIndex: int)
    ensures CellInk(index, clickIndex) != CellFill(index, clickIndex, hoverIndex)
    ensures CellFill(index, clickIndex, hoverIndex) == Black <==> index == clickIndex
    ensures CellFill(index, clickIndex, hoverIndex) == LightGray <==> index != clickIndex && index == hoverIndex
  {
  }

  // ---------------------------------------------------------------------
  // Scrolling

  /** `(cellCount + panelColumns - 1) / panelColumns`: the number of rows,
      counting a partial last row, which is the scroll bar's maximum. */
  function TotalRows(cellCount: int, panelColumns: int): int
    requires cellCount >= 0 && panelColumns >= 1
  {
    JDiv(cellCount + panelColumns - 1, panelColumns)
  }

  /** There are no more rows than cells. */
  lemma TotalRowsBound(cellCount: int, panelColumns: int)
    requires cellCount >= 0 && panelColumns >= 1
    ensures 0 <= TotalRows(cellCount, panelColumns) <= cellCount
  {
    var n := cellCount + panelColumns - 1;
    JavaDivision(n, panelColumns);
    var q := n / panelColumns;
    assert q * panelColumns <= n;
    MulMono(cellCount + 1, q, panelColumns);
    MulMono(1, panelColumns, cellCount);
    assert (cellCount + 1) * panelColumns == cellCount * panelColumns + panelColumns;
  }

  /** The scroll row chosen when the layout changes, as written at
      CharMap4.java lines 2839-2840. */
  function ScrollRowAsWritten(cornerIndex: int, cellCount: int, panelColumns: int, panelRows: int): int
    requires panelColumns >= 1
  {
    Max(0, Min(JDiv(cornerIndex, panelColumns), JDiv(cellCount, panelColumns) - panelRows + 1))
  }

  /** With 320 cells in 16 columns and 10 visible rows, a corner at cell
      176 gives row 11 as written: the tenth visible row (row 20) starts at
      cell 320 and is blank, although the comment beside the clamp says
      not to leave blank rows. The corrected clamp gives row 10, which
      ends exactly on the last cell. */
  lemma ScrollRowAsWrittenLeavesBlankRow()
    ensures ScrollRowAsWritten(176, 320, 16, 10) == 11
    ensures (ScrollRowAsWritten(176, 320, 16, 10) + 10 - 1) * 16 >= 320
    ensures ScrollRow(176, 320, 16, 10) == 10
    ensures (ScrollRow(176, 320, 16, 10) + 10 - 1) * 16 < 320
  {
    assert JDiv(176, 16) == 11;
    assert JDiv(320, 16) == 20;
    assert JDiv(335, 16) == 20;
  }

  /** The clamp as evidently intended: keep the row of the current corner,
      but not so far down that the last visible row is blank. */
  function ScrollRow(cornerIndex: int, cellCount: int, panelColumns: int, panelRows: int): int
    requires cellCount >= 0 && panelColumns >= 1
  {
    Max(0, Min(JDiv(cornerIndex, panelColumns), TotalRows(cellCount, panelColumns) - panelRows))
  }

  /** The chosen row is a valid scroll value that keeps the full extent
      (`row + panelRows` rows exist, or the row is 0), it never moves the
      view below the old corner, it keeps the corner's row when that leaves
      no blank rows, and whenever there are at least `panelRows` rows every
      visible row holds a cell. */
  lemma ScrollRowSpec(cornerIndex: int, cellCount: int, panelColumns: int, panelRows: int)
    requires cornerIndex >= 0 && cellCount >= 0 && panelColumns >= 1 && panelRows >= 1
    ensures var row := ScrollRow(cornerIndex, cellCount, panelColumns, panelRows);
      var total := TotalRows(cellCount, panelColumns);
      0 <= row && (row == 0 || row + panelRows <= total) &&
      row * panelColumns <= cornerIndex &&
      (cornerIndex / panelColumns + panelRows <= total ==> row == cornerIndex / panelColumns) &&
      (total >= panelRows ==> (row + panelRows - 1) * panelColumns < cellCount)
  {
    var total := TotalRows(cellCount, panelColumns);
    var n := cellCount + panelColumns - 1;
    JavaDivision(n, panelColumns);
    JavaDivision(cornerIndex, panelColumns);
    assert n == total * panelColumns + n % panelColumns;
    assert cornerIndex == (cornerIndex / panelColumns) * panelColumns + cornerIndex % panelColumns;
    var row := ScrollRow(cornerIndex, cellCount, panelColumns, panelRows);
    if total >= panelRows {
      assert row <= total - panelRows;
      assert (row + panelRows - 1) * panelColumns <= (total - 1) * panelColumns;
      assert (total - 1) * panelColumns < cellCount;
    }
  }

  /** `Math.max(1, panelRows - 1)`: the rows one page scrolls. */
  function PageRows(panelRows: int): (p: int)
    ensures p >= 1 && (panelRows >= 2 ==> p == panelRows - 1)
  {
    Max(1, panelRows - 1)
  }

  /** The unit wheel scroll of `mouseWheelMoved`, limited to one page in
      either direction. */
  function WheelRows(page: int, units: int): (d: int)
  {
    Max(-page, Min(page, units))
  }

  /** A wheel notch never scrolls further than a page, moves in the wheel's
      direction, and moves by the wheel's own amount when that is within a
      page. */
  lemma WheelRowsSpec(page: int, units: int)
    requires page >= 1
    ensures var d := WheelRows(page, units);
      -page <= d <= page &&
      (units >= 0 <==> d >= 0) &&
      (-page <= units <= page ==> d == units) &&
      (units > page ==> d == page) && (units < -page ==> d == -page)
  {
  }
}
