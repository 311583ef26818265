/** The cells of a table: each is placed after the last one, in reading order. */
module TableGrid {
  import opened Options
  /** Rows and columns count from 1. The content, if any, needs a height. */
  datatype Cell = Cell(row: int, col: int, colspan: int, needs: Option<real>)

  const DEFAULT_ROW_HEIGHT := 10.0

  /** c comes before d, and they share no place. */
  predicate Precedes(c: Cell, d: Cell) {
    c.row < d.row || (c.row == d.row && c.col + c.colspan <= d.col)
  }

  predicate InGrid(c: Cell, rows: int, cols: int) {
    1 <= c.row <= rows && 1 <= c.col && 1 <= c.colspan && c.col + c.colspan - 1 <= cols
  }

  /** The number of the last place of a cell, counted row by row from 1. */
  function LastPlace(c: Cell, cols: int): int {
    (c.row - 1) * cols + c.col + c.colspan - 1
  }

  lemma {:induction false} RowAndColumn(place: int, cols: int)
    requires cols > 0 && place > 0
    ensures var row, col := (place - 1) / cols + 1, (place - 1) % cols + 1;
      row >= 1 && 1 <= col <= cols && (row - 1) * cols + col == place
  {
  }

  /** A place after the last place of a cell is in a later row or further to the right. */
  lemma {:induction false} LaterPlace(c: Cell, cols: int, row: int, col: int)
    requires cols > 0 && 1 <= c.col && 1 <= col <= cols
    requires LastPlace(c, cols) < (row - 1) * cols + col && 0 < c.colspan
    ensures c.row < row || (c.row == row && c.col + c.colspan <= col)
  {
    assert (c.row - 1) * cols == (row - 1) * cols + (c.row - row) * cols;
    if c.row > row {
      MulAtLeast(c.row - row, cols);
    }
  }

  lemma {:induction false} MulAtLeast(a: int, b: int)
    requires a >= 1 && b >= 1
    ensures a * b >= b
  {
  }

  class Table {
    const cols: int
    var rows: int
    var curCell: int
    var rowHeights: seq<real>
    var cells: seq<Cell>
    var hasHeader: bool
    var headerStartRow: int
    var headerEndRow: int

    /** Cells are in the grid, in reading order, disjoint, and not after the current place. */
    ghost predicate Valid()
      reads this
    {
      && cols > 0 && curCell >= 0 && rows == |rowHeights|
      && (forall i :: 0 <= i < |cells| ==> InGrid(cells[i], rows, cols) && LastPlace(cells[i], cols) <= curCell)
      && (forall i, j :: 0 <= i < j < |cells| ==> Precedes(cells[i], cells[j]))
      && (hasHeader ==> 1 <= headerStartRow <= headerEndRow)
    }

    constructor (cols: int)
      requires cols > 0
      ensures Valid() && this.cols == cols && cells == [] && rowHeights == [] && curCell == 0 && !hasHeader
    {
      this.cols := cols;
      rows := 0;
      curCell := 0;
      rowHeights := [];
      cells := [];
      hasHeader := false;
      headerStartRow := 0;
      headerEndRow := 0;
    }

    /** MultiColCell, and NewCell for a span of 1: at the place after the current one, no wider than the rest of its row. */
    method NewCell(colspan: int, needs: Option<real>) returns (cell: Cell)
      requires Valid()
      modifies this
      ensures Valid() && cells == old(cells) + [cell] && cell.needs == needs
      ensures (cell.row - 1) * cols + cell.col == old(curCell) + 1
      ensures cell.colspan == (if colspan < 1 then 1 else if colspan > cols - cell.col + 1 then cols - cell.col + 1 else colspan)
      ensures curCell == old(curCell) + cell.colspan
      ensures rows == (if cell.row > old(rows) then cell.row else old(rows))
      ensures old(rowHeights) <= rowHeights && forall i :: old(rows) <= i < rows ==> rowHeights[i] == DEFAULT_ROW_HEIGHT
      ensures hasHeader == old(hasHeader) && headerStartRow == old(headerStartRow) && headerEndRow == old(headerEndRow)
    {
      curCell := curCell + 1;
      var curRow := (curCell - 1) / cols + 1;
      while curRow > rows
        invariant rows == |rowHeights| && old(rows) <= rows && (rows <= curRow || rows == old(rows))
        invariant old(rowHeights) <= rowHeights && forall i :: old(rows) <= i < rows ==> rowHeights[i] == DEFAULT_ROW_HEIGHT
        invariant cells == old(cells) && curCell == old(curCell) + 1 && unchanged(`hasHeader, `headerStartRow, `headerEndRow)
      {
        rows := rows + 1;
        rowHeights := rowHeights + [DEFAULT_ROW_HEIGHT];
      }
      var curCol := (curCell - 1) % cols + 1;
      RowAndColumn(curCell, cols);
      var span := colspan;
      if span < 1 {
        span := 1;
      }
      var remainingCols := cols - (curCol - 1);
      if span > remainingCols {
        span := remainingCols;
      }
      cell := Cell(curRow, curCol, span, needs);
      forall i | 0 <= i < |cells| ensures Precedes(cells[i], cell) {
        LaterPlace(cells[i], cols, curRow, curCol);
      }
      curCell := curCell + span - 1;
      cells := cells + [cell];
    }

    method SkipCells(num: int)
      requires Valid()
      modifies `curCell
      ensures Valid() && curCell == old(curCell) + (if num < 0 then 0 else num)
    {
      if num < 0 {
        return;
      }
      curCell := curCell + num;
    }

    method SkipRows(num: int)
      requires Valid()
      modifies `curCell
      ensures Valid() && curCell == old(curCell) + (if num <= 0 then 0 else num * cols - 1)
    {
      var ncells := num * cols - 1;
      if num > 0 { MulAtLeast(num, cols); } else { assert num * cols <= 0; }
      if ncells < 0 {
        return;
      }
      curCell := curCell + ncells;
    }

    method SkipOver(rows: int, cols: int)
      requires Valid()
      modifies `curCell
      ensures Valid()
      ensures var ncells := rows * this.cols + cols - 1; curCell == old(curCell) + (if ncells < 0 then 0 else ncells)
    {
      var ncells := rows * this.cols + cols - 1;
      if ncells < 0 {
        return;
      }
      curCell := curCell + ncells;
    }

    method SetRowHeight(row: int, h: real) returns (ok: bool)
      requires Valid()
      modifies `rowHeights
      ensures Valid() && ok == (1 <= row <= rows)
      ensures rowHeights == if ok then old(rowHeights)[row - 1 := h] else old(rowHeights)
    {
      if row < 1 || row > |rowHeights| {
        return false;
      }
      rowHeights := rowHeights[row - 1 := h];
      ok := true;
    }

    method SetHeaderRows(startRow: int, endRow: int) returns (ok: bool)
      requires Valid()
      modifies `hasHeader, `headerStartRow, `headerEndRow
      ensures Valid() && ok == (1 <= startRow <= endRow)
      ensures ok ==> hasHeader && headerStartRow == startRow && headerEndRow == endRow
      ensures !ok ==> unchanged(this)
    {
      if startRow <= 0 || endRow <= 0 || startRow > endRow {
        return false;
      }
      hasHeader := true;
      headerStartRow := startRow;
      headerEndRow := endRow;
      ok := true;
    }
  }
}
