/** Surfaces, and what it is for a terminal to show one (surface.h, surface.cpp). */
module Surfaces {
  import opened Styles
  import opened Terminals

  /** `glyph` 0 is the continuation marker: the second column of a wide cluster. */
  datatype Cell = Cell(glyph: nat, pen: Style, width: nat)

  const BLANK_CELL := Cell(BLANK, DEFAULT_STYLE, 1)

  datatype Cursor = Cursor(row: nat, column: nat, visible: bool)

  datatype Surface = Surface(columns: nat, rows: nat, cells: seq<seq<Cell>>, hard: seq<bool>, cursor: Cursor) {
    /** What `surface::write` leaves behind, and a cursor inside the frame. */
    ghost predicate Ok(caps: Capabilities) {
      && |cells| == rows && |hard| == rows
      && (forall r :: 0 <= r < rows ==> |cells[r]| == columns && RowOk(caps, cells[r]))
      && (cursor.row < rows || (rows == 0 && cursor.row == 0)) && cursor.column < columns
    }

    /** Equality of surfaces ignores which rows are hard: the picture, not how it was arrived at. */
    predicate SamePicture(other: Surface) {
      columns == other.columns && rows == other.rows && cells == other.cells && cursor == other.cursor
    }
  }

  predicate Continues(row: seq<Cell>, k: int) {
    0 <= k < |row| && row[k].glyph == 0
  }

  predicate Wide(row: seq<Cell>, k: int) {
    0 <= k < |row| && row[k].glyph != 0 && row[k].width == 2
  }

  /** Each wide cell is followed by its continuation, in its own pen, and there is no other. */
  ghost predicate RowOk(caps: Capabilities, row: seq<Cell>) {
    && (forall k :: 0 <= k < |row| && row[k].glyph == 0 ==>
          Wide(row, k - 1) && row[k].width == 0 && row[k].pen == row[k - 1].pen)
    && (forall k :: 0 <= k < |row| && row[k].glyph != 0 ==>
          (row[k].width == 1 || row[k].width == 2) && !Resolved(caps, row[k].pen).TwoUnderlines())
    && (forall k :: 0 <= k < |row| && row[k].glyph != 0 && row[k].width == 2 ==> Continues(row, k + 1))
  }

  /** The row after `surface::write` puts one cluster at column c: the cell, and the columns the
      cluster covers but does not own. */
  function Written(row: seq<Cell>, c: nat, glyph: nat, width: nat, pen: Style): seq<Cell>
    requires 1 <= width <= 2 && c + width <= |row|
  {
    var owned := row[c := Cell(glyph, pen, width)];
    if width == 2 then owned[c + 1 := Cell(0, pen, 0)] else owned
  }

  /** Writing keeps a row drawable exactly when it starts on no second half and ends before none:
      overwriting half of a wide cluster leaves its other half behind on the surface. */
  lemma WrittenOk(caps: Capabilities, row: seq<Cell>, c: nat, glyph: nat, width: nat, pen: Style)
    requires RowOk(caps, row) && 1 <= width <= 2 && c + width <= |row|
    requires glyph != 0 && !Resolved(caps, pen).TwoUnderlines()
    ensures RowOk(caps, Written(row, c, glyph, width, pen)) <==> !Continues(row, c) && !Continues(row, c + width)
  {
    var after := Written(row, c, glyph, width, pen);
    if Continues(row, c) {
      assert Wide(row, c - 1) && after[c - 1] == row[c - 1];
      assert !Continues(after, c);
    } else if Continues(row, c + width) {
      assert after[c + width] == row[c + width];
      assert !Wide(after, c + width - 1);
    } else {
      forall k | 0 <= k < |row|
        ensures after[k].glyph == 0 ==>
          Wide(after, k - 1) && after[k].width == 0 && after[k].pen == after[k - 1].pen
        ensures after[k].glyph != 0 && after[k].width == 2 ==> Continues(after, k + 1)
      {
        assert row[k].glyph == 0 ==> Wide(row, k - 1);
        assert row[k].glyph != 0 && row[k].width == 2 ==> Continues(row, k + 1);
      }
    }
  }

  /** What a terminal showing a cell holds in its position. */
  function ShownCell(caps: Capabilities, c: Cell): Spot {
    if c.glyph == 0 then Tail(Shown(caps, c.pen)) else Lead(c.glyph, c.width, Shown(caps, c.pen))
  }

  ghost predicate ShowsRow(caps: Capabilities, line: Line, row: seq<Cell>) {
    |line| == |row| && forall k :: 0 <= k < |row| ==> line[k] == ShownCell(caps, row[k])
  }

  /** The frame with its top row at screen row `origin` shows exactly this surface. */
  ghost predicate Shows(caps: Capabilities, grid: seq<Line>, origin: nat, s: Surface)
    requires |s.cells| == s.rows && origin + s.rows <= |grid|
  {
    forall r :: 0 <= r < s.rows ==> ShowsRow(caps, grid[origin + r], s.cells[r])
  }
}
