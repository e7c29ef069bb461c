/** The blitter: two surfaces into terminal operations (blit.h, blit.cpp). */
module Blitter {
  import opened Styles
  import opened Terminals
  import opened Surfaces
  import opened Wrappers
  import Sgr

  /** The terminal as the blitter believes it to be while one update is built. `start`, `screen` and
      `origin` are the real one: `screen` is `start` after everything emitted so far. */
  class Emitter {
    const caps: Capabilities
    const columns: nat
    ghost const start: Terminal
    ghost const origin: nat
    var out: seq<Op>
    var row: nat
    var column: nat
    var wrapPending: bool
    var pen: Style
    ghost var screen: Terminal
    ghost var owed: bool  // `WrapThrough` has run and the glyph that performs the move has not

    /** Everything the belief claims except where the cursor is. */
    ghost predicate Sound()
      reads this
    {
      && start.Ok() && screen == Run(start, out)
      && screen.columns == columns && |screen.grid| == |start.grid|
      && !screen.misused && screen.visible == start.visible
      && screen.pen == Sent(caps, pen) && !pen.TwoUnderlines()
    }

    /** Belief and terminal agree about the cursor and the pending wrap - or, while a glyph is owed,
        the terminal is one row behind and holding the wrap that will catch it up. */
    ghost predicate Valid()
      reads this
    {
      && Sound()
      && if owed then
           !wrapPending && column == 0 && 0 < row && screen.pending && screen.row + 1 == origin + row
         else
           screen.row == origin + row && screen.pending == wrapPending
           && (wrapPending ==> column == columns) && (!wrapPending ==> column == screen.column)
    }

    constructor (caps: Capabilities, columns: nat, row: nat, column: nat, ghost start: Terminal, ghost origin: nat)
      requires start.Ok() && start.columns == columns && !start.misused && start.pen == DEFAULT_STYLE
      ensures Sound() && out == [] && !owed && screen == start && this.start == start && this.origin == origin
      ensures this.caps == caps && this.columns == columns
      ensures this.row == row && this.column == column && !wrapPending && pen == DEFAULT_STYLE
    {
      this.caps, this.columns, this.row, this.column := caps, columns, row, column;
      this.start, this.origin := start, origin;
      out, wrapPending, pen := [], false, DEFAULT_STYLE;
      screen, owed := start, false;
    }

    method Send(op: Op)
      requires start.Ok() && screen == Run(start, out)
      modifies this`out, this`screen
      ensures out == old(out) + [op] && screen == Run(start, out)
      ensures screen == Step(old(screen), op) && screen.Ok()
      ensures screen.columns == old(screen).columns && |screen.grid| == |old(screen).grid|
    {
      assert (out + [op])[..|out + [op]| - 1] == out;
      StepOk(screen, op);
      out := out + [op];
      screen := Step(screen, op);
    }

    method MoveTo(row: nat, column: nat)
      requires Valid() && (owed ==> row == this.row && column == 0)
      requires origin + row < |screen.grid| && column < columns
      modifies this`out, this`screen, this`row, this`column, this`wrapPending
      ensures Valid() && this.row == row && this.column == column && !wrapPending
      ensures screen == if owed then old(screen)
                        else old(screen).(row := origin + row, column := column, pending := false)
      ensures old(this.row == row && this.column == column && !wrapPending) ==> out == old(out)
    {
      hide Run, Sent, Sgr.Apply;
      if this.row == row && this.column == column && !wrapPending {
        return;
      }
      if this.column != 0 || wrapPending {
        Send(CarriageReturn);
        this.column, wrapPending := 0, false;
      }
      MoveToRow(row);
      if column > 0 {
        Send(Right(column));
      }
      this.column := column;
    }

    method MoveToRow(row: nat)
      requires Valid() && !owed && !wrapPending && column == 0 && origin + row < |screen.grid|
      modifies this`out, this`screen, this`row
      ensures Valid() && this.row == row && screen == old(screen).(row := origin + row)
    {
      hide Run, Sent, Sgr.Apply;
      if row < this.row {
        Send(Up(this.row - row));
      } else if row > this.row {
        Send(Down(row - this.row));
      }
      this.row := row;
    }

    method Put(one: Cell)
      requires Valid() && !wrapPending
      requires one.glyph != 0 && 1 <= one.width <= 2 && column + one.width <= columns
      requires !Resolved(caps, one.pen).TwoUnderlines()
      requires origin + row < |screen.grid|
      modifies this`out, this`screen, this`column, this`wrapPending, this`pen, this`owed
      ensures Valid() && !owed
      ensures column == old(column) + one.width && (wrapPending <==> column == columns)
      ensures screen.grid == old(screen).grid[origin + row :=
                Stamp(old(screen).grid[origin + row], old(column), one.glyph, one.width, Shown(caps, one.pen))]
      ensures screen.joins ==
                var joins := if old(owed) then old(screen).joins[origin + row - 1 := true] else old(screen).joins;
                if column == columns then joins[origin + row := false] else joins
      ensures Flows(old(out)) ==> Flows(out)
    {
      hide Run, Sgr.Apply, Stamp, Resolved, Shown, Sent, Sgr.PenStrings, SgrOps, LineOk, Style.TwoUnderlines;
      ShownIsSent(caps, one.pen);
      SetPen(one.pen);
      Send(Glyph(one.glyph, one.width));
      owed := false;
      column := column + one.width;
      if column >= columns {
        column := columns;
        wrapPending := true;
      }
    }

    predicate PendingWrapAt(row: int)
      reads this
    {
      wrapPending && this.row == row
    }

    /** Emits nothing: the next glyph falls through the right edge by itself. */
    method WrapThrough(row: nat)
      requires Valid() && !owed && wrapPending && this.row + 1 == row
      modifies this`row, this`column, this`wrapPending, this`owed
      ensures Valid() && owed && this.row == row && column == 0 && !wrapPending
    {
      this.row, column, wrapPending := row, 0, false;
      owed := true;
    }

    /** With a wrap pending there is nothing to erase, and erasing would eat the last glyph. */
    method ClearToEndOfLine()
      requires Valid() && !owed
      modifies this`out, this`screen, this`pen
      ensures Valid()
      ensures if wrapPending then screen == old(screen)
              else screen.grid == old(screen).grid[origin + row :=
                     EraseFrom(old(screen).grid[origin + row], column, Default)]
                   && screen.joins == old(screen).joins[origin + row := false]
      ensures Flows(old(out)) ==> Flows(out)
    {
      hide Run, Sgr.Apply, EraseFrom;
      if wrapPending {
        return;
      }
      ResetPen();
      Send(EraseLine);
    }

    method ClearToEndOfScreen()
      requires Valid() && !owed
      modifies this`out, this`screen, this`pen, this`column, this`wrapPending
      ensures Valid() && !wrapPending && column == if old(wrapPending) then 0 else old(column)
      ensures forall r :: 0 <= r < origin + row ==> screen.grid[r] == old(screen).grid[r]
      ensures forall r :: origin + row < r < |screen.grid| ==> screen.grid[r] == BlankLine(columns, Default)
      ensures column == 0 ==> screen.grid[origin + row] == BlankLine(columns, Default)
      ensures forall r :: 0 <= r < |screen.grid| ==> screen.joins[r] == (r < origin + row && old(screen).joins[r])
    {
      hide Run, Sgr.Apply, EraseFrom, BlankLine;
      if wrapPending {
        Send(CarriageReturn);
        column, wrapPending := 0, false;
      }
      ResetPen();
      EraseAll(screen.grid[screen.row]);
      Send(EraseScreen);
    }

    /** Up to the top-left of the frame being replaced, wherever in it the cursor is. */
    method MoveToFrameTop(rowsAbove: nat)
      requires Sound() && !owed && screen.row == origin + rowsAbove
      modifies this`out, this`screen, this`row, this`column, this`wrapPending
      ensures Valid() && row == 0 && column == 0 && !wrapPending
      ensures screen.grid == old(screen).grid && screen.joins == old(screen).joins
    {
      hide Run, Sgr.Apply, Sent;
      Send(CarriageReturn);
      column, wrapPending := 0, false;
      if rowsAbove > 0 {
        Send(Up(rowsAbove));
      }
      row := 0;
    }

    method ResetPen()
      requires Sound()
      modifies this`out, this`screen, this`pen
      ensures Sound() && pen == DEFAULT_STYLE && screen == old(screen).(pen := DEFAULT_STYLE)
      ensures old(pen) == DEFAULT_STYLE ==> out == old(out)
      ensures Flows(old(out)) ==> Flows(out)
    {
      hide Run, Sgr.Apply;
      if pen == DEFAULT_STYLE {
        return;
      }
      Sgr.ResetReadsBack(screen.pen);
      Send(Op.Sgr("0"));
      pen := DEFAULT_STYLE;
    }

    method SetPen(raw: Style)
      requires Sound() && !Resolved(caps, raw).TwoUnderlines()
      modifies this`out, this`screen, this`pen
      ensures Sound() && pen == Resolved(caps, raw) && screen == old(screen).(pen := Shown(caps, raw))
      ensures out == old(out) + SgrOps(Sgr.PenStrings(caps, old(pen), Resolved(caps, raw)))
    {
      hide Run, Sgr.Apply, Sgr.PenFields, Sgr.Render, Resolved;
      var want := Resolved(caps, raw);
      if want == pen {
        return;
      }
      Sgr.PenReadsBack(caps, pen, want);
      if pen.attrs.Minus(want.attrs) != NO_ATTRS {
        Sgr.ResetReadsBack(screen.pen);
        Send(Op.Sgr("0"));
        pen := DEFAULT_STYLE;
        if want == pen {
          return;
        }
        Sgr.PenReadsBack(caps, pen, want);
      }
      var params := Sgr.Render(Sgr.PenFields(caps, pen, want));
      assert Sgr.ApplyAll([params], screen.pen) == Sgr.Apply(params, screen.pen);
      Send(Op.Sgr(params));
      pen := want;
    }

    /** The glyph of column c, behind the columns already right. */
    method PutAt(want: seq<Cell>, row: nat, c: nat, ghost was: Line, ghost first: nat)
      requires Valid() && this.row == row && column == c && !wrapPending
      requires |want| == columns && RowOk(caps, want) && first <= c < columns && want[c].glyph != 0
      requires origin + row < |screen.grid| && LineOk(was) && Half(caps, screen.grid[origin + row], was, want, c)
      modifies this`out, this`screen, this`row, this`column, this`wrapPending, this`pen, this`owed
      ensures Valid() && !owed && this.row == row
      ensures column == Covered(want, first, c + 1) && (wrapPending <==> column == columns)
      ensures Half(caps, screen.grid[origin + row], was, want, column)
      ensures screen.grid == old(screen).grid[origin + row := screen.grid[origin + row]]
      ensures screen.joins ==
                var joins := if old(owed) then old(screen).joins[origin + row - 1 := true] else old(screen).joins;
                if column == columns then joins[origin + row := false] else joins
      ensures Flows(old(out)) ==> Flows(out)
    {
      hide Run, Sgr.Apply, Resolved, Sent, LineOk, Shown, Half, Stamp, Step, RowOk;
      ghost var line := screen.grid[origin + row];
      CellFits(caps, want, c);
      MoveTo(row, c);
      Put(want[c]);
      HalfGrows(caps, line, was, want, first, c);
    }

    /** The glyphs of columns [first, runEnd) of a row. */
    method WriteSpan(want: seq<Cell>, row: nat, first: nat, runEnd: nat)
      requires Valid() && this.row == row && column == first && !wrapPending
      requires |want| == columns && RowOk(caps, want) && !Continues(want, first)
      requires first < columns && first <= runEnd <= columns && origin + row < |screen.grid|
      requires forall k :: 0 <= k < first ==> screen.grid[origin + row][k] == ShownCell(caps, want[k])
      requires !TailAt(screen.grid[origin + row], first)
      modifies this`out, this`screen, this`row, this`column, this`wrapPending, this`pen, this`owed
      ensures Valid() && this.row == row && (owed ==> old(owed) && runEnd == first)
      ensures column == Covered(want, first, runEnd) && (wrapPending <==> column == columns)
      ensures Half(caps, screen.grid[origin + row], old(screen).grid[origin + row], want, column)
      ensures screen.grid == old(screen).grid[origin + row := screen.grid[origin + row]]
      ensures screen.joins ==
                var joins := if old(owed) && first < runEnd then old(screen).joins[origin + row - 1 := true]
                             else old(screen).joins;
                if column == columns then joins[origin + row := false] else joins
      ensures first == runEnd ==> out == old(out)
      ensures Flows(old(out)) ==> Flows(out)
    {
      hide Run, Sgr.Apply, Resolved, Sent, LineOk, Shown, Half, Stamp, Step, RowOk;
      ghost var at := origin + row;
      ghost var was := screen.grid[at];
      HalfStarts(caps, was, want, first);
      var c := first;
      while c < runEnd
        invariant first <= c <= runEnd
        invariant Valid() && this.row == row
        invariant |screen.grid| == |old(screen).grid|
        invariant column == Covered(want, first, c) && (wrapPending <==> column == columns)
        invariant owed == (old(owed) && c == first)
        invariant Half(caps, screen.grid[at], was, want, column)
        invariant screen.grid == old(screen).grid[at := screen.grid[at]]
        invariant screen.joins ==
                  var joins := if old(owed) && first < c then old(screen).joins[at - 1 := true] else old(screen).joins;
                  if column == columns then joins[at := false] else joins
        invariant c == first ==> out == old(out)
        invariant Flows(old(out)) ==> Flows(out)
      {
        if want[c].glyph != 0 {
          PutAt(want, row, c, was, first);
        } else {
          TailAlone(caps, want, c);
        }
        c := c + 1;
      }
    }

    /** To the first column to write: through the wrap the row above left pending when this row
        continues it, or by a move. The write-through owes a glyph even when there is none to write. */
    method Reach(row: nat, first: nat, end: nat, hard: bool) returns (runEnd: nat)
      requires Valid() && !owed && first <= end <= columns && first < columns && origin + row < |screen.grid|
      modifies this`out, this`screen, this`row, this`column, this`wrapPending, this`owed
      ensures Valid() && this.row == row && column == first && !wrapPending
      ensures owed <==> 0 < row && first == 0 && !hard && old(wrapPending && this.row + 1 == row)
      ensures runEnd == if owed && end == first then first + 1 else end
      ensures screen.grid == old(screen).grid && screen.joins == old(screen).joins
      ensures owed || old(this.row == row && column == first && !wrapPending) ==> out == old(out)
    {
      hide Run, Sent, Step;
      runEnd := end;
      if 0 < row && first == 0 && !hard && PendingWrapAt(row - 1) {
        WrapThrough(row);
        if runEnd == first {
          runEnd := first + 1;
        }
      } else {
        MoveTo(row, first);
      }
    }

    /** The span, and the erase that shows the rest of the row; `before` is what the columns after an
        unerased span already show. */
    method WriteRow(want: seq<Cell>, row: nat, first: nat, runEnd: nat, clearTail: bool, before: seq<Cell>)
      requires Valid() && this.row == row && column == first && !wrapPending && (owed ==> first < runEnd)
      requires |want| == |before| == columns && RowOk(caps, want) && RowOk(caps, before) && !Continues(want, first)
      requires first < columns && first <= runEnd <= columns && origin + row < |screen.grid|
      requires forall k :: 0 <= k < first ==> screen.grid[origin + row][k] == ShownCell(caps, want[k])
      requires !TailAt(screen.grid[origin + row], first)
      requires clearTail ==> forall k :: runEnd <= k < columns ==> want[k] == BLANK_CELL
      requires !clearTail ==> first < runEnd && forall k :: runEnd <= k < columns ==> before[k] == want[k]
      requires !clearTail ==> runEnd == columns || ShowsRow(caps, screen.grid[origin + row], before)
      modifies this`out, this`screen, this`row, this`column, this`wrapPending, this`pen, this`owed
      ensures Valid() && !owed && this.row == row
      ensures !clearTail && runEnd == columns ==> wrapPending
      ensures screen.grid == old(screen).grid[origin + row := screen.grid[origin + row]]
      ensures ShowsRow(caps, screen.grid[origin + row], want)
      ensures clearTail || runEnd == columns ==> screen.joins == Joined(old(screen).joins, origin + row, old(owed))
      ensures column == Covered(want, first, runEnd) && (wrapPending <==> column == columns)
      ensures Flows(old(out)) ==> Flows(out)
    {
      hide Run, Sgr.Apply, Resolved, Sent, LineOk, Shown, Half, EraseFrom, Step, RowOk, ShowsRow;
      ghost var was := screen.grid[origin + row];
      WriteSpan(want, row, first, runEnd);
      ghost var line := screen.grid[origin + row];
      if clearTail {
        ClearToEndOfLine();
        ClearedRowShows(caps, line, was, want, first, runEnd);
      } else {
        WrittenRowShows(caps, line, was, want, first, runEnd, before);
      }
    }

    /** One row: skipped, or reached through the wrap or by a move, written and its tail erased. */
    method EmitRow(previous: Surface, desired: Surface, row: nat, repaint: bool)
      requires Valid() && !owed && row < desired.rows && columns == desired.columns
      requires desired.Ok(caps) && origin + desired.rows <= |screen.grid|
      requires !repaint ==> previous.Ok(caps) && previous.columns == columns && previous.rows == desired.rows
      requires !repaint ==> ShowsRow(caps, screen.grid[origin + row], previous.cells[row])
      requires repaint && 0 < row ==> !screen.joins[origin + row - 1]
      requires repaint && 0 < row && !desired.hard[row] ==> wrapPending && this.row + 1 == row
      modifies this`out, this`screen, this`row, this`column, this`wrapPending, this`pen, this`owed
      ensures Valid() && !owed
      ensures screen.grid == old(screen).grid[origin + row := screen.grid[origin + row]]
      ensures ShowsRow(caps, screen.grid[origin + row], desired.cells[row])
      ensures repaint ==> screen.joins == Joined(old(screen).joins, origin + row, 0 < row && !desired.hard[row])
      ensures repaint && row + 1 < desired.rows && !desired.hard[row + 1] ==> wrapPending && this.row == row
      ensures !repaint && previous.cells[row] == desired.cells[row] ==>
        Untouched(old(out), old(screen), old(pen), old(this.row), old(column), old(wrapPending))
      ensures var flowing := if row == 0 then old(this.row == 0 && column == 0 && !wrapPending) else !desired.hard[row];
        repaint && flowing && Flows(old(out)) ==> Flows(out)
      ensures repaint && !Continued(desired, row, desired.rows) ==>
        forall n :: 0 < n < columns && Behind(desired.cells[row], n) ==> this.row == row && column == n && !wrapPending
    {
      hide Run, Sgr.Apply, Resolved, Sent, LineOk, Shown, Half, EraseFrom, Step, RowOk, ShowsRow, Stamp, ShownCell;
      var want := desired.cells[row];
      ghost var was := screen.grid[origin + row];
      var wrappedIntoByNext := repaint && row + 1 < desired.rows && !desired.hard[row + 1];
      var before := if repaint then want else previous.cells[row];
      var first, runEnd, clearTail := PlanRow(caps, before, want, repaint, wrappedIntoByNext);
      if first < 0 {
        assert screen.grid[origin + row] == old(screen).grid[origin + row];
        return;
      }
      FirstIsWhole(caps, was, want, first, before, repaint);
      runEnd := Reach(row, first, runEnd, desired.hard[row]);
      WriteRow(want, row, first, runEnd, clearTail, before);
    }

    method EmitRows(previous: Surface, desired: Surface, repaint: bool)
      requires Valid() && !owed && columns == desired.columns && start.visible == screen.visible
      requires desired.Ok(caps) && origin + desired.rows <= |screen.grid|
      requires !repaint ==> previous.Ok(caps) && previous.columns == columns && previous.rows == desired.rows
      requires !repaint ==> Shows(caps, screen.grid, origin, previous)
      modifies this`out, this`screen, this`row, this`column, this`wrapPending, this`pen, this`owed
      ensures Valid() && !owed && |screen.grid| == |old(screen).grid|
      ensures Shows(caps, screen.grid, origin, desired)
      ensures forall r :: 0 <= r < |screen.grid| && (r < origin || origin + desired.rows <= r) ==>
        screen.grid[r] == old(screen).grid[r]
      ensures repaint ==> JoinedAsLaidOut(desired, screen.joins, origin)
      ensures !repaint && desired.SamePicture(previous) ==>
        Untouched(old(out), old(screen), old(pen), old(row), old(column), old(wrapPending))
      ensures repaint && IsOneLine(desired) && old(row == 0 && column == 0 && !wrapPending) && Flows(old(out)) ==>
        Flows(out) && row == desired.cursor.row && column == desired.cursor.column && !wrapPending
    {
      hide Run, Sent, RowOk, ShowsRow, Step, Flows, IsOneLine, Behind;
      if IsOneLine(desired) {
        OneLineMeans(desired);
      }
      for r := 0 to desired.rows
        invariant Valid() && !owed && |screen.grid| == |old(screen).grid| == |screen.joins|
        invariant forall q :: 0 <= q < r ==> ShowsRow(caps, screen.grid[origin + q], desired.cells[q])
        invariant forall q :: 0 <= q < |screen.grid| && (q < origin || origin + r <= q) ==>
          screen.grid[q] == old(screen).grid[q]
        invariant repaint ==> forall q :: origin <= q < origin + r ==>
          screen.joins[q] == Continued(desired, q - origin, r)
        invariant repaint && 0 < r < desired.rows && !desired.hard[r] ==> wrapPending && row + 1 == r
        invariant !repaint && desired.SamePicture(previous) ==>
          Untouched(old(out), old(screen), old(pen), old(row), old(column), old(wrapPending))
        invariant r == 0 ==>
          out == old(out) && row == old(row) && column == old(column) && wrapPending == old(wrapPending)
        invariant repaint && IsOneLine(desired) && old(row == 0 && column == 0 && !wrapPending) && Flows(old(out)) ==>
          Flows(out)
        invariant repaint && IsOneLine(desired) && r == desired.rows ==>
          row == desired.cursor.row && column == desired.cursor.column && !wrapPending
      {
        assert !repaint ==> ShowsRow(caps, screen.grid[origin + r], previous.cells[r]);
        EmitRow(previous, desired, r, repaint);
      }
    }

    /** The contract's other half: the pen, the cursor, and its visibility if that changes. */
    method Finish(cursor: Cursor, wasVisible: bool)
      requires Valid() && !owed && origin + cursor.row < |screen.grid| && cursor.column < columns
      modifies this`out, this`screen, this`row, this`column, this`wrapPending, this`pen
      ensures screen == Run(start, out)
      ensures screen == old(screen).(pen := DEFAULT_STYLE,
                          row := origin + cursor.row, column := cursor.column, pending := false,
                          visible := if cursor.visible == wasVisible then old(screen).visible else cursor.visible)
      ensures var there := old(pen == DEFAULT_STYLE && row == cursor.row && column == cursor.column && !wrapPending);
        cursor.visible == wasVisible && there ==> out == old(out)
      ensures old(row == cursor.row && column == cursor.column && !wrapPending) ==> Flows(old(out)) ==> Flows(out)
    {
      hide Run, Sgr.Apply, LineOk;
      ResetPen();
      MoveTo(cursor.row, cursor.column);
      if cursor.visible != wasVisible {
        Send(if cursor.visible then ShowCursor else HideCursor);
      }
    }

    /** Nothing has been emitted and nothing believed since. */
    ghost predicate Untouched(out: seq<Op>, screen: Terminal, pen: Style, row: nat, column: nat, wrapPending: bool)
      reads this
    {
      && this.out == out && this.screen == screen && this.pen == pen
      && this.row == row && this.column == column && this.wrapPending == wrapPending
    }
  }

  /** A size change is a repaint: two grids of different shapes are not comparable cell by cell. */
  predicate Repaints(previous: Option<Surface>, desired: Surface) {
    previous.None? || previous.value.columns != desired.columns || previous.value.rows != desired.rows
  }

  lemma ShownIsSent(caps: Capabilities, pen: Style)
    ensures Shown(caps, pen) == Sent(caps, Resolved(caps, pen))
  {
  }

  /** Parameter strings as operations. */
  function SgrOps(strings: seq<string>): (ops: seq<Op>)
    ensures |ops| == |strings| && Flows(ops)
  {
    seq(|strings|, i requires 0 <= i < |strings| => Op.Sgr(strings[i]))
  }

  /** The contract on entry. `from`, for the repaint that replaces a frame, is how far below the top
      of that frame the cursor is. */
  ghost predicate Entry(caps: Capabilities, previous: Option<Surface>, from: Option<nat>, desired: Surface,
                        start: Terminal, origin: nat)
  {
    && desired.Ok(caps) && start.Ok() && start.columns == desired.columns
    && !start.misused && start.pen == DEFAULT_STYLE
    && origin < |start.grid| && origin + desired.rows <= |start.grid|
    && (from.Some? ==> previous.None?)
    && if from.Some? then start.row == origin + from.value
       else if previous.None? then start.row == origin && start.column == 0 && !start.pending
       else
         var was := previous.value;
         && was.Ok(caps) && origin + was.rows <= |start.grid|
         && (was.columns == start.columns ==> Shows(caps, start.grid, origin, was))
         && start.row == origin + was.cursor.row && start.column == was.cursor.column && !start.pending
         && start.visible == was.cursor.visible
  }

  /** Where an emission believes it begins: a repaint at the frame's first cell, whatever it repaints. */
  ghost predicate Begins(caps: Capabilities, previous: Option<Surface>, from: Option<nat>, desired: Surface,
                         start: Terminal, origin: nat)
  {
    Entry(caps, if Repaints(previous, desired) then None else previous, from, desired, start, origin)
  }

  /** The contract on exit: the picture, the cursor, the pen, no misuse of a pending wrap, and nothing
      touched outside the frame but the rows a replaced frame's erase is for. A repaint believes the
      cursor visible, so it can only hide one that was. */
  ghost predicate Exit(caps: Capabilities, repaint: bool, erased: bool, desired: Surface,
                       start: Terminal, after: Terminal, origin: nat)
    requires desired.Ok(caps) && |after.grid| == |start.grid| && origin + desired.rows <= |start.grid|
  {
    && !after.misused && after.pen == DEFAULT_STYLE
    && Shows(caps, after.grid, origin, desired)
    && after.row == origin + desired.cursor.row && after.column == desired.cursor.column && !after.pending
    && after.visible == (desired.cursor.visible && (!repaint || start.visible))
    && (forall r :: 0 <= r < origin ==> after.grid[r] == start.grid[r])
    && (forall r :: origin + desired.rows <= r < |start.grid| ==>
          after.grid[r] == if erased then BlankLine(desired.columns, Default) else start.grid[r])
  }

  /** Whether a row has, among the first `rows`, one below it that continues it. */
  predicate Continued(s: Surface, r: nat, rows: nat)
    requires rows <= |s.hard|
  {
    r + 1 < rows && !s.hard[r + 1]
  }

  /** The terminal joins two rows of the frame exactly where the surface says the lower one is soft. */
  ghost predicate JoinedAsLaidOut(desired: Surface, joins: seq<bool>, origin: nat)
    requires |desired.hard| == desired.rows && origin + desired.rows <= |joins|
  {
    forall q :: origin <= q < origin + desired.rows ==> joins[q] == Continued(desired, q - origin, desired.rows)
  }

  /** Column n is right behind the text of a row. */
  predicate Behind(row: seq<Cell>, n: nat) {
    0 < n <= |row| && row[n - 1] != BLANK_CELL && forall k :: n <= k < |row| ==> row[k] == BLANK_CELL
  }

  /** A line wrapped to the last row, with the cursor behind it. */
  predicate IsOneLine(s: Surface)
    requires |s.cells| == s.rows && |s.hard| == s.rows
  {
    && 0 < s.rows == s.cursor.row + 1 && s.cursor.column < s.columns
    && (forall r :: 1 <= r < s.rows ==> !s.hard[r])
    && Behind(s.cells[s.rows - 1], s.cursor.column)
  }

  lemma OneLineMeans(s: Surface)
    requires |s.cells| == s.rows && |s.hard| == s.rows && IsOneLine(s)
    ensures 0 < s.rows == s.cursor.row + 1 && 0 < s.cursor.column < s.columns
    ensures forall r :: 1 <= r < s.rows ==> !s.hard[r]
    ensures Behind(s.cells[s.rows - 1], s.cursor.column)
  {
  }

  method Emit(caps: Capabilities, previous: Option<Surface>, from: Option<nat>, desired: Surface,
              ghost start: Terminal, ghost origin: nat) returns (out: seq<Op>)
    requires Begins(caps, previous, from, desired, start, origin)
    ensures Exit(caps, Repaints(previous, desired), from.Some?, desired, start, Run(start, out), origin)
    ensures Repaints(previous, desired) ==> JoinedAsLaidOut(desired, Run(start, out).joins, origin)
    ensures !Repaints(previous, desired) && desired.SamePicture(previous.value) ==> out == []
    ensures Repaints(previous, desired) && from.None? && IsOneLine(desired) ==> Flows(out)
  {
    hide Run, Sent, RowOk, ShowsRow, BlankLine, Step, Flows, Behind, IsOneLine, LineOk, JoinedAsLaidOut;
    var repaint := Repaints(previous, desired);
    var believed := if repaint then Cursor(0, 0, true) else previous.value.cursor;
    var terminal := new Emitter(caps, desired.columns, believed.row, believed.column, start, origin);
    RunNothing(start);
    if from.Some? {
      terminal.MoveToFrameTop(from.value);
      terminal.ClearToEndOfScreen();
    }
    terminal.EmitRows(if repaint then desired else previous.value, desired, repaint);
    terminal.Finish(desired.cursor, if repaint then true else previous.value.cursor.visible);
    out := terminal.out;
  }

  lemma EraseAll(line: Line)
    requires line != []
    ensures EraseFrom(line, 0, Default) == BlankLine(|line|, Default)
  {
  }

  lemma RunNothing(start: Terminal)
    requires start.Ok()
    ensures Run(start, []) == start && Flows([])
  {
  }

  /** Where a span written up to column c really ends: a wide glyph covers one column more. */
  ghost function Covered(want: seq<Cell>, first: nat, c: nat): nat {
    if first < c && Continues(want, c) then c + 1 else c
  }

  /** A line whose first `done` columns are right and whose others are as they were, but for the
      second half of a wide glyph that lost its first. */
  ghost predicate Half(caps: Capabilities, line: Line, was: Line, want: seq<Cell>, done: nat) {
    && |line| == |was| == |want|
    && (forall k :: 0 <= k < |line| && k < done ==> line[k] == ShownCell(caps, want[k]))
    && (forall k :: done <= k < |line| ==> line[k] == was[k] || (k == done && line[k] == Torn && was[k].Tail?))
    && !TailAt(line, done)
  }

  lemma HalfStarts(caps: Capabilities, was: Line, want: seq<Cell>, first: nat)
    requires |was| == |want| && !TailAt(was, first)
    requires forall k :: 0 <= k < |was| && k < first ==> was[k] == ShownCell(caps, want[k])
    ensures Half(caps, was, was, want, first)
  {
  }

  lemma CellFits(caps: Capabilities, want: seq<Cell>, c: nat)
    requires RowOk(caps, want) && c < |want| && want[c].glyph != 0
    ensures 1 <= want[c].width <= 2 && c + want[c].width <= |want|
    ensures !Resolved(caps, want[c].pen).TwoUnderlines()
    ensures Continues(want, c + 1) <==> want[c].width == 2
  {
  }

  lemma TailAlone(caps: Capabilities, want: seq<Cell>, c: nat)
    requires RowOk(caps, want) && Continues(want, c)
    ensures !Continues(want, c + 1)
  {
  }

  lemma HalfGrows(caps: Capabilities, line: Line, was: Line, want: seq<Cell>, first: nat, c: nat)
    requires RowOk(caps, want) && LineOk(was) && first <= c < |want| && want[c].glyph != 0
    requires Half(caps, line, was, want, c)
    requires c + want[c].width <= |want|
    ensures Half(caps, Stamp(line, c, want[c].glyph, want[c].width, Shown(caps, want[c].pen)), was, want,
      c + want[c].width)
  {
  }

  /** A row's joins once it is repainted: to the row above if it continues it, never yet below. */
  function Joined(joins: seq<bool>, at: nat, continues: bool): seq<bool>
    requires at < |joins| && (continues ==> 0 < at)
  {
    if continues then joins[at - 1 := true][at := false] else joins[at := false]
  }

  /** Which columns of a row get glyphs, and whether an erase shows the rest; `first` is negative for
      a row that needs nothing. A `full` row is written out to its last column. */
  method PlanRow(caps: Capabilities, was: seq<Cell>, want: seq<Cell>, repaint: bool, full: bool)
    returns (first: int, runEnd: nat, clearTail: bool)
    requires |was| == |want| && 0 < |want| && RowOk(caps, was) && RowOk(caps, want) && (full ==> repaint)
    ensures first < 0 <==> !repaint && was == want
    ensures 0 <= first ==> first < |want| && first <= runEnd <= |want| && !Continues(want, first)
    ensures 0 <= first && repaint ==> first == 0
    ensures 0 <= first && !repaint ==>
      !Continues(was, first) && forall k :: 0 <= k < first ==> was[k] == want[k]
    ensures 0 <= first && clearTail ==> !full && forall k :: runEnd <= k < |want| ==> want[k] == BLANK_CELL
    ensures 0 <= first && !clearTail ==> first < runEnd && (repaint ==> runEnd == |want|)
    ensures 0 <= first && !clearTail && !repaint ==> forall k :: runEnd <= k < |want| ==> was[k] == want[k]
    // No more than it must: a row that is not repainted is written from a difference to a difference, and
    // a blank tail is erased exactly if writing would have to go into it.
    ensures 0 <= first && !repaint ==> StartsAtDifference(was, want, first)
    ensures 0 <= first && !repaint && !clearTail ==> was[runEnd - 1] != want[runEnd - 1]
    ensures 0 <= first && !full && !clearTail ==> exists k :: runEnd - 1 <= k < |want| && want[k] != BLANK_CELL
    ensures 0 <= first && !repaint && clearTail ==> exists k :: runEnd <= k < |want| && was[k] != want[k]
    ensures 0 <= first && clearTail ==> runEnd == first || want[runEnd - 1] != BLANK_CELL
  {
    var last := |want| - 1;
    first, runEnd, clearTail := 0, 0, false;
    if !repaint {
      first, last := DiffSpan(caps, was, want);
      if first < 0 {
        return;
      }
    }
    var blankTail := BlankTail(want);
    clearTail := blankTail <= last;
    assert !clearTail ==> want[blankTail - 1] != BLANK_CELL;
    runEnd := if clearTail then (if first < blankTail then blankTail else first) else last + 1;
    if full {
      clearTail, runEnd := false, |want|;
    }
  }

  /** Where a row first and last differs, backed off the second half of any wide glyph; negative for
      equal rows. */
  method DiffSpan(caps: Capabilities, was: seq<Cell>, want: seq<Cell>) returns (first: int, last: int)
    requires |was| == |want| && RowOk(caps, was) && RowOk(caps, want)
    ensures first < 0 <==> was == want
    ensures 0 <= first ==> first <= last < |want| && !Continues(was, first) && !Continues(want, first)
    ensures 0 <= first ==> forall k :: 0 <= k < |want| && (k < first || last < k) ==> was[k] == want[k]
    ensures 0 <= first ==> StartsAtDifference(was, want, first) && was[last] != want[last]
  {
    hide RowOk;
    FirstColumnIsWhole(caps, was);
    FirstColumnIsWhole(caps, want);
    first, last := -1, -1;
    for column := 0 to |want|
      invariant first < 0 ==> was[..column] == want[..column]
      invariant 0 <= first ==> first <= last < column && was[first] != want[first] && was[last] != want[last]
      invariant 0 <= first ==> forall k :: 0 <= k < column && (k < first || last < k) ==> was[k] == want[k]
    {
      if was[column] != want[column] {
        if first < 0 {
          first := column;
        }
        last := column;
      }
    }
    if first < 0 {
      return;
    }
    LeadIsWhole(caps, was, first);
    LeadIsWhole(caps, want, first);
    ghost var differs := first;
    while 0 < first && (want[first].glyph == 0 || was[first].glyph == 0)
      invariant 0 <= first <= last && first <= differs <= first + 1
      invariant first < differs ==>
        was[first].glyph != 0 && want[first].glyph != 0 && StartsAtDifference(was, want, first)
      invariant first == differs ==> was[first] != want[first]
      invariant forall k :: 0 <= k < |want| && (k < first || last < k) ==> was[k] == want[k]
    {
      first := first - 1;
    }
  }

  /** There is a difference in the column, or in the second half of a glyph it starts. */
  predicate StartsAtDifference(was: seq<Cell>, want: seq<Cell>, first: nat)
    requires first < |was| == |want|
  {
    || was[first] != want[first]
    || (first + 1 < |want| && was[first + 1] != want[first + 1] &&
        (Continues(was, first + 1) || Continues(want, first + 1)))
  }

  lemma LeadIsWhole(caps: Capabilities, row: seq<Cell>, k: nat)
    requires RowOk(caps, row) && k < |row|
    ensures Continues(row, k) ==> 0 < k && !Continues(row, k - 1)
  {
  }

  lemma FirstColumnIsWhole(caps: Capabilities, row: seq<Cell>)
    requires RowOk(caps, row)
    ensures !Continues(row, 0)
  {
  }

  /** Where the blank tail of a row begins. */
  method BlankTail(row: seq<Cell>) returns (tail: nat)
    ensures tail <= |row| && forall k :: tail <= k < |row| ==> row[k] == BLANK_CELL
    ensures 0 < tail ==> row[tail - 1] != BLANK_CELL
  {
    tail := |row|;
    while 0 < tail && row[tail - 1] == BLANK_CELL
      invariant tail <= |row| && forall k :: tail <= k < |row| ==> row[k] == BLANK_CELL
    {
      tail := tail - 1;
    }
  }

  lemma FirstIsWhole(caps: Capabilities, was: Line, want: seq<Cell>, first: nat, before: seq<Cell>, repaint: bool)
    requires |was| == |want| == |before| && first < |want|
    requires LineOk(was) && RowOk(caps, want)
    requires repaint ==> first == 0
    requires !repaint ==> ShowsRow(caps, was, before) && !Continues(before, first) && !Continues(want, first)
    requires !repaint ==> forall k :: 0 <= k < first ==> before[k] == want[k]
    ensures !TailAt(was, first) && !Continues(want, first)
    ensures forall k :: 0 <= k < first ==> was[k] == ShownCell(caps, want[k])
  {
  }

  /** A row written to its last difference, or to its last column. */
  lemma WrittenRowShows(caps: Capabilities, line: Line, was: Line, want: seq<Cell>, first: nat, runEnd: nat,
      before: seq<Cell>)
    requires RowOk(caps, want) && RowOk(caps, before) && |before| == |want| && first < runEnd <= |want|
    requires Half(caps, line, was, want, Covered(want, first, runEnd))
    requires runEnd == |want| || ShowsRow(caps, was, before)
    requires forall k :: runEnd <= k < |want| ==> before[k] == want[k]
    ensures ShowsRow(caps, line, want)
  {
  }

  /** A row written to its blank tail and erased from there. */
  lemma ClearedRowShows(caps: Capabilities, line: Line, was: Line, want: seq<Cell>, first: nat, runEnd: nat)
    requires RowOk(caps, want) && first <= runEnd <= |want|
    requires Half(caps, line, was, want, Covered(want, first, runEnd))
    requires forall k :: runEnd <= k < |want| ==> want[k] == BLANK_CELL
    ensures ShowsRow(caps, if runEnd == |want| then line else EraseFrom(line, runEnd, Default), want)
  {
  }

  // ----- the three entrances -----

  /** The minimal update. A size change falls back to a repaint, and to what a repaint believes: that the
      cursor is at the frame's first cell, where nothing has put it. From another row the frame lands as many
      rows too low, and from another column a line is written that much too far on. */
  method Update(caps: Capabilities, previous: Surface, desired: Surface, ghost start: Terminal, ghost origin: nat)
    returns (out: seq<Op>)
    requires Entry(caps, Some(previous), None, desired, start, origin)
    ensures !Repaints(Some(previous), desired) ==> Exit(caps, false, false, desired, start, Run(start, out), origin)
    ensures desired.SamePicture(previous) ==> out == []
    ensures Repaints(Some(previous), desired) && (previous.cursor.column == 0 || IsOneLine(desired)) ==>
      (Exit(caps, true, false, desired, start, Run(start, out), origin) <==> AtOrigin(previous.cursor))
    ensures var fits := previous.cursor.column == 0 && start.row + desired.rows <= |start.grid|;
      Repaints(Some(previous), desired) && fits ==>
      && Exit(caps, true, false, desired, start, Run(start, out), start.row)
      && JoinedAsLaidOut(desired, Run(start, out).joins, start.row)
  {
    hide Run, Shows, Flows;
    var repaint := Repaints(Some(previous), desired);
    ghost var believed := if repaint then Believed(start, desired.rows) else start;
    ghost var top := if repaint then start.row else origin;
    if repaint {
      BelievedOk(start, desired.rows);
    }
    out := Emit(caps, Some(previous), None, desired, believed, top);
    if repaint {
      Lands(caps, desired, start, believed, origin, out);
    }
  }

  /** So it is right for every picture only from the first cell: from any other there is a taller or a
      shorter frame that an update gets wrong. */
  method MissedFrame(caps: Capabilities, previous: Surface, ghost start: Terminal, ghost origin: nat)
    returns (desired: Surface, out: seq<Op>)
    requires Entry(caps, Some(previous), None, previous, start, origin)
    requires !AtOrigin(previous.cursor) && origin + 2 <= |start.grid|
    ensures Entry(caps, Some(previous), None, desired, start, origin) && Repaints(Some(previous), desired)
    ensures !Exit(caps, true, false, desired, start, Run(start, out), origin)
  {
    var columns, x := previous.columns, Cell(0x78, DEFAULT_STYLE, 1);
    var rows := if previous.rows == 1 then 2 else 1;
    var last := [x] + seq(columns - 1, _ => BLANK_CELL);
    var cells := if rows == 1 then [last] else [seq(columns, _ => x), last];
    desired := Surface(columns, rows, cells, seq(rows, r => r == 0),
        Cursor(rows - 1, if columns == 1 then 0 else 1, true));
    hide Run, Flows;
    out := Update(caps, previous, desired, start, origin);
  }

  predicate AtOrigin(cursor: Cursor) {
    cursor.row == 0 && cursor.column == 0
  }

  /** The terminal a repaint takes this one for, and room for its frame. */
  ghost function Believed(t: Terminal, rows: nat): Terminal {
    if t.column == 0 && t.row + rows <= |t.grid| then t
    else t.(column := 0, grid := t.grid + Blanks(t, rows), joins := t.joins + Unjoined(rows))
  }

  lemma BelievedOk(t: Terminal, rows: nat)
    requires t.Ok() && !t.pending
    ensures var b := Believed(t, rows);
      && b.Ok() && b.columns == t.columns && b.row == t.row && b.column == 0 && !b.pending
      && t.row + rows <= |b.grid| && |t.grid| <= |b.grid|
      && b.pen == t.pen && b.misused == t.misused
  {
    hide LineOk, BlankLine;
  }

  /** What a repaint that starts elsewhere comes to. */
  lemma Lands(caps: Capabilities, desired: Surface, start: Terminal, believed: Terminal, origin: nat, out: seq<Op>)
    requires desired.Ok(caps) && start.Ok() && !start.pending && !start.misused && start.columns == desired.columns
    requires origin <= start.row && origin + desired.rows <= |start.grid| && believed == Believed(start, desired.rows)
    requires believed.Ok() && start.row + desired.rows <= |believed.grid| &&
      |Run(believed, out).grid| == |believed.grid|
    requires Exit(caps, true, false, desired, believed, Run(believed, out), start.row)
    requires IsOneLine(desired) ==> Flows(out)
    ensures var misses := !Exit(caps, true, false, desired, start, Run(start, out), origin);
      && (start.column == 0 ==> (misses <==> origin < start.row))
      && (0 < start.column && IsOneLine(desired) ==> misses)
  {
    hide Run, Shows, Flows, BlankLine, Terminal.Ok, JoinedAsLaidOut, LineOk, RowOk, Behind;
    BelievedOk(start, desired.rows);
    var after, meant := Run(start, out), Run(believed, out);
    if start.column == 0 {
      RoomAround(start, believed, 0, out);
    } else if IsOneLine(desired) && !after.misused {
      LagStays(start, believed, out, start.column);
      Elsewhere(after, meant);
    }
  }

  lemma Elsewhere(after: Terminal, meant: Terminal)
    requires after.columns == meant.columns && Place(meant) < Place(after)
    ensures after.row <= meant.row && after.column == meant.column ==> after.pending && !meant.pending
  {
    if after.row <= meant.row {
      var k := meant.row - after.row;
      assert meant.row * meant.columns == after.row * meant.columns + k * meant.columns;
    }
  }

  /** The first paint of a read: the cursor is at the origin and what is shown below it is unknown. */
  method Paint(caps: Capabilities, desired: Surface, ghost start: Terminal, ghost origin: nat) returns (out: seq<Op>)
    requires Entry(caps, None, None, desired, start, origin)
    ensures Exit(caps, true, false, desired, start, Run(start, out), origin)
    ensures JoinedAsLaidOut(desired, Run(start, out).joins, origin)
  {
    out := Emit(caps, None, None, desired, start, origin);
  }

  /** The repaint that replaces a frame, from `rowsBelow` rows under its top, at any column and even
      with a wrap pending. */
  method PaintFrom(caps: Capabilities, rowsBelow: nat, desired: Surface, ghost start: Terminal, ghost origin: nat)
    returns (out: seq<Op>)
    requires Entry(caps, None, Some(rowsBelow), desired, start, origin)
    ensures Exit(caps, true, true, desired, start, Run(start, out), origin)
    ensures JoinedAsLaidOut(desired, Run(start, out).joins, origin)
  {
    out := Emit(caps, None, Some(rowsBelow), desired, start, origin);
  }

  /** The loop may hand the surface it painted straight back as `previous`, with nothing remembered in
      between - unless a repaint left hidden a cursor the surface says is visible. */
  lemma ExitIsEntry(caps: Capabilities, repaint: bool, erased: bool, painted: Surface, start: Terminal,
                    after: Terminal, origin: nat, next: Surface)
    requires painted.Ok(caps) && next.Ok(caps) && next.columns == painted.columns && origin + next.rows <= |start.grid|
    requires after.Ok() && after.columns == painted.columns && |after.grid| == |start.grid|
    requires origin < |start.grid| && origin + painted.rows <= |start.grid|
    requires Exit(caps, repaint, erased, painted, start, after, origin)
    ensures Entry(caps, Some(painted), None, next, after, origin)
       <==> (repaint && painted.cursor.visible ==> start.visible)
  {
  }

  /** A frame after another in one read: the difference, or where the number of rows changed, the frame
      replaced from as many rows above the cursor as its top is said to be. That has to be the row the
      cursor is on. */
  method Replace(caps: Capabilities, previous: Surface, above: nat, desired: Surface, ghost start: Terminal,
      ghost origin: nat)
    returns (out: seq<Op>)
    requires previous.columns == desired.columns && Entry(caps, Some(previous), None, desired, start, origin)
    ensures var repaint := Repaints(Some(previous), desired);
      && (Exit(caps, repaint, repaint, desired, start, Run(start, out), origin) <==>
          !repaint || above == previous.cursor.row)
      && (repaint && above == previous.cursor.row ==> JoinedAsLaidOut(desired, Run(start, out).joins, origin))
    ensures desired.SamePicture(previous) ==> out == []
  {
    hide Run, Shows;
    if Repaints(Some(previous), desired) {
      ghost var right := above == previous.cursor.row;
      if !right {
        PaddedOk(start, above, desired.rows);
      }
      out := PaintFrom(caps, above, desired, if right then start else Padded(start, above, desired.rows),
                       if right then origin else start.row);
      if !right {
        LandsElsewhere(caps, desired, start, above, origin, out);
      }
    } else {
      out := Update(caps, previous, desired, start, origin);
    }
  }

  /** A screen with room above and below the one there is. */
  ghost function Padded(t: Terminal, above: nat, below: nat): Terminal {
    t.(row := t.row + above,
       grid := Blanks(t, above) + t.grid + Blanks(t, below), joins := Unjoined(above) + t.joins + Unjoined(below))
  }

  ghost function Blanks(t: Terminal, rows: nat): seq<Line> {
    seq(rows, _ => BlankLine(t.columns, Default))
  }

  ghost function Unjoined(rows: nat): seq<bool> {
    seq(rows, _ => false)
  }

  lemma PaddedOk(t: Terminal, above: nat, below: nat)
    requires t.Ok()
    ensures var p := Padded(t, above, below);
      && p.Ok() && Terminals.Within(t, p, above) && |p.grid| == above + |t.grid| + below
      && p.pen == t.pen && p.misused == t.misused
  {
    hide LineOk, BlankLine;
  }

  lemma LandsElsewhere(caps: Capabilities, desired: Surface, start: Terminal, above: nat, origin: nat, out: seq<Op>)
    requires desired.Ok(caps) && start.Ok() && origin <= start.row && above != start.row - origin
    requires origin + desired.rows <= |start.grid| && Padded(start, above, desired.rows).Ok()
    requires var p := Padded(start, above, desired.rows);
      start.row + desired.rows <= |p.grid| && Exit(caps, true, true, desired, p, Run(p, out), start.row)
    ensures !Exit(caps, true, true, desired, start, Run(start, out), origin)
  {
    hide Run, Shows, BlankLine, LineOk, RowOk, Terminal.Ok;
    PaddedOk(start, above, desired.rows);
    RoomAround(start, Padded(start, above, desired.rows), above, out);
  }

  /** No repaint has a cursor to bring back. */
  predicate StaysVisible(frames: seq<Surface>) {
    forall f :: 1 <= f < |frames| && Repaints(Some(frames[f - 1]), frames[f]) && frames[f].cursor.visible ==>
      frames[f - 1].cursor.visible
  }

  /** A whole read at one width: the first frame painted, then every later one in place of the one before,
      however many rows it has. The terminal ends up as an update of the last would have to find it: showing
      it, with its cursor, whatever was there at first. */
  method Play(caps: Capabilities, frames: seq<Surface>, ghost start: Terminal, ghost origin: nat) returns (out: seq<Op>)
    requires frames != [] && Entry(caps, None, None, frames[0], start, origin)
    requires forall f :: 0 <= f < |frames| ==>
      frames[f].Ok(caps) && frames[f].columns == start.columns && origin + frames[f].rows <= |start.grid|
    requires StaysVisible(frames) && (frames[0].cursor.visible ==> start.visible)
    ensures Entry(caps, Some(frames[|frames| - 1]), None, frames[|frames| - 1], Run(start, out), origin)
  {
    hide Run, Shows;
    out := Paint(caps, frames[0], start, origin);
    for f := 1 to |frames|
      invariant Entry(caps, Some(frames[f - 1]), None, frames[f - 1], Run(start, out), origin)
    {
      ghost var shown := Run(start, out);
      var more := Replace(caps, frames[f - 1], frames[f - 1].cursor.row, frames[f], shown, origin);
      RunJoin(start, out, more);
      out := out + more;
    }
  }
}
