/** The layout walk (layout.cpp) and what it writes on a surface (surface.cpp): one traversal run twice,
    once to find the cursor and once to paint the window around it. */
module Layouts {
  import opened Wrappers
  import opened Styles
  import opened Surfaces
  import Terminals
  import opened Sheets
  import Blitter
  import Decorating

  // Clusters go to the surface in runs of one row and one pen, written when the run ends; what each
  // method leaves pending is a suffix of the row it is on.

  /** The row being filled holds its clusters, and the column is where they end. */
  ghost predicate Tight(columns: nat, s: Sheet)
    requires s.Ok()
  {
    var inks := s.rows[s.row].inks;
    && InksOk(inks) && Holds(columns, inks) && s.column == Min(Widths(inks), columns) && EmptyBelow(s)
  }

  /** Some of a row's clusters, as a run with one pen. */
  ghost predicate Spells(run: seq<Ink>, pen: Style, inks: seq<Inked>) {
    |run| == |inks| && forall j :: 0 <= j < |run| ==>
        run[j] == Ink.Glyph(inks[j].glyph, inks[j].width) && inks[j].pen == pen
  }

  /** `surface::write` on one row: clipping, not wrapping. */
  method Write(line: seq<Cell>, column: nat, run: seq<Ink>, pen: Style, ghost before: seq<Inked>,
      ghost inks: seq<Inked>)
    returns (after: seq<Cell>)
    requires Spells(run, pen, inks) && InksOk(before + inks) && Holds(|line|, before + inks) && line != []
    requires line == Painted(|line|, before) && column == Min(Widths(before), |line|)
    ensures after == Painted(|line|, before + inks)
  {
    hide Widths, Painted, InkOk;
    after := line;
    if column >= |line| {
      NoRoom(|line|, before, inks);
      return;
    }
    var col := column;
    assert before + inks[..0] == before;
    for j := 0 to |run|
      invariant |after| == |line| && after == Painted(|line|, before + inks[..j]) && col == Widths(before + inks[..j])
    {
      PaintedMore(|line|, before, inks, j);
      if col + run[j].width > |line| {
        Clipped(|line|, before, inks, j);
        return;
      }
      after := after[col := Cell(run[j].id, pen, run[j].width)];
      if run[j].width == 2 {
        after := after[col + 1 := Cell(0, pen, 0)];
      }
      col := col + run[j].width;
    }
    assert inks[..|run|] == inks;
  }

  lemma PaintedMore(columns: nat, before: seq<Inked>, inks: seq<Inked>, j: nat)
    requires j < |inks| && InksOk(before + inks)
    ensures InkOk(inks[j]) && Widths(before + inks[..j + 1]) == Widths(before + inks[..j]) + inks[j].width
    ensures Painted(columns, before + inks[..j + 1]) ==
      if Widths(before + inks[..j]) + inks[j].width <= columns
      then Surfaces.Written(Painted(columns, before + inks[..j]), Widths(before + inks[..j]), inks[j].glyph,
          inks[j].width, inks[j].pen)
      else Painted(columns, before + inks[..j])
  {
    assert (before + inks)[|before| + j] == inks[j];
    var more := before + inks[..j + 1];
    assert more[..|more| - 1] == before + inks[..j];
  }

  /** A full row takes no more clusters. */
  lemma NoRoom(columns: nat, before: seq<Inked>, inks: seq<Inked>)
    requires InksOk(before + inks) && Holds(columns, before + inks) && 0 < columns <= Widths(before)
    ensures before + inks == before
  {
    assert forall i :: 0 <= i < |inks| ==> inks[i] == (before + inks)[|before| + i];
    WidthsJoin(before, inks);
    NothingWide(inks);
    assert before != [];
  }

  /** Only a cluster wider than the frame is clipped, and it is alone on its row. */
  lemma Clipped(columns: nat, before: seq<Inked>, inks: seq<Inked>, j: nat)
    requires j < |inks| && InksOk(before + inks) && Holds(columns, before + inks)
    requires columns < Widths(before + inks[..j]) + inks[j].width
    ensures Painted(columns, before + inks) == Painted(columns, before + inks[..j])
  {
    hide Painted, InkOk, Widths;
    var all := before + inks;
    assert all[..|before| + j] == before + inks[..j] && all[|before| + j] == inks[j];
    WidthsUpTo(all, |before| + j);
    assert |all| == 1;
    PaintedMore(columns, before, inks, j);
    assert inks[..j + 1] == inks;
  }

  /** All but the last of a row's clusters. */
  ghost function Front(inks: seq<Inked>, unseen: nat): seq<Inked> {
    if unseen <= |inks| then inks[..|inks| - unseen] else inks
  }

  ghost predicate EndsIn(inks: seq<Inked>, pending: seq<Inked>) {
    |pending| <= |inks| && inks == Front(inks, |pending|) + pending
  }

  /** What a row shows when the last `unseen` clusters of the one being filled do not. */
  ghost function Seen(rows: seq<Row>, row: nat, unseen: nat, q: nat): seq<Inked> {
    if q >= |rows| then []
    else if q == row then Front(rows[q].inks, unseen)
    else rows[q].inks
  }

  ghost predicate Depicts(cells: seq<seq<Cell>>, columns: nat, top: nat, rows: seq<Row>, row: nat, unseen: nat) {
    forall r :: 0 <= r < |cells| ==> cells[r] == Painted(columns, Seen(rows, row, unseen, top + r))
  }

  /** Which rows of the window begin a line; its first row and those not reached yet are taken to. */
  ghost predicate Begins(hard: seq<bool>, top: nat, rows: seq<Row>) {
    forall r :: 0 <= r < |hard| ==> hard[r] == (r == 0 || top + r >= |rows| || rows[top + r].hard)
  }

  class Walker {
    const input: Input
    const columns: nat
    const top: nat    // the first row shown
    const shown: nat  // the number of rows shown; the first pass shows none
    var row: nat
    var column: nat
    var maxRow: nat
    var cursorPlaced: bool
    var cursorRow: nat
    var cursorColumn: nat
    var spanAt: nat
    var textAt: nat
    var runOpen: bool
    var run: seq<Ink>
    var runRow: nat
    var runColumn: nat
    var runPen: Style
    var cells: seq<seq<Cell>>
    var hard: seq<bool>
    ghost var sheet: Sheet
    ghost var pending: seq<Inked>  // what the open run spells, already on the sheet

    /** The open run: the last clusters of the row being filled. */
    ghost predicate Run()
      reads this`row, this`column, this`maxRow, this`cursorPlaced, this`cursorRow, this`cursorColumn,
        this`runOpen, this`run, this`runRow, this`runColumn, this`runPen, this`pending, this`cells, this`hard,
        this`sheet
      requires sheet.Ok()
    {
      var inks := sheet.rows[sheet.row].inks;
      && EndsIn(inks, pending) && Spells(run, runPen, pending)
      && (!runOpen ==> run == [])
      && (runOpen ==> runRow == row && runColumn == Min(Widths(Front(inks, |pending|)), columns))
    }

    /** The fields are the sheet's. */
    ghost predicate Geometry()
      reads this`row, this`column, this`maxRow, this`cursorPlaced, this`cursorRow, this`cursorColumn,
        this`runOpen, this`run, this`runRow, this`runColumn, this`runPen, this`pending, this`cells, this`hard,
        this`sheet
    {
      && input.Ok() && columns == input.columns && 0 < columns
      && sheet.Ok() && Tight(columns, sheet)
      && row == sheet.row && column == sheet.column
      && row <= maxRow + 1 && |sheet.rows| == (if row > maxRow then row else maxRow) + 1
      && (cursorPlaced <==> sheet.cursor.Some?)
      && (cursorPlaced ==> sheet.cursor == Some((cursorRow, cursorColumn)))
    }

    ghost predicate Valid()
      reads this`row, this`column, this`maxRow, this`cursorPlaced, this`cursorRow, this`cursorColumn,
        this`runOpen, this`run, this`runRow, this`runColumn, this`runPen, this`pending, this`cells, this`hard,
        this`sheet
    {
      && Geometry() && Run()
      && |cells| == shown && Depicts(cells, columns, top, sheet.rows, sheet.row, |pending|)
      && |hard| == shown && Begins(hard, top, sheet.rows)
    }

    constructor (input: Input, top: nat, shown: nat)
      requires input.Ok() && 0 < input.columns
      ensures Valid() && sheet == START && !runOpen && !cursorPlaced && row <= maxRow && spanAt == 0 && textAt == 0
      ensures this.input == input && this.columns == input.columns && this.top == top && this.shown == shown
    {
      this.input, this.columns, this.top, this.shown := input, input.columns, top, shown;
      row, column, maxRow, cursorPlaced, cursorRow, cursorColumn := 0, 0, 0, false, 0, 0;
      spanAt, textAt := 0, 0;
      runOpen, run, runRow, runColumn, runPen := false, [], 0, 0, DEFAULT_STYLE;
      cells := seq(shown, _ => BlankRow(input.columns));
      hard := seq(shown, _ => true);
      sheet, pending := START, [];
    }

    /** The run goes to the screen, if its row is in the window. */
    method Flush()
      requires Valid()
      modifies this`runOpen, this`run, this`pending, this`cells
      ensures Valid() && !runOpen && pending == []
    {
      hide Widths, Painted, InkOk, Tight, Holds, Begins;
      if runOpen && run != [] {
        Emit();
      }
      runOpen, run, pending := false, [], [];
      NothingSpelled(sheet.rows[sheet.row].inks, runPen);
    }

    method Emit()
      requires Valid() && runOpen
      modifies this`cells
      ensures |cells| == shown && Depicts(cells, columns, top, sheet.rows, sheet.row, 0)
    {
      hide Widths, Painted, InkOk, Begins;
      ghost var inks := sheet.rows[sheet.row].inks;
      ghost var before := Front(inks, |pending|);
      assert before + pending == inks == Front(inks, 0);
      if runRow < top || runRow - top >= shown {
        return;
      }
      var line := Write(cells[runRow - top], runColumn, run, runPen, before, pending);
      cells := cells[runRow - top := line];
    }

    /** What kind of line a row begins; the first row shown is where the cursor is moved to, whatever
        is above it. */
    method Note(at: nat, value: bool)
      requires |hard| == shown
      modifies this`hard
      ensures |hard| == shown
      ensures forall r :: 0 <= r < shown ==> hard[r] == if r > 0 && top + r == at then value else old(hard)[r]
    {
      if at <= top || at - top >= shown {
        return;
      }
      hard := hard[at - top := value];
    }

    /** Room for a cluster: a row it does not fit on wraps. */
    method Reserve(width: nat)
      requires Valid() && row <= maxRow
      modifies this`runOpen, this`run, this`pending, this`cells, this`row, this`column, this`hard, this`sheet
      ensures Valid() && sheet == Reserved(columns, old(sheet), width)
      ensures column == 0 || column + width <= columns
    {
      hide Widths, Painted, InkOk, Holds, Tight, Depicts, Begins, Input.Ok, Reserved, Noted, EmptyBelow, Spells,
          EndsIn, Front;
      ghost var next := Reserved(columns, sheet, width);
      ReservedIs(columns, sheet, width);
      if column == 0 || column + width <= columns {
        return;
      }
      Flush();
      NothingSpelled([], runPen);
      NextRowDepicts(cells, columns, top, sheet, false);
      row, column := row + 1, 0;
      ghost var was := hard;
      Note(row, false);
      NotedBegins(was, hard, top, sheet, false);
      sheet := next;
    }

    method RecordCursor()
      requires Valid() && !cursorPlaced
      modifies this`cursorPlaced, this`cursorRow, this`cursorColumn, this`maxRow, this`hard, this`sheet
      ensures Valid() && row <= maxRow && cursorPlaced && sheet == Recorded(columns, old(sheet))
    {
      hide Widths, Painted, InkOk, Holds, Tight, Depicts, Begins, Input.Ok, Recorded, Noted, EmptyBelow, Spells,
          EndsIn, Front;
      ghost var next := Recorded(columns, sheet);
      RecordedIs(columns, sheet);
      NotedDepicts(cells, columns, top, sheet, |pending|);
      var toRow, toColumn := row, column;
      if toColumn >= columns {
        toRow, toColumn := row + 1, 0;
        ghost var was := hard;
        Note(toRow, false);
        NotedBegins(was, hard, top, sheet, false);
      }
      cursorRow, cursorColumn, cursorPlaced := toRow, toColumn, true;
      maxRow := if cursorRow > maxRow then cursorRow else maxRow;
      sheet := next;
    }

    method BreakLine()
      requires Valid() && row <= maxRow
      modifies this`runOpen, this`run, this`pending, this`cells, this`row, this`column, this`maxRow, this`hard,
        this`sheet
      ensures Valid() && row <= maxRow && !runOpen && sheet == Broken(old(sheet))
    {
      hide Widths, Painted, InkOk, Holds, Tight, Depicts, Begins, Input.Ok, Broken, Noted, EmptyBelow, Spells,
          EndsIn, Front;
      ghost var next := Broken(sheet);
      BrokenIs(columns, sheet);
      Flush();
      NothingSpelled([], runPen);
      NextRowDepicts(cells, columns, top, sheet, true);
      row, column := row + 1, 0;
      ghost var was := hard;
      Note(row, true);
      NotedBegins(was, hard, top, sheet, true);
      maxRow := if row > maxRow then row else maxRow;
      sheet := next;
    }

    /** One cluster: room first and then the cursor, so that a cluster that wraps takes it along. */
    method PutCluster(ghost ink: Inked, glyph: nat, width: nat, pen: Style, here: bool)
      requires Valid() && row <= maxRow && (here ==> !cursorPlaced)
      requires InkOk(ink) && ink.glyph == glyph && ink.width == width && ink.pen == pen
      modifies this`runOpen, this`run, this`runRow, this`runColumn, this`runPen, this`pending, this`cells, this`row,
        this`column, this`maxRow, this`hard, this`sheet, this`cursorPlaced, this`cursorRow, this`cursorColumn
      ensures Valid() && row <= maxRow && sheet == Step(columns, old(sheet), Put(ink, here))
      ensures cursorPlaced == (old(cursorPlaced) || here)
    {
      hide Widths, Painted, InkOk, Holds, Tight, Depicts, Begins, Input.Ok, Reserved, Recorded, Advanced, Spells,
          EndsIn, Front;
      Reserve(width);
      if here {
        RecordCursor();
      }
      if runOpen && runPen != pen {
        Flush();
      }
      OpenRun(pen);
      Extend(ink, glyph, width);
    }

    /** A run belongs to one row and one pen. */
    method OpenRun(pen: Style)
      requires Valid() && (runOpen ==> runPen == pen)
      modifies this`runOpen, this`run, this`runRow, this`runColumn, this`runPen, this`pending
      ensures Valid() && runOpen && runPen == pen
    {
      hide Widths, Painted, InkOk, Holds, Tight, Depicts, Begins, Input.Ok;
      if runOpen {
        return;
      }
      assert pending == [];
      TightColumn(columns, sheet);
      NothingSpelled(sheet.rows[sheet.row].inks, pen);
      runOpen, run, runRow, runColumn, runPen := true, [], row, column, pen;
    }

    method Extend(ghost ink: Inked, glyph: nat, width: nat)
      requires Valid() && runOpen && InkOk(ink) && ink.glyph == glyph && ink.width == width && ink.pen == runPen
      requires column == 0 || column + width <= columns
      modifies this`run, this`pending, this`column, this`maxRow, this`sheet
      ensures Valid() && row <= maxRow && sheet == Advanced(columns, old(sheet), ink)
    {
      hide Widths, Painted, InkOk, Holds, Tight, Depicts, Begins, Input.Ok, Spells, EndsIn, Front;
      SpelledMore(sheet.rows[sheet.row].inks, run, runPen, pending, ink);
      AdvancedTight(columns, sheet, ink);
      AdvancedDepicts(cells, columns, top, sheet, |pending|, ink);
      AdvancedBegins(hard, top, columns, sheet, ink);
      run, pending := run + [Ink.Glyph(glyph, width)], pending + [ink];
      column := Min(column + width, columns);
      maxRow := if row > maxRow then row else maxRow;
      sheet := Advanced(columns, sheet, ink);
    }

    lemma SheetIsOk()
      requires Valid()
      ensures sheet.Ok()
    {
    }

    /** A prompt, or a virtual text: clusters, line breaks, and the pens an escape moves. */
    method Place(text: seq<Piece>, start: Style)
      requires Valid() && row <= maxRow && !runOpen && TextOk(text)
      modifies this`runOpen, this`run, this`runRow, this`runColumn, this`runPen, this`pending, this`cells, this`row,
        this`column, this`maxRow, this`hard, this`sheet, this`cursorPlaced, this`cursorRow, this`cursorColumn
      ensures Valid() && row <= maxRow && !runOpen && cursorPlaced == old(cursorPlaced)
      ensures sheet == Walk(columns, old(sheet), PlainTokens(text, start))
    {
      hide Widths, Painted, Holds, Tight, Depicts, Begins, Input.Ok, Step, Spells, EndsIn, Front, Walk, Valid;
      SheetIsOk();
      var pen := start;
      assert text[0..] == text;
      for i := 0 to |text|
        invariant Valid() && row <= maxRow && cursorPlaced == old(cursorPlaced)
        invariant sheet.Ok()
        invariant Walk(columns, sheet, PlainTokens(text[i..], pen)) ==
          Walk(columns, old(sheet), PlainTokens(text, start))
      {
        PlainStep(columns, sheet, text, i, pen);
        var piece := text[i];
        if piece.Escape? {
          Flush();
          pen := PenAfter(piece.sgr, pen);
        } else if piece.ink.Break? {
          BreakLine();
        } else if piece.ink.Glyph? {
          PutCluster(Inked(piece.ink.id, piece.ink.width, pen, None), piece.ink.id, piece.ink.width, pen, false);
        }
      }
      Flush();
      WalkNothing(columns, sheet, pen);
    }

    /** The spans passed end at or before every offset still to come. */
    ghost predicate Passed(offset: nat)
      reads this
    {
      spanAt <= |input.spans| && forall i :: 0 <= i < spanAt ==> input.spans[i].end <= offset
    }

    /** The pen of a buffer byte, by a cursor into the spans that only moves forward. */
    method SpanPen(offset: nat) returns (pen: Style)
      requires input.Ok() && Passed(offset)
      modifies this`spanAt
      ensures Passed(offset) && pen == PenAt(input, offset)
    {
      hide Decorating.Look;
      while spanAt < |input.spans| && input.spans[spanAt].end <= offset
        invariant Passed(offset)
      {
        spanAt := spanAt + 1;
      }
      LookAhead(input.spans, spanAt, offset);
      if spanAt >= |input.spans| || input.spans[spanAt].start > offset {
        return input.textPen;
      }
      return input.over(input.spans[spanAt].style, input.textPen);
    }

    /** The cursor, if it belongs in front of it, and the virtual text due at an offset. */
    method AtOffset(offset: nat)
      requires Valid() && row <= maxRow
      modifies this`runOpen, this`run, this`runRow, this`runColumn, this`runPen, this`pending, this`cells, this`row,
        this`column, this`maxRow, this`hard, this`sheet, this`cursorPlaced, this`cursorRow, this`cursorColumn,
            this`textAt
      ensures Valid() && row <= maxRow
      ensures sheet == Walk(columns, old(sheet), NoteTokens(input, old(textAt), offset, old(cursorPlaced)))
      ensures textAt == DueTo(input, old(textAt), offset)
      ensures cursorPlaced == MarkedAt(input, old(textAt), offset, old(cursorPlaced))
    {
      hide Widths, Painted, Holds, Tight, Depicts, Begins, Spells, EndsIn, Front, Walk, Valid, PlainTokens, Recorded;
      SheetIsOk();
      NotesWalk(columns, sheet, input, textAt, offset, cursorPlaced);
      if textAt >= |input.texts| || input.texts[textAt].at > offset {
        return;
      }
      if input.cursor <= offset && !cursorPlaced {
        RecordCursor();
      }
      ghost var start := sheet;
      while textAt < |input.texts| && input.texts[textAt].at <= offset
        invariant Valid() && row <= maxRow && sheet.Ok()
        invariant Walk(columns, sheet, DueTokens(input, textAt, offset)) ==
          Walk(columns, start, DueTokens(input, old(textAt), offset))
        invariant DueTo(input, textAt, offset) == DueTo(input, old(textAt), offset)
        invariant cursorPlaced == MarkedAt(input, old(textAt), offset, old(cursorPlaced))
        decreases |input.texts| - textAt
      {
        var one := input.texts[textAt];
        DueStep(columns, sheet, input, textAt, offset);
        textAt := textAt + 1;
        Flush();
        InputIsOk();
        Place(one.text, input.over(one.style, input.textPen));
      }
      WalkNothing(columns, sheet, input.textPen);
    }

    lemma InputIsOk()
      requires Valid()
      ensures input.Ok() && columns == input.columns && 0 < columns && (!cursorPlaced <==> sheet.cursor.None?)
    {
    }

    /** One cluster of the buffer, after the notes at its offset. */
    method BufferCluster(piece: Piece, offset: nat)
      requires Valid() && row <= maxRow && piece.Cluster? && TextOk([piece]) && Passed(offset)
      modifies this`runOpen, this`run, this`runRow, this`runColumn, this`runPen, this`pending, this`cells, this`row,
        this`column, this`maxRow, this`hard, this`sheet, this`cursorPlaced, this`cursorRow, this`cursorColumn,
            this`spanAt
      ensures Valid() && row <= maxRow && Passed(offset)
      ensures var here := !old(cursorPlaced) && input.cursor < offset + piece.size;
        && cursorPlaced == (old(cursorPlaced) || here)
        && sheet == Walk(columns, old(sheet), ClusterTokens(input, piece.ink, Range(offset, offset + piece.size), here))
    {
      hide Widths, Painted, Holds, Tight, Depicts, Begins, Spells, EndsIn, Front, Walk, Valid, PlainTokens, Recorded,
        Broken, Step, PenAt, Input.Ok;
      SheetIsOk();
      InputIsOk();
      assert piece == [piece][0];
      var end := offset + piece.size;
      var here := input.cursor < end && !cursorPlaced;
      if piece.ink.Glyph? {
        var pen := SpanPen(offset);
        ghost var ink := Inked(piece.ink.id, piece.ink.width, pen, Some(Range(offset, end)));
        WalkOne(columns, sheet, Put(ink, here), []);
        assert [Put(ink, here)] + [] == [Put(ink, here)];
        PutCluster(ink, piece.ink.id, piece.ink.width, pen, here);
        WalkNothing(columns, sheet, pen);
      } else {
        MarkWalk(columns, sheet, input, piece.ink, Range(offset, end), here);
        if here {
          RecordCursor();
        }
        if piece.ink.Break? {
          ContinuationIsOk();
          BreakLine();
          Place(input.continuation, input.promptPen);
        }
      }
    }

    lemma ContinuationIsOk()
      requires input.Ok()
      ensures TextOk(input.continuation)
    {
    }

    /** The prompt, and then the buffer with everything anchored to it. */
    method RunWalk()
      requires Valid() && !runOpen && !cursorPlaced && row <= maxRow && spanAt == 0 && textAt == 0
      modifies this
      ensures Valid() && row <= maxRow && pending == [] && cursorPlaced
      ensures sheet == Walk(columns, old(sheet), Tokens(input))
    {
      hide Widths, Painted, Holds, Tight, Depicts, Begins, Spells, EndsIn, Front, Walk, Valid, PlainTokens, Recorded,
        ClusterTokens, NoteTokens, MarkedAt, DueTo;
      InputIsOk();
      SheetIsOk();
      PromptFirst(columns, sheet, input);
      Place(input.prompt, input.promptPen);
      var offset: nat := 0;
      for k := 0 to |input.buffer|
        invariant Valid() && row <= maxRow && sheet.Ok() && Passed(offset)
        invariant Walk(columns, sheet, BufferTokens(input, k, offset, textAt, cursorPlaced)) ==
          Walk(columns, old(sheet), Tokens(input))
      {
        BufferStep(columns, sheet, input, k, offset, textAt, cursorPlaced);
        AtOffset(offset);
        BufferCluster(input.buffer[k], offset);
        offset := offset + input.buffer[k].size;
        SheetIsOk();
      }
      BufferEnd(columns, sheet, input, offset, textAt, cursorPlaced);
      AtOffset(offset);
      Flush();
      if !cursorPlaced {
        RecordCursor();
      }
      FlushedIsAll();
    }

    lemma FlushedIsAll()
      requires Valid() && !runOpen
      ensures pending == []
    {
    }
  }

  lemma TightColumn(columns: nat, s: Sheet)
    requires s.Ok() && Tight(columns, s)
    ensures s.column == Min(Widths(s.rows[s.row].inks), columns)
  {
  }

  /** Of tidy spans, the one at the cursor is the only one that can cover what is not passed. */
  lemma LookAhead(spans: seq<Decorating.Span>, at: nat, x: nat)
    requires Decorating.Tidy(spans) && at <= |spans|
    requires forall i :: 0 <= i < at ==> spans[i].end <= x
    requires at < |spans| ==> x < spans[at].end
    ensures if at == |spans| || spans[at].start > x then Decorating.Look(spans, x) == 0
            else Decorating.Look(spans, x) == spans[at].style != 0
  {
    if at == |spans| || spans[at].start > x {
      assert forall j :: at < j < |spans| ==> spans[at].end <= spans[j].start;
      Decorating.LookIsNothing(spans, x);
    } else {
      assert forall j :: at < j < |spans| ==> spans[at].end <= spans[j].start;
      Decorating.LookIsLast(spans, at, x);
    }
  }

  /** The notes at an offset: the mark, and then the text. */
  lemma NotesWalk(columns: nat, s: Sheet, input: Input, t: nat, o: nat, marked: bool)
    requires s.Ok()
    ensures Walk(columns, s, NoteTokens(input, t, o, marked)) ==
      if !IsDue(input, t, o) then s
      else Walk(columns, if !marked && input.cursor <= o then Recorded(columns, s) else s, DueTokens(input, t, o))
    ensures !IsDue(input, t, o) ==> DueTo(input, t, o) == t
  {
    hide Walk, Recorded, PlainTokens;
    WalkNothing(columns, s, input.textPen);
    WalkOne(columns, s, Mark, DueTokens(input, t, o));
    StepBreaks(columns, s);
    assert [] + DueTokens(input, t, o) == DueTokens(input, t, o);
  }

  lemma DueStep(columns: nat, s: Sheet, input: Input, t: nat, o: nat)
    requires s.Ok() && IsDue(input, t, o)
    ensures Walk(columns, s, DueTokens(input, t, o)) ==
      Walk(columns, Walk(columns, s, PlainTokens(input.texts[t].text, input.over(input.texts[t].style, input.textPen))),
           DueTokens(input, t + 1, o))
    ensures DueTo(input, t, o) == DueTo(input, t + 1, o)
  {
    hide Walk, PlainTokens;
    WalkJoin(columns, s, PlainTokens(input.texts[t].text, input.over(input.texts[t].style, input.textPen)),
        DueTokens(input, t + 1, o));
  }

  /** A cluster without a cell: the mark, and for a line break the new line and its prompt. */
  lemma MarkWalk(columns: nat, s: Sheet, input: Input, ink: Ink, at: Range, here: bool)
    requires s.Ok() && !ink.Glyph?
    ensures var marked := if here then Recorded(columns, s) else s;
      Walk(columns, s, ClusterTokens(input, ink, at, here)) ==
      if ink.Break? then Walk(columns, Broken(marked), PlainTokens(input.continuation, input.promptPen)) else marked
  {
    hide Walk, PlainTokens, Recorded, Broken;
    var marked := if here then Recorded(columns, s) else s;
    var prompt := PlainTokens(input.continuation, input.promptPen);
    StepBreaks(columns, s);
    StepBreaks(columns, marked);
    WalkNothing(columns, s, input.textPen);
    WalkNothing(columns, marked, input.textPen);
    WalkOne(columns, s, Mark, []);
    assert [Mark] + [] == [Mark];
    WalkOne(columns, marked, NewLine, prompt);
    WalkOne(columns, s, Mark, [NewLine] + prompt);
    assert [Mark] + [NewLine] + prompt == [Mark] + ([NewLine] + prompt);
    assert [] + [NewLine] + prompt == [NewLine] + prompt;
  }

  lemma PromptFirst(columns: nat, s: Sheet, input: Input)
    requires s.Ok() && NoEscapes(input.buffer)
    ensures Walk(columns, s, Tokens(input)) ==
      Walk(columns, Walk(columns, s, PlainTokens(input.prompt, input.promptPen)), BufferTokens(input, 0, 0, 0, false))
  {
    hide Walk, PlainTokens, BufferTokens;
    WalkJoin(columns, s, PlainTokens(input.prompt, input.promptPen), BufferTokens(input, 0, 0, 0, false));
  }

  lemma BufferStep(columns: nat, s: Sheet, input: Input, k: nat, o: nat, t: nat, marked: bool)
    requires s.Ok() && k < |input.buffer| && NoEscapes(input.buffer)
    ensures var end, t', marked' := o + input.buffer[k].size, DueTo(input, t, o), MarkedAt(input, t, o, marked);
      var here := !marked' && input.cursor < end;
      Walk(columns, s, BufferTokens(input, k, o, t, marked)) ==
      Walk(columns,
           Walk(columns, Walk(columns, s, NoteTokens(input, t, o, marked)),
               ClusterTokens(input, input.buffer[k].ink, Range(o, end), here)),
           BufferTokens(input, k + 1, end, t', marked' || here))
  {
    hide Walk, NoteTokens, ClusterTokens, DueTo, MarkedAt;
    var end, t', marked' := o + input.buffer[k].size, DueTo(input, t, o), MarkedAt(input, t, o, marked);
    var here := !marked' && input.cursor < end;
    var notes, cluster, rest := NoteTokens(input, t, o, marked),
        ClusterTokens(input, input.buffer[k].ink, Range(o, end), here),
        BufferTokens(input, k + 1, end, t', marked' || here);
    WalkJoin(columns, s, notes, cluster + rest);
    WalkJoin(columns, Walk(columns, s, notes), cluster, rest);
  }

  lemma BufferEnd(columns: nat, s: Sheet, input: Input, o: nat, t: nat, marked: bool)
    requires s.Ok() && NoEscapes(input.buffer)
    ensures var noted := Walk(columns, s, NoteTokens(input, t, o, marked));
      Walk(columns, s, BufferTokens(input, |input.buffer|, o, t, marked)) ==
      if MarkedAt(input, t, o, marked) then noted else Recorded(columns, noted)
  {
    hide Walk, NoteTokens, DueTo, MarkedAt, Recorded;
    var notes := NoteTokens(input, t, o, marked);
    var noted := Walk(columns, s, notes);
    WalkJoin(columns, s, notes, []);
    WalkJoin(columns, s, notes, [Mark]);
    WalkNothing(columns, noted, input.textPen);
    StepBreaks(columns, noted);
    WalkOne(columns, noted, Mark, []);
    WalkNothing(columns, Recorded(columns, noted), input.textPen);
    assert [Mark] + [] == [Mark];
  }

  lemma WalkNothing(columns: nat, s: Sheet, pen: Style)
    requires s.Ok()
    ensures Walk(columns, s, []) == s && PlainTokens([], pen) == []
  {
  }

  /** One piece of a text, and the rest. */
  lemma PlainStep(columns: nat, s: Sheet, text: seq<Piece>, i: nat, pen: Style)
    requires s.Ok() && i < |text|
    ensures var piece, whole, rest := text[i], PlainTokens(text[i..], pen), PlainTokens(text[i + 1..], pen);
      Walk(columns, s, whole) ==
      if piece.Escape? then Walk(columns, s, PlainTokens(text[i + 1..], PenAfter(piece.sgr, pen)))
      else if piece.ink.Break? then Walk(columns, Broken(s), rest)
      else if piece.ink.Glyph? then
        Walk(columns, Step(columns, s, Put(Inked(piece.ink.id, piece.ink.width, pen, None), false)), rest)
      else Walk(columns, s, rest)
  {
    hide Walk, Step;
    var left, piece, rest := text[i..], text[i], PlainTokens(text[i + 1..], pen);
    assert left[0] == piece && left[1..] == text[i + 1..];
    if piece.Cluster? && piece.ink.Glyph? {
      WalkOne(columns, s, Put(Inked(piece.ink.id, piece.ink.width, pen, None), false), rest);
    } else if piece.Cluster? && piece.ink.Break? {
      WalkOne(columns, s, NewLine, rest);
      StepBreaks(columns, s);
    }
  }

  lemma StepBreaks(columns: nat, s: Sheet)
    requires s.Ok()
    ensures Step(columns, s, NewLine) == Broken(s) && Step(columns, s, Mark) == Recorded(columns, s)
  {
  }

  /** What has not been flushed is not shown yet. */
  lemma AdvancedDepicts(cells: seq<seq<Cell>>, columns: nat, top: nat, s: Sheet, unseen: nat, ink: Inked)
    requires s.Ok() && unseen <= |s.rows[s.row].inks| && Depicts(cells, columns, top, s.rows, s.row, unseen)
    ensures Depicts(cells, columns, top, Advanced(columns, s, ink).rows, s.row, unseen + 1)
  {
    hide Painted;
    var inks, next := s.rows[s.row].inks, Advanced(columns, s, ink).rows;
    assert (inks + [ink])[..|inks| - unseen] == inks[..|inks| - unseen];
    forall q: nat
      ensures Seen(next, s.row, unseen + 1, q) == Seen(s.rows, s.row, unseen, q)
    {
    }
  }

  lemma AdvancedBegins(hard: seq<bool>, top: nat, columns: nat, s: Sheet, ink: Inked)
    requires s.Ok() && Begins(hard, top, s.rows)
    ensures Begins(hard, top, Advanced(columns, s, ink).rows)
  {
  }

  lemma SpelledMore(inks: seq<Inked>, run: seq<Ink>, pen: Style, pending: seq<Inked>, ink: Inked)
    requires EndsIn(inks, pending) && Spells(run, pen, pending) && ink.pen == pen
    ensures |pending| <= |inks| && Front(inks + [ink], |pending + [ink]|) == Front(inks, |pending|)
    ensures EndsIn(inks + [ink], pending + [ink]) &&
      Spells(run + [Ink.Glyph(ink.glyph, ink.width)], pen, pending + [ink])
  {
    var k := |inks| - |pending|;
    assert (inks + [ink])[..k] == inks[..k];
    assert inks[..k] + (pending + [ink]) == inks[..k] + pending + [ink];
  }

  lemma ReservedIs(columns: nat, s: Sheet, width: nat)
    requires s.Ok() && Tight(columns, s)
    ensures var r := Reserved(columns, s, width);
      && Tight(columns, r) && EmptyBelow(s) && (r.column == 0 || r.column + width <= columns)
      && if s.column == 0 || s.column + width <= columns then r == s
         else
           && r.row == s.row + 1 && r.column == 0 && r.cursor == s.cursor
           && r.rows == Noted(s.rows, s.row + 1, false) && r.rows[r.row].inks == []
           && |r.rows| == if s.row + 1 < |s.rows| then |s.rows| else |s.rows| + 1
  {
    hide Widths;
    NotedRow(s, false);
    OneWidth(Inked(0, 0, DEFAULT_STYLE, None));
  }

  lemma RecordedIs(columns: nat, s: Sheet)
    requires s.Ok() && Tight(columns, s)
    ensures var r := Recorded(columns, s);
      && Tight(columns, r) && EmptyBelow(s)
      && r.row == s.row && r.column == s.column && r.rows[r.row] == s.rows[s.row]
      && if s.column < columns then r.rows == s.rows && r.cursor == Some((s.row, s.column))
         else
           && r.cursor == Some((s.row + 1, 0)) && r.rows == Noted(s.rows, s.row + 1, false)
           && |r.rows| == if s.row + 1 < |s.rows| then |s.rows| else |s.rows| + 1
  {
    hide Widths;
    NotedRow(s, false);
  }

  lemma BrokenIs(columns: nat, s: Sheet)
    requires s.Ok() && Tight(columns, s)
    ensures var r := Broken(s);
      && Tight(columns, r) && EmptyBelow(s)
      && r.row == s.row + 1 && r.column == 0 && r.cursor == s.cursor
      && r.rows == Noted(s.rows, s.row + 1, true) && r.rows[r.row].inks == []
      && |r.rows| == if s.row + 1 < |s.rows| then |s.rows| else |s.rows| + 1
  {
    hide Widths;
    NotedRow(s, true);
    OneWidth(Inked(0, 0, DEFAULT_STYLE, None));
  }

  /** A new row shows nothing, and the one left shows all it holds. */
  lemma NextRowDepicts(cells: seq<seq<Cell>>, columns: nat, top: nat, s: Sheet, hard: bool)
    requires s.Ok() && EmptyBelow(s) && Depicts(cells, columns, top, s.rows, s.row, 0)
    ensures Depicts(cells, columns, top, Noted(s.rows, s.row + 1, hard), s.row + 1, 0)
  {
    hide Painted;
    NotedRow(s, hard);
    var inks, next := s.rows[s.row].inks, Noted(s.rows, s.row + 1, hard);
    assert inks[..|inks|] == inks;
    forall q: nat
      ensures Seen(next, s.row + 1, 0, q) == Seen(s.rows, s.row, 0, q)
    {
    }
  }

  lemma NotedDepicts(cells: seq<seq<Cell>>, columns: nat, top: nat, s: Sheet, unseen: nat)
    requires s.Ok() && EmptyBelow(s) && Depicts(cells, columns, top, s.rows, s.row, unseen)
    ensures Depicts(cells, columns, top, Noted(s.rows, s.row + 1, false), s.row, unseen)
  {
    hide Painted;
    NotedRow(s, false);
    var next := Noted(s.rows, s.row + 1, false);
    forall q: nat
      ensures Seen(next, s.row, unseen, q) == Seen(s.rows, s.row, unseen, q)
    {
    }
  }

  lemma NotedBegins(was: seq<bool>, hard: seq<bool>, top: nat, s: Sheet, value: bool)
    requires s.Ok() && Begins(was, top, s.rows) && |hard| == |was|
    requires forall r :: 0 <= r < |hard| ==> hard[r] == if r > 0 && top + r == s.row + 1 then value else was[r]
    ensures Begins(hard, top, Noted(s.rows, s.row + 1, value))
  {
  }

  lemma NothingSpelled(inks: seq<Inked>, pen: Style)
    ensures Spells([], pen, []) && EndsIn(inks, []) && Front(inks, 0) == inks
  {
  }

  lemma NotedRow(s: Sheet, hard: bool)
    requires s.Ok() && EmptyBelow(s)
    ensures var more := Noted(s.rows, s.row + 1, hard);
      && |more| == (if s.row + 1 < |s.rows| then |s.rows| else |s.rows| + 1)
      && more[s.row + 1] == Row(hard, [])
      && forall q :: 0 <= q < |s.rows| && q != s.row + 1 ==> more[q] == s.rows[q]
  {
  }

  lemma AdvancedTight(columns: nat, s: Sheet, ink: Inked)
    requires s.Ok() && Tight(columns, s) && InkOk(ink) && 0 < columns
    requires s.column == 0 || s.column + ink.width <= columns
    ensures Tight(columns, Advanced(columns, s, ink))
  {
    hide Widths, InkOk;
    var inks := s.rows[s.row].inks;
    NothingWide(inks);
    WidthsMore(inks, ink);
    assert 0 < ink.width by { PutLines([[]], ink, false); }
    if inks == [] {
      assert inks + [ink] == [ink];
    }
  }

  // ----- the layout -----

  datatype Layout = Layout(screen: Surface, contentRows: nat, firstVisible: nat, cursorRow: nat, cursorColumn: nat,
                           pagerRows: nat)

  const NO_LAYOUT := Layout(Surface(0, 0, [], [], Cursor(0, 0, true)), 0, 0, 0, 0, 0)

  /** The window: its rows of the content as cells, each soft or hard as in the content but for the top
      one; under it the pager; and the cursor where the content has it. */
  ghost predicate Frames(made: Layout, input: Input)
    requires NoEscapes(input.buffer) && |input.page| <= input.rows
  {
    var l, editRows := Laid(input), input.rows - |input.page|;
    var shown := Min(|l.rows|, editRows);
    && l.cursor.Some? && l.cursor.value == (made.cursorRow, made.cursorColumn)
    && made.contentRows == |l.rows| && made.pagerRows == |input.page|
    && made.firstVisible == FirstVisible(|l.rows|, made.cursorRow, editRows)
    && made.firstVisible <= made.cursorRow < made.firstVisible + shown <= |l.rows| && made.cursorColumn < input.columns
    && var screen := made.screen;
    && screen.columns == input.columns && screen.rows == shown + |input.page|
    && |screen.cells| == screen.rows && |screen.hard| == screen.rows
    && (forall r :: 0 <= r < shown ==> screen.cells[r] == Painted(input.columns, l.rows[made.firstVisible + r].inks))
    && (forall r :: 0 <= r < shown ==> screen.hard[r] == (r == 0 || l.rows[made.firstVisible + r].hard))
    && (forall r :: shown <= r < screen.rows ==> screen.cells[r] == input.page[r - shown] && screen.hard[r])
    && screen.cursor == Cursor(made.cursorRow - made.firstVisible, made.cursorColumn, true)
  }

  /** Both passes walk the same content: the first answers where the cursor is and how much content there
      is, the second paints the window that follows from it. */
  method LayOut(input: Input) returns (made: Layout)
    requires input.Ok()
    ensures input.columns == 0 || input.rows == 0 ==> made == NO_LAYOUT
    ensures 0 < input.columns && 0 < input.rows ==> |input.page| <= input.rows && Frames(made, input)
  {
    hide Walk, Tokens, Painted, FirstVisible, Walker.Valid, Frames;
    if input.columns == 0 || input.rows == 0 {
      return NO_LAYOUT;
    }
    var pagerRows := |input.page|;
    var editRows := input.rows - pagerRows;
    var first := new Walker(input, 0, 0);
    first.RunWalk();
    PassMeans(first);
    var contentRows, cursorRow, cursorColumn := first.maxRow + 1, first.cursorRow, first.cursorColumn;
    var split := CursorIsPlaced(input);
    var top, shown := FirstVisible(contentRows, cursorRow, editRows), Min(contentRows, editRows);
    WindowHoldsCursor(contentRows, cursorRow, editRows);
    var second := new Walker(input, top, shown);
    second.RunWalk();
    PassShows(second);
    var screen := Surface(input.columns, shown + pagerRows, second.cells + input.page,
                          second.hard + seq(pagerRows, _ => true), Cursor(cursorRow - top, cursorColumn, true));
    made := Layout(screen, contentRows, top, cursorRow, cursorColumn, pagerRows);
    FramesAre(input, made, second.cells, second.hard);
  }

  lemma FramesAre(input: Input, made: Layout, cells: seq<seq<Cell>>, hard: seq<bool>)
    requires NoEscapes(input.buffer) && |input.page| < input.rows
    requires Laid(input).cursor == Some((made.cursorRow, made.cursorColumn)) && made.cursorColumn < input.columns
    requires made.contentRows == |Laid(input).rows| && made.pagerRows == |input.page|
    requires made.firstVisible == FirstVisible(made.contentRows, made.cursorRow, input.rows - |input.page|)
    requires |cells| == |hard| == Min(made.contentRows, input.rows - |input.page|)
    requires made.firstVisible <= made.cursorRow < made.firstVisible + |cells| <= made.contentRows
    requires forall r :: 0 <= r < |cells| ==>
      cells[r] == Painted(input.columns, Laid(input).rows[made.firstVisible + r].inks)
    requires forall r :: 0 <= r < |hard| ==> hard[r] == (r == 0 || Laid(input).rows[made.firstVisible + r].hard)
    requires made.screen == Surface(input.columns, |cells| + |input.page|, cells + input.page,
      hard + seq(|input.page|, _ => true), Cursor(made.cursorRow - made.firstVisible, made.cursorColumn, true))
    ensures Frames(made, input)
  {
    hide Laid, Painted, FirstVisible;
  }

  lemma PassMeans(w: Walker)
    requires w.Valid() && w.row <= w.maxRow && w.cursorPlaced && NoEscapes(w.input.buffer) && w.sheet == Laid(w.input)
    ensures |Laid(w.input).rows| == w.maxRow + 1 && Laid(w.input).cursor == Some((w.cursorRow, w.cursorColumn))
  {
    hide Laid;
  }

  lemma PassShows(w: Walker)
    requires w.Valid() && w.pending == [] && NoEscapes(w.input.buffer) && w.sheet == Laid(w.input)
    requires w.top + w.shown <= |Laid(w.input).rows|
    ensures |w.cells| == w.shown && |w.hard| == w.shown
    ensures forall r :: 0 <= r < w.shown ==> w.cells[r] == Painted(w.input.columns, Laid(w.input).rows[w.top + r].inks)
    ensures forall r :: 0 <= r < w.shown ==> w.hard[r] == (r == 0 || Laid(w.input).rows[w.top + r].hard)
  {
    hide Laid, Painted;
    var rows, row := w.sheet.rows, w.sheet.row;
    assert Front(rows[row].inks, 0) == rows[row].inks;
    forall r | 0 <= r < w.shown
      ensures w.cells[r] == Painted(w.input.columns, Laid(w.input).rows[w.top + r].inks)
    {
      assert Seen(rows, row, 0, w.top + r) == rows[w.top + r].inks;
    }
  }

  // ----- all the way to the screen -----

  /** No cluster asks for a pen the terminal cannot be told. */
  ghost predicate PensOk(caps: Capabilities, rows: seq<Row>) {
    forall r, i :: 0 <= r < |rows| && 0 <= i < |rows[r].inks| ==> !Resolved(caps, rows[r].inks[i].pen).TwoUnderlines()
  }

  ghost predicate PageOk(caps: Capabilities, page: seq<seq<Cell>>) {
    forall r :: 0 <= r < |page| ==> RowOk(caps, page[r])
  }

  /** Every laid-out frame is one the blitter can paint. */
  lemma FrameIsDrawable(caps: Capabilities, made: Layout, input: Input)
    requires input.Ok() && 0 < input.columns && 0 < input.rows && |input.page| <= input.rows && Frames(made, input)
    requires PensOk(caps, Laid(input).rows) && PageOk(caps, input.page)
    ensures made.screen.Ok(caps)
  {
    hide Laid, Painted, RowOk, FirstVisible, PensOk, Agree, InksOk, Tokens, Lines;
    var l, screen, shown := Laid(input), made.screen, made.screen.rows - |input.page|;
    forall r | 0 <= r < screen.rows
      ensures |screen.cells[r]| == screen.columns && RowOk(caps, screen.cells[r])
    {
      if r < shown {
        LaidIsDrawable(caps, input, made.firstVisible + r);
      } else {
        assert screen.cells[r] == input.page[r - shown];
      }
    }
  }

  lemma LaidIsDrawable(caps: Capabilities, input: Input, r: nat)
    requires input.Ok() && 0 < input.columns && PensOk(caps, Laid(input).rows) && r < |Laid(input).rows|
    ensures RowOk(caps, Painted(input.columns, Laid(input).rows[r].inks))
  {
    hide Laid, Painted, RowOk, Agree, InksOk, Tokens, Lines;
    RowsAreTheLines(input);
    AgreeInks(input.columns, Laid(input), Lines([[]], Tokens(input)), r);
    PaintedIsDrawable(caps, input.columns, Laid(input).rows[r].inks);
  }

  lemma AgreeInks(columns: nat, s: Sheet, lines: seq<seq<Inked>>, r: nat)
    requires s.Ok() && Agree(columns, s, lines) && r < |s.rows|
    ensures InksOk(s.rows[r].inks)
  {
    hide AllRows, Widths;
  }

  /** Row r of a frame on the terminal: the clusters of its row of the content, and under them the pager. */
  ghost predicate Drawn(caps: Capabilities, made: Layout, input: Input, t: Terminals.Terminal, origin: nat, r: nat)
    requires input.Ok() && |input.page| <= input.rows && Frames(made, input)
    requires r < made.screen.rows && origin + made.screen.rows <= |t.grid|
  {
    var rows, top, shown := Laid(input).rows, made.firstVisible, made.screen.rows - |input.page|;
    ShowsRow(caps, t.grid[origin + r], if r < shown then Painted(input.columns, rows[top + r].inks)
        else input.page[r - shown])
  }

  /** A row is joined to the one below exactly if that one is soft. */
  ghost predicate Joined(made: Layout, input: Input, t: Terminals.Terminal, origin: nat, r: nat)
    requires input.Ok() && |input.page| <= input.rows && Frames(made, input)
    requires r < made.screen.rows && origin + made.screen.rows <= |t.joins|
  {
    var rows, top, shown := Laid(input).rows, made.firstVisible, made.screen.rows - |input.page|;
    t.joins[origin + r] <==> r + 1 < shown && !rows[top + r + 1].hard
  }

  /** The whole frame, and the cursor on the line's. */
  ghost predicate Presented(caps: Capabilities, made: Layout, input: Input, t: Terminals.Terminal, origin: nat)
    requires input.Ok() && |input.page| <= input.rows && Frames(made, input)
    requires origin + made.screen.rows <= |t.grid|
  {
    && (forall r :: 0 <= r < made.screen.rows ==> Drawn(caps, made, input, t, origin, r))
    && t.row == origin + made.cursorRow - made.firstVisible && t.column == made.cursorColumn && !t.pending
    && t.visible && t.pen == DEFAULT_STYLE && !t.misused
  }

  /** What can be shown on a terminal of this size. */
  ghost predicate Showable(caps: Capabilities, input: Input, t: Terminals.Terminal, origin: nat) {
    && input.Ok() && 0 < input.rows && 0 < input.columns == t.columns && origin + input.rows <= |t.grid|
    && PensOk(caps, Laid(input).rows) && PageOk(caps, input.page)
  }

  /** A line on the terminal: laid out, and painted where the cursor was. Each row of the window shows
      its clusters, the terminal joins to the row above exactly the soft ones, and its cursor is the
      line's. */
  method Show(caps: Capabilities, input: Input, ghost start: Terminals.Terminal, ghost origin: nat)
    returns (made: Layout, out: seq<Terminals.Op>)
    requires Showable(caps, input, start, origin)
    requires start.Ok() && start.pen == DEFAULT_STYLE && !start.misused && start.visible
    requires start.row == origin && start.column == 0 && !start.pending
    ensures |input.page| <= input.rows && Frames(made, input) && made.screen.Ok(caps)
    ensures var after := Terminals.Run(start, out);
      && Presented(caps, made, input, after, origin)
      && (forall r :: 0 <= r < made.screen.rows ==> Joined(made, input, after, origin, r))
      && Blitter.Entry(caps, Some(made.screen), None, made.screen, after, origin)
  {
    hide Laid, Painted, RowOk, ShowsRow, FirstVisible, Terminals.Run, Presented, Joined;
    made := LayOut(input);
    FrameIsDrawable(caps, made, input);
    out := Blitter.Paint(caps, made.screen, start, origin);
    ghost var after := Terminals.Run(start, out);
    FrameIsPresented(caps, made, input, after, origin);
    FrameIsJoined(made, input, after, origin);
  }

  lemma FrameIsPresented(caps: Capabilities, made: Layout, input: Input, t: Terminals.Terminal, origin: nat)
    requires input.Ok() && |input.page| <= input.rows && Frames(made, input)
    requires origin + made.screen.rows <= |t.grid| && Shows(caps, t.grid, origin, made.screen)
    requires t.row == origin + made.screen.cursor.row && t.column == made.screen.cursor.column && !t.pending
    requires t.visible && t.pen == DEFAULT_STYLE && !t.misused
    ensures Presented(caps, made, input, t, origin)
  {
    hide Laid, Painted, FirstVisible, ShowsRow;
    forall r | 0 <= r < made.screen.rows
      ensures Drawn(caps, made, input, t, origin, r)
    {
      assert ShowsRow(caps, t.grid[origin + r], made.screen.cells[r]);
    }
  }

  lemma FrameIsJoined(made: Layout, input: Input, t: Terminals.Terminal, origin: nat)
    requires input.Ok() && |input.page| <= input.rows && Frames(made, input)
    requires origin + made.screen.rows <= |t.joins| && Blitter.JoinedAsLaidOut(made.screen, t.joins, origin)
    ensures forall r :: 0 <= r < made.screen.rows ==> Joined(made, input, t, origin, r)
  {
    hide Laid, Painted, FirstVisible;
    var screen, shown := made.screen, made.screen.rows - |input.page|;
    forall r | 0 <= r < screen.rows
      ensures Joined(made, input, t, origin, r)
    {
      var q := origin + r;
      assert t.joins[q] == Blitter.Continued(screen, q - origin, screen.rows);
      assert r + 1 < screen.rows ==>
        screen.hard[r + 1] == (shown <= r + 1 || Laid(input).rows[made.firstVisible + (r + 1)].hard);
    }
  }
}
