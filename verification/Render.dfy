/** What the loop does with a layout, frame after frame (loop.cpp, `event_loop::render`). */
module Rendering {
  import opened Wrappers
  import opened Styles
  import opened Surfaces
  import Terminals
  import opened Sheets
  import opened Layouts
  import Blitter

  // It hands the blitter the frame that is on the screen and the one to be there, and where the two differ
  // in size, how far above the cursor the one on the screen begins.

  // ----- where a frame begins -----

  /** The row of the window that the cursor is on. */
  function CursorRow(input: Input): int
    requires NoEscapes(input.buffer)
  {
    var l := Laid(input);
    var row := if l.cursor.Some? then l.cursor.value.0 else 0;
    row - FirstVisible(|l.rows|, row, input.rows - Min(|input.page|, input.rows))
  }

  /** What is laid out again to find where a terminal that reflows has moved a frame: the line without its
      decorations, its virtual text and the pager. */
  function Bare(last: Input, columns: nat, rows: nat): Input {
    last.(spans := [], texts := [], page := [], columns := columns, rows := rows)
  }

  /** At an unchanged size, that is where the frame is. */
  predicate TopIsKnown(input: Input)
    requires NoEscapes(input.buffer)
  {
    CursorRow(Bare(input, input.columns, input.rows)) == CursorRow(input)
  }

  // Pens decide nothing about rows and columns.

  predicate SameShape(a: Token, b: Token) {
    if a.Put? then b.Put? && a.ink.width == b.ink.width && a.cursor == b.cursor else a == b
  }

  predicate SameShapes(a: seq<Token>, b: seq<Token>) {
    |a| == |b| && forall i :: 0 <= i < |a| ==> SameShape(a[i], b[i])
  }

  predicate Congruent(s: Sheet, t: Sheet) {
    |s.rows| == |t.rows| && s.row == t.row && s.column == t.column && s.cursor == t.cursor
  }

  lemma StepIsCongruent(columns: nat, s: Sheet, t: Sheet, a: Token, b: Token)
    requires s.Ok() && t.Ok() && Congruent(s, t) && SameShape(a, b)
    ensures Congruent(Step(columns, s, a), Step(columns, t, b))
  {
  }

  lemma {:induction false} WalkIsCongruent(columns: nat, s: Sheet, t: Sheet, a: seq<Token>, b: seq<Token>)
    requires s.Ok() && t.Ok() && Congruent(s, t) && SameShapes(a, b)
    ensures Congruent(Walk(columns, s, a), Walk(columns, t, b))
    decreases |a|
  {
    hide Step, Congruent;
    if a != [] {
      StepIsCongruent(columns, s, t, a[0], b[0]);
      WalkIsCongruent(columns, Step(columns, s, a[0]), Step(columns, t, b[0]), a[1..], b[1..]);
    }
  }

  lemma {:induction false} BufferHasShape(input: Input, bare: Input, k: nat, o: nat, marked: bool)
    requires input.texts == [] && bare == Bare(input, input.columns, input.rows)
    requires k <= |input.buffer| && NoEscapes(input.buffer)
    ensures SameShapes(BufferTokens(input, k, o, 0, marked), BufferTokens(bare, k, o, 0, marked))
    decreases |input.buffer| - k
  {
    hide SameShapes, ClusterTokens;
    NothingIsDue(input, o, marked);
    NothingIsDue(bare, o, marked);
    if k < |input.buffer| {
      var ink, end := input.buffer[k].ink, o + input.buffer[k].size;
      var here := !marked && input.cursor < end;
      BufferHasShape(input, bare, k + 1, end, marked || here);
      ClusterHasShape(input, bare, ink, Range(o, end), here);
      ShapesJoin(ClusterTokens(input, ink, Range(o, end), here), ClusterTokens(bare, ink, Range(o, end), here),
                 BufferTokens(input, k + 1, end, 0, marked || here), BufferTokens(bare, k + 1, end, 0, marked || here));
    } else {
      SameIsSame(BufferTokens(input, k, o, 0, marked));
    }
  }

  lemma NothingIsDue(input: Input, o: nat, marked: bool)
    requires input.texts == []
    ensures NoteTokens(input, 0, o, marked) == [] && DueTo(input, 0, o) == 0 && MarkedAt(input, 0, o, marked) == marked
  {
  }

  lemma SameIsSame(a: seq<Token>)
    ensures SameShapes(a, a)
  {
  }

  lemma ClusterHasShape(input: Input, bare: Input, ink: Ink, at: Range, here: bool)
    requires bare == Bare(input, input.columns, input.rows)
    ensures SameShapes(ClusterTokens(input, ink, at, here), ClusterTokens(bare, ink, at, here))
  {
    hide PenAt, PlainTokens;
  }

  lemma ShapesJoin(a: seq<Token>, b: seq<Token>, c: seq<Token>, d: seq<Token>)
    requires SameShapes(a, b) && SameShapes(c, d)
    ensures SameShapes(a + c, b + d) && [] + (a + c) == a + c && [] + (b + d) == b + d
  {
    hide SameShape;
  }

  lemma BareIsCongruent(input: Input)
    requires input.texts == [] && NoEscapes(input.buffer)
    ensures Congruent(Laid(input), Laid(Bare(input, input.columns, input.rows)))
  {
    hide Walk, PlainTokens, BufferTokens, Congruent;
    var bare := Bare(input, input.columns, input.rows);
    BufferHasShape(input, bare, 0, 0, false);
    StartIsCongruent();
    WalkIsCongruent(input.columns, START, START, Tokens(input), Tokens(bare));
  }

  lemma StartIsCongruent()
    ensures START.Ok() && Congruent(START, START)
  {
  }

  /** Without virtual text, the frame is where the loop takes it to be if and only if the window would begin
      at the same row had the pager not been there. */
  lemma TopIsKnownIff(input: Input)
    requires input.Ok() && input.texts == [] && Laid(input).cursor.Some?
    ensures var l := Laid(input);
      var row, rows := l.cursor.value.0, input.rows;
      TopIsKnown(input) <==>
        FirstVisible(|l.rows|, row, rows) == FirstVisible(|l.rows|, row, rows - Min(|input.page|, rows))
    ensures input.page == [] ==> TopIsKnown(input)
  {
    hide Laid, FirstVisible;
    BareIsCongruent(input);
  }

  /** A line of nothing but n line breaks, with the cursor behind them, over a pager. */
  function Breaks(n: nat, columns: nat, rows: nat, page: seq<seq<Cell>>): Input {
    Input([], [], seq(n, _ => Cluster(Ink.Break, 1)), n, [], [], (_, pen) => pen, columns, rows,
          DEFAULT_STYLE, DEFAULT_STYLE, page)
  }

  lemma {:induction false} BreaksWalk(input: Input, n: nat, k: nat, s: Sheet)
    requires input.texts == [] && input.continuation == [] && input.cursor == n == |input.buffer| && k <= n
    requires 0 < input.columns && forall i :: 0 <= i < n ==> input.buffer[i] == Cluster(Ink.Break, 1)
    requires s.Ok() && s.column == 0 && |s.rows| == s.row + 1
    ensures var l := Walk(input.columns, s, BufferTokens(input, k, k, 0, false));
      |l.rows| == s.row + (n - k) + 1 && l.cursor == Some((s.row + (n - k), 0))
    decreases n - k
  {
    hide NoteTokens, DueTo, MarkedAt, Walk, Step, Broken, Recorded;
    NothingIsDue(input, k, false);
    var columns := input.columns;
    if k < n {
      var rest := BufferTokens(input, k + 1, k + 1, 0, false);
      assert BufferTokens(input, k, k, 0, false) == [NewLine] + rest;
      LeadingToken(columns, s, NewLine, rest);
      BreaksWalk(input, n, k + 1, Broken(s));
    } else {
      assert BufferTokens(input, k, k, 0, false) == [Mark] + [];
      LeadingToken(columns, s, Mark, []);
    }
  }

  lemma LeadingToken(columns: nat, s: Sheet, t: Token, rest: seq<Token>)
    requires s.Ok() && s.column == 0 && |s.rows| == s.row + 1 && 0 < columns
    ensures t == NewLine ==> Walk(columns, s, [t] + rest) == Walk(columns, Broken(s), rest)
    ensures var b := Broken(s); b.column == 0 && b.row == s.row + 1 && |b.rows| == b.row + 1
    ensures t == Mark && rest == [] ==>
      var l := Walk(columns, s, [t] + rest); |l.rows| == |s.rows| && l.cursor == Some((s.row, 0))
  {
    assert ([t] + rest)[1..] == rest;
  }

  lemma BreaksLaid(input: Input, n: nat)
    requires input.prompt == [] && input.texts == [] && input.continuation == [] && input.cursor == n == |input.buffer|
    requires 0 < input.columns && forall i :: 0 <= i < n ==> input.buffer[i] == Cluster(Ink.Break, 1)
    ensures |Laid(input).rows| == n + 1 && Laid(input).cursor == Some((n, 0))
  {
    hide Walk, BufferTokens;
    assert [] + BufferTokens(input, 0, 0, 0, false) == BufferTokens(input, 0, 0, 0, false);
    BreaksWalk(input, n, 0, START);
  }

  /** It would not: eight rows of content with the cursor on the last, ten rows of terminal, five of them
      the pager's. When the pager closes, the loop walks up seven rows where the cursor is four below the
      top. */
  lemma TopIsMissed(columns: nat, page: seq<seq<Cell>>)
    requires 0 < columns && |page| == 5 && forall r :: 0 <= r < 5 ==> |page[r]| == columns
    ensures var input := Breaks(7, columns, 10, page);
      && input.Ok() && CursorRow(input) == 4 && CursorRow(Bare(input, columns, 10)) == 7 && !TopIsKnown(input)
  {
    hide Laid;
    var input := Breaks(7, columns, 10, page);
    BreaksLaid(input, 7);
    BreaksLaid(Bare(input, columns, 10), 7);
  }

  // ----- the loop -----

  /** The frame on the screen, and the line it was laid out for. */
  datatype Shown = Shown(made: Layout, input: Input)

  class Renderer {
    const caps: Capabilities
    const reflows: bool  // what the terminal is taken to do with a frame when its size changes
    var previous: Option<Shown>

    constructor (caps: Capabilities, reflows: bool)
      ensures previous.None? && this.caps == caps && this.reflows == reflows
    {
      this.caps, this.reflows, previous := caps, reflows, None;
    }

    /** The terminal shows what was rendered last; before the first time, the cursor is where the frame is
        to begin. */
    ghost predicate Holds(t: Terminals.Terminal, origin: nat)
      reads this
    {
      match previous
      case None =>
        && t.Ok() && t.row == origin && t.column == 0 && !t.pending
        && t.visible && t.pen == DEFAULT_STYLE && !t.misused
      case Some(Shown(made, input)) =>
        && input.Ok() && |input.page| <= input.rows && Frames(made, input) && made.screen.cursor.visible
        && Blitter.Entry(caps, Some(made.screen), None, made.screen, t, origin)
    }

    /** `frame_top_above_cursor`. */
    method FrameTop(columns: nat, rows: nat) returns (above: nat)
      requires previous.Some? && previous.value.input.Ok() && 0 < columns && 0 < rows
      ensures above as int == if reflows then CursorRow(Bare(previous.value.input, columns, rows))
        else previous.value.made.screen.cursor.row
    {
      hide Laid, FirstVisible;
      if !reflows {
        return previous.value.made.screen.cursor.row;
      }
      var was := Bare(previous.value.input, columns, rows);
      BareIsOk(previous.value.input, columns, rows);
      var made := LayOut(was);
      return made.screen.cursor.row;
    }

    /** The line, in place of what is on the screen: presented, with nothing else touched, if and only if the
        frame has as many rows as the last one or begins where the loop takes it to begin. */
    method Render(input: Input, ghost start: Terminals.Terminal, ghost origin: nat) returns (out: seq<Terminals.Op>)
      requires Holds(start, origin) && Showable(caps, input, start, origin)
      requires previous.Some? ==>
        previous.value.input.columns == input.columns && previous.value.input.rows == input.rows
      modifies this
      ensures previous.Some? && previous.value.input == input
      ensures |input.page| <= input.rows && Frames(previous.value.made, input) && previous.value.made.screen.Ok(caps)
      ensures var last, screen := old(previous), previous.value.made.screen;
        var repaint := last.None? || last.value.made.screen.rows != screen.rows;
        var after := Terminals.Run(start, out);
        && |after.grid| == |start.grid| && origin + screen.rows <= |after.grid|
        && var replaced := repaint && last.Some?;
        (Blitter.Exit(caps, repaint, replaced, screen, start, after, origin) <==>
          (replaced && reflows ==> TopIsKnown(last.value.input)))
      ensures var last, after := old(previous), Terminals.Run(start, out);
        (last.None? || !reflows || TopIsKnown(last.value.input) ==>
          Holds(after, origin) && Presented(caps, previous.value.made, input, after, origin))
    {
      hide Laid, Painted, RowOk, ShowsRow, FirstVisible, Terminals.Run, Presented, Shows, PensOk, PageOk;
      var made := LayOut(input);
      FrameIsDrawable(caps, made, input);
      if previous.None? {
        out := Blitter.Paint(caps, made.screen, start, origin);
      } else {
        var above := 0;
        if previous.value.made.screen.rows != made.screen.rows {
          above := FrameTop(input.columns, input.rows);
          FrameRow(previous.value.made, previous.value.input);
        }
        out := Blitter.Replace(caps, previous.value.made.screen, above, made.screen, start, origin);
      }
      ghost var after := Terminals.Run(start, out);
      if previous.None? || !reflows || TopIsKnown(previous.value.input) {
        FrameIsPresented(caps, made, input, after, origin);
      }
      previous := Some(Shown(made, input));
    }
  }

  lemma BareIsOk(last: Input, columns: nat, rows: nat)
    requires last.Ok()
    ensures Bare(last, columns, rows).Ok()
  {
  }

  lemma FrameRow(made: Layout, input: Input)
    requires input.Ok() && |input.page| <= input.rows && Frames(made, input)
    ensures made.screen.cursor.row == CursorRow(input)
  {
    hide Laid, FirstVisible;
  }

  /** A read at one size: however the line grows, scrolls and shrinks, it is on the terminal. */
  method RenderAll(caps: Capabilities, reflows: bool, inputs: seq<Input>, ghost start: Terminals.Terminal,
      ghost origin: nat)
    returns (made: Layout, out: seq<Terminals.Op>)
    requires inputs != [] && forall i :: 0 <= i < |inputs| ==>
      Showable(caps, inputs[i], start, origin) && inputs[i].rows == inputs[0].rows &&
          (!reflows || TopIsKnown(inputs[i]))
    requires start.Ok() && start.pen == DEFAULT_STYLE && !start.misused && start.visible
    requires start.row == origin && start.column == 0 && !start.pending
    ensures var input := inputs[|inputs| - 1];
      && input.Ok() && |input.page| <= input.rows && Frames(made, input)
      && origin + made.screen.rows <= |start.grid| && Presented(caps, made, input, Terminals.Run(start, out), origin)
  {
    hide Laid, Painted, RowOk, ShowsRow, FirstVisible, Terminals.Run, Presented, Shows, PensOk, PageOk, TopIsKnown,
        Frames;
    var renderer := new Renderer(caps, reflows);
    out := renderer.Render(inputs[0], start, origin);
    for i := 1 to |inputs|
      invariant renderer.previous.Some? && renderer.previous.value.input == inputs[i - 1]
      invariant renderer.Holds(Terminals.Run(start, out), origin)
      invariant inputs[i - 1].Ok() && |inputs[i - 1].page| <= inputs[i - 1].rows &&
        Frames(renderer.previous.value.made, inputs[i - 1])
      invariant origin + renderer.previous.value.made.screen.rows <= |start.grid|
      invariant Presented(caps, renderer.previous.value.made, inputs[i - 1], Terminals.Run(start, out), origin)
    {
      ghost var shown := Terminals.Run(start, out);
      var more := renderer.Render(inputs[i], shown, origin);
      Terminals.RunJoin(start, out, more);
      out := out + more;
    }
    made := renderer.previous.value.made;
  }
}
