/** The far side: a screen that executes the blitter's vocabulary, with deferred wrap. */
module Terminals {
  import opened Styles
  import Sgr

  /** One position of the screen. Overwriting or erasing half of a wide glyph leaves the other half
      `Torn`: terminals disagree about what it shows, so nothing may be concluded from it. */
  datatype Spot = Lead(glyph: nat, width: nat, pen: Style) | Tail(pen: Style) | Torn

  type Line = seq<Spot>

  const BLANK: nat := 33

  /** An erased position takes the background in force (background-colour erase). */
  function Erased(bg: Color): Spot {
    Lead(BLANK, 1, Style(Default, bg, NO_ATTRS))
  }

  /** CUU, CUD, CUF, EL, ED and SGR are sections 8.3.22, 8.3.19, 8.3.20, 8.3.41, 8.3.39 and 8.3.117 of
      ECMA-48. Glyphs are one or two columns wide. */
  datatype Op =
    | CarriageReturn
    | Up(n: nat)
    | Down(n: nat)
    | Right(n: nat)
    | EraseLine
    | EraseScreen
    | Sgr(parameters: string)
    | Glyph(glyph: nat, width: nat)
    | ShowCursor
    | HideCursor

  /** `joins[r]` says row r+1 continues row r as one logical line. While `pending`, the cursor is
      still on the last column and the next glyph wraps first. `misused` records, for good, what no
      emission may rely on: an erase or a relative move executed while a wrap was pending, a move cut
      short by the edge of the screen, a wide glyph where there is one column left, and a scroll. */
  datatype Terminal = Terminal(columns: nat, grid: seq<Line>, joins: seq<bool>,
                               row: nat, column: nat, pending: bool,
                               pen: Style, visible: bool, misused: bool)
  {
    predicate Ok() {
      && 0 < columns && row < |grid| && column < columns && |joins| == |grid|
      && (pending ==> column == columns - 1)
      && forall r :: 0 <= r < |grid| ==> |grid[r]| == columns && LineOk(grid[r])
    }
  }

  predicate WideAt(line: Line, k: int) {
    0 <= k < |line| && line[k].Lead? && line[k].width == 2
  }

  predicate TailAt(line: Line, k: int) {
    0 <= k < |line| && line[k].Tail?
  }

  /** Wide glyphs and their second halves come in pairs. */
  predicate LineOk(line: Line) {
    && (forall k :: 0 <= k < |line| && line[k].Tail? ==> WideAt(line, k - 1))
    && (forall k :: 0 <= k < |line| && line[k].Lead? && line[k].width == 2 ==> TailAt(line, k + 1))
    && (forall k :: 0 <= k < |line| && line[k].Lead? ==> line[k].width == 1 || line[k].width == 2)
  }

  /** Position k of a line after a glyph lands on its columns [c, c + width). */
  function StampedAt(line: Line, c: nat, glyph: nat, width: nat, pen: Style, k: nat): Spot
    requires 1 <= width <= 2 && c + width <= |line| && k < |line|
  {
    if k == c then Lead(glyph, width, pen)
    else if c < k < c + width then Tail(pen)
    else if k == c + width && line[k].Tail? then Torn
    else if k == c - 1 && line[c].Tail? then Torn
    else line[k]
  }

  function Stamp(line: Line, c: nat, glyph: nat, width: nat, pen: Style): (after: Line)
    requires 1 <= width <= 2 && c + width <= |line|
    ensures |after| == |line|
    ensures forall k :: 0 <= k < |line| ==> after[k] == StampedAt(line, c, glyph, width, pen, k)
  {
    seq(|line|, k requires 0 <= k < |line| => StampedAt(line, c, glyph, width, pen, k))
  }

  /** Position k of a line after its columns from c on are erased. */
  function ErasedAt(line: Line, c: nat, bg: Color, k: nat): Spot
    requires c < |line| && k < |line|
  {
    if c <= k then Erased(bg)
    else if k == c - 1 && line[c].Tail? then Torn
    else line[k]
  }

  function EraseFrom(line: Line, c: nat, bg: Color): (after: Line)
    requires c < |line|
    ensures |after| == |line|
    ensures forall k :: 0 <= k < |line| ==> after[k] == ErasedAt(line, c, bg, k)
  {
    seq(|line|, k requires 0 <= k < |line| => ErasedAt(line, c, bg, k))
  }

  function BlankLine(columns: nat, bg: Color): (line: Line)
    ensures |line| == columns && LineOk(line)
  {
    seq(columns, _ => Erased(bg))
  }

  /** A missing or zero count is one. */
  function Count(n: nat): nat {
    if n == 0 then 1 else n
  }

  function Min(a: nat, b: nat): nat {
    if a < b then a else b
  }

  /** To the first column of the next row, as the continuation of this one; at the bottom the screen
      scrolls. */
  function Wrapped(t: Terminal): Terminal
    requires t.Ok()
  {
    var joins := t.joins[t.row := true];
    if t.row + 1 < |t.grid|
    then t.(row := t.row + 1, column := 0, pending := false, joins := joins)
    else t.(column := 0, pending := false, joins := joins[1..] + [false],
            grid := t.grid[1..] + [BlankLine(t.columns, t.pen.bg)], misused := true)
  }

  /** A glyph on a terminal with room for it at the cursor. Writing the last column breaks whatever
      join that row had. */
  function Placed(t: Terminal, glyph: nat, width: nat): Terminal
    requires t.Ok() && 1 <= width <= 2 && t.column + width <= t.columns
  {
    var filled := t.column + width == t.columns;
    t.(grid := t.grid[t.row := Stamp(t.grid[t.row], t.column, glyph, width, t.pen)],
       column := if filled then t.columns - 1 else t.column + width,
       pending := filled,
       joins := if filled then t.joins[t.row := false] else t.joins)
  }

  /** What printing one cluster does: a pending or unavoidable wrap happens first. */
  function Printed(t: Terminal, glyph: nat, width: nat): Terminal
    requires t.Ok()
  {
    if !(1 <= width <= 2) || width > t.columns then t
    else if t.pending then Placed(Wrapped(t), glyph, width)
    else if t.column + width > t.columns then Placed(Wrapped(t).(misused := true), glyph, width)
    else Placed(t, glyph, width)
  }

  function Step(t: Terminal, op: Op): Terminal
    requires t.Ok()
  {
    match op
    case CarriageReturn => t.(column := 0, pending := false)
    case Up(n) =>
      t.(row := if Count(n) <= t.row then t.row - Count(n) else 0,
         misused := t.misused || t.pending || t.row < Count(n))
    case Down(n) =>
      t.(row := Min(t.row + Count(n), |t.grid| - 1),
         misused := t.misused || t.pending || |t.grid| <= t.row + Count(n))
    case Right(n) =>
      t.(column := Min(t.column + Count(n), t.columns - 1),
         misused := t.misused || t.pending || t.columns <= t.column + Count(n))
    case EraseLine =>
      t.(grid := t.grid[t.row := EraseFrom(t.grid[t.row], t.column, t.pen.bg)],
         joins := t.joins[t.row := false], misused := t.misused || t.pending)
    case EraseScreen =>
      t.(grid := t.grid[..t.row] + [EraseFrom(t.grid[t.row], t.column, t.pen.bg)]
                 + seq(|t.grid| - t.row - 1, _ => BlankLine(t.columns, t.pen.bg)),
         joins := t.joins[..t.row] + seq(|t.joins| - t.row, _ => false),
         misused := t.misused || t.pending)
    case Sgr(text) => t.(pen := Sgr.Apply(text, t.pen))
    case Glyph(g, w) => Printed(t, g, w)
    case ShowCursor => t.(visible := true)
    case HideCursor => t.(visible := false)
  }

  lemma StampOk(line: Line, c: nat, glyph: nat, width: nat, pen: Style)
    requires LineOk(line) && 1 <= width <= 2 && c + width <= |line|
    ensures LineOk(Stamp(line, c, glyph, width, pen))
  {
    var after := Stamp(line, c, glyph, width, pen);
    forall k | 0 <= k < |line|
      ensures after[k].Tail? ==> WideAt(after, k - 1)
      ensures after[k].Lead? && after[k].width == 2 ==> TailAt(after, k + 1)
      ensures after[k].Lead? ==> after[k].width == 1 || after[k].width == 2
    {
      assert line[k].Tail? ==> WideAt(line, k - 1);
      assert line[k].Lead? && line[k].width == 2 ==> TailAt(line, k + 1);
    }
  }

  lemma EraseOk(line: Line, c: nat, bg: Color)
    requires LineOk(line) && c < |line|
    ensures LineOk(EraseFrom(line, c, bg))
  {
    var after := EraseFrom(line, c, bg);
    forall k | 0 <= k < |line|
      ensures after[k].Tail? ==> WideAt(after, k - 1)
      ensures after[k].Lead? && after[k].width == 2 ==> TailAt(after, k + 1)
      ensures after[k].Lead? ==> after[k].width == 1 || after[k].width == 2
    {
      assert line[k].Tail? ==> WideAt(line, k - 1);
      assert line[k].Lead? && line[k].width == 2 ==> TailAt(line, k + 1);
    }
  }

  lemma WrappedOk(t: Terminal)
    requires t.Ok()
    ensures var after := Wrapped(t);
            after.Ok() && |after.grid| == |t.grid| && after.columns == t.columns && after.column == 0 && !after.pending
  {
    hide LineOk;
  }

  lemma PlacedOk(t: Terminal, glyph: nat, width: nat)
    requires t.Ok() && 1 <= width <= 2 && t.column + width <= t.columns
    ensures var after := Placed(t, glyph, width);
            after.Ok() && |after.grid| == |t.grid| && after.columns == t.columns
  {
    hide LineOk, Stamp;
    StampOk(t.grid[t.row], t.column, glyph, width, t.pen);
  }

  /** Every operation keeps the screen well formed and its size. */
  lemma StepOk(t: Terminal, op: Op)
    requires t.Ok()
    ensures var after := Step(t, op);
            after.Ok() && |after.grid| == |t.grid| && after.columns == t.columns
  {
    hide Sgr.Apply, LineOk, Stamp, EraseFrom, Wrapped, Placed;
    match op
    case EraseLine => EraseOk(t.grid[t.row], t.column, t.pen.bg);
    case EraseScreen => EraseOk(t.grid[t.row], t.column, t.pen.bg);
    case Glyph(g, w) =>
      if 1 <= w <= t.columns && w <= 2 {
        WrappedOk(t);
        var full := t.column + w > t.columns;
        PlacedOk(if t.pending then Wrapped(t) else if full then Wrapped(t).(misused := true) else t, g, w);
      }
    case _ =>
  }

  /** A screen after a stream of operations. */
  function Run(t: Terminal, ops: seq<Op>): (after: Terminal)
    requires t.Ok()
    ensures after.Ok() && |after.grid| == |t.grid| && after.columns == t.columns
  {
    if ops == [] then t
    else
      var before := Run(t, ops[..|ops| - 1]);
      StepOk(before, ops[|ops| - 1]);
      Step(before, ops[|ops| - 1])
  }

  lemma {:induction false} RunJoin(t: Terminal, first: seq<Op>, rest: seq<Op>)
    requires t.Ok()
    ensures Run(t, first + rest) == Run(Run(t, first), rest)
    decreases |rest|
  {
    if rest == [] {
      assert first + rest == first;
    } else {
      var all, init := first + rest, rest[..|rest| - 1];
      assert all[..|all| - 1] == first + init;
      RunJoin(t, first, init);
    }
  }

  // ----- two runs of the same operations -----

  lemma StepMisuse(t: Terminal, op: Op)
    requires t.Ok()
    ensures t.misused ==> Step(t, op).misused
  {
    hide Sgr.Apply, Stamp, EraseFrom, LineOk, BlankLine;
  }

  lemma {:induction false} MisuseStays(t: Terminal, ops: seq<Op>, k: nat)
    requires t.Ok() && k <= |ops|
    ensures Run(t, ops[..k]).misused ==> Run(t, ops).misused
    decreases |ops| - k
  {
    hide Step;
    if k < |ops| {
      assert ops[..k + 1][..k] == ops[..k];
      StepMisuse(Run(t, ops[..k]), ops[k]);
      MisuseStays(t, ops, k + 1);
    } else {
      assert ops[..k] == ops;
    }
  }

  /** Operations that leave a row only by filling it. */
  predicate Flows(ops: seq<Op>) {
    forall i :: 0 <= i < |ops| ==>
      ops[i].Sgr? || ops[i].Glyph? || ops[i].EraseLine? || ops[i].ShowCursor? || ops[i].HideCursor?
  }

  /** How far text has come: a pending wrap and the start of the next row are the same place. */
  function Place(t: Terminal): nat {
    t.row * t.columns + t.column + if t.pending then 1 else 0
  }

  /** What starts behind stays as far behind while nothing but text is sent. */
  lemma {:induction false} LagStays(t: Terminal, ideal: Terminal, ops: seq<Op>, lag: int)
    requires t.Ok() && ideal.Ok() && t.columns == ideal.columns && Place(t) == Place(ideal) + lag
    requires Flows(ops) && !Run(t, ops).misused && !Run(ideal, ops).misused
    ensures Place(Run(t, ops)) == Place(Run(ideal, ops)) + lag
    decreases |ops|
  {
    if ops != [] {
      var n := |ops| - 1;
      MisuseStays(t, ops, n);
      MisuseStays(ideal, ops, n);
      LagStays(t, ideal, ops[..n], lag);
      TextAdvances(Run(t, ops[..n]), ops[n]);
      TextAdvances(Run(ideal, ops[..n]), ops[n]);
    }
  }

  lemma TextAdvances(t: Terminal, op: Op)
    requires t.Ok() && Flows([op]) && !Step(t, op).misused
    ensures Place(Step(t, op)) == Place(t) +
      if op.Glyph? && 1 <= op.width <= 2 && op.width <= t.columns then op.width else 0
  {
    hide Sgr.Apply, Stamp, EraseFrom, LineOk;
    assert [op][0] == op;
    assert (t.row + 1) * t.columns == t.row * t.columns + t.columns;
  }

  /** The cursor of a screen is where it would be on a larger one, `above` rows further down there. */
  predicate Within(t: Terminal, larger: Terminal, above: nat) {
    && t.columns == larger.columns && t.row + above == larger.row
    && t.column == larger.column && t.pending == larger.pending
    && |t.grid| + above <= |larger.grid|
  }

  /** More rows above and below change nothing about where the cursor goes, unless it would have left the
      screen. */
  lemma {:induction false} RoomAround(t: Terminal, larger: Terminal, above: nat, ops: seq<Op>)
    requires t.Ok() && larger.Ok() && Within(t, larger, above)
    ensures Run(t, ops).misused || Within(Run(t, ops), Run(larger, ops), above)
    decreases |ops|
  {
    hide Step;
    if ops != [] {
      var n := |ops| - 1;
      RoomAround(t, larger, above, ops[..n]);
      MisuseStays(t, ops, n);
      if !Run(t, ops[..n]).misused {
        StepAround(Run(t, ops[..n]), Run(larger, ops[..n]), above, ops[n]);
        StepOk(Run(t, ops[..n]), ops[n]);
        StepOk(Run(larger, ops[..n]), ops[n]);
      }
    }
  }

  lemma StepAround(t: Terminal, larger: Terminal, above: nat, op: Op)
    requires t.Ok() && larger.Ok() && Within(t, larger, above)
    ensures Step(t, op).misused || Within(Step(t, op), Step(larger, op), above)
  {
    hide Sgr.Apply, Stamp, EraseFrom, LineOk, BlankLine;
    StepOk(t, op);
    StepOk(larger, op);
  }
}
