/** Where everything on an edit line goes (layout.h, layout.cpp): what is drawn in which order, how it
    falls into rows, and what those rows look like as cells.

    What is drawn is a list of tokens. The walk over them, one cluster at a time, makes rows and places the
    cursor; and its rows are those of the lines there are to draw, each wrapped where it does not fit. The
    window is a choice of rows, and a row of cells is what its clusters paint. */
module Sheets {
  import opened Wrappers
  import opened Styles
  import opened Surfaces
  import Decorating
  import Sgr

  // ----- what is laid out -----

  /** A cluster, as wide as the width tables say; a control takes no column and paints nothing. */
  datatype Ink = Glyph(id: nat, width: nat) | Control | Break

  /** Text, cluster by cluster with each one's length in bytes. Only prompts hold escapes. */
  datatype Piece = Cluster(ink: Ink, size: nat) | Escape(sgr: Option<string>)

  datatype Virtual = Virtual(at: nat, text: seq<Piece>, style: nat)

  /** `over` is the theme: the pen of a style over another pen. `page` is the pager's own surface. */
  datatype Input = Input(prompt: seq<Piece>, continuation: seq<Piece>, buffer: seq<Piece>, cursor: nat,
                         spans: seq<Decorating.Span>, texts: seq<Virtual>, over: (nat, Style) -> Style,
                         columns: nat, rows: nat, promptPen: Style, textPen: Style, page: seq<seq<Cell>>)
  {
    /** Decorations in the form `decorations` keeps them, and a pager that leaves the last row. */
    ghost predicate Ok() {
      && TextOk(prompt) && TextOk(continuation) && TextOk(buffer) && NoEscapes(buffer)
      && Decorating.Tidy(spans)
      && (forall i :: 0 <= i < |texts| ==> TextOk(texts[i].text) && NoEscapes(texts[i].text))
      && (forall i, j :: 0 <= i < j < |texts| ==> texts[i].at <= texts[j].at)
      && (page != [] ==> |page| < rows) && forall r :: 0 <= r < |page| ==> |page[r]| == columns
    }
  }

  predicate TextOk(text: seq<Piece>) {
    forall i :: 0 <= i < |text| && text[i].Cluster? ==>
      0 < text[i].size && (text[i].ink.Glyph? ==> text[i].ink.id != 0 && 1 <= text[i].ink.width <= 2)
  }

  predicate NoEscapes(text: seq<Piece>) {
    forall i :: 0 <= i < |text| ==> text[i].Cluster?
  }

  // ----- in what order -----

  datatype Range = Range(begin: nat, end: nat)

  /** A cluster in its pen; `source` is the range of the buffer it is, if it is the buffer's. */
  datatype Inked = Inked(glyph: nat, width: nat, pen: Style, source: Option<Range>)

  /** `cursor` puts the cursor on the cluster, once there is room for it; `Mark` puts it where the
      next one would begin. */
  datatype Token = Put(ink: Inked, cursor: bool) | NewLine | Mark

  /** A prompt, or the text of a decoration: its escapes move the pen of what follows them. */
  function PlainTokens(text: seq<Piece>, pen: Style): seq<Token> {
    if text == [] then []
    else match text[0]
      case Escape(sgr) => PlainTokens(text[1..], PenAfter(sgr, pen))
      case Cluster(Glyph(id, width), _) => [Put(Inked(id, width, pen, None), false)] + PlainTokens(text[1..], pen)
      case Cluster(Control, _) => PlainTokens(text[1..], pen)
      case Cluster(Break, _) => [NewLine] + PlainTokens(text[1..], pen)
  }

  function PenAfter(sgr: Option<string>, pen: Style): Style {
    if sgr.Some? then Sgr.Apply(sgr.value, pen) else pen
  }

  predicate IsDue(input: Input, t: nat, o: nat) {
    t < |input.texts| && input.texts[t].at <= o
  }

  /** Of the virtual texts from the t-th on, those due at an offset. */
  function DueTokens(input: Input, t: nat, o: nat): seq<Token>
    decreases |input.texts| - t
  {
    if IsDue(input, t, o)
    then PlainTokens(input.texts[t].text, input.over(input.texts[t].style, input.textPen)) + DueTokens(input, t + 1, o)
    else []
  }

  function DueTo(input: Input, t: nat, o: nat): nat
    decreases |input.texts| - t
  {
    if IsDue(input, t, o) then DueTo(input, t + 1, o) else t
  }

  /** What happens at an offset before its cluster: virtual text, and in front of it the cursor. */
  function NoteTokens(input: Input, t: nat, o: nat, marked: bool): seq<Token> {
    if IsDue(input, t, o) then (if !marked && input.cursor <= o then [Mark] else []) + DueTokens(input, t, o) else []
  }

  predicate MarkedAt(input: Input, t: nat, o: nat, marked: bool) {
    marked || (IsDue(input, t, o) && input.cursor <= o)
  }

  /** The pen of the buffer's byte: what painting every span in order shows there. */
  function PenAt(input: Input, o: nat): Style {
    var style := Decorating.Look(input.spans, o);
    if style == 0 then input.textPen else input.over(style, input.textPen)
  }

  /** That is what painting everything the reactors emitted shows. */
  lemma PenIsThePainters(input: Input, emitted: seq<Decorating.Span>, o: nat)
    requires Decorating.Normal(input.spans, emitted)
    ensures PenAt(input, o) == var style := Decorating.Look(emitted, o);
      if style == 0 then input.textPen else input.over(style, input.textPen)
  {
    hide Decorating.Look;
    if i :| 0 <= i < |input.spans| && input.spans[i].Covers(o) {
      Decorating.LookIsLast(input.spans, i, o);
    } else {
      assert !Decorating.CoveredBy(input.spans, o);
      Decorating.LookIsNothing(input.spans, o);
    }
  }

  /** The buffer from its k-th cluster, at offset o, on. */
  function BufferTokens(input: Input, k: nat, o: nat, t: nat, marked: bool): seq<Token>
    requires k <= |input.buffer| && NoEscapes(input.buffer)
    decreases |input.buffer| - k
  {
    var t', marked' := DueTo(input, t, o), MarkedAt(input, t, o, marked);
    NoteTokens(input, t, o, marked)
    + if k == |input.buffer| then (if marked' then [] else [Mark])
      else
        var end := o + input.buffer[k].size;
        var here := !marked' && input.cursor < end;
        ClusterTokens(input, input.buffer[k].ink, Range(o, end), here)
        + BufferTokens(input, k + 1, end, t', marked' || here)
  }

  /** One cluster of the buffer: a line break begins the next line with the continuation prompt. */
  function ClusterTokens(input: Input, ink: Ink, at: Range, here: bool): seq<Token> {
    match ink
    case Glyph(id, width) => [Put(Inked(id, width, PenAt(input, at.begin), Some(at)), here)]
    case Control => if here then [Mark] else []
    case Break => (if here then [Mark] else []) + [NewLine] + PlainTokens(input.continuation, input.promptPen)
  }

  function Tokens(input: Input): seq<Token>
    requires NoEscapes(input.buffer)
  {
    PlainTokens(input.prompt, input.promptPen) + BufferTokens(input, 0, 0, 0, false)
  }

  // ----- into which rows -----

  /** A row and whether it begins a line or goes on with the one above. */
  datatype Row = Row(hard: bool, inks: seq<Inked>)

  datatype Sheet = Sheet(rows: seq<Row>, row: nat, column: nat, cursor: Option<(nat, nat)>) {
    predicate Ok() {
      row < |rows| <= row + 2
    }
  }

  const START := Sheet([Row(true, [])], 0, 0, None)

  function Min(a: nat, b: nat): nat {
    if a < b then a else b
  }

  function Noted(rows: seq<Row>, r: nat, hard: bool): (more: seq<Row>)
    requires r <= |rows|
  {
    if r < |rows| then rows[r := rows[r].(hard := hard)] else rows + [Row(hard, [])]
  }

  function Reserved(columns: nat, s: Sheet, width: nat): (r: Sheet)
    requires s.Ok()
    ensures r.Ok()
  {
    if s.column == 0 || s.column + width <= columns then s
    else s.(rows := Noted(s.rows, s.row + 1, false), row := s.row + 1, column := 0)
  }

  /** A full row has no cell left for the cursor: it goes to the row the line would go on in. */
  function Recorded(columns: nat, s: Sheet): (r: Sheet)
    requires s.Ok()
    ensures r.Ok()
  {
    if s.column < columns then s.(cursor := Some((s.row, s.column)))
    else s.(rows := Noted(s.rows, s.row + 1, false), cursor := Some((s.row + 1, 0)))
  }

  function Advanced(columns: nat, s: Sheet, ink: Inked): (r: Sheet)
    requires s.Ok()
    ensures r.Ok()
  {
    s.(rows := s.rows[s.row := s.rows[s.row].(inks := s.rows[s.row].inks + [ink])],
       column := Min(s.column + ink.width, columns))
  }

  function Broken(s: Sheet): (r: Sheet)
    requires s.Ok()
    ensures r.Ok()
  {
    s.(rows := Noted(s.rows, s.row + 1, true), row := s.row + 1, column := 0)
  }

  function Step(columns: nat, s: Sheet, t: Token): (r: Sheet)
    requires s.Ok()
    ensures r.Ok()
  {
    match t
    case Put(ink, cursor) =>
      var room := Reserved(columns, s, ink.width);
      Advanced(columns, if cursor then Recorded(columns, room) else room, ink)
    case NewLine => Broken(s)
    case Mark => Recorded(columns, s)
  }

  function Walk(columns: nat, s: Sheet, ts: seq<Token>): (r: Sheet)
    requires s.Ok()
    ensures r.Ok()
    decreases |ts|
  {
    if ts == [] then s else Walk(columns, Step(columns, s, ts[0]), ts[1..])
  }

  lemma {:induction false} WalkJoin(columns: nat, s: Sheet, a: seq<Token>, b: seq<Token>)
    requires s.Ok()
    ensures Walk(columns, s, a + b) == Walk(columns, Walk(columns, s, a), b)
    decreases |a|
  {
    if a == [] {
      assert a + b == b;
    } else {
      assert (a + b)[1..] == a[1..] + b;
      WalkJoin(columns, Step(columns, s, a[0]), a[1..], b);
    }
  }

  /** The content of the frame, unwindowed. */
  function Laid(input: Input): (s: Sheet)
    requires NoEscapes(input.buffer)
    ensures s.Ok()
  {
    Walk(input.columns, START, Tokens(input))
  }

  // ----- which rows those are -----

  function Widths(inks: seq<Inked>): nat {
    if inks == [] then 0 else Widths(inks[..|inks| - 1]) + inks[|inks| - 1].width
  }

  lemma {:induction false} WidthsJoin(a: seq<Inked>, b: seq<Inked>)
    ensures Widths(a + b) == Widths(a) + Widths(b)
    decreases |b|
  {
    if b == [] {
      assert a + b == a;
    } else {
      assert (a + b)[..|a + b| - 1] == a + b[..|b| - 1];
      WidthsJoin(a, b[..|b| - 1]);
    }
  }

  /** The lines there are to draw: clusters in order, cut where a line break was asked for. */
  function LineStep(lines: seq<seq<Inked>>, t: Token): (more: seq<seq<Inked>>)
    requires lines != []
    ensures more != []
  {
    var n := |lines| - 1;
    match t
    case Put(ink, _) => lines[..n] + [lines[n] + [ink]]
    case NewLine => lines + [[]]
    case Mark => lines
  }

  function Lines(lines: seq<seq<Inked>>, ts: seq<Token>): (more: seq<seq<Inked>>)
    requires lines != []
    ensures more != []
    decreases |ts|
  {
    if ts == [] then lines else Lines(LineStep(lines, ts[0]), ts[1..])
  }

  /** How many clusters fit behind `used` columns. */
  function Fitting(columns: nat, used: nat, line: seq<Inked>): (n: nat)
    ensures n <= |line|
    decreases |line|
  {
    if line == [] || used + line[0].width > columns then 0 else 1 + Fitting(columns, used + line[0].width, line[1..])
  }

  /** A row takes as many clusters as fit, and one at least. */
  function Taken(columns: nat, line: seq<Inked>): (n: nat)
    requires line != []
    ensures 0 < n <= |line|
  {
    var n := Fitting(columns, 0, line);
    if n == 0 then 1 else n
  }

  /** Soft wrap: a line as rows. */
  function Wrapped(columns: nat, line: seq<Inked>): (rows: seq<seq<Inked>>)
    ensures rows != []
    decreases |line|
  {
    if line == [] then [[]]
    else
      var n := Taken(columns, line);
      if n == |line| then [line] else [line[..n]] + Wrapped(columns, line[n..])
  }

  /** Only a line's first row is hard. */
  function RowsOf(columns: nat, line: seq<Inked>): (rows: seq<Row>)
    ensures rows != []
  {
    var wrapped := Wrapped(columns, line);
    seq(|wrapped|, r requires 0 <= r < |wrapped| => Row(r == 0, wrapped[r]))
  }

  function AllRows(columns: nat, lines: seq<seq<Inked>>): (rows: seq<Row>)
    ensures lines != [] ==> rows != []
  {
    if lines == [] then [] else AllRows(columns, lines[..|lines| - 1]) + RowsOf(columns, lines[|lines| - 1])
  }

  lemma {:induction false} FittingMore(columns: nat, used: nat, line: seq<Inked>, ink: Inked)
    ensures Fitting(columns, used, line + [ink]) ==
      if Fitting(columns, used, line) == |line| && used + Widths(line) + ink.width <= columns
      then |line| + 1 else Fitting(columns, used, line)
    decreases |line|
  {
    if line == [] {
      assert [ink][1..] == [];
      assert line + [ink] == [ink];
    } else {
      assert (line + [ink])[1..] == line[1..] + [ink];
      assert line == [line[0]] + line[1..];
      WidthsJoin([line[0]], line[1..]);
      assert Widths([line[0]]) == line[0].width by { assert [line[0]][..0] == []; }
      FittingMore(columns, used + line[0].width, line[1..], ink);
    }
  }

  lemma {:induction false} FittingFits(columns: nat, used: nat, line: seq<Inked>)
    requires used <= columns
    ensures used + Widths(line[..Fitting(columns, used, line)]) <= columns
    decreases |line|
  {
    var n := Fitting(columns, used, line);
    if n == 0 {
      assert line[..0] == [];
    } else {
      FittingFits(columns, used + line[0].width, line[1..]);
      assert line[..n] == [line[0]] + line[1..][..n - 1];
      WidthsJoin([line[0]], line[1..][..n - 1]);
      assert [line[0]][..0] == [];
    }
  }

  lemma TakenMore(columns: nat, line: seq<Inked>, ink: Inked)
    requires line != []
    ensures var n := Taken(columns, line);
      Taken(columns, line + [ink]) == if n == |line| && Widths(line) + ink.width <= columns then |line| + 1 else n
  {
    hide Fitting, Widths;
    FittingMore(columns, 0, line, ink);
    TooWide(columns, line);
  }

  /** Rows with one cluster more: on the last row if it fits there, or alone on a new one. */
  function Grown(columns: nat, rows: seq<seq<Inked>>, ink: Inked): seq<seq<Inked>>
    requires rows != []
  {
    var n := |rows| - 1;
    if rows[n] == [] || Widths(rows[n]) + ink.width <= columns then rows[..n] + [rows[n] + [ink]] else rows + [[ink]]
  }

  lemma GrownBehind(columns: nat, first: seq<Inked>, rows: seq<seq<Inked>>, ink: Inked)
    requires rows != []
    ensures Grown(columns, [first] + rows, ink) == [first] + Grown(columns, rows, ink)
  {
    hide Widths;
    LastOfBoth([first], rows, rows[|rows| - 1] + [ink]);
    LastOfBoth([first], rows, [ink]);
  }

  lemma {:induction false} WrapMore(columns: nat, line: seq<Inked>, ink: Inked)
    requires 0 < ink.width
    ensures Wrapped(columns, line + [ink]) == Grown(columns, Wrapped(columns, line), ink)
    decreases |line|
  {
    hide Taken, Widths, Grown;
    var more := line + [ink];
    if line == [] || Taken(columns, line) == |line| {
      OneRowMore(columns, line, ink);
    } else {
      var n := Taken(columns, line);
      TakenMore(columns, line, ink);
      assert more[..n] == line[..n] && more[n..] == line[n..] + [ink];
      WrapMore(columns, line[n..], ink);
      GrownBehind(columns, line[..n], Wrapped(columns, line[n..]), ink);
    }
  }

  lemma OneRowMore(columns: nat, line: seq<Inked>, ink: Inked)
    requires line == [] || Taken(columns, line) == |line|
    ensures Wrapped(columns, line + [ink]) == Grown(columns, Wrapped(columns, line), ink)
  {
    hide Taken, Widths;
    var more := line + [ink];
    OneAlone(columns, ink);
    if line == [] {
      assert more == [ink];
    } else {
      TakenMore(columns, line, ink);
      if Taken(columns, more) == |line| {
        assert more[..|line|] == line && more[|line|..] == [ink];
      }
    }
  }

  lemma OneAlone(columns: nat, ink: Inked)
    ensures Wrapped(columns, [ink]) == [[ink]]
  {
  }

  /** A row that could take nothing holds one cluster wider than the frame. */
  lemma TooWide(columns: nat, line: seq<Inked>)
    requires line != []
    ensures Fitting(columns, 0, line) == 0 ==> line[0].width > columns
    ensures Fitting(columns, 0, line) == 0 && |line| == 1 ==> Widths(line) > columns
  {
    if |line| == 1 {
      assert line[..0] == [] && line == [line[0]];
    }
  }

  // ----- the two are the same -----

  /** The rows so far are those of the lines so far; below them at most the row a full one left the
      cursor on. */
  ghost predicate Agree(columns: nat, s: Sheet, lines: seq<seq<Inked>>)
    requires s.Ok()
  {
    && lines != []
    && s.rows[..s.row + 1] == AllRows(columns, lines)
    && (forall r :: 0 <= r < |s.rows| ==> InksOk(s.rows[r].inks))
    && s.column == Min(Widths(s.rows[s.row].inks), columns)
    && (forall r :: s.row < r < |s.rows| ==>
          s.rows[r] == Row(false, []) && s.cursor == Some((r, 0)) && columns <= Widths(s.rows[s.row].inks))
  }

  predicate InkOk(ink: Inked) {
    1 <= ink.width <= 2 && ink.glyph != 0
  }

  predicate InksOk(inks: seq<Inked>) {
    forall i :: 0 <= i < |inks| ==> InkOk(inks[i])
  }

  ghost predicate TokensOk(ts: seq<Token>) {
    forall i :: 0 <= i < |ts| && ts[i].Put? ==> InkOk(ts[i].ink)
  }

  lemma AllRowsAdd(columns: nat, lines: seq<seq<Inked>>)
    ensures AllRows(columns, lines + [[]]) == AllRows(columns, lines) + [Row(true, [])]
  {
    assert (lines + [[]])[..|lines|] == lines;
    assert RowsOf(columns, []) == [Row(true, [])];
  }

  lemma AllRowsLast(columns: nat, lines: seq<seq<Inked>>, line: seq<Inked>)
    ensures AllRows(columns, lines + [line]) == AllRows(columns, lines) + RowsOf(columns, line)
  {
    assert (lines + [line])[..|lines|] == lines;
  }

  lemma AllRowsMore(columns: nat, lines: seq<seq<Inked>>, ink: Inked)
    requires lines != [] && 0 < ink.width
    ensures var rows := AllRows(columns, lines); var n := |rows| - 1; var last := rows[n].inks;
      AllRows(columns, LineStep(lines, Put(ink, false))) ==
      if last == [] || Widths(last) + ink.width <= columns then rows[..n] + [rows[n].(inks := last + [ink])]
      else rows + [Row(false, [ink])]
  {
    hide Wrapped, Widths, RowsOf, AllRows;
    var k := |lines| - 1;
    assert lines == lines[..k] + [lines[k]];
    AllRowsLast(columns, lines[..k], lines[k]);
    AllRowsLast(columns, lines[..k], lines[k] + [ink]);
    RowsMore(columns, lines[k], ink);
    var front, back := AllRows(columns, lines[..k]), RowsOf(columns, lines[k]);
    var last := back[|back| - 1];
    LastOfBoth(front, back, last.(inks := last.inks + [ink]));
    LastOfBoth(front, back, Row(false, [ink]));
  }

  lemma LastOfBoth<T>(front: seq<T>, back: seq<T>, x: T)
    requires back != []
    ensures var n := |front + back| - 1;
      && (front + back)[n] == back[|back| - 1]
      && (front + back)[..n] + [x] == front + (back[..|back| - 1] + [x])
      && front + back + [x] == front + (back + [x])
  {
  }

  lemma RowsMore(columns: nat, line: seq<Inked>, ink: Inked)
    requires 0 < ink.width
    ensures var rows := RowsOf(columns, line); var n := |rows| - 1; var last := rows[n].inks;
      RowsOf(columns, line + [ink]) ==
      if last == [] || Widths(last) + ink.width <= columns then rows[..n] + [rows[n].(inks := last + [ink])]
      else rows + [Row(false, [ink])]
  {
    hide Wrapped, Widths;
    WrapMore(columns, line, ink);
  }

  lemma NothingWide(inks: seq<Inked>)
    requires InksOk(inks)
    ensures Widths(inks) == 0 <==> inks == []
  {
    if inks != [] {
      assert InkOk(inks[|inks| - 1]);
    }
  }

  lemma StepAgrees(columns: nat, s: Sheet, lines: seq<seq<Inked>>, t: Token)
    requires s.Ok() && Agree(columns, s, lines) && 0 < columns && (t.Put? ==> InkOk(t.ink))
    ensures Agree(columns, Step(columns, s, t), LineStep(lines, t))
  {
    hide Widths, AllRows, InkOk;
    match t
    case Put(ink, cursor) => PutAgrees(columns, s, lines, ink, cursor);
    case NewLine =>
      AllRowsAdd(columns, lines);
      NothingWide([]);
      var b := Broken(s);
      assert b.rows[..b.row + 1] == s.rows[..s.row + 1] + [Row(true, [])];
    case Mark => MarkAgrees(columns, s, lines);
  }

  lemma MarkAgrees(columns: nat, s: Sheet, lines: seq<seq<Inked>>)
    requires s.Ok() && Agree(columns, s, lines)
    ensures Agree(columns, Recorded(columns, s), lines)
  {
    hide Widths, AllRows, InkOk;
    var b := Recorded(columns, s);
    assert b.rows[..b.row + 1] == s.rows[..s.row + 1];
    assert b.rows[b.row] == s.rows[s.row];
    if s.column >= columns {
      FullAbove(columns, s, lines);
      assert |b.rows| == s.row + 2 && b.rows[s.row + 1] == Row(false, []);
      assert forall r :: 0 <= r <= s.row ==> b.rows[r] == s.rows[r];
    }
  }

  lemma PutAgrees(columns: nat, s: Sheet, lines: seq<seq<Inked>>, ink: Inked, cursor: bool)
    requires s.Ok() && Agree(columns, s, lines) && 0 < columns && InkOk(ink)
    ensures Agree(columns, Step(columns, s, Put(ink, cursor)), LineStep(lines, Put(ink, cursor)))
  {
    hide Widths, AllRows, LineStep, InkOk;
    var last := s.rows[s.row].inks;
    assert s.rows[..s.row + 1][s.row] == s.rows[s.row];
    assert 0 < ink.width && LineStep(lines, Put(ink, cursor)) == LineStep(lines, Put(ink, false))
        by { PutLines(lines, ink, cursor); }
    AllRowsMore(columns, lines, ink);
    NothingWide(last);
    WidthsMore(last, ink);
    if s.column == 0 || s.column + ink.width <= columns {
      PutFits(columns, s, lines, ink, cursor);
    } else {
      PutWraps(columns, s, lines, ink, cursor);
    }
  }

  lemma PutLines(lines: seq<seq<Inked>>, ink: Inked, cursor: bool)
    requires lines != [] && InkOk(ink)
    ensures 0 < ink.width && LineStep(lines, Put(ink, cursor)) == LineStep(lines, Put(ink, false))
  {
  }

  lemma FullAbove(columns: nat, s: Sheet, lines: seq<seq<Inked>>)
    requires s.Ok() && Agree(columns, s, lines)
    ensures s.row + 1 < |s.rows| ==> s.column == columns && s.rows[s.row + 1] == Row(false, [])
  {
    hide Widths, AllRows, InkOk;
  }

  lemma PutFits(columns: nat, s: Sheet, lines: seq<seq<Inked>>, ink: Inked, cursor: bool)
    requires s.Ok() && Agree(columns, s, lines) && 0 < columns && InkOk(ink) && 0 < ink.width
    requires s.column == 0 || s.column + ink.width <= columns
    requires var last := s.rows[s.row].inks;
      && Widths(last + [ink]) == Widths(last) + ink.width
      && AllRows(columns, LineStep(lines, Put(ink, cursor))) == s.rows[..s.row] + [s.rows[s.row].(inks := last + [ink])]
    ensures Agree(columns, Step(columns, s, Put(ink, cursor)), LineStep(lines, Put(ink, cursor)))
  {
    hide Widths, AllRows, LineStep, InkOk;
    var a := Step(columns, s, Put(ink, cursor));
    FullAbove(columns, s, lines);
    assert a.rows[..a.row + 1] == s.rows[..s.row] + [s.rows[s.row].(inks := s.rows[s.row].inks + [ink])];
  }

  lemma PutWraps(columns: nat, s: Sheet, lines: seq<seq<Inked>>, ink: Inked, cursor: bool)
    requires s.Ok() && Agree(columns, s, lines) && 0 < columns && InkOk(ink) && 0 < ink.width
    requires s.column != 0 && s.column + ink.width > columns
    requires AllRows(columns, LineStep(lines, Put(ink, cursor))) == s.rows[..s.row + 1] + [Row(false, [ink])]
    ensures Agree(columns, Step(columns, s, Put(ink, cursor)), LineStep(lines, Put(ink, cursor)))
  {
    hide Widths, AllRows, LineStep, InkOk;
    OneWidth(ink);
    var room := Reserved(columns, s, ink.width);
    assert room.rows == s.rows[..s.row + 1] + [Row(false, [])] by { FullAbove(columns, s, lines); }
    var a := Step(columns, s, Put(ink, cursor));
    assert room.rows[room.row].inks + [ink] == [ink];
    assert a.rows == s.rows[..s.row + 1] + [Row(false, [ink])];
  }

  lemma WidthsMore(inks: seq<Inked>, ink: Inked)
    ensures Widths(inks + [ink]) == Widths(inks) + ink.width
  {
    assert (inks + [ink])[..|inks|] == inks;
  }

  lemma OneWidth(ink: Inked)
    ensures Widths([ink]) == ink.width && Widths([]) == 0
  {
    assert [ink][..0] == [];
  }

  lemma {:induction false} WalkAgrees(columns: nat, s: Sheet, lines: seq<seq<Inked>>, ts: seq<Token>)
    requires s.Ok() && Agree(columns, s, lines) && 0 < columns && TokensOk(ts)
    ensures Agree(columns, Walk(columns, s, ts), Lines(lines, ts))
    decreases |ts|
  {
    hide Agree, Step, LineStep, InkOk;
    assert lines != [] by { AgreeMeans(columns, s, lines); }
    if ts != [] {
      StepAgrees(columns, s, lines, ts[0]);
      WalkAgrees(columns, Step(columns, s, ts[0]), LineStep(lines, ts[0]), ts[1..]);
    }
  }

  lemma AgreeMeans(columns: nat, s: Sheet, lines: seq<seq<Inked>>)
    requires s.Ok() && Agree(columns, s, lines)
    ensures lines != []
  {
  }

  // ----- nothing is lost -----

  lemma {:induction false} TokensJoinOk(a: seq<Token>, b: seq<Token>)
    requires TokensOk(a) && TokensOk(b)
    ensures TokensOk(a + b)
  {
  }

  lemma {:induction false} PlainTokensOk(text: seq<Piece>, pen: Style)
    requires TextOk(text)
    ensures TokensOk(PlainTokens(text, pen))
    decreases |text|
  {
    if text != [] {
      PlainTokensOk(text[1..], if text[0].Escape? then PenAfter(text[0].sgr, pen) else pen);
    }
  }

  lemma {:induction false} DueTokensOk(input: Input, t: nat, o: nat)
    requires input.Ok()
    ensures TokensOk(DueTokens(input, t, o))
    decreases |input.texts| - t
  {
    if IsDue(input, t, o) {
      PlainTokensOk(input.texts[t].text, input.over(input.texts[t].style, input.textPen));
      DueTokensOk(input, t + 1, o);
    }
  }

  lemma ClusterTokensOk(input: Input, k: nat, at: Range, here: bool)
    requires input.Ok() && k < |input.buffer|
    ensures TokensOk(ClusterTokens(input, input.buffer[k].ink, at, here))
  {
    PlainTokensOk(input.continuation, input.promptPen);
  }

  lemma {:induction false} BufferTokensOk(input: Input, k: nat, o: nat, t: nat, marked: bool)
    requires input.Ok() && k <= |input.buffer|
    ensures TokensOk(BufferTokens(input, k, o, t, marked))
    decreases |input.buffer| - k
  {
    hide ClusterTokens, TokensOk, DueTokens, DueTo, MarkedAt, IsDue;
    var notes := NoteTokens(input, t, o, marked);
    var t', marked' := DueTo(input, t, o), MarkedAt(input, t, o, marked);
    assert TokensOk(notes) by { NoteTokensOk(input, t, o, marked); }
    MarkOk();
    if k == |input.buffer| {
      TokensJoinOk(notes, if marked' then [] else [Mark]);
    } else {
      var end := o + input.buffer[k].size;
      var here := !marked' && input.cursor < end;
      ClusterTokensOk(input, k, Range(o, end), here);
      BufferTokensOk(input, k + 1, end, t', marked' || here);
      var cluster, rest := ClusterTokens(input, input.buffer[k].ink, Range(o, end), here),
          BufferTokens(input, k + 1, end, t', marked' || here);
      TokensJoinOk(cluster, rest);
      TokensJoinOk(notes, cluster + rest);
    }
  }

  lemma MarkOk()
    ensures TokensOk([Mark]) && TokensOk([])
  {
  }

  lemma NoteTokensOk(input: Input, t: nat, o: nat, marked: bool)
    requires input.Ok()
    ensures TokensOk(NoteTokens(input, t, o, marked))
  {
    DueTokensOk(input, t, o);
  }

  /** The rows of the content are the lines there are to draw, each wrapped where the next cluster
      does not fit; below them at most the empty row that a full one left the cursor on. */
  lemma RowsAreTheLines(input: Input)
    requires input.Ok() && 0 < input.columns
    ensures Agree(input.columns, Laid(input), Lines([[]], Tokens(input)))
  {
    PlainTokensOk(input.prompt, input.promptPen);
    BufferTokensOk(input, 0, 0, 0, false);
    AllRowsAdd(input.columns, []);
    assert START.rows[..1] == [Row(true, [])];
    WalkAgrees(input.columns, START, [[]], Tokens(input));
  }

  function Joined(rows: seq<seq<Inked>>): seq<Inked> {
    if rows == [] then [] else rows[0] + Joined(rows[1..])
  }

  /** A row holds its clusters whole, but for a cluster wider than the frame. */
  predicate Holds(columns: nat, inks: seq<Inked>) {
    Widths(inks) <= columns || (|inks| == 1 && columns < inks[0].width)
  }

  /** Wrapping loses nothing and splits nothing, and begins a row only where it has to. */
  lemma {:induction false} WrapLosesNothing(columns: nat, line: seq<Inked>)
    ensures var rows := Wrapped(columns, line);
      && Joined(rows) == line
      && (forall r :: 0 <= r < |rows| ==> Holds(columns, rows[r]))
      && (forall r :: 1 <= r < |rows| ==> rows[r] != [] && columns < Widths(rows[r - 1]) + rows[r][0].width)
    decreases |line|
  {
    hide Widths, Fitting;
    if line == [] {
      OneWidth(Inked(0, 0, DEFAULT_STYLE, None));
    } else {
      var n := Taken(columns, line);
      FirstRowHolds(columns, line);
      if n == |line| {
        assert [line][1..] == [] && line + [] == line;
        assert line[..n] == line;
      } else {
        var rest := Wrapped(columns, line[n..]);
        WrapLosesNothing(columns, line[n..]);
        assert ([line[..n]] + rest)[1..] == rest && line[..n] + line[n..] == line;
        assert rest[0] != [] && rest[0][0] == line[n] by { FirstStarts(columns, line[n..]); }
      }
    }
  }

  lemma FirstStarts(columns: nat, line: seq<Inked>)
    requires line != []
    ensures Wrapped(columns, line)[0] != [] && Wrapped(columns, line)[0][0] == line[0]
  {
  }

  lemma FirstRowHolds(columns: nat, line: seq<Inked>)
    requires line != []
    ensures var n := Taken(columns, line);
      Holds(columns, line[..n]) && (n < |line| ==> columns < Widths(line[..n]) + line[n].width)
  {
    var n := Fitting(columns, 0, line);
    FittingFits(columns, 0, line);
    FittingStops(columns, 0, line);
    if n == 0 {
      assert line[..1] == [line[0]];
      OneWidth(line[0]);
    }
  }

  lemma {:induction false} FittingStops(columns: nat, used: nat, line: seq<Inked>)
    ensures var n := Fitting(columns, used, line);
      n < |line| ==> columns < used + Widths(line[..n]) + line[n].width
    decreases |line|
  {
    var n := Fitting(columns, used, line);
    if n == 0 {
      assert line[..0] == [];
    } else {
      FittingStops(columns, used + line[0].width, line[1..]);
      assert line[..n] == [line[0]] + line[1..][..n - 1];
      WidthsJoin([line[0]], line[1..][..n - 1]);
      OneWidth(line[0]);
    }
  }

  // ----- the whole buffer is drawn -----

  /** The buffer's printable clusters in order, each in the pen its first byte is painted in. */
  function BufferInks(input: Input, k: nat, o: nat): seq<Inked>
    requires k <= |input.buffer| && NoEscapes(input.buffer)
    decreases |input.buffer| - k
  {
    if k == |input.buffer| then []
    else
      var piece := input.buffer[k];
      (if piece.ink.Glyph?
       then [Inked(piece.ink.id, piece.ink.width, PenAt(input, o), Some(Range(o, o + piece.size)))] else [])
      + BufferInks(input, k + 1, o + piece.size)
  }

  /** Of some clusters, those that are the buffer's. */
  function OfBuffer(inks: seq<Inked>): seq<Inked> {
    if inks == [] then [] else (if inks[0].source.Some? then [inks[0]] else []) + OfBuffer(inks[1..])
  }

  function Puts(ts: seq<Token>): seq<Inked> {
    if ts == [] then [] else (if ts[0].Put? then [ts[0].ink] else []) + Puts(ts[1..])
  }

  lemma {:induction false} PutsJoin(a: seq<Token>, b: seq<Token>)
    ensures Puts(a + b) == Puts(a) + Puts(b)
    decreases |a|
  {
    if a == [] {
      assert a + b == b;
    } else {
      var first := if a[0].Put? then [a[0].ink] else [];
      PutsJoin(a[1..], b);
      assert (a + b)[1..] == a[1..] + b && first + (Puts(a[1..]) + Puts(b)) == first + Puts(a[1..]) + Puts(b);
    }
  }

  lemma {:induction false} OfBufferJoin(a: seq<Inked>, b: seq<Inked>)
    ensures OfBuffer(a + b) == OfBuffer(a) + OfBuffer(b)
    decreases |a|
  {
    if a == [] {
      assert a + b == b;
    } else {
      var first := if a[0].source.Some? then [a[0]] else [];
      OfBufferJoin(a[1..], b);
      assert (a + b)[1..] == a[1..] + b && first + (OfBuffer(a[1..]) + OfBuffer(b)) == first + OfBuffer(a[1..]) +
          OfBuffer(b);
    }
  }

  function Sourced(ts: seq<Token>): seq<Inked> {
    OfBuffer(Puts(ts))
  }

  lemma SourcedJoin(a: seq<Token>, b: seq<Token>)
    ensures Sourced(a + b) == Sourced(a) + Sourced(b)
  {
    PutsJoin(a, b);
    OfBufferJoin(Puts(a), Puts(b));
  }

  lemma SourcedOne(t: Token)
    ensures Sourced([t]) == if t.Put? && t.ink.source.Some? then [t.ink] else []
    ensures Sourced([]) == []
  {
    assert [t][1..] == [] && Puts([t]) == if t.Put? then [t.ink] else [];
    if t.Put? {
      var inks := [t.ink];
      assert inks[1..] == [] && OfBuffer(inks) == (if t.ink.source.Some? then [t.ink] else []) + OfBuffer([]);
    }
  }

  predicate IsCursor(t: Token) {
    t.Mark? || (t.Put? && t.cursor)
  }

  ghost predicate NoCursor(ts: seq<Token>) {
    forall i :: 0 <= i < |ts| ==> !IsCursor(ts[i])
  }

  /** Prompts and virtual text are nobody's buffer, and never the cursor's place. */
  lemma {:induction false} PlainIsApart(text: seq<Piece>, pen: Style)
    ensures Sourced(PlainTokens(text, pen)) == [] && NoCursor(PlainTokens(text, pen))
    decreases |text|
  {
    hide Sourced;
    SourcedOne(NewLine);
    if text != [] {
      var rest := PlainTokens(text[1..], if text[0].Escape? then PenAfter(text[0].sgr, pen) else pen);
      PlainIsApart(text[1..], if text[0].Escape? then PenAfter(text[0].sgr, pen) else pen);
      if text[0].Cluster? && !text[0].ink.Control? {
        var t := PlainTokens(text, pen)[0];
        assert PlainTokens(text, pen) == [t] + rest;
        SourcedOne(t);
        SourcedJoin([t], rest);
      }
    }
  }

  lemma {:induction false} DueIsApart(input: Input, t: nat, o: nat)
    ensures Sourced(DueTokens(input, t, o)) == [] && NoCursor(DueTokens(input, t, o))
    decreases |input.texts| - t
  {
    hide Sourced, PlainTokens;
    SourcedOne(NewLine);
    if IsDue(input, t, o) {
      var text := PlainTokens(input.texts[t].text, input.over(input.texts[t].style, input.textPen));
      PlainIsApart(input.texts[t].text, input.over(input.texts[t].style, input.textPen));
      DueIsApart(input, t + 1, o);
      SourcedJoin(text, DueTokens(input, t + 1, o));
    }
  }

  lemma NotesAreApart(input: Input, t: nat, o: nat, marked: bool)
    ensures Sourced(NoteTokens(input, t, o, marked)) == []
    ensures MarkedAt(input, t, o, marked) == marked ==> NoCursor(NoteTokens(input, t, o, marked))
  {
    hide Sourced, DueTokens, IsCursor;
    SourcedOne(Mark);
    DueIsApart(input, t, o);
    SourcedJoin([Mark], DueTokens(input, t, o));
    assert [] + DueTokens(input, t, o) == DueTokens(input, t, o);
  }

  lemma ClusterIsItself(input: Input, ink: Ink, at: Range, here: bool)
    ensures Sourced(ClusterTokens(input, ink, at, here)) ==
      if ink.Glyph? then [Inked(ink.id, ink.width, PenAt(input, at.begin), Some(at))] else []
    ensures !here ==> NoCursor(ClusterTokens(input, ink, at, here))
  {
    hide Sourced, PlainTokens, PenAt;
    SourcedOne(Mark);
    SourcedOne(NewLine);
    if ink.Glyph? {
      SourcedOne(ClusterTokens(input, ink, at, here)[0]);
    } else if ink.Break? {
      var front, prompt := (if here then [Mark] else []) + [NewLine], PlainTokens(input.continuation, input.promptPen);
      PlainIsApart(input.continuation, input.promptPen);
      SourcedJoin(if here then [Mark] else [], [NewLine]);
      SourcedJoin(front, prompt);
    }
  }

  /** The buffer is drawn cluster for cluster, whatever is drawn between. */
  lemma {:induction false} BufferIsDrawn(input: Input, k: nat, o: nat, t: nat, marked: bool)
    requires k <= |input.buffer| && NoEscapes(input.buffer)
    ensures Sourced(BufferTokens(input, k, o, t, marked)) == BufferInks(input, k, o)
    decreases |input.buffer| - k
  {
    hide Sourced, NoteTokens, ClusterTokens, DueTo, MarkedAt, PenAt;
    var notes := NoteTokens(input, t, o, marked);
    var t', marked' := DueTo(input, t, o), MarkedAt(input, t, o, marked);
    NotesAreApart(input, t, o, marked);
    SourcedOne(Mark);
    if k == |input.buffer| {
      SourcedJoin(notes, if marked' then [] else [Mark]);
    } else {
      var end := o + input.buffer[k].size;
      var here := !marked' && input.cursor < end;
      var cluster, rest := ClusterTokens(input, input.buffer[k].ink, Range(o, end), here),
          BufferTokens(input, k + 1, end, t', marked' || here);
      ClusterIsItself(input, input.buffer[k].ink, Range(o, end), here);
      BufferIsDrawn(input, k + 1, end, t', marked' || here);
      SourcedJoin(cluster, rest);
      SourcedJoin(notes, cluster + rest);
    }
  }

  function AllInks(rows: seq<Row>): seq<Inked> {
    if rows == [] then [] else AllInks(rows[..|rows| - 1]) + rows[|rows| - 1].inks
  }

  ghost predicate EmptyBelow(s: Sheet) {
    forall r :: s.row < r < |s.rows| ==> s.rows[r].inks == []
  }

  lemma {:induction false} AllInksAre(rows: seq<Row>, row: nat)
    requires row < |rows| && forall r :: row < r < |rows| ==> rows[r].inks == []
    ensures AllInks(rows) == AllInks(rows[..row]) + rows[row].inks
    decreases |rows|
  {
    if row < |rows| - 1 {
      AllInksAre(rows[..|rows| - 1], row);
      assert rows[..|rows| - 1][..row] == rows[..row];
    }
  }

  lemma {:induction false} SameInks(a: seq<Row>, b: seq<Row>)
    requires |a| == |b| && forall r :: 0 <= r < |a| ==> a[r].inks == b[r].inks
    ensures AllInks(a) == AllInks(b)
    decreases |a|
  {
    if a != [] {
      SameInks(a[..|a| - 1], b[..|b| - 1]);
    }
  }

  lemma NotedInks(rows: seq<Row>, r: nat, hard: bool)
    requires r <= |rows|
    ensures AllInks(Noted(rows, r, hard)) == AllInks(rows)
  {
    if r < |rows| {
      SameInks(rows, Noted(rows, r, hard));
    } else {
      assert (rows + [Row(hard, [])])[..|rows|] == rows;
    }
  }

  lemma StepInks(columns: nat, s: Sheet, t: Token)
    requires s.Ok() && EmptyBelow(s)
    ensures EmptyBelow(Step(columns, s, t))
    ensures AllInks(Step(columns, s, t).rows) == AllInks(s.rows) + if t.Put? then [t.ink] else []
  {
    hide AllInks;
    NotedInks(s.rows, s.row + 1, false);
    NotedInks(s.rows, s.row + 1, true);
    if t.Put? {
      var room := Reserved(columns, s, t.ink.width);
      var at := if t.cursor then Recorded(columns, room) else room;
      NotedInks(room.rows, room.row + 1, false);
      assert AllInks(at.rows) == AllInks(s.rows);
      AllInksAre(at.rows, at.row);
      var a := Advanced(columns, at, t.ink);
      AllInksAre(a.rows, a.row);
      assert a.rows[..a.row] == at.rows[..at.row];
    }
  }

  lemma {:induction false} WalkInks(columns: nat, s: Sheet, ts: seq<Token>)
    requires s.Ok() && EmptyBelow(s)
    ensures AllInks(Walk(columns, s, ts).rows) == AllInks(s.rows) + Puts(ts)
    decreases |ts|
  {
    hide AllInks, Step, EmptyBelow;
    if ts != [] {
      StepInks(columns, s, ts[0]);
      WalkInks(columns, Step(columns, s, ts[0]), ts[1..]);
    }
  }

  /** Reading the rows back gives the buffer: every printable cluster once, in order, in its pen. */
  lemma BufferReadsBack(input: Input)
    requires NoEscapes(input.buffer)
    ensures OfBuffer(AllInks(Laid(input).rows)) == BufferInks(input, 0, 0)
  {
    hide BufferTokens, OfBuffer, Walk, PenAt;
    var ts := Tokens(input);
    WalkInks(input.columns, START, ts);
    assert AllInks(START.rows) == [] by { assert START.rows[..0] == []; }
    assert AllInks(Laid(input).rows) == Puts(ts);
    PlainIsApart(input.prompt, input.promptPen);
    BufferIsDrawn(input, 0, 0, 0, false);
    SourcedJoin(PlainTokens(input.prompt, input.promptPen), BufferTokens(input, 0, 0, 0, false));
  }

  // ----- the cursor -----

  /** The buffer's clusters among some tokens all end by an offset, or all end behind it. */
  ghost predicate EndBy(inks: seq<Inked>, o: nat) {
    forall i :: 0 <= i < |inks| && inks[i].source.Some? ==> inks[i].source.value.end <= o
  }

  ghost predicate EndBehind(inks: seq<Inked>, o: nat) {
    forall i :: 0 <= i < |inks| && inks[i].source.Some? ==> o < inks[i].source.value.end
  }

  /** With the cursor placed, nothing places it again. */
  lemma {:induction false} MarkedIsApart(input: Input, k: nat, o: nat, t: nat)
    requires input.Ok() && k <= |input.buffer| && input.cursor <= o
    ensures NoCursor(BufferTokens(input, k, o, t, true))
    ensures EndBehind(BufferInks(input, k, o), input.cursor)
    decreases |input.buffer| - k
  {
    hide NoteTokens, ClusterTokens, DueTo, MarkedAt, PenAt, IsCursor;
    NotesAreApart(input, t, o, true);
    assert MarkedAt(input, t, o, true) by { StaysMarked(input, t, o); }
    if k < |input.buffer| {
      var end := o + input.buffer[k].size;
      ClusterIsItself(input, input.buffer[k].ink, Range(o, end), false);
      MarkedIsApart(input, k + 1, end, DueTo(input, t, o));
    }
  }

  lemma StaysMarked(input: Input, t: nat, o: nat)
    ensures MarkedAt(input, t, o, true)
  {
  }

  /** Where among the tokens the cursor goes. */
  datatype Split = Split(pre: seq<Token>, at: Token, post: seq<Token>) {
    function All(): seq<Token> {
      pre + [at] + post
    }
  }

  /** Exactly one token places the cursor. Of the buffer, all that is drawn before it ends by the
      cursor's offset and all that is drawn from it on ends behind; and if it is a cluster, the offset
      lies in that cluster. */
  ghost predicate SplitOk(s: Split, cursor: nat) {
    && IsCursor(s.at) && NoCursor(s.pre) && NoCursor(s.post)
    && EndBy(Sourced(s.pre), cursor) && EndBehind(Sourced([s.at] + s.post), cursor)
    && (s.at.Put? ==> s.at.ink.source.Some? && s.at.ink.source.value.begin <= cursor < s.at.ink.source.value.end)
  }

  lemma {:induction false} BufferSplits(input: Input, k: nat, o: nat, t: nat) returns (s: Split)
    requires input.Ok() && k <= |input.buffer| && o <= input.cursor
    ensures s.All() == BufferTokens(input, k, o, t, false) && SplitOk(s, input.cursor)
    decreases |input.buffer| - k
  {
    hide ClusterTokens, DueTokens, PenAt, Sourced, PlainTokens, SplitOk, NoteTokens, DueTo, MarkedAt;
    var notes, t', marked' := NoteTokens(input, t, o, false), DueTo(input, t, o), MarkedAt(input, t, o, false);
    NotesAreApart(input, t, o, false);
    if marked' {
      s := SplitAtNotes(input, k, o, t);
    } else if k == |input.buffer| {
      s := Split(notes, Mark, []);
      SourcedOne(Mark);
      SplitBehind(notes, Mark, [], input.cursor);
    } else {
      var end := o + input.buffer[k].size;
      var here := input.cursor < end;
      var cluster := ClusterTokens(input, input.buffer[k].ink, Range(o, end), here);
      ClusterIsItself(input, input.buffer[k].ink, Range(o, end), here);
      if here {
        s := SplitAtCluster(input, k, o, t);
      } else {
        var rest := BufferSplits(input, k + 1, end, t');
        s := Split(notes + cluster + rest.pre, rest.at, rest.post);
        SplitLater(notes, cluster, rest, input.cursor);
        assert s.All() == notes + (cluster + rest.All());
      }
    }
  }

  /** The cursor in front of virtual text. */
  lemma SplitAtNotes(input: Input, k: nat, o: nat, t: nat) returns (s: Split)
    requires input.Ok() && k <= |input.buffer| && o <= input.cursor && MarkedAt(input, t, o, false)
    ensures s.All() == BufferTokens(input, k, o, t, false) && SplitOk(s, input.cursor)
  {
    hide ClusterTokens, DueTokens, PenAt, Sourced, IsCursor, SplitOk, DueTo;
    var due := DueTokens(input, t, o);
    DueIsApart(input, t, o);
    var t' := DueTo(input, t, o);
    var rest := RestTokens(input, k, o, t');
    s := Split([], Mark, due + rest);
    assert s.All() == BufferTokens(input, k, o, t, false) by {
      assert NoteTokens(input, t, o, false) == [Mark] + due;
      assert s.All() == [Mark] + due + rest;
    }
    RestIsApart(input, k, o, t');
    SourcedJoin(due, rest);
    SplitStart(due + rest, input.cursor);
  }

  /** What is drawn from the k-th cluster on, without the notes in front of it, once the cursor is placed. */
  function RestTokens(input: Input, k: nat, o: nat, t: nat): seq<Token>
    requires k <= |input.buffer| && NoEscapes(input.buffer)
  {
    if k == |input.buffer| then []
    else
      var end := o + input.buffer[k].size;
      ClusterTokens(input, input.buffer[k].ink, Range(o, end), false) + BufferTokens(input, k + 1, end, t, true)
  }

  lemma RestIsApart(input: Input, k: nat, o: nat, t: nat)
    requires input.Ok() && k <= |input.buffer| && input.cursor <= o
    ensures NoCursor(RestTokens(input, k, o, t)) && EndBehind(Sourced(RestTokens(input, k, o, t)), input.cursor)
  {
    hide ClusterTokens, PenAt, Sourced, IsCursor, BufferTokens;
    SourcedOne(Mark);
    if k < |input.buffer| {
      var end := o + input.buffer[k].size;
      ClusterIsItself(input, input.buffer[k].ink, Range(o, end), false);
      MarkedIsApart(input, k + 1, end, t);
      BufferIsDrawn(input, k + 1, end, t, true);
      SourcedJoin(ClusterTokens(input, input.buffer[k].ink, Range(o, end), false),
          BufferTokens(input, k + 1, end, t, true));
    }
  }

  lemma SplitStart(rest: seq<Token>, cursor: nat)
    requires NoCursor(rest) && EndBehind(Sourced(rest), cursor)
    ensures SplitOk(Split([], Mark, rest), cursor)
  {
    hide Sourced;
    SourcedOne(Mark);
    SourcedJoin([Mark], rest);
  }

  lemma SplitBehind(pre: seq<Token>, at: Token, post: seq<Token>, cursor: nat)
    requires at.Mark? && NoCursor(pre) && NoCursor(post)
    requires EndBy(Sourced(pre), cursor) && EndBehind(Sourced(post), cursor)
    ensures SplitOk(Split(pre, at, post), cursor)
  {
    hide Sourced;
    SourcedOne(Mark);
    SourcedJoin([Mark], post);
  }

  lemma SplitLater(notes: seq<Token>, cluster: seq<Token>, rest: Split, cursor: nat)
    requires NoCursor(notes) && Sourced(notes) == [] && NoCursor(cluster) && EndBy(Sourced(cluster), cursor)
    requires SplitOk(rest, cursor)
    ensures SplitOk(Split(notes + cluster + rest.pre, rest.at, rest.post), cursor)
  {
    hide Sourced, IsCursor;
    SourcedJoin(notes, cluster);
    SourcedJoin(notes + cluster, rest.pre);
  }

  /** The cursor on the k-th cluster, or where it is if it has no cell of its own. */
  lemma SplitAtCluster(input: Input, k: nat, o: nat, t: nat) returns (s: Split)
    requires input.Ok() && k < |input.buffer| && o <= input.cursor < o + input.buffer[k].size
    requires !MarkedAt(input, t, o, false)
    ensures s.All() == BufferTokens(input, k, o, t, false) && SplitOk(s, input.cursor)
  {
    hide DueTokens, PenAt, Sourced, DueTo, ClusterTokens, MarkedAt, NoteTokens, SplitOk;
    var notes, t', end, ink := NoteTokens(input, t, o, false), DueTo(input, t, o), o + input.buffer[k].size,
        input.buffer[k].ink;
    NotesAreApart(input, t, o, false);
    var rest := BufferTokens(input, k + 1, end, t', true);
    MarkedIsApart(input, k + 1, end, t');
    BufferIsDrawn(input, k + 1, end, t', true);
    var first, tail := ClusterSplits(input, ink, Range(o, end));
    s := Split(notes, first, tail + rest);
    assert s.All() == notes + ([first] + tail + rest);
    SourcedJoin(tail, rest);
    SplitHere(s, input.cursor);
  }

  lemma SplitHere(s: Split, cursor: nat)
    requires IsCursor(s.at) && NoCursor(s.pre) && NoCursor(s.post)
    requires Sourced(s.pre) == [] && EndBehind(Sourced(s.post), cursor)
    requires s.at.Put? ==> s.at.ink.source.Some? && s.at.ink.source.value.begin <= cursor < s.at.ink.source.value.end
    ensures SplitOk(s, cursor)
  {
    hide Sourced;
    SourcedOne(s.at);
    SourcedJoin([s.at], s.post);
  }

  lemma ClusterSplits(input: Input, ink: Ink, at: Range) returns (first: Token, tail: seq<Token>)
    ensures ClusterTokens(input, ink, at, true) == [first] + tail
    ensures IsCursor(first) && NoCursor(tail) && Sourced(tail) == []
    ensures first.Put? ==> first.ink.source == Some(at)
  {
    hide PenAt, Sourced, PlainTokens;
    first, tail := ClusterTokens(input, ink, at, true)[0], ClusterTokens(input, ink, at, true)[1..];
    SourcedOne(NewLine);
    if ink.Break? {
      PlainIsApart(input.continuation, input.promptPen);
      assert tail == [NewLine] + PlainTokens(input.continuation, input.promptPen);
      SourcedJoin([NewLine], PlainTokens(input.continuation, input.promptPen));
    }
  }

  /** Later tokens only add to the rows, and move the cursor only if they place it. */
  lemma {:induction false} WalkKeeps(columns: nat, s: Sheet, ts: seq<Token>)
    requires s.Ok()
    ensures var r := Walk(columns, s, ts);
      && |s.rows| <= |r.rows| && (forall q :: 0 <= q < |s.rows| ==> s.rows[q].inks <= r.rows[q].inks)
      && (NoCursor(ts) ==> r.cursor == s.cursor)
    decreases |ts|
  {
    hide Step, IsCursor;
    if ts != [] {
      StepKeeps(columns, s, ts[0]);
      WalkKeeps(columns, Step(columns, s, ts[0]), ts[1..]);
    }
  }

  lemma StepKeeps(columns: nat, s: Sheet, t: Token)
    requires s.Ok()
    ensures var r := Step(columns, s, t);
      && |s.rows| <= |r.rows| && (forall q :: 0 <= q < |s.rows| ==> s.rows[q].inks <= r.rows[q].inks)
      && (!IsCursor(t) ==> r.cursor == s.cursor)
  {
  }

  /** The cursor is on a cluster's first column. */
  ghost predicate StandsOn(s: Sheet, ink: Inked) {
    s.cursor.Some? &&
    var (r, c) := s.cursor.value;
    r < |s.rows| &&
    exists j :: 0 <= j < |s.rows[r].inks| && s.rows[r].inks[j] == ink && Widths(s.rows[r].inks[..j]) == c
  }

  lemma PutStands(columns: nat, s: Sheet, lines: seq<seq<Inked>>, ink: Inked)
    requires s.Ok() && Agree(columns, s, lines) && 0 < columns && InkOk(ink)
    ensures var r := Step(columns, s, Put(ink, true));
      StandsOn(r, ink) && r.cursor.value.1 < columns && r.cursor.value.0 < |r.rows|
  {
    hide Widths, AllRows;
    var room := Reserved(columns, s, ink.width);
    var inks := room.rows[room.row].inks;
    assert room.column < columns && Widths(inks) == room.column by {
      OneWidth(ink);
      FullAbove(columns, s, lines);
    }
    var r := Step(columns, s, Put(ink, true));
    assert r.rows[room.row].inks == inks + [ink];
    assert (inks + [ink])[..|inks|] == inks;
  }

  lemma StandsStill(s: Sheet, r: Sheet, ink: Inked)
    requires StandsOn(s, ink) && r.cursor == s.cursor && |s.rows| <= |r.rows|
    requires forall q :: 0 <= q < |s.rows| ==> s.rows[q].inks <= r.rows[q].inks
    ensures StandsOn(r, ink)
  {
    var (row, c) := s.cursor.value;
    var j :| 0 <= j < |s.rows[row].inks| && s.rows[row].inks[j] == ink && Widths(s.rows[row].inks[..j]) == c;
    assert r.rows[row].inks[..j] == s.rows[row].inks[..j];
  }

  /** The cursor is always on a cell of the content: on the first column of the cluster its offset lies
      in, and where there is no such cluster, or virtual text stands before it, right behind what is
      drawn of the buffer up to it - at the start of the next row if that leaves no cell. */
  lemma CursorIsPlaced(input: Input) returns (s: Split)
    requires input.Ok() && 0 < input.columns
    ensures Tokens(input) == s.All() && SplitOk(s, input.cursor)
    ensures var l := Laid(input);
      && l.cursor.Some? && l.cursor.value.0 < |l.rows| && l.cursor.value.1 < input.columns
      && (s.at.Put? ==> StandsOn(l, s.at.ink))
      && (s.at.Mark? ==>
            var before := Walk(input.columns, START, s.pre);
            l.cursor == Some(if before.column < input.columns then (before.row, before.column)
                else (before.row + 1, 0)))
  {
    hide BufferTokens, PlainTokens, Walk, Agree, StandsOn, Sourced, InkOk, EndBehind, IsCursor;
    var prompt := PlainTokens(input.prompt, input.promptPen);
    PlainIsApart(input.prompt, input.promptPen);
    var split := BufferSplits(input, 0, 0, 0);
    s := Split(prompt + split.pre, split.at, split.post);
    SourcedOne(Mark);
    SplitLater(prompt, [], split, input.cursor);
    assert prompt + [] == prompt && s.All() == prompt + split.All();
    assert TokensOk(Tokens(input)) by {
      PlainTokensOk(input.prompt, input.promptPen);
      BufferTokensOk(input, 0, 0, 0, false);
    }
    SplitWalks(input.columns, s);
  }

  lemma SplitWalks(columns: nat, s: Split)
    requires 0 < columns && TokensOk(s.All()) && IsCursor(s.at) && NoCursor(s.post)
    ensures var l := Walk(columns, START, s.All());
      && l.cursor.Some? && l.cursor.value.0 < |l.rows| && l.cursor.value.1 < columns
      && (s.at.Put? ==> StandsOn(l, s.at.ink))
      && (s.at.Mark? ==>
            var before := Walk(columns, START, s.pre);
            l.cursor == Some(if before.column < columns then (before.row, before.column) else (before.row + 1, 0)))
  {
    hide Walk, Agree, StandsOn, InkOk, Step;
    assert s.All()[|s.pre|] == s.at && s.All()[..|s.pre|] == s.pre;
    assert TokensOk(s.pre) && (s.at.Put? ==> InkOk(s.at.ink));
    StartAgrees(columns);
    var before := Walk(columns, START, s.pre);
    WalkAgrees(columns, START, [[]], s.pre);
    WalkJoin(columns, START, s.pre, [s.at] + s.post);
    assert s.All() == s.pre + ([s.at] + s.post);
    WalkOne(columns, before, s.at, s.post);
    PlacedHere(columns, before, Lines([[]], s.pre), s.at);
    var placed := Step(columns, before, s.at);
    WalkKeeps(columns, placed, s.post);
    if s.at.Put? {
      StandsStill(placed, Walk(columns, placed, s.post), s.at.ink);
    }
  }

  lemma PlacedHere(columns: nat, s: Sheet, lines: seq<seq<Inked>>, t: Token)
    requires s.Ok() && Agree(columns, s, lines) && 0 < columns && IsCursor(t) && (t.Put? ==> InkOk(t.ink))
    ensures var r := Step(columns, s, t);
      && r.cursor.Some? && r.cursor.value.0 < |r.rows| && r.cursor.value.1 < columns
      && (t.Put? ==> StandsOn(r, t.ink))
      && (t.Mark? ==> r.cursor == Some(if s.column < columns then (s.row, s.column) else (s.row + 1, 0)))
  {
    hide Agree, StandsOn, InkOk;
    if t.Put? {
      PutStands(columns, s, lines, t.ink);
      PutHasCursor(columns, s, t.ink);
    }
  }

  lemma PutHasCursor(columns: nat, s: Sheet, ink: Inked)
    requires s.Ok()
    ensures Step(columns, s, Put(ink, true)).cursor.Some?
  {
  }

  lemma StartAgrees(columns: nat)
    ensures Agree(columns, START, [[]])
  {
    AllRowsAdd(columns, []);
    assert START.rows[..1] == [Row(true, [])];
  }

  lemma WalkOne(columns: nat, s: Sheet, t: Token, rest: seq<Token>)
    requires s.Ok()
    ensures Walk(columns, s, [t] + rest) == Walk(columns, Step(columns, s, t), rest)
  {
    assert ([t] + rest)[1..] == rest;
  }

  // ----- the window -----

  /** The first row shown: centred on the cursor, held to the content's two ends. */
  function FirstVisible(content: nat, cursorRow: nat, rows: nat): nat {
    if content <= rows then 0
    else
      var centred, furthest := cursorRow - rows / 2, content - rows;
      if centred < 0 then 0 else if centred > furthest then furthest else centred
  }

  /** The window lies in the content and the cursor's row in the window. */
  lemma WindowHoldsCursor(content: nat, cursorRow: nat, rows: nat)
    requires cursorRow < content && 0 < rows
    ensures var top := FirstVisible(content, cursorRow, rows);
      top <= cursorRow < top + Min(content, rows) <= content
  {
  }

  /** It scrolls with the cursor, never against it and never by more rows than it. */
  lemma WindowGlides(content: nat, above: nat, below: nat, rows: nat)
    requires above <= below < content
    ensures FirstVisible(content, above, rows) <= FirstVisible(content, below, rows)
         <= FirstVisible(content, above, rows) + (below - above)
  {
  }

  // ----- as cells -----

  function BlankRow(columns: nat): seq<Cell> {
    seq(columns, _ => BLANK_CELL)
  }

  /** The cells of a row; a cluster the frame has no room for at all is clipped. */
  function Painted(columns: nat, inks: seq<Inked>): (row: seq<Cell>)
    ensures |row| == columns
  {
    if inks == [] then BlankRow(columns)
    else
      var before, ink := Painted(columns, inks[..|inks| - 1]), inks[|inks| - 1];
      var c := Widths(inks[..|inks| - 1]);
      if 1 <= ink.width <= 2 && c + ink.width <= columns then Surfaces.Written(before, c, ink.glyph, ink.width, ink.pen)
      else before
  }

  function CellOf(ink: Inked): Cell {
    Cell(ink.glyph, ink.pen, ink.width)
  }

  /** The clusters some cells show, each by its first cell. */
  function Leads(row: seq<Cell>): seq<Cell> {
    if row == [] then []
    else Leads(row[..|row| - 1]) + if row[|row| - 1].glyph != 0 then [row[|row| - 1]] else []
  }

  function CellsOf(inks: seq<Inked>): (cells: seq<Cell>)
    ensures |cells| == |inks|
  {
    seq(|inks|, i requires 0 <= i < |inks| => CellOf(inks[i]))
  }

  /** What is not written yet is blank. */
  lemma {:induction false} PaintedRest(columns: nat, inks: seq<Inked>)
    ensures forall k :: Widths(inks) <= k < columns ==> Painted(columns, inks)[k] == BLANK_CELL
    decreases |inks|
  {
    if inks != [] {
      PaintedRest(columns, inks[..|inks| - 1]);
    }
  }

  lemma LeadsMore(row: seq<Cell>, cell: Cell)
    ensures Leads(row + [cell]) == Leads(row) + if cell.glyph != 0 then [cell] else []
  {
    assert (row + [cell])[..|row|] == row;
  }

  lemma WrittenReads(before: seq<Cell>, c: nat, ink: Inked)
    requires InkOk(ink) && c + ink.width <= |before|
    ensures Leads(Surfaces.Written(before, c, ink.glyph, ink.width, ink.pen)[..c + ink.width]) ==
      Leads(before[..c]) + [CellOf(ink)]
  {
    hide Leads;
    var after := Surfaces.Written(before, c, ink.glyph, ink.width, ink.pen);
    assert after[..c + 1] == before[..c] + [CellOf(ink)];
    LeadsMore(before[..c], CellOf(ink));
    if ink.width == 2 {
      assert after[..c + 2] == after[..c + 1] + [Cell(0, ink.pen, 0)];
      LeadsMore(after[..c + 1], Cell(0, ink.pen, 0));
    }
  }

  /** The cells read back as the clusters, in order, none split. */
  lemma {:induction false} CellsReadBack(columns: nat, inks: seq<Inked>)
    requires InksOk(inks) && Widths(inks) <= columns
    ensures Leads(Painted(columns, inks)[..Widths(inks)]) == CellsOf(inks)
    decreases |inks|
  {
    hide Surfaces.Written, Leads;
    if inks == [] {
      LeadsNothing();
    } else {
      var init, ink := inks[..|inks| - 1], inks[|inks| - 1];
      assert InkOk(ink) && InksOk(init);
      CellsReadBack(columns, init);
      WrittenReads(Painted(columns, init), Widths(init), ink);
      assert CellsOf(inks) == CellsOf(init) + [CellOf(ink)];
    }
  }

  lemma LeadsNothing()
    ensures Leads([]) == [] && Leads([BLANK_CELL]) == [BLANK_CELL]
  {
    assert [BLANK_CELL][..0] == [];
  }

  lemma {:induction false} WidthsUpTo(inks: seq<Inked>, j: nat)
    requires j < |inks|
    ensures Widths(inks[..j]) + inks[j].width <= Widths(inks)
    decreases |inks|
  {
    var n := |inks| - 1;
    if j < n {
      WidthsUpTo(inks[..n], j);
      assert inks[..n][..j] == inks[..j];
    }
  }

  /** A row that wrapping made is shown whole exactly when nothing on it is wider than the frame. */
  lemma RowReadsBackIff(columns: nat, inks: seq<Inked>)
    requires InksOk(inks) && Holds(columns, inks) && 0 < columns
    ensures Leads(Painted(columns, inks)[..Min(Widths(inks), columns)]) == CellsOf(inks)
       <==> forall i :: 0 <= i < |inks| ==> inks[i].width <= columns
  {
    hide Widths, Painted, Leads;
    if Widths(inks) <= columns {
      CellsReadBack(columns, inks);
      forall i | 0 <= i < |inks|
        ensures inks[i].width <= columns
      {
        WidthsUpTo(inks, i);
      }
    } else {
      ClippedRow(columns, inks);
    }
  }

  lemma ClippedRow(columns: nat, inks: seq<Inked>)
    requires |inks| == 1 && InkOk(inks[0]) && 0 < columns < inks[0].width
    ensures Leads(Painted(columns, inks)[..Min(Widths(inks), columns)]) != CellsOf(inks)
  {
    hide Leads;
    assert inks == [inks[0]] && inks[..0] == [];
    OneWidth(inks[0]);
    assert Painted(columns, inks) == BlankRow(1) && BlankRow(1)[..1] == [BLANK_CELL];
    LeadsNothing();
    assert CellsOf(inks)[0].width == 2;
  }

  /** Laid-out rows can be blitted: every wide cluster has its second half, and no half is left over. */
  lemma {:induction false} PaintedIsDrawable(caps: Capabilities, columns: nat, inks: seq<Inked>)
    requires InksOk(inks) && forall i :: 0 <= i < |inks| ==> !Resolved(caps, inks[i].pen).TwoUnderlines()
    ensures RowOk(caps, Painted(columns, inks))
    decreases |inks|
  {
    hide RowOk, Widths;
    if inks == [] {
      BlankIsDrawable(caps, columns);
    } else {
      var init, ink := inks[..|inks| - 1], inks[|inks| - 1];
      assert InkOk(ink);
      PaintedIsDrawable(caps, columns, init);
      PaintedRest(columns, init);
      if Widths(init) + ink.width <= columns {
        WrittenOk(caps, Painted(columns, init), Widths(init), ink.glyph, ink.width, ink.pen);
      }
    }
  }

  lemma BlankIsDrawable(caps: Capabilities, columns: nat)
    ensures RowOk(caps, BlankRow(columns))
  {
  }

  /** The cell at a cluster's first column is the cluster. */
  lemma {:induction false} PaintedAt(columns: nat, inks: seq<Inked>, j: nat)
    requires InksOk(inks) && j < |inks| && Widths(inks) <= columns
    ensures Widths(inks[..j]) < columns && Painted(columns, inks)[Widths(inks[..j])] == CellOf(inks[j])
    decreases |inks|
  {
    hide Widths;
    var n := |inks| - 1;
    assert InkOk(inks[n]) && InkOk(inks[j]);
    assert Widths(inks) == Widths(inks[..n]) + inks[n].width
        by { WidthsMore(inks[..n], inks[n]); assert inks == inks[..n] + [inks[n]]; }
    if j < n {
      assert inks[..n][..j] == inks[..j];
      PaintedAt(columns, inks[..n], j);
      WidthsUpTo(inks[..n], j);
    }
  }
}
