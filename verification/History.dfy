/** What editing a line means (text.h, undo.h, editor.cpp): a timeline of whole snapshots, which the
    editor keeps as small records. */
module History {
  import opened Wrappers

  type Bytes = seq<Byte>

  // ----- the text -----

  function Clamp(text: Bytes, at: nat): (r: nat)
    ensures r <= |text|
  {
    if at < |text| then at else |text|
  }

  /** The end of a range, never before its beginning. */
  function EndOf(text: Bytes, from: nat, to: nat): (r: nat)
    ensures Clamp(text, from) <= r <= |text|
  {
    if Clamp(text, to) < Clamp(text, from) then Clamp(text, from) else Clamp(text, to)
  }

  function Slice(text: Bytes, from: nat, to: nat): Bytes {
    text[Clamp(text, from)..EndOf(text, from, to)]
  }

  function Replaced(text: Bytes, from: nat, to: nat, with: Bytes): Bytes {
    text[..Clamp(text, from)] + with + text[EndOf(text, from, to)..]
  }

  // ----- the selection follows the text -----

  /** The marker rules. */
  function Adjusted(anchor: nat, begin: nat, end: nat, inserted: nat): nat
    requires begin <= end
  {
    if anchor <= begin then anchor
    else if anchor >= end then anchor - (end - begin) + inserted
    else begin
  }

  /** An anchor the edit did not swallow keeps the text on its unedited side, up to the edge of the
      buffer; one it did swallow ends where the edit begins. It never leaves the text. */
  lemma AnchorKeepsItsSide(text: Bytes, anchor: nat, from: nat, to: nat, with: Bytes)
    requires anchor <= |text|
    ensures var begin, end := Clamp(text, from), EndOf(text, from, to);
      var now, moved := Replaced(text, from, to, with), Adjusted(anchor, begin, end, |with|);
      && moved <= |now|
      && (anchor <= begin ==> now[..moved] == text[..anchor])
      && (begin < anchor && end <= anchor ==> now[moved..] == text[anchor..])
      && (begin < anchor < end ==> moved == begin && now[..moved] == text[..begin])
  {
    var begin, end := Clamp(text, from), EndOf(text, from, to);
    var now := Replaced(text, from, to, with);
    assert |now| == begin + |with| + (|text| - end);
    if begin < anchor && end <= anchor {
      assert now[begin + |with|..] == text[end..];
      assert text[end..][anchor - end..] == text[anchor..];
    }
  }

  // ----- sessions -----

  datatype Mark = Mark(cursor: nat, anchor: nat, active: bool)

  datatype Snapshot = Snapshot(text: Bytes, mark: Mark) {
    predicate InRange() {
      mark.cursor <= |text| && mark.anchor <= |text|
    }
  }

  /** One step of undo; `run` is where the typing it ends in ends, if it ends in typing. */
  datatype Change = Change(from: Snapshot, to: Snapshot, run: Option<nat>)

  /** A line being edited: what is on it now, every step before and behind, and how many lie before. */
  datatype Session = Session(now: Snapshot, timeline: seq<Change>, done: nat, pending: Option<Change>,
                             depth: nat, coalescing: bool, generation: nat)

  /** The text before step `k` of a timeline. */
  function TextAt(timeline: seq<Change>, initial: Bytes, k: nat): Bytes
    requires k <= |timeline|
  {
    if k == 0 then initial else timeline[k - 1].to.text
  }

  /** Steps that lead on from the initial text without a gap, every cursor and anchor in its text. */
  ghost predicate Whole(timeline: seq<Change>, initial: Bytes) {
    forall k :: 0 <= k < |timeline| ==>
      && timeline[k].from.text == TextAt(timeline, initial, k)
      && timeline[k].from.InRange() && timeline[k].to.InRange()
  }

  /** The timeline leads from the initial text to the present one, and on to what can be redone. */
  ghost predicate Sound(s: Session, initial: Bytes) {
    && s.done <= |s.timeline|
    && Whole(s.timeline, initial)
    && s.now.InRange()
    && (s.pending.None? ==> s.now.text == TextAt(s.timeline, initial, s.done))
    && (s.pending.Some? ==>
          && s.depth > 0 && s.done == |s.timeline|
          && s.pending.value.from.text == TextAt(s.timeline, initial, s.done)
          && s.pending.value.to.text == s.now.text
          && s.pending.value.from.InRange() && s.pending.value.to.InRange())
  }

  lemma WholeTake(timeline: seq<Change>, initial: Bytes, n: nat)
    requires Whole(timeline, initial) && n <= |timeline|
    ensures Whole(timeline[..n], initial)
    ensures TextAt(timeline[..n], initial, n) == TextAt(timeline, initial, n)
  {
    forall k | 0 <= k < n
      ensures TextAt(timeline[..n], initial, k) == TextAt(timeline, initial, k)
    {
    }
  }

  lemma WholeAdd(timeline: seq<Change>, initial: Bytes, c: Change)
    requires Whole(timeline, initial) && c.from.InRange() && c.to.InRange()
    requires c.from.text == TextAt(timeline, initial, |timeline|)
    ensures Whole(timeline + [c], initial)
    ensures TextAt(timeline + [c], initial, |timeline| + 1) == c.to.text
  {
    var more := timeline + [c];
    forall k | 0 <= k < |more|
      ensures more[k].from.text == TextAt(more, initial, k) && more[k].from.InRange() && more[k].to.InRange()
    {
      if k < |timeline| {
        assert more[k] == timeline[k];
      }
      assert k > 0 ==> more[k - 1] == timeline[k - 1];
    }
  }

  /** The range and the text of an edit make it a plain insertion. */
  predicate Plain(text: Bytes, from: nat, to: nat, with: Bytes) {
    Slice(text, from, to) == [] && with != []
  }

  predicate Merges(s: Session, plain: bool, at: nat) {
    s.coalescing && plain && 0 < s.done <= |s.timeline| && s.timeline[s.done - 1].run == Some(at)
  }

  /** An edit's effect on the history: typing that goes on where the last step's typing ended lengthens
      that step; whatever was undone is gone. */
  function Recorded(s: Session, now: Snapshot, at: nat, plain: bool, inserted: nat): Session
    requires s.done <= |s.timeline|
  {
    var run := if plain then Some(at + inserted) else None;
    if s.depth > 0 then
      var from := if s.pending.Some? then s.pending.value.from else s.now;
      s.(now := now, timeline := s.timeline[..s.done], pending := Some(Change(from, now, run)))
    else if Merges(s, plain, at) then
      var last := s.timeline[s.done - 1];
      s.(now := now, timeline := s.timeline[..s.done - 1] + [last.(to := now, run := run)])
    else
      s.(now := now, timeline := s.timeline[..s.done] + [Change(s.now, now, run)], done := s.done + 1,
         coalescing := plain)
  }

  /** `apply_edit`. */
  function Edited(s: Session, from: nat, to: nat, with: Bytes, cursor: Option<nat>): Session
    requires s.done <= |s.timeline|
  {
    var text, mark := s.now.text, s.now.mark;
    var begin, end := Clamp(text, from), EndOf(text, from, to);
    var landed := if cursor.Some? then cursor.value else begin + |with|;
    var now := Snapshot(Replaced(text, from, to, with),
        Mark(landed, Adjusted(mark.anchor, begin, end, |with|), mark.active));
    Recorded(s, now, from, Plain(text, from, to, with), |with|).(generation := s.generation + 1)
  }

  function Undone(s: Session): Session
    requires s.done <= |s.timeline|
  {
    if s.done == 0 then s
    else s.(now := s.timeline[s.done - 1].from, done := s.done - 1, coalescing := false)
  }

  function Redone(s: Session): Session {
    if s.done >= |s.timeline| then s
    else s.(now := s.timeline[s.done].to, done := s.done + 1, coalescing := false)
  }

  function Broken(s: Session): Session {
    s.(coalescing := false)
  }

  function Begun(s: Session): Session {
    s.(depth := s.depth + 1)
  }

  /** Only the outermost close makes the step, and an empty group makes none. */
  function Ended(s: Session): Session
    requires s.done <= |s.timeline|
  {
    if s.depth == 0 then s
    else if s.depth > 1 || s.pending.None? then s.(depth := s.depth - 1)
    else
      s.(depth := 0, pending := None, timeline := s.timeline[..s.done] + [s.pending.value], done := s.done + 1)
  }

  // ----- runs -----

  datatype Op =
    | Edit(from: nat, to: nat, with: Bytes, cursor: Option<nat>)
    | Move(mark: Mark)
    | Break | Begin | End | Undo | Redo

  /** What each call asks of its caller. */
  predicate Allowed(s: Session, op: Op) {
    match op
    case Edit(from, to, with, cursor) =>
      && from <= |s.now.text|
      && (cursor.Some? ==> cursor.value <= |Replaced(s.now.text, from, to, with)|)
    case Move(mark) => Snapshot(s.now.text, mark).InRange()
    case Undo => s.depth == 0
    case Redo => s.depth == 0
    case _ => true
  }

  function Next(s: Session, op: Op): (r: Session)
    requires s.done <= |s.timeline|
    ensures r.done <= |r.timeline|
  {
    match op
    case Edit(from, to, with, cursor) => Edited(s, from, to, with, cursor)
    case Move(mark) => s.(now := s.now.(mark := mark))
    case Break => Broken(s)
    case Begin => Begun(s)
    case End => Ended(s)
    case Undo => Undone(s)
    case Redo => Redone(s)
  }

  lemma RecordedKeeps(s: Session, initial: Bytes, now: Snapshot, at: nat, plain: bool, inserted: nat)
    requires Sound(s, initial) && now.InRange()
    ensures Sound(Recorded(s, now, at, plain, inserted), initial)
  {
    hide Whole, TextAt;
    WholeTake(s.timeline, initial, s.done);
    if s.depth > 0 {
    } else if Merges(s, plain, at) {
      var last := s.timeline[s.done - 1];
      WholeTake(s.timeline, initial, s.done - 1);
      assert last.from.text == TextAt(s.timeline, initial, s.done - 1) && last.from.InRange()
          by { WholeMeans(s.timeline, initial, s.done - 1); }
      WholeAdd(s.timeline[..s.done - 1], initial, last.(to := now, run := Some(at + inserted)));
    } else {
      WholeAdd(s.timeline[..s.done], initial, Change(s.now, now, if plain then Some(at + inserted) else None));
    }
  }

  lemma WholeMeans(timeline: seq<Change>, initial: Bytes, k: nat)
    requires Whole(timeline, initial) && k < |timeline|
    ensures timeline[k].from.text == TextAt(timeline, initial, k) &&
      timeline[k].to.text == TextAt(timeline, initial, k + 1)
    ensures timeline[k].from.InRange() && timeline[k].to.InRange()
  {
  }

  lemma EditInRange(s: Session, from: nat, to: nat, with: Bytes, cursor: Option<nat>)
    requires s.done <= |s.timeline| && s.now.InRange() && Allowed(s, Edit(from, to, with, cursor))
    ensures Edited(s, from, to, with, cursor).now.InRange()
  {
    hide Recorded;
    AnchorKeepsItsSide(s.now.text, s.now.mark.anchor, from, to, with);
    RecordedNow(s, from, to, with, cursor);
  }

  lemma RecordedNow(s: Session, from: nat, to: nat, with: Bytes, cursor: Option<nat>)
    requires s.done <= |s.timeline|
    ensures var text, mark := s.now.text, s.now.mark;
      var begin, end := Clamp(text, from), EndOf(text, from, to);
      Edited(s, from, to, with, cursor).now ==
      Snapshot(Replaced(text, from, to, with),
               Mark(if cursor.Some? then cursor.value else begin + |with|, Adjusted(mark.anchor, begin, end, |with|),
                   mark.active))
  {
    hide Replaced, Adjusted, Clamp, EndOf, Plain, Merges;
  }

  /** Every call keeps the timeline whole. */
  lemma NextKeeps(s: Session, initial: Bytes, op: Op)
    requires Sound(s, initial) && Allowed(s, op)
    ensures Sound(Next(s, op), initial)
  {
    if op.Edit? {
      hide Recorded, Sound, Replaced, Adjusted, Plain, Merges, Clamp, EndOf;
      assert s.done <= |s.timeline| && s.now.InRange() by { SoundMeans(s, initial); }
      EditInRange(s, op.from, op.to, op.with, op.cursor);
      EditKeeps(s, initial, op.from, op.to, op.with, op.cursor);
    } else if op.End? {
      EndKeeps(s, initial);
    } else {
      hide Recorded, Replaced, Plain, Merges, Whole, TextAt, Edited, Ended;
      if op.Undo? && s.done > 0 { WholeMeans(s.timeline, initial, s.done - 1); }
      if op.Redo? && s.done < |s.timeline| { WholeMeans(s.timeline, initial, s.done); }
    }
  }

  lemma SoundMeans(s: Session, initial: Bytes)
    requires Sound(s, initial)
    ensures s.done <= |s.timeline| && s.now.InRange()
  {
  }

  lemma EditKeeps(s: Session, initial: Bytes, from: nat, to: nat, with: Bytes, cursor: Option<nat>)
    requires s.done <= |s.timeline| && Sound(s, initial) && Edited(s, from, to, with, cursor).now.InRange()
    ensures Sound(Edited(s, from, to, with, cursor), initial)
  {
    hide Recorded, Replaced, Adjusted, Plain, Clamp, EndOf;
    var e := Edited(s, from, to, with, cursor);
    RecordedNow(s, from, to, with, cursor);
    RecordedKeeps(s, initial, e.now, from, Plain(s.now.text, from, to, with), |with|);
    var r := Recorded(s, e.now, from, Plain(s.now.text, from, to, with), |with|);
    assert e == r.(generation := s.generation + 1);
  }

  lemma EndKeeps(s: Session, initial: Bytes)
    requires Sound(s, initial)
    ensures Sound(Ended(s), initial)
  {
    hide Whole, TextAt;
    if s.pending.Some? {
      WholeTake(s.timeline, initial, s.done);
      WholeAdd(s.timeline[..s.done], initial, s.pending.value);
    }
  }

  ghost predicate AllAllowed(s: Session, ops: seq<Op>)
    requires s.done <= |s.timeline|
    decreases |ops|
  {
    ops != [] ==> Allowed(s, ops[0]) && AllAllowed(Next(s, ops[0]), ops[1..])
  }

  ghost function Run(s: Session, ops: seq<Op>): Session
    requires s.done <= |s.timeline| && AllAllowed(s, ops)
    decreases |ops|
  {
    if ops == [] then s else Run(Next(s, ops[0]), ops[1..])
  }

  /** Over any run, the steps lead from the initial text to the present one. */
  lemma {:induction false} RunKeeps(s: Session, initial: Bytes, ops: seq<Op>)
    requires Sound(s, initial) && AllAllowed(s, ops)
    ensures Sound(Run(s, ops), initial)
    decreases |ops|
  {
    if ops != [] {
      NextKeeps(s, initial, ops[0]);
      RunKeeps(Next(s, ops[0]), initial, ops[1..]);
    }
  }

  // ----- undo and redo -----

  function Undos(s: Session, k: nat): (r: Session)
    requires s.done <= |s.timeline|
    ensures r.done <= |r.timeline|
    decreases k
  {
    if k == 0 then s else Undos(Undone(s), k - 1)
  }

  function Redos(s: Session, k: nat): Session
    decreases k
  {
    if k == 0 then s else Redos(Redone(s), k - 1)
  }

  /** `k` undos land exactly where the step they end at found the line: text, cursor and selection. */
  lemma {:induction false} UndosLand(s: Session, k: nat)
    requires k <= s.done <= |s.timeline|
    ensures var u := Undos(s, k);
      u.timeline == s.timeline && u.done == s.done - k
      && (k > 0 ==> u.now == s.timeline[s.done - k].from && !u.coalescing)
    decreases k
  {
    if k > 0 {
      UndosLand(Undone(s), k - 1);
    }
  }

  lemma {:induction false} RedosLand(s: Session, k: nat)
    requires s.done + k <= |s.timeline|
    ensures var r := Redos(s, k);
      r.timeline == s.timeline && r.done == s.done + k
      && (k > 0 ==> r.now == s.timeline[s.done + k - 1].to && !r.coalescing)
    decreases k
  {
    if k > 0 {
      RedosLand(Redone(s), k - 1);
    }
  }

  /** `k` undos and then `k` redos: the same text and the same history, the cursor where the last step
      left it. All the way back is the initial text. */
  lemma UndoThenRedo(s: Session, initial: Bytes, k: nat)
    requires Sound(s, initial) && s.depth == 0 && k <= s.done
    ensures var u := Undos(s, k); var r := Redos(u, k);
      && r.now.text == s.now.text && r.timeline == s.timeline && r.done == s.done
      && (k > 0 ==> r.now == s.timeline[s.done - 1].to)
      && u.now.text == TextAt(s.timeline, initial, s.done - k)
      && (k == s.done ==> u.now.text == initial)
  {
    hide Whole;
    UndosLand(s, k);
    RedosLand(Undos(s, k), k);
    if k > 0 { WholeMeans(s.timeline, initial, s.done - k); }
  }

  /** Undoing what was just typed takes the whole run away and puts the cursor and the selection back
      where they were before its first keystroke. */
  lemma UndoTakesTheRun(s: Session, at: nat, with: Bytes, cursor: Option<nat>)
    requires 0 < s.done <= |s.timeline| && s.depth == 0
    requires Merges(s, Plain(s.now.text, at, at, with), at)
    ensures Undone(Edited(s, at, at, with, cursor)).now == s.timeline[s.done - 1].from
    ensures Edited(s, at, at, with, cursor).done == s.done
  {
  }
}
