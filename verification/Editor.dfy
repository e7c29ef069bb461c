/** The editor (undo.h, editor.cpp, registry.cpp): a buffer, a history of records, and one commit for
    every action, proved to be the timeline of snapshots in `History`. */
module Editing {
  import opened Wrappers
  import opened History

  /** One replacement and everything undoing it needs. */
  datatype Record = Record(at: nat, removed: Bytes, inserted: Bytes, before: Mark, after: Mark) {
    predicate IsPlain() {
      removed == [] && inserted != []
    }
  }

  /** The record is about this text. */
  predicate Fits(r: Record, text: Bytes) {
    r.at + |r.removed| <= |text| && text[r.at..r.at + |r.removed|] == r.removed
  }

  /** A record replayed forward, and back. */
  function Do(r: Record, text: Bytes): Bytes {
    Replaced(text, r.at, r.at + |r.removed|, r.inserted)
  }

  function Undo(r: Record, text: Bytes): Bytes {
    Replaced(text, r.at, r.at + |r.inserted|, r.removed)
  }

  lemma UndoRestores(r: Record, text: Bytes)
    requires Fits(r, text)
    ensures Undo(r, Do(r, text)) == text
  {
    assert Do(r, text) == text[..r.at] + r.inserted + text[r.at + |r.removed|..];
    assert Do(r, text)[..r.at] == text[..r.at];
    assert Do(r, text)[r.at + |r.inserted|..] == text[r.at + |r.removed|..];
    assert text == text[..r.at] + r.removed + text[r.at + |r.removed|..];
  }

  /** The record an edit leaves. */
  function RecordOf(text: Bytes, from: nat, to: nat, with: Bytes, before: Mark, after: Mark): Record {
    Record(from, Slice(text, from, to), with, before, after)
  }

  lemma RecordFits(text: Bytes, from: nat, to: nat, with: Bytes, before: Mark, after: Mark)
    requires from <= |text|
    ensures var r := RecordOf(text, from, to, with, before, after);
      Fits(r, text) && Do(r, text) == Replaced(text, from, to, with)
  {
  }

  /** A record keeps the start of its range as it was asked for, not as the buffer clamped it: undoing
      restores the text exactly when the range began in the text or nothing was inserted. */
  lemma UndoRestoresIff(text: Bytes, from: nat, to: nat, with: Bytes, before: Mark, after: Mark)
    ensures var r := RecordOf(text, from, to, with, before, after);
      Undo(r, Replaced(text, from, to, with)) == text <==> from <= |text| || with == []
  {
    var r := RecordOf(text, from, to, with, before, after);
    if from <= |text| {
      RecordFits(text, from, to, with, before, after);
      UndoRestores(r, text);
    } else {
      var now := Replaced(text, from, to, with);
      assert now == text + with && r.removed == [];
      assert |Undo(r, now)| == if with == [] then |text| else Clamp(now, from);
      if with == [] {
        assert Undo(r, now) == text;
      }
    }
  }

  // ----- steps -----

  function Played(records: seq<Record>, text: Bytes): Bytes {
    if records == [] then text
    else Do(records[|records| - 1], Played(records[..|records| - 1], text))
  }

  function Unplayed(records: seq<Record>, text: Bytes): Bytes
    decreases |records|
  {
    if records == [] then text
    else Unplayed(records[..|records| - 1], Undo(records[|records| - 1], text))
  }

  lemma {:induction false} UnplayedIsBase(records: seq<Record>, base: Bytes)
    requires Playable(records, base)
    ensures Unplayed(records, Played(records, base)) == base
    decreases |records|
  {
    hide Do, Fits;
    if records != [] {
      var n := |records| - 1;
      UndoRestores(records[n], Played(records[..n], base));
      UnplayedIsBase(records[..n], base);
    }
  }

  predicate Playable(records: seq<Record>, text: Bytes) {
    records != [] ==>
      var init := records[..|records| - 1];
      Playable(init, text) && Fits(records[|records| - 1], Played(init, text))
  }

  function RunOf(r: Record): Option<nat> {
    if r.IsPlain() then Some(r.at + |r.inserted|) else None
  }

  /** The records are a change: they lead from its first text to its last, between its two marks. */
  ghost predicate Stands(records: seq<Record>, c: Change) {
    && records != []
    && Playable(records, c.from.text) && Played(records, c.from.text) == c.to.text
    && records[0].before == c.from.mark && records[|records| - 1].after == c.to.mark
    && RunOf(records[|records| - 1]) == c.run
  }

  lemma OneStands(r: Record, c: Change)
    requires Fits(r, c.from.text) && Do(r, c.from.text) == c.to.text
    requires r.before == c.from.mark && r.after == c.to.mark && RunOf(r) == c.run
    ensures Stands([r], c)
  {
    assert [r][..0] == [];
  }

  lemma MoreStands(records: seq<Record>, c: Change, r: Record, more: Change)
    requires Stands(records, c) && Fits(r, c.to.text) && Do(r, c.to.text) == more.to.text
    requires more.from == c.from && r.after == more.to.mark && RunOf(r) == more.run
    ensures Stands(records + [r], more)
  {
    assert (records + [r])[..|records|] == records;
  }

  /** The record a run of typing grows into. */
  function Merged(a: Record, b: Record): Record {
    a.(inserted := a.inserted + b.inserted, after := b.after)
  }

  /** Typing that goes on where the last record's ended is one longer record. */
  lemma MergedStands(records: seq<Record>, c: Change, r: Record, more: Change)
    requires Stands(records, c) && Fits(r, c.to.text) && Do(r, c.to.text) == more.to.text
    requires more.from == c.from && r.after == more.to.mark && RunOf(r) == more.run
    requires r.IsPlain() && c.run == Some(r.at)
    ensures var n := |records| - 1;
      Stands(records[n := Merged(records[n], r)], more)
  {
    hide Do;
    var n := |records| - 1;
    var last, init := records[n], records[..n];
    var text := Played(init, c.from.text);
    var merged := records[n := Merged(last, r)];
    assert merged[..n] == init && merged[n] == Merged(last, r);
    MergedDoesBoth(last, r, text);
  }

  /** An insertion right behind another one's. */
  lemma MergedDoesBoth(a: Record, b: Record, text: Bytes)
    requires a.IsPlain() && b.IsPlain() && a.at <= |text| && b.at == a.at + |a.inserted|
    ensures Do(b, Do(a, text)) == Do(Merged(a, b), text)
  {
    assert Do(a, text) == text[..a.at] + a.inserted + text[a.at..];
    assert Do(a, text)[..b.at] == text[..a.at] + a.inserted && Do(a, text)[b.at..] == text[a.at..];
  }

  lemma PlayedStep(records: seq<Record>, text: Bytes, k: nat)
    requires k < |records| && Playable(records, text)
    ensures Playable(records[..k], text) && Fits(records[k], Played(records[..k], text))
    ensures Played(records[..k + 1], text) == Do(records[k], Played(records[..k], text))
    decreases |records|
  {
    hide Do, Fits;
    var n := |records|;
    assert records[..k + 1][..k] == records[..k];
    if k < n - 1 {
      PlayedStep(records[..n - 1], text, k);
      assert records[..n - 1][..k] == records[..k] && records[..n - 1][..k + 1] == records[..k + 1];
    } else {
      assert records[..n] == records;
    }
  }

  /** The two stacks of records are the timeline: steps before the present, undone ones behind it. */
  ghost predicate Represents(steps: seq<seq<Record>>, redoable: seq<seq<Record>>, group: seq<Record>, s: Session) {
    && |steps| == s.done && |steps| + |redoable| == |s.timeline|
    && (forall k :: 0 <= k < |steps| ==> Stands(steps[k], s.timeline[k]))
    && (forall k :: 0 <= k < |redoable| ==> Stands(redoable[k], s.timeline[|s.timeline| - 1 - k]))
    && (group == [] <==> s.pending.None?)
    && (group != [] ==> Stands(group, s.pending.value))
  }

  lemma Regrouped(steps: seq<seq<Record>>, redoable: seq<seq<Record>>, group: seq<Record>, s: Session, r: Record,
      now: Snapshot)
    requires s.done <= |s.timeline| && Represents(steps, redoable, group, s) && s.depth > 0
    requires Fits(r, s.now.text) && Do(r, s.now.text) == now.text && r.before == s.now.mark && r.after == now.mark
    requires s.pending.Some? ==> s.pending.value.to.text == s.now.text
    ensures Represents(steps, [], group + [r], Recorded(s, now, r.at, r.IsPlain(), |r.inserted|))
  {
    hide Stands, Do, Fits;
    var c := Recorded(s, now, r.at, r.IsPlain(), |r.inserted|).pending.value;
    if group == [] {
      assert group + [r] == [r];
      OneStands(r, c);
    } else {
      MoreStands(group, s.pending.value, r, c);
    }
  }

  lemma Pushed(steps: seq<seq<Record>>, redoable: seq<seq<Record>>, s: Session, r: Record, now: Snapshot)
    requires s.done <= |s.timeline| && Represents(steps, redoable, [], s) && s.depth == 0
    requires Fits(r, s.now.text) && Do(r, s.now.text) == now.text && r.before == s.now.mark && r.after == now.mark
    requires !Merges(s, r.IsPlain(), r.at)
    ensures Represents(steps + [[r]], [], [], Recorded(s, now, r.at, r.IsPlain(), |r.inserted|))
  {
    hide Stands, Do, Fits;
    OneStands(r, Change(s.now, now, RunOf(r)));
  }

  lemma Lengthened(steps: seq<seq<Record>>, redoable: seq<seq<Record>>, s: Session, r: Record, now: Snapshot)
    requires s.done <= |s.timeline| && Represents(steps, redoable, [], s) && s.depth == 0
    requires Fits(r, s.now.text) && Do(r, s.now.text) == now.text && r.after == now.mark
    requires Merges(s, r.IsPlain(), r.at) && s.timeline[s.done - 1].to.text == s.now.text
    ensures steps != [] && steps[|steps| - 1] != []
    ensures var n := |steps| - 1; var m := |steps[n]| - 1;
      Represents(steps[n := steps[n][m := Merged(steps[n][m], r)]], [], [],
          Recorded(s, now, r.at, r.IsPlain(), |r.inserted|))
  {
    var n := |steps| - 1;
    assert Stands(steps[n], s.timeline[n]);
    Longer(steps, s, r, now, n);
  }

  lemma Longer(steps: seq<seq<Record>>, s: Session, r: Record, now: Snapshot, n: nat)
    requires n == |steps| - 1 && |steps| == s.done <= |s.timeline| && s.depth == 0 && s.pending.None?
    requires forall k :: 0 <= k < |steps| ==> Stands(steps[k], s.timeline[k])
    requires steps[n] != []
    requires Fits(r, s.now.text) && Do(r, s.now.text) == now.text && r.after == now.mark
    requires Merges(s, r.IsPlain(), r.at) && s.timeline[n].to.text == s.now.text
    ensures var m := |steps[n]| - 1;
      Represents(steps[n := steps[n][m := Merged(steps[n][m], r)]], [], [],
          Recorded(s, now, r.at, r.IsPlain(), |r.inserted|))
  {
    hide Stands, Do, Fits;
    var last := s.timeline[n];
    MergedStands(steps[n], last, r, last.(to := now, run := RunOf(r)));
  }

  /** Whether the last step ends in typing is read off its last record. */
  lemma RunIsLast(steps: seq<seq<Record>>, redoable: seq<seq<Record>>, group: seq<Record>, s: Session)
    requires s.done <= |s.timeline| && Represents(steps, redoable, group, s) && s.done > 0
    ensures var last := steps[|steps| - 1];
      last != [] && s.timeline[s.done - 1].run == RunOf(last[|last| - 1])
  {
    assert Stands(steps[|steps| - 1], s.timeline[|steps| - 1]);
  }

  /** The last step ends in typing that ends here. */
  predicate EndsAt(steps: seq<seq<Record>>, at: nat) {
    && steps != [] && steps[|steps| - 1] != []
    && var last := steps[|steps| - 1];
    RunOf(last[|last| - 1]) == Some(at)
  }

  /** What a record must be for the history to go on standing for the timeline. */
  ghost predicate Recordable(steps: seq<seq<Record>>, redoable: seq<seq<Record>>, group: seq<Record>, initial: Bytes,
                             edit: Record, s: Session, now: Snapshot)
  {
    && Sound(s, initial) && Represents(steps, redoable, group, s)
    && Fits(edit, s.now.text) && Do(edit, s.now.text) == now.text && edit.before == s.now.mark && edit.after == now.mark
  }

  lemma CanRecord(steps: seq<seq<Record>>, redoable: seq<seq<Record>>, group: seq<Record>, initial: Bytes,
                  edit: Record, s: Session, now: Snapshot)
    requires Sound(s, initial) && Represents(steps, redoable, group, s)
    requires Fits(edit, s.now.text) && Do(edit, s.now.text) == now.text && edit.before == s.now.mark &&
      edit.after == now.mark
    ensures Recordable(steps, redoable, group, initial, edit, s, now)
  {
  }

  class Editor {
    var text: Bytes
    var mark: Mark
    var generation: nat
    var steps: seq<seq<Record>>
    var redoable: seq<seq<Record>>
    var group: seq<Record>
    var depth: nat
    var coalescing: bool
    ghost const initial: Bytes
    ghost var session: Session

    ghost predicate Valid()
      reads this
    {
      && session.now == Snapshot(text, mark)
      && session.depth == depth && session.coalescing == coalescing && session.generation == generation
      && Sound(session, initial)
      && Represents(steps, redoable, group, session)
    }

    constructor (text: Bytes)
      ensures Valid() && initial == text
      ensures session == Session(Snapshot(text, Mark(0, 0, false)), [], 0, None, 0, false, 0)
    {
      this.text, mark, generation := text, Mark(0, 0, false), 0;
      steps, redoable, group, depth, coalescing := [], [], [], 0, false;
      initial := text;
      session := Session(Snapshot(text, Mark(0, 0, false)), [], 0, None, 0, false, 0);
    }

    /** `text_buffer::replace`. */
    method Replace(from: nat, to: nat, with: Bytes) returns (landed: nat)
      modifies this`text
      ensures text == Replaced(old(text), from, to, with) && landed == Clamp(old(text), from) + |with|
    {
      var begin := Clamp(text, from);
      var end := if Clamp(text, to) < begin then begin else Clamp(text, to);
      text := text[..begin] + with + text[end..];
      landed := begin + |with|;
    }

    /** The one buffer mutation. The history goes where the timeline does unless the range begins behind the
        end of the text, or the cursor is to be left there. */
    method ApplyEdit(from: nat, to: nat, with: Bytes, cursorAfter: Option<nat>)
      requires Valid()
      modifies this
      ensures Snapshot(text, mark) == Edited(old(session), from, to, with, cursorAfter).now
      ensures generation == old(generation) + 1 && depth == old(depth)
      ensures old(Allowed(session, Edit(from, to, with, cursorAfter))) ==>
        Valid() && session == Edited(old(session), from, to, with, cursorAfter)
    {
      hide Sound, Represents, Replaced, Adjusted, Fits, Do, Recorded, Recordable;
      ghost var allowed := Allowed(session, Edit(from, to, with, cursorAfter));
      if allowed {
        NextKeeps(session, initial, Edit(from, to, with, cursorAfter));
      }
      SoundMeans(session, initial);
      ghost var s, was := session, text;
      var begin, end := Clamp(text, from), Clamp(text, to);
      if end < begin {
        end := begin;
      }
      var before, removed := mark, Slice(text, from, to);
      var landed := Replace(from, to, with);
      mark := mark.(cursor := if cursorAfter.Some? then cursorAfter.value else landed);
      mark := mark.(anchor := Adjusted(mark.anchor, begin, end, |with|));
      var edit := Record(from, removed, with, before, mark);
      if allowed {
        RecordFits(was, from, to, with, before, mark);
        CanRecord(steps, redoable, group, initial, edit, s, Snapshot(text, mark));
      }
      RecordEdit(edit, s, Snapshot(text, mark));
      generation := generation + 1;
      session := Edited(s, from, to, with, cursorAfter);
      RecordedNow(s, from, to, with, cursorAfter);
      if allowed {
        Regenerated(steps, redoable, group, Recorded(s, Snapshot(text, mark), edit.at, edit.IsPlain(), |with|),
            generation);
      }
    }

    /** `undo_history::record`. */
    method RecordEdit(edit: Record, ghost s: Session, ghost now: Snapshot)
      modifies this`steps, this`redoable, this`group, this`coalescing
      ensures old(Recordable(steps, redoable, group, initial, edit, s, now) && s.depth == depth &&
        s.coalescing == coalescing) ==>
        var r := Recorded(s, now, edit.at, edit.IsPlain(), |edit.inserted|);
        r.depth == depth && r.coalescing == coalescing && Represents(steps, redoable, group, r)
    {
      hide Stands, Fits, Do, Whole;
      ghost var fits := Recordable(steps, redoable, group, initial, edit, s, now) && s.depth == depth &&
          s.coalescing == coalescing;
      if fits && depth == 0 && s.done > 0 {
        RunIsLast(steps, redoable, group, s);
        assert s.timeline[s.done - 1].to.text == s.now.text;
      }
      ghost var undone := redoable;
      redoable := [];
      if depth > 0 {
        if fits {
          Regrouped(steps, undone, group, s, edit, now);
        }
        group := group + [edit];
        return;
      }
      if fits {
        if Merges(s, edit.IsPlain(), edit.at) {
          Lengthened(steps, undone, s, edit, now);
        } else {
          Pushed(steps, undone, s, edit, now);
        }
      }
      var merged := CoalesceIntoLast(edit);
      if merged {
        return;
      }
      steps := steps + [[edit]];
    }

    /** A run of typing goes on only where the last one ended. */
    method CoalesceIntoLast(edit: Record) returns (merged: bool)
      modifies this`steps, this`coalescing
      ensures merged <==> old(coalescing) && edit.IsPlain() && EndsAt(old(steps), edit.at)
      ensures merged ==> coalescing && var n := |old(steps)| - 1; var m := |old(steps)[n]| - 1;
        steps == old(steps)[n := old(steps)[n][m := Merged(old(steps)[n][m], edit)]]
      ensures !merged ==> steps == old(steps) && coalescing == edit.IsPlain()
    {
      if !coalescing || !edit.IsPlain() || steps == [] {
        coalescing := edit.IsPlain();
        return false;
      }
      var n := |steps| - 1;
      if steps[n] == [] {
        coalescing := true;
        return false;
      }
      var m := |steps[n]| - 1;
      var previous := steps[n][m];
      if !previous.IsPlain() || previous.at + |previous.inserted| != edit.at {
        coalescing := true;
        return false;
      }
      steps := steps[n := steps[n][m := previous.(inserted := previous.inserted + edit.inserted, after := edit.after)]];
      return true;
    }

    /** The records of a step, last to first. */
    method Unplay(step: seq<Record>)
      requires step != []
      modifies this`text, this`mark
      ensures text == Unplayed(step, old(text)) && mark == step[0].before
    {
      hide Replaced, Slice;
      assert step[..|step|] == step;
      var i := |step|;
      while i > 0
        invariant 0 <= i <= |step|
        invariant Unplayed(step[..i], text) == Unplayed(step, old(text))
        invariant i < |step| ==> mark == step[i].before
      {
        i := i - 1;
        var edit := step[i];
        assert step[..i + 1][..i] == step[..i];
        UndoIs(edit, text);
        var landed := Replace(edit.at, edit.at + |edit.inserted|, edit.removed);
        mark := edit.before;
      }
    }

    /** The records of a step, first to last. */
    method Replay(step: seq<Record>)
      requires step != []
      modifies this`text, this`mark
      ensures text == Played(step, old(text)) && mark == step[|step| - 1].after
    {
      hide Do;
      assert step[..0] == [];
      var i := 0;
      while i < |step|
        invariant 0 <= i <= |step|
        invariant text == Played(step[..i], old(text))
        invariant 0 < i ==> mark == step[i - 1].after
      {
        var edit := step[i];
        assert step[..i + 1][..i] == step[..i];
        DoIs(edit, text);
        var landed := Replace(edit.at, edit.at + |edit.removed|, edit.inserted);
        mark := edit.after;
        i := i + 1;
      }
      assert step[..i] == step;
    }

    /** The last step goes from one stack to the other, its records backwards over the text; and where no
        group is open, that is a step back in time. */
    method UndoOne() returns (undone: bool)
      requires Valid()
      modifies this`text, this`mark, this`steps, this`redoable, this`coalescing, this`session
      ensures undone <==> old(steps) != []
      ensures undone ==>
        var step := old(steps)[|old(steps)| - 1];
        && steps == old(steps)[..|old(steps)| - 1] && redoable == old(redoable) + [step] && !coalescing
        && step != [] && text == Unplayed(step, old(text)) && mark == step[0].before
      ensures !undone ==> steps == old(steps) && redoable == old(redoable) && text == old(text) && mark == old(mark)
      ensures depth == 0 ==> Valid() && session == Undone(old(session))
    {
      hide Sound, Stands, Do, Fits, Playable, Played, Represents;
      if depth == 0 {
        NextKeeps(session, initial, Op.Undo);
      }
      SoundMeans(session, initial);
      StacksMean(steps, redoable, group, session);
      if steps == [] {
        return false;
      }
      ghost var s := session;
      var step := steps[|steps| - 1];
      ghost var c := s.timeline[s.done - 1];
      StepsBack(steps, redoable, group, session);
      StandsMeans(step, c);
      if depth == 0 {
        UndoEnds(s, initial);
        UnplayedIsBase(step, c.from.text);
      }
      Unplay(step);
      steps, redoable := steps[..|steps| - 1], redoable + [step];
      coalescing := false;
      session := Undone(s);
      return true;
    }

    /** The same the other way. */
    method RedoOne() returns (redone: bool)
      requires Valid()
      modifies this`text, this`mark, this`steps, this`redoable, this`coalescing, this`session
      ensures redone <==> old(redoable) != []
      ensures redone ==>
        var step := old(redoable)[|old(redoable)| - 1];
        && redoable == old(redoable)[..|old(redoable)| - 1] && steps == old(steps) + [step] && !coalescing
        && step != [] && text == Played(step, old(text)) && mark == step[|step| - 1].after
      ensures !redone ==> steps == old(steps) && redoable == old(redoable) && text == old(text) && mark == old(mark)
      ensures depth == 0 ==> Valid() && session == Redone(old(session))
    {
      hide Sound, Stands, Do, Fits, Playable, Played, Represents;
      if depth == 0 {
        NextKeeps(session, initial, Op.Redo);
      }
      SoundMeans(session, initial);
      StacksMean(steps, redoable, group, session);
      if redoable == [] {
        return false;
      }
      ghost var s := session;
      var step := redoable[|redoable| - 1];
      ghost var c := s.timeline[s.done];
      StepsOn(steps, redoable, group, session);
      StandsMeans(step, c);
      if depth == 0 {
        RedoBegins(s, initial);
      }
      Replay(step);
      steps, redoable := steps + [step], redoable[..|redoable| - 1];
      coalescing := false;
      session := Redone(s);
      return true;
    }

    method BreakCoalescing()
      requires Valid()
      modifies this`coalescing, this`session
      ensures Valid() && session == Broken(old(session))
    {
      hide Sound, Stands;
      NextKeeps(session, initial, Break);
      coalescing := false;
      session := Broken(session);
    }

    method BeginGroup()
      requires Valid()
      modifies this`depth, this`group, this`session
      ensures Valid() && session == Begun(old(session))
    {
      hide Stands, Whole;
      NextKeeps(session, initial, Begin);
      if depth == 0 {
        group := [];
      }
      depth := depth + 1;
      session := Begun(session);
    }

    method EndGroup()
      requires Valid()
      modifies this`depth, this`group, this`steps, this`session
      ensures Valid() && session == Ended(old(session))
    {
      hide Stands, Whole;
      NextKeeps(session, initial, End);
      if depth == 0 {
        return;
      }
      ghost var s := session;
      depth := depth - 1;
      session := Ended(s);
      if depth > 0 {
        return;
      }
      if group != [] {
        steps := steps + [group];
      }
      group := [];
    }

    /** Motions and selection writes: the text and the history stay. */
    method MoveTo(to: Mark)
      requires Valid() && Snapshot(text, to).InRange()
      modifies this`mark, this`session
      ensures Valid() && session == old(session).(now := Snapshot(old(text), to))
    {
      hide Stands, Whole;
      NextKeeps(session, initial, Move(to));
      mark := to;
      session := session.(now := Snapshot(text, to));
    }
  }

  lemma Regenerated(steps: seq<seq<Record>>, redoable: seq<seq<Record>>, group: seq<Record>, s: Session,
      generation: nat)
    requires Represents(steps, redoable, group, s)
    ensures Represents(steps, redoable, group, s.(generation := generation))
  {
    hide Stands;
  }

  lemma StacksMean(steps: seq<seq<Record>>, redoable: seq<seq<Record>>, group: seq<Record>, s: Session)
    requires Represents(steps, redoable, group, s)
    ensures |steps| == s.done && |steps| + |redoable| == |s.timeline|
  {
  }

  /** A step undone goes from the top of one stack to the top of the other. */
  lemma StepsBack(steps: seq<seq<Record>>, redoable: seq<seq<Record>>, group: seq<Record>, s: Session)
    requires Represents(steps, redoable, group, s) && steps != []
    ensures var n := |steps| - 1;
      Stands(steps[n], s.timeline[n]) && Represents(steps[..n], redoable + [steps[n]], group, Undone(s))
  {
    hide Stands;
  }

  lemma StepsOn(steps: seq<seq<Record>>, redoable: seq<seq<Record>>, group: seq<Record>, s: Session)
    requires Represents(steps, redoable, group, s) && redoable != []
    ensures var n := |redoable| - 1;
      Stands(redoable[n], s.timeline[s.done]) && Represents(steps + [redoable[n]], redoable[..n], group, Redone(s))
  {
    hide Stands;
  }

  lemma StandsMeans(records: seq<Record>, c: Change)
    requires Stands(records, c)
    ensures records != [] && Playable(records, c.from.text) && Played(records, c.from.text) == c.to.text
    ensures records[0].before == c.from.mark && records[|records| - 1].after == c.to.mark
  {
  }

  lemma UndoEnds(s: Session, initial: Bytes)
    requires Sound(s, initial) && s.depth == 0 && s.done > 0
    ensures s.now.text == s.timeline[s.done - 1].to.text
  {
    hide Whole;
  }

  lemma RedoBegins(s: Session, initial: Bytes)
    requires Sound(s, initial) && s.depth == 0 && s.done < |s.timeline|
    ensures s.now.text == s.timeline[s.done].from.text
  {
  }

  lemma NothingPlayed(text: Bytes)
    ensures Played([], text) == text
  {
  }

  lemma UndoIs(r: Record, text: Bytes)
    ensures Undo(r, text) == Replaced(text, r.at, r.at + |r.inserted|, r.removed)
  {
  }

  lemma DoIs(r: Record, text: Bytes)
    ensures Do(r, text) == Replaced(text, r.at, r.at + |r.removed|, r.inserted)
  {
  }
}
