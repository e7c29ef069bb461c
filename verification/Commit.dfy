/** The one commit of an action (registry.cpp): whatever it staged becomes at most one replacement. */
module Committing {
  import opened Wrappers
  import opened History
  import opened Editing

  /** One replacement that explains a change. */
  datatype Difference = Difference(from: nat, to: nat, inserted: Bytes, any: bool)

  /** It rebuilds the new text, is empty exactly when nothing changed, and leaves out as much as it can of
      what the texts begin with, and then as much as it can of what they end with. */
  ghost predicate Explains(d: Difference, was: Bytes, now: Bytes) {
    && (d.any <==> was != now)
    && d.from <= d.to <= |was|
    && was[..d.from] + d.inserted + was[d.to..] == now
    && (d.any ==> d.from == |was| || d.from == |now| || was[d.from] != now[d.from])
    && (d.from < d.to && d.inserted != [] ==> was[d.to - 1] != d.inserted[|d.inserted| - 1])
    && (!d.any ==> d.from == d.to == 0 && d.inserted == [])
  }

  lemma PrefixIsLongest(d: Difference, was: Bytes, now: Bytes, k: nat)
    requires Explains(d, was, now) && d.any
    requires k <= |was| && k <= |now| && was[..k] == now[..k]
    ensures k <= d.from
  {
    assert forall i :: 0 <= i < k ==> was[..k][i] == was[i] && now[..k][i] == now[i];
  }

  lemma SuffixIsLongest(d: Difference, was: Bytes, now: Bytes, n: nat)
    requires Explains(d, was, now) && d.any
    requires d.from + n <= |was| && d.from + n <= |now| && was[|was| - n..] == now[|now| - n..]
    ensures n <= |was| - d.to
  {
    var grown := |now| - |was|;
    assert grown == |d.inserted| - (d.to - d.from);
    assert d.inserted != [] ==> now[d.from + |d.inserted| - 1] == d.inserted[|d.inserted| - 1];
    forall j | |was| - n <= j < |was|
      ensures was[j] == now[j + grown]
    {
      assert was[j] == was[|was| - n..][j - (|was| - n)] == now[|now| - n..][j - (|was| - n)];
    }
  }

  /** There is one such replacement. */
  lemma ExplainsOnce(a: Difference, b: Difference, was: Bytes, now: Bytes)
    requires Explains(a, was, now) && Explains(b, was, now)
    ensures a == b
  {
    hide Explains;
    Parts(a, was, now);
    Parts(b, was, now);
    if was != now {
      BeginAlike(a, was, now);
      BeginAlike(b, was, now);
      PrefixIsLongest(a, was, now, b.from);
      PrefixIsLongest(b, was, now, a.from);
      EndAlike(a, was, now);
      EndAlike(b, was, now);
      SuffixIsLongest(a, was, now, |was| - b.to);
      SuffixIsLongest(b, was, now, |was| - a.to);
    }
  }

  lemma Parts(d: Difference, was: Bytes, now: Bytes)
    requires Explains(d, was, now)
    ensures d.any <==> was != now
    ensures d.from <= d.to <= |was| && d.from <= |now| - (|was| - d.to) <= |now|
    ensures d.inserted == now[d.from..|now| - (|was| - d.to)]
    ensures !d.any ==> d == Difference(0, 0, [], false)
  {
  }

  lemma BeginAlike(d: Difference, was: Bytes, now: Bytes)
    requires Explains(d, was, now)
    ensures d.from <= |now| && was[..d.from] == now[..d.from]
  {
    assert now[..d.from] == was[..d.from];
  }

  lemma EndAlike(d: Difference, was: Bytes, now: Bytes)
    requires Explains(d, was, now)
    ensures var n := |was| - d.to; d.from + n <= |now| && was[|was| - n..] == now[|now| - n..]
  {
    var n := |was| - d.to;
    assert now[|now| - n..] == was[d.to..];
  }

  method DiffOf(was: Bytes, now: Bytes) returns (d: Difference)
    ensures Explains(d, was, now)
  {
    if was == now {
      return Difference(0, 0, [], false);
    }
    hide Explains;
    var prefix := 0;
    var shortest := if |was| < |now| then |was| else |now|;
    while prefix < shortest && was[prefix] == now[prefix]
      invariant prefix <= shortest && was[..prefix] == now[..prefix]
    {
      prefix := prefix + 1;
    }
    var suffix := 0;
    while suffix < shortest - prefix && was[|was| - 1 - suffix] == now[|now| - 1 - suffix]
      invariant suffix <= shortest - prefix && was[|was| - suffix..] == now[|now| - suffix..]
    {
      assert was[|was| - 1 - suffix..] == [was[|was| - 1 - suffix]] + was[|was| - suffix..];
      assert now[|now| - 1 - suffix..] == [now[|now| - 1 - suffix]] + now[|now| - suffix..];
      suffix := suffix + 1;
    }
    d := Difference(prefix, |was| - suffix, now[prefix..|now| - suffix], true);
    Trimmed(d, was, now);
  }

  lemma Trimmed(d: Difference, was: Bytes, now: Bytes)
    requires was != now && d.any && d.from <= d.to <= |was|
    requires var suffix := |was| - d.to;
      && d.from + suffix <= |now| && d.inserted == now[d.from..|now| - suffix]
      && was[..d.from] == now[..d.from] && was[d.to..] == now[|now| - suffix..]
      && (d.from == |was| || d.from == |now| || was[d.from] != now[d.from])
      && (d.to == d.from || d.from + suffix == |now| || was[d.to - 1] != now[|now| - 1 - suffix])
    ensures Explains(d, was, now)
  {
    assert now == now[..d.from] + d.inserted + now[|now| - (|was| - d.to)..];
  }

  /** What an action leaves behind: the text it staged, and the cursor and selection it may have written. */
  datatype Staged = Staged(text: Bytes, cursor: nat, cursorWritten: bool, anchor: nat, active: bool,
      selectionWritten: bool)

  /** A keystroke typed into the line: a plain insertion of one cluster, the very bytes of the key. */
  predicate IsTyped(d: Difference, keys: Bytes, isCluster: Bytes -> bool) {
    d.any && d.from == d.to && d.inserted != [] && d.inserted == keys && isCluster(d.inserted)
  }

  /** The commit of an action. Snapping to clusters, and what one cluster is, are the tables' to say. */
  method Commit(target: Editor, staged: Staged, keys: Bytes, isCluster: Bytes -> bool, snapBack: (Bytes, nat) -> nat)
    returns (changed: bool, d: Difference)
    requires target.Valid() && forall text, at :: snapBack(text, at) <= |text|
    modifies target
    ensures target.Valid()
    // The buffer is what was staged, by one replacement and one generation if anything changed.
    ensures target.text == staged.text && Explains(d, old(target.text), staged.text)
    ensures changed <==> old(target.text) != staged.text
    ensures target.generation == old(target.generation) + if changed then 1 else 0
    // An action that changed nothing leaves no step, and one that did leaves one step or lengthens one.
    ensures !changed ==>
      target.session.timeline == old(target.session.timeline) && target.session.done == old(target.session.done)
    ensures changed && target.depth == 0 ==>
      OneStep(old(target.session), target.session, d, IsTyped(d, keys, isCluster))
    ensures target.depth == old(target.depth)
    ensures target.depth == 0 ==> target.coalescing == IsTyped(d, keys, isCluster)
    // Where the cursor and the selection are left.
    ensures target.mark.cursor == if changed || staged.cursorWritten then snapBack(staged.text, staged.cursor)
      else old(target.mark.cursor)
    ensures target.mark.active == if staged.selectionWritten then staged.active else old(target.mark.active)
    ensures target.mark.anchor == if staged.selectionWritten then snapBack(staged.text, staged.anchor)
      else Adjusted(old(target.mark.anchor), d.from, d.to, |d.inserted|)
  {
    hide Sound, Represents, Explains, OneStep, Adjusted;
    d := DiffOf(target.text, staged.text);
    changed := d.any;
    CommitEdit(target, d, staged.text, snapBack(staged.text, staged.cursor), IsTyped(d, keys, isCluster));
    Parts(d, old(target.text), staged.text);
    ghost var edited := target.session;
    if !changed && staged.cursorWritten {
      assert target.session.now.InRange() by { SoundMeans(target.session, target.initial); }
      target.MoveTo(target.mark.(cursor := snapBack(target.text, staged.cursor)));
    }
    NoChangeNoMove(old(target.mark.anchor), d);
    if staged.selectionWritten {
      assert target.session.now.InRange() by { SoundMeans(target.session, target.initial); }
      target.MoveTo(target.mark.(anchor := snapBack(target.text, staged.anchor), active := staged.active));
    }
    OneStepMoves(old(target.session), edited, target.session, d, IsTyped(d, keys, isCluster));
  }

  /** The difference, as at most one edit; and what is no keystroke breaks the run on both sides of it. */
  method CommitEdit(target: Editor, d: Difference, text: Bytes, landing: nat, typed: bool)
    requires target.Valid() && Explains(d, target.text, text) && landing <= |text|
    requires typed ==> d.any && d.from == d.to && d.inserted != []
    modifies target
    ensures target.Valid() && target.text == text && target.depth == old(target.depth)
    ensures target.generation == old(target.generation) + if d.any then 1 else 0
    ensures target.depth == 0 ==> target.coalescing == typed
    ensures !d.any ==>
      target.session.timeline == old(target.session.timeline) && target.session.done == old(target.session.done)
      && target.mark == old(target.mark)
    ensures d.any ==>
      var anchor := Adjusted(old(target.mark.anchor), d.from, d.to, |d.inserted|);
      target.mark == Mark(landing, anchor, old(target.mark.active))
    ensures d.any && target.depth == 0 ==> OneStep(old(target.session), target.session, d, typed)
  {
    hide Sound, Represents, Replaced, Recorded, Edited, Adjusted, Merges, Stands, Plain;
    ghost var s := target.session;
    assert s.done <= |s.timeline| by { SoundMeans(s, target.initial); }
    if !typed {
      target.BreakCoalescing();
    }
    if d.any {
      ExplainsReplaces(d, target.text, text);
      ghost var before := target.session;
      target.ApplyEdit(d.from, d.to, d.inserted, Some(landing));
      ApplyIsOneStep(s, before, d, text, landing, typed);
      if !typed {
        target.BreakCoalescing();
      }
    }
  }

  /** Where the cursor and the selection are put is no part of a step. */
  lemma OneStepMoves(was: Session, now: Session, moved: Session, d: Difference, typed: bool)
    requires moved.timeline == now.timeline && moved.done == now.done && moved.now.text == now.now.text
    ensures OneStep(was, now, d, typed) ==> OneStep(was, moved, d, typed)
  {
    hide Merges;
  }

  lemma NoChangeNoMove(anchor: nat, d: Difference)
    requires d.from <= d.to
    ensures d.from == d.to && d.inserted == [] ==> Adjusted(anchor, d.from, d.to, |d.inserted|) == anchor
  {
  }

  lemma ExplainsReplaces(d: Difference, was: Bytes, now: Bytes)
    requires Explains(d, was, now)
    ensures Replaced(was, d.from, d.to, d.inserted) == now
    ensures Clamp(was, d.from) == d.from && EndOf(was, d.from, d.to) == d.to
    ensures Plain(was, d.from, d.to, d.inserted) <==> d.from == d.to && d.inserted != []
  {
  }

  /** A commit is one step: its own, from exactly the line before it, unless it is a keystroke that goes
      on a run of typing, which the last step then takes in. Either way the redo tail is gone. */
  ghost predicate OneStep(was: Session, now: Session, d: Difference, typed: bool) {
    && was.done <= |was.timeline| && 0 < now.done == |now.timeline|
    && var step := now.timeline[now.done - 1];
    && step.to.text == now.now.text
    && step.run == (if d.from == d.to && d.inserted != [] then Some(d.from + |d.inserted|) else None)
    && if Merges(was, typed, d.from) then
         now.done == was.done && now.timeline[..was.done - 1] == was.timeline[..was.done - 1]
         && step.from == was.timeline[was.done - 1].from
       else
         now.done == was.done + 1 && now.timeline[..was.done] == was.timeline[..was.done] && step.from == was.now
  }

  lemma ApplyIsOneStep(was: Session, before: Session, d: Difference, now: Bytes, landing: nat, typed: bool)
    requires was.done <= |was.timeline| && before == (if typed then was else Broken(was))
    requires Explains(d, was.now.text, now) && (typed ==> d.any && d.from == d.to && d.inserted != [])
    ensures var after := Edited(before, d.from, d.to, d.inserted, Some(landing));
      && after.now.text == now
      && after.now.mark == Mark(landing, Adjusted(was.now.mark.anchor, d.from, d.to, |d.inserted|), was.now.mark.active)
      && after.generation == was.generation + 1 && after.depth == was.depth
      && (was.depth == 0 ==> OneStep(was, after, d, typed) && (typed ==> after.coalescing))
  {
    hide Replaced, Adjusted, Plain;
    ExplainsReplaces(d, was.now.text, now);
  }
}
