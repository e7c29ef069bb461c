/** No wake is lost, whatever the host and the other fibers do behind it (scheduler.h, scheduler.cpp). */
module Deliveries {
  import opened Wrappers
  import opened FiberModel

  /** On the ready list, or in the queue for it. */
  predicate Waits(m: Model, f: nat)
    requires m.Has(f)
  {
    m.state[f].Ready? || f in m.pending
  }

  /** Fiber f has its place yet: in the queue, if its group was `quiet` all along. */
  ghost predicate Kept(m: Model, after: Model, f: nat, quiet: bool) {
    && m.Has(f) && after.Has(f) && after.group[f] == m.group[f] && Waits(after, f)
    && (quiet && f in m.pending ==> f in after.pending)
    && after.slices[f] == m.slices[f]
  }

  /** One call, by any fiber but this one or by the host. */
  lemma ActKeeps(m: Model, a: Action, f: nat)
    requires m.Inv() && m.Has(f) && Waits(m, f)
    ensures Kept(m, Acted(m, a), f, a != ResumeGroup(m.group[f]))
  {
    hide Among, WokenAll;
    ActGrows(m, a);
    if a.ResumeGroup? {
      ResumeDelivers(m, a.group);
    }
  }

  lemma {:induction false} ActsKeep(m: Model, actions: seq<Action>, f: nat)
    requires m.Inv() && m.Has(f) && Waits(m, f)
    ensures Kept(m, ActedAll(m, actions), f, ResumeGroup(m.group[f]) !in actions)
    decreases |actions|
  {
    hide Acted, Model.Inv, Waits;
    if actions == [] {
      NothingHappened(m, f);
    } else {
      var n := |actions| - 1;
      ActsKeep(m, actions[..n], f);
      ActKeeps(ActedAll(m, actions[..n]), actions[n], f);
    }
  }

  lemma NothingHappened(m: Model, f: nat)
    requires m.Has(f) && Waits(m, f)
    ensures Kept(m, m, f, true)
  {
  }

  lemma SliceKeeps(m: Model, g: nat, slice: Slice, f: nat)
    requires MayRun(m, g) && m.Has(f) && Waits(m, f) && f != g
    ensures Kept(m, Ran(m, g, slice), f, ResumeGroup(m.group[f]) !in slice.actions)
  {
    hide ActedAll, Model.ListOk, Without;
    BeginKeeps(m, g);
    var begun := Begun(m, g);
    ActsKeep(begun, slice.actions, f);
    EndKeeps(ActedAll(begun, slice.actions), g, slice.ending);
  }

  /** Nothing in it resumes the group. */
  ghost predicate Quiet(step: HostStep, g: Group) {
    match step
    case Tick(_, plan) => forall f: nat, n: nat :: ResumeGroup(g) !in plan(f, n).actions
    case Call(a) => a != ResumeGroup(g)
  }

  /** From any turn of a tick to any later one, a fiber in its place has had a slice or has its place. */
  lemma {:induction false} TurnKeeps(m: Model, mask: set<Group>, plan: Plan, from: nat, k: nat, f: nat)
    requires m.Inv() && m.current.None? && from <= k <= |m.ready|
    requires var b := Turn(m, mask, plan, from); b.Has(f) && Waits(b, f)
    ensures var b, t := Turn(m, mask, plan, from), Turn(m, mask, plan, k);
      && t.Has(f) && t.slices[f] >= b.slices[f]
      && (Kept(b, t, f, Quiet(Tick(mask, plan), b.group[f])) || (t.slices[f] > b.slices[f] && f in m.ready[from..k]))
    decreases k - from
  {
    hide Ran, Waits, Quiet, Turn, Model.ListOk, Model.QueueOk;
    var b := Turn(m, mask, plan, from);
    if k == from {
      NothingHappened(b, f);
    } else {
      TurnKeeps(m, mask, plan, from, k - 1, f);
      OneTurnKeeps(m, mask, plan, k, f);
      assert m.ready[from..k] == m.ready[from..k - 1] + [m.ready[k - 1]];
    }
  }

  lemma OneTurnKeeps(m: Model, mask: set<Group>, plan: Plan, k: nat, f: nat)
    requires m.Inv() && m.current.None? && 0 < k <= |m.ready| && Turn(m, mask, plan, k - 1).Has(f)
    ensures var b, t := Turn(m, mask, plan, k - 1), Turn(m, mask, plan, k);
      && t.Has(f) && t.group[f] == b.group[f] && t.slices[f] >= b.slices[f]
      && (Waits(b, f) ==>
            Kept(b, t, f, Quiet(Tick(mask, plan), b.group[f])) || (t.slices[f] > b.slices[f] && f == m.ready[k - 1]))
  {
    hide Ran, Waits, Model.QueueOk;
    var b, g := Turn(m, mask, plan, k - 1), m.ready[k - 1];
    if Runnable(b, g, mask) {
      var slice := plan(g, b.slices[g]);
      assert MayRun(b, g);
      RunEffect(b, g, slice);
      if g != f && Waits(b, f) {
        SliceKeeps(b, g, slice, f);
      }
    } else if Waits(b, f) {
      NothingHappened(b, f);
    }
  }

  lemma StepKeeps(m: Model, step: HostStep, f: nat)
    requires m.Inv() && m.current.None? && m.Has(f) && Waits(m, f)
    ensures var after := HostStepped(m, step);
      Kept(m, after, f, Quiet(step, m.group[f])) || (after.Has(f) && after.slices[f] > m.slices[f] && f in m.ready)
  {
    hide Model.Inv, Acted, Waits;
    match step
    case Tick(mask, plan) => TurnKeeps(m, mask, plan, 0, |m.ready|, f);
    case Call(a) => ActKeeps(m, a, f);
  }

  /** Slices are only ever added. */
  lemma {:induction false} TurnCounts(m: Model, mask: set<Group>, plan: Plan, k: nat, f: nat)
    requires m.Inv() && m.current.None? && k <= |m.ready| && m.Has(f)
    ensures var t := Turn(m, mask, plan, k); t.Has(f) && t.slices[f] >= m.slices[f]
    decreases k
  {
    hide Ran, Turn, Model.ListOk, Model.QueueOk, Model.CurrentOk;
    TurnStarts(m, mask, plan);
    if k > 0 {
      TurnCounts(m, mask, plan, k - 1, f);
      OneTurnKeeps(m, mask, plan, k, f);
    }
  }

  lemma StepCounts(m: Model, step: HostStep, f: nat)
    requires m.Inv() && m.current.None? && m.Has(f)
    ensures var after := HostStepped(m, step); after.Has(f) && after.slices[f] >= m.slices[f]
  {
    hide Model.Inv, Acted;
    match step
    case Tick(mask, plan) => TurnCounts(m, mask, plan, |m.ready|, f);
    case Call(a) => ActGrows(m, a);
  }

  ghost predicate AllQuiet(steps: seq<HostStep>, g: Group) {
    forall i :: 0 <= i < |steps| ==> Quiet(steps[i], g)
  }

  /** A fiber in its place is there until it has a slice, over any run; and in the queue, until a resume of
      its own group. */
  lemma {:induction false} PlaceIsKept(m: Model, steps: seq<HostStep>, f: nat)
    requires m.Inv() && m.current.None? && m.Has(f) && Waits(m, f)
    ensures var after, quiet := HostRun(m, steps), AllQuiet(steps, m.group[f]);
      && after.Has(f) && after.slices[f] >= m.slices[f]
      && (after.slices[f] == m.slices[f] ==> Kept(m, after, f, quiet))
      && (quiet && f in m.pending ==> Kept(m, after, f, quiet))
    decreases |steps|
  {
    hide Model.Inv, Waits, Quiet, HostStepped;
    if steps == [] {
      NothingHappened(m, f);
    } else {
      var n := |steps| - 1;
      PlaceIsKept(m, steps[..n], f);
      var before := HostRun(m, steps[..n]);
      StepCounts(before, steps[n], f);
      if Kept(m, before, f, AllQuiet(steps[..n], m.group[f])) {
        StepKeeps(before, steps[n], f);
        if f in before.pending {
          QueuedIsNotListed(before, f);
        }
      }
    }
  }

  lemma QueuedIsNotListed(m: Model, f: nat)
    requires m.Inv() && f in m.pending
    ensures f !in m.ready && m.Has(f) && m.group[f] in m.parked
  {
    var i :| 0 <= i < |m.pending| && m.pending[i] == f;
  }

  /** No wake is ever lost. However the run goes on, a fiber that was woken is on the list or in the queue
      until it has run; and while its group is parked it is in the queue, and the resume puts it on the
      list. */
  lemma WakeIsDelivered(m: Model, f: nat, steps: seq<HostStep>)
    requires m.Inv() && m.current.None? && m.Has(f) && m.state[f].Parked?
    ensures var woken, g := Woken(m, f), m.group[f];
      && woken.Inv() && woken.current.None?
      && var after := HostRun(woken, steps);
      && after.Has(f) && (after.slices[f] == m.slices[f] ==> f in after.ready || f in after.pending)
      && (g in m.parked && AllQuiet(steps, g) ==>
          f in after.pending && g in after.parked && f in Resumed(after, g).ready)
  {
    hide AllQuiet, Woken;
    var woken := Woken(m, f);
    WakeKeeps(m, f);
    WokenWaits(m, f);
    DeliveredIn(woken, f, steps);
  }

  lemma WokenWaits(m: Model, f: nat)
    requires m.Inv() && m.Has(f) && m.state[f].Parked?
    ensures var woken := Woken(m, f);
      && Waits(woken, f) && (m.group[f] in m.parked ==> f in woken.pending)
      && woken.group == m.group && woken.slices == m.slices && woken.current == m.current
  {
  }

  // ----- a wake from inside a slice -----

  lemma {:induction false} ActedJoin(m: Model, a: seq<Action>, b: seq<Action>)
    requires m.Inv()
    ensures ActedAll(m, a + b) == ActedAll(ActedAll(m, a), b)
    decreases |b|
  {
    hide Acted, Model.Inv;
    if b == [] {
      assert a + b == a;
    } else {
      var n := |b| - 1;
      assert (a + b)[..|a| + n] == a + b[..n];
      ActedJoin(m, a, b[..n]);
    }
  }

  /** The scheduler as a slice's i-th call finds it. */
  ghost function During(m: Model, g: nat, slice: Slice, i: nat): (at: Model)
    requires MayRun(m, g) && i <= |slice.actions|
    ensures at.Inv()
  {
    BeginKeeps(m, g);
    ActedAll(Begun(m, g), slice.actions[..i])
  }

  /** To the end of the slice that wakes it, a fiber has its place. */
  lemma WokenInSlice(m: Model, g: nat, slice: Slice, i: nat, f: nat)
    requires MayRun(m, g) && i < |slice.actions| && slice.actions[i] == Wake(f)
    requires During(m, g, slice, i).Has(f) && During(m, g, slice, i).state[f].Parked?
    ensures var at, after := During(m, g, slice, i), Ran(m, g, slice);
      && after.Has(f) && Waits(after, f) && after.group[f] == at.group[f] && after.slices[f] == at.slices[f]
      && (at.group[f] in at.parked && ResumeGroup(at.group[f]) !in slice.actions[i + 1..] ==> f in after.pending)
  {
    hide ActedAll, Acted, Waits, Kept, Without, Model.ListOk, Model.QueueOk;
    var at, rest := During(m, g, slice, i), slice.actions[i + 1..];
    BeginKeeps(m, g);
    var begun := Begun(m, g);
    assert slice.actions == slice.actions[..i] + ([Wake(f)] + rest);
    ActedJoin(begun, slice.actions[..i], [Wake(f)] + rest);
    ActedJoin(at, [Wake(f)], rest);
    OneAct(at, f);
    WokenWaits(at, f);
    var woken := Woken(at, f);
    ActsKeep(woken, rest, f);
    KeptMeans(woken, ActedAll(woken, rest), f, ResumeGroup(at.group[f]) !in rest);
    RunningStays(begun, slice.actions, g);
    RunningStays(begun, slice.actions[..i], g);
    EndKeepsPlace(ActedAll(begun, slice.actions), g, slice.ending, f);
  }

  lemma OneAct(m: Model, f: nat)
    requires m.Inv() && m.Has(f)
    ensures ActedAll(m, [Wake(f)]) == Woken(m, f)
  {
    assert [Wake(f)][..0] == [];
    assert ActedAll(m, []) == m;
  }

  lemma KeptMeans(m: Model, after: Model, f: nat, quiet: bool)
    requires Kept(m, after, f, quiet)
    ensures m.Has(f) && after.Has(f) && Waits(after, f)
    ensures after.group[f] == m.group[f] && after.slices[f] == m.slices[f]
    ensures quiet && f in m.pending ==> f in after.pending
  {
    hide Waits;
  }

  lemma RunningStays(m: Model, actions: seq<Action>, g: nat)
    requires m.Inv() && m.current == Some(g)
    ensures ActedAll(m, actions).current == Some(g)
  {
    hide ActedAll;
  }

  lemma EndKeepsPlace(m: Model, g: nat, ending: Ending, f: nat)
    requires m.Inv() && m.current == Some(g) && m.Has(f) && Waits(m, f)
    ensures var after := Ended(m, g, ending);
      && after.Inv() && after.Has(f) && Waits(after, f) && after.group == m.group && after.slices == m.slices
      && after.pending == m.pending && after.parked == m.parked
  {
    hide Without;
    EndKeeps(m, g, ending);
  }

  lemma TurnRuns(m: Model, mask: set<Group>, plan: Plan, k: nat)
    requires m.Inv() && m.current.None? && k < |m.ready|
    requires var t := Turn(m, mask, plan, k); t.Has(m.ready[k]) && Runnable(t, m.ready[k], mask)
    ensures var t, g := Turn(m, mask, plan, k), m.ready[k];
      MayRun(t, g) && Turn(m, mask, plan, k + 1) == Ran(t, g, plan(g, t.slices[g]))
  {
    hide Ran, Model.ListOk, Model.QueueOk, Model.CurrentOk;
  }

  lemma {:induction false} FirstStep(m: Model, step: HostStep, steps: seq<HostStep>)
    requires m.Inv() && m.current.None?
    ensures HostRun(m, [step] + steps) == HostRun(HostStepped(m, step), steps)
    decreases |steps|
  {
    hide HostStepped, Model.Inv;
    if steps == [] {
      assert [step] + steps == [step] && [step][..0] == [];
      assert HostRun(m, []) == m;
    } else {
      var n := |steps| - 1;
      FirstStep(m, step, steps[..n]);
      assert ([step] + steps)[..n + 1] == [step] + steps[..n] && ([step] + steps)[n + 1] == steps[n];
    }
  }

  lemma {:induction false} RunCounts(m: Model, steps: seq<HostStep>, f: nat)
    requires m.Inv() && m.current.None? && m.Has(f)
    ensures var after := HostRun(m, steps); after.Has(f) && after.slices[f] >= m.slices[f]
    decreases |steps|
  {
    hide HostStepped, Model.Inv;
    if steps != [] {
      var n := |steps| - 1;
      RunCounts(m, steps[..n], f);
      StepCounts(HostRun(m, steps[..n]), steps[n], f);
    }
  }

  /** A fiber in its place at some turn has had a slice by the end of the tick, or has its place; and one in
      the queue stays there until a resume of its group. */
  lemma RestOfTick(m: Model, mask: set<Group>, plan: Plan, k: nat, f: nat)
    requires m.Inv() && m.current.None? && k <= |m.ready|
    requires var b := Turn(m, mask, plan, k); b.Has(f) && Waits(b, f)
    ensures var b, t := Turn(m, mask, plan, k), Ticked(m, mask, plan);
      && t.Has(f) && t.slices[f] >= b.slices[f]
      && (t.slices[f] == b.slices[f] || (f in b.pending && Quiet(Tick(mask, plan), b.group[f])) ==>
            Kept(b, t, f, Quiet(Tick(mask, plan), b.group[f])))
  {
    hide Ran, Waits, Quiet, Turn, Kept, Model.ListOk, Model.QueueOk, Model.CurrentOk;
    var b := Turn(m, mask, plan, k);
    TurnKeeps(m, mask, plan, k, |m.ready|, f);
    if f in b.pending && f in m.ready[k..] {
      var arrivals := TurnList(m, mask, plan, k);
      QueuedIsNotListed(b, f);
    }
    assert m.ready[k..|m.ready|] == m.ready[k..];
  }

  /** Nor is a wake lost that one fiber gives another: through the rest of its slice, of the tick and of the
      run, the fiber that was woken is on the list or in the queue until it has run; and if its group was
      parked and nothing in the tick or behind it resumes that, it is in the queue, and the resume puts it
      on the list. */
  lemma WakeInSliceIsDelivered(m: Model, mask: set<Group>, plan: Plan, k: nat, i: nat, f: nat, steps: seq<HostStep>)
    requires m.Inv() && m.current.None? && k < |m.ready|
    requires var t, g := Turn(m, mask, plan, k), m.ready[k];
      && t.Has(g) && Runnable(t, g, mask)
      && var slice := plan(g, t.slices[g]);
      && i < |slice.actions| && slice.actions[i] == Wake(f)
      && During(t, g, slice, i).Has(f) && During(t, g, slice, i).state[f].Parked?
    ensures var t, g := Turn(m, mask, plan, k), m.ready[k];
      var at, after := During(t, g, plan(g, t.slices[g]), i), HostRun(m, [Tick(mask, plan)] + steps);
      && after.Has(f) && (after.slices[f] == at.slices[f] ==> f in after.ready || f in after.pending)
      && (at.group[f] in at.parked && AllQuiet([Tick(mask, plan)] + steps, at.group[f]) ==>
            f in after.pending && at.group[f] in after.parked && f in Resumed(after, at.group[f]).ready)
  {
    hide Ran, Model.ListOk, Model.QueueOk, Model.CurrentOk, Waits, Quiet, Kept, ActedAll, HostRun, Turn, During;
    var t, g := Turn(m, mask, plan, k), m.ready[k];
    var slice := plan(g, t.slices[g]);
    var at, ticked := During(t, g, slice, i), Ticked(m, mask, plan);
    TurnRuns(m, mask, plan, k);
    WokenInSlice(t, g, slice, i, f);
    RestOfTick(m, mask, plan, k + 1, f);
    FirstStep(m, Tick(mask, plan), steps);
    RunCounts(ticked, steps, f);
    var b := Turn(m, mask, plan, k + 1);
    if Kept(b, ticked, f, Quiet(Tick(mask, plan), b.group[f])) {
      KeptMeans(b, ticked, f, Quiet(Tick(mask, plan), b.group[f]));
      DeliveredIn(ticked, f, steps);
    }
    QuietParts(Tick(mask, plan), steps, at.group[f]);
  }

  lemma QuietParts(step: HostStep, steps: seq<HostStep>, g: Group)
    requires step.Tick?
    ensures AllQuiet([step] + steps, g) ==> Quiet(step, g) && AllQuiet(steps, g)
    ensures Quiet(step, g) ==> forall f: nat, n: nat :: ResumeGroup(g) !in step.plan(f, n).actions
  {
    if AllQuiet([step] + steps, g) {
      assert Quiet(([step] + steps)[0], g);
      assert forall i :: 0 <= i < |steps| ==> steps[i] == ([step] + steps)[i + 1];
    }
  }

  /** What a run does with a fiber that has its place. */
  lemma DeliveredIn(m: Model, f: nat, steps: seq<HostStep>)
    requires m.Inv() && m.current.None? && m.Has(f) && Waits(m, f)
    ensures var after, g := HostRun(m, steps), m.group[f];
      && after.Has(f) && (after.slices[f] == m.slices[f] ==> f in after.ready || f in after.pending)
      && (f in m.pending && AllQuiet(steps, g) ==>
          f in after.pending && g in after.parked && f in Resumed(after, g).ready)
  {
    hide AllQuiet;
    PlaceIsKept(m, steps, f);
    var after := HostRun(m, steps);
    if f in after.pending {
      QueuedIsNotListed(after, f);
      ResumeDelivers(after, m.group[f]);
    }
  }
}
