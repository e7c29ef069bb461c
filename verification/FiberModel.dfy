/** The scheduler as a value (scheduler.h): what each operation does to the fibers, the ready list and
    the queue of deferred wakes, with fibers named by spawn order. */
module FiberModel {
  import opened Wrappers

  type Group = g: nat | g < 8

  datatype State = Ready | Running | Parked | Finished

  datatype Model = Model(state: seq<State>, group: seq<Group>, slices: seq<nat>,
                         ready: seq<nat>, pending: seq<nat>, parked: set<Group>, current: Option<nat>)
  {
    predicate Sized() {
      |group| == |state| && |slices| == |state|
    }

    predicate Has(f: nat) {
      Sized() && f < |state|
    }

    /** The ready list holds exactly the fibers that are ready or running, each once. */
    ghost predicate ListOk() {
      && Sized() && Distinct(ready)
      && Within(ready, |state|)
      && (forall f :: 0 <= f < |state| ==> (f in ready <==> state[f].Ready? || state[f].Running?))
    }

    /** Every deferred wake names a different parked fiber of a group that is still parked. */
    ghost predicate QueueOk() {
      && Sized() && Distinct(pending) && Within(pending, |state|)
      && forall i :: 0 <= i < |pending| ==> state[pending[i]].Parked? && group[pending[i]] in parked
    }

    /** At most one fiber runs, and never in a parked group. */
    ghost predicate CurrentOk() {
      && Sized()
      && (forall f :: 0 <= f < |state| ==> (state[f].Running? <==> current == Some(f)))
      && (current.Some? ==> current.value < |state| && group[current.value] !in parked)
    }

    ghost predicate Inv() {
      ListOk() && QueueOk() && CurrentOk()
    }
  }

  ghost predicate Distinct<T(!new)>(s: seq<T>) {
    forall i, j :: 0 <= i < j < |s| ==> s[i] != s[j]
  }

  predicate Within(s: seq<nat>, n: nat) {
    forall i :: 0 <= i < |s| ==> s[i] < n
  }

  // ----- what a fiber or the host may ask for -----

  datatype Action = Spawn(group: Group) | Wake(fiber: nat) | ParkGroup(group: Group) | ResumeGroup(group: Group)

  datatype Ending = Yield | Park | Return

  /** One slice: any calls at all, then the act that gives the thread back. */
  datatype Slice = Slice(actions: seq<Action>, ending: Ending)

  /** What every fiber does in each of its slices: `plan(f, n)` is slice n of fiber f. */
  type Plan = (nat, nat) -> Slice

  // ----- the operations -----

  function Spawned(m: Model, g: Group): Model
    requires m.Sized()
  {
    m.(state := m.state + [Ready], group := m.group + [g], slices := m.slices + [0],
       ready := m.ready + [|m.state|])
  }

  function Woken(m: Model, f: nat): (after: Model)
    requires m.Has(f)
    ensures after.Sized() && |after.state| == |m.state| && after.group == m.group && after.slices == m.slices
  {
    if !m.state[f].Parked? then m
    else if m.group[f] in m.parked then
      if f in m.pending then m else m.(pending := m.pending + [f])
    else m.(state := m.state[f := Ready], ready := m.ready + [f])
  }

  function WokenAll(m: Model, fs: seq<nat>): (after: Model)
    requires m.Sized() && Within(fs, |m.state|)
    ensures after.Sized() && |after.state| == |m.state| && after.group == m.group && after.slices == m.slices
  {
    if fs == [] then m else Woken(WokenAll(m, fs[..|fs| - 1]), fs[|fs| - 1])
  }

  function GroupParked(m: Model, g: Group): Model {
    m.(parked := m.parked + {g})
  }

  /** The members of a queue in a group, or outside it, in queue order. */
  function Among(queue: seq<nat>, group: seq<Group>, g: Group, inside: bool): (some: seq<nat>)
    requires Within(queue, |group|)
    ensures Within(some, |group|)
    ensures forall f :: f in some <==> f in queue && (group[f] == g) == inside
  {
    if queue == [] then []
    else
      var n := |queue| - 1;
      assert queue == queue[..n] + [queue[n]];
      Among(queue[..n], group, g, inside) + if (group[queue[n]] == g) == inside then [queue[n]] else []
  }

  /** The bit is cleared, then the group's queued wakes are delivered front to back. */
  function Resumed(m: Model, g: Group): Model
    requires m.Sized() && Within(m.pending, |m.state|)
  {
    WokenAll(m.(parked := m.parked - {g}), Among(m.pending, m.group, g, true))
    .(pending := Among(m.pending, m.group, g, false))
  }

  predicate Runnable(m: Model, f: nat, mask: set<Group>)
    requires m.Has(f)
  {
    m.state[f].Ready? && m.group[f] in mask && m.group[f] !in m.parked
  }

  // ----- every operation keeps the invariant -----

  lemma SpawnKeeps(m: Model, g: Group)
    requires m.Inv()
    ensures Spawned(m, g).Inv()
  {
  }

  lemma WakeKeeps(m: Model, f: nat)
    requires m.Inv() && m.Has(f)
    ensures Woken(m, f).Inv()
  {
  }

  lemma ParkGroupKeeps(m: Model, g: Group)
    requires m.Inv() && !(m.current.Some? && m.group[m.current.value] == g)
    ensures GroupParked(m, g).Inv()
  {
  }

  lemma {:induction false} AmongJoin(front: seq<nat>, back: seq<nat>, group: seq<Group>, g: Group, inside: bool)
    requires Within(front, |group|) && Within(back, |group|)
    ensures Among(front + back, group, g, inside) == Among(front, group, g, inside) + Among(back, group, g, inside)
  {
    hide Among;
    if back == [] {
      assert front + back == front;
      AmongNothing(group, g, inside);
    } else {
      var less, last := back[..|back| - 1], back[|back| - 1];
      AmongJoin(front, less, group, g, inside);
      var one := if (group[last] == g) == inside then [last] else [];
      AmongLast(front + less, last, group, g, inside);
      AmongLast(less, last, group, g, inside);
      assert front + back == front + less + [last] && back == less + [last];
      assert Among(front, group, g, inside) + Among(less, group, g, inside) + one
          == Among(front, group, g, inside) + (Among(less, group, g, inside) + one);
    }
  }

  lemma AmongNothing(group: seq<Group>, g: Group, inside: bool)
    ensures Among([], group, g, inside) == []
  {
  }

  lemma AmongLast(queue: seq<nat>, last: nat, group: seq<Group>, g: Group, inside: bool)
    requires Within(queue + [last], |group|) && last < |group| && Within(queue, |group|)
    ensures Among(queue + [last], group, g, inside)
         == Among(queue, group, g, inside) + if (group[last] == g) == inside then [last] else []
  {
    assert (queue + [last])[..|queue|] == queue;
  }

  lemma {:induction false} AmongDistinct(queue: seq<nat>, group: seq<Group>, g: Group, inside: bool)
    requires Distinct(queue) && Within(queue, |group|)
    ensures Distinct(Among(queue, group, g, inside))
  {
    if queue != [] {
      AmongDistinct(queue[..|queue| - 1], group, g, inside);
    }
  }

  /** Delivering wakes to parked fibers of running groups appends them, in order, to the ready list. */
  lemma {:induction false} WokenAllAppends(m: Model, fs: seq<nat>)
    requires m.Sized() && Distinct(fs)
    requires Within(fs, |m.state|) && forall i :: 0 <= i < |fs| ==>
      m.state[fs[i]].Parked? && m.group[fs[i]] !in m.parked
    ensures var after := WokenAll(m, fs);
      && after == m.(state := after.state, ready := m.ready + fs)
      && forall f :: 0 <= f < |m.state| ==> after.state[f] == if f in fs then Ready else m.state[f]
  {
    if fs != [] {
      var init, last := fs[..|fs| - 1], fs[|fs| - 1];
      WokenAllAppends(m, init);
      assert fs == init + [last] && last !in init;
    }
  }

  /** `resume_group` hands back exactly the group's queued wakes, in the order they came, and leaves
      everyone else's place in the queue alone. */
  lemma ResumeDelivers(m: Model, g: Group)
    requires m.Inv()
    ensures var after, mine := Resumed(m, g), Among(m.pending, m.group, g, true);
      && after.ready == m.ready + mine
      && after.pending == Among(m.pending, m.group, g, false)
      && after.parked == m.parked - {g} && after.current == m.current
      && after.group == m.group && after.slices == m.slices && |after.state| == |m.state|
      && (forall f :: 0 <= f < |m.state| ==> after.state[f] == if f in mine then Ready else m.state[f])
      && after.Inv()
  {
    hide Among, WokenAll, Woken;
    var mine := Among(m.pending, m.group, g, true);
    AmongDistinct(m.pending, m.group, g, true);
    AmongDistinct(m.pending, m.group, g, false);
    var open := m.(parked := m.parked - {g});
    forall i | 0 <= i < |mine|
      ensures open.state[mine[i]].Parked? && open.group[mine[i]] !in open.parked
    {
      assert mine[i] in mine;
    }
    WokenAllAppends(open, mine);
    DeliveredKeeps(m, g, mine, Among(m.pending, m.group, g, false), Resumed(m, g));
  }

  lemma DeliveredKeeps(m: Model, g: Group, mine: seq<nat>, others: seq<nat>, after: Model)
    requires m.Inv() && Distinct(mine) && Distinct(others)
    requires forall f :: f in mine <==> f in m.pending && m.group[f] == g
    requires forall f :: f in others <==> f in m.pending && m.group[f] != g
    requires after == m.(state := after.state, ready := m.ready + mine, pending := others, parked := m.parked - {g})
    requires |after.state| == |m.state|
    requires forall f :: 0 <= f < |m.state| ==> after.state[f] == if f in mine then Ready else m.state[f]
    ensures after.Inv()
  {
    assert forall i :: 0 <= i < |mine| ==> mine[i] in mine;
    assert forall i :: 0 <= i < |others| ==> others[i] in others;
    assert after.ListOk() by { DeliveredList(m, mine, after); }
  }

  lemma DeliveredList(m: Model, mine: seq<nat>, after: Model)
    requires m.ListOk() && Distinct(mine) && Within(mine, |m.state|)
    requires forall i :: 0 <= i < |mine| ==> m.state[mine[i]].Parked?
    requires after.Sized() && |after.state| == |m.state| && after.ready == m.ready + mine
    requires forall f :: 0 <= f < |m.state| ==> after.state[f] == if f in mine then Ready else m.state[f]
    ensures after.ListOk()
  {
    assert forall i :: 0 <= i < |m.ready| ==> m.ready[i] in m.ready;
    assert forall f :: f in after.ready <==> f in m.ready || f in mine;
  }

  /** The same, part of the way through the queue. */
  lemma ResumePrefix(m: Model, g: Group, i: nat)
    requires m.Inv() && i <= |m.pending|
    ensures var open, mine := m.(parked := m.parked - {g}), Among(m.pending[..i], m.group, g, true);
      && var after := WokenAll(open, mine);
      && after == open.(state := after.state, ready := m.ready + mine) && after.ListOk()
  {
    var open, mine := m.(parked := m.parked - {g}), Among(m.pending[..i], m.group, g, true);
    AmongDistinct(m.pending[..i], m.group, g, true);
    forall j | 0 <= j < |mine|
      ensures open.state[mine[j]].Parked? && open.group[mine[j]] !in open.parked
    {
      assert mine[j] in mine;
      assert mine[j] in m.pending;
    }
    WokenAllAppends(open, mine);
  }

  /** One call, and the invariant it keeps. A fiber may wake only fibers that exist, and may not park the
      group it is running in. */
  function Acted(m: Model, a: Action): (after: Model)
    requires m.Inv()
    ensures after.Inv()
  {
    match a
    case Spawn(g) => SpawnKeeps(m, g); Spawned(m, g)
    case Wake(f) => if f < |m.state| then WakeKeeps(m, f); Woken(m, f) else m
    case ParkGroup(g) =>
      if m.current.Some? && m.group[m.current.value] == g then m else ParkGroupKeeps(m, g); GroupParked(m, g)
    case ResumeGroup(g) => ResumeDelivers(m, g); Resumed(m, g)
  }

  /** The queue never outgrows the fibers, which is what lets `wake` queue without allocating. */
  lemma QueueFits(m: Model)
    requires m.Inv()
    ensures |m.pending| <= |m.state|
  {
    DistinctFit(m.pending, |m.state|);
  }

  lemma {:induction false} DistinctFit(s: seq<nat>, n: nat)
    requires Distinct(s) && Within(s, n)
    ensures |s| <= n
  {
    if s == [] {
    } else if n - 1 in s {
      var k :| 0 <= k < |s| && s[k] == n - 1;
      var rest := s[..k] + s[k + 1..];
      DistinctFit(rest, n - 1);
    } else {
      assert s[0] < n;
      DistinctFit(s, n - 1);
    }
  }

  // ----- a slice -----

  /** The list without a fiber that is on it once. */
  function Without(s: seq<nat>, f: nat): (rest: seq<nat>)
  {
    if s == [] then [] else if s[0] == f then s[1..] else [s[0]] + Without(s[1..], f)
  }

  lemma WithoutIs(before: seq<nat>, f: nat, after: seq<nat>)
    requires f !in before
    ensures Without(before + [f] + after, f) == before + after
  {
    hide Without;
    var rest := [f] + after;
    WithoutSkips(before, rest, f);
    WithoutTakes(f, after);
    assert before + [f] + after == before + rest;
  }

  lemma {:induction false} WithoutSkips(before: seq<nat>, rest: seq<nat>, f: nat)
    requires f !in before
    ensures Without(before + rest, f) == before + Without(rest, f)
  {
    if before == [] {
      assert before + rest == rest;
    } else {
      assert before[0] in before;
      assert (before + rest)[1..] == before[1..] + rest;
      WithoutSkips(before[1..], rest, f);
    }
  }

  lemma WithoutTakes(f: nat, after: seq<nat>)
    ensures Without([f] + after, f) == after
  {
  }

  function Begun(m: Model, f: nat): Model
    requires m.Has(f)
  {
    m.(state := m.state[f := Running], slices := m.slices[f := m.slices[f] + 1], current := Some(f))
  }

  function ActedAll(m: Model, actions: seq<Action>): (after: Model)
    requires m.Inv()
    ensures after.Inv() && Grew(m, after)
  {
    if actions == [] then m
    else
      var before := ActedAll(m, actions[..|actions| - 1]);
      ActGrows(before, actions[|actions| - 1]);
      Acted(before, actions[|actions| - 1])
  }

  function Ended(m: Model, f: nat, ending: Ending): Model
    requires m.Has(f)
  {
    match ending
    case Yield => m.(state := m.state[f := Ready], current := None)
    case Park => m.(state := m.state[f := Parked], current := None, ready := Without(m.ready, f))
    case Return => m.(state := m.state[f := Finished], current := None, ready := Without(m.ready, f))
  }

  /** Between slices, with a fiber that may be given one. */
  ghost predicate MayRun(m: Model, f: nat) {
    m.Inv() && m.current.None? && m.Has(f) && m.state[f].Ready? && m.group[f] !in m.parked
  }

  /** `run_one_slice`. */
  ghost function Ran(m: Model, f: nat, slice: Slice): Model
    requires MayRun(m, f)
  {
    BeginKeeps(m, f);
    Ended(ActedAll(Begun(m, f), slice.actions), f, slice.ending)
  }

  /** What calls made inside a slice can and cannot do to everybody else. */
  ghost predicate Grew(m: Model, after: Model) {
    && m.Sized() && after.Sized() && m.group <= after.group && m.ready <= after.ready
    && after.current == m.current
    && (forall f :: 0 <= f < |m.state| ==> after.slices[f] == m.slices[f])
    && (forall f :: |m.state| <= f < |after.state| ==> after.slices[f] == 0)
    && (forall f :: 0 <= f < |m.state| && f in m.ready ==> after.state[f] == m.state[f])
  }

  lemma ActGrows(m: Model, a: Action)
    requires m.Inv()
    ensures Grew(m, Acted(m, a))
  {
    if a.ResumeGroup? {
      ResumeDelivers(m, a.group);
      var mine := Among(m.pending, m.group, a.group, true);
      forall f | 0 <= f < |m.state| && f in m.ready
        ensures f !in mine
      {
        assert m.state[f].Ready? || m.state[f].Running?;
      }
    }
  }

  lemma BeginKeeps(m: Model, f: nat)
    requires MayRun(m, f)
    ensures Begun(m, f).Inv()
  {
  }

  lemma WithoutDistinct(s: seq<nat>, f: nat)
    requires Distinct(s) && f in s
    ensures Distinct(Without(s, f))
    ensures forall g :: g in Without(s, f) <==> g in s && g != f
    ensures forall n :: Within(s, n) ==> Within(Without(s, f), n)
  {
    hide Without;
    var k :| 0 <= k < |s| && s[k] == f;
    assert s == s[..k] + [f] + s[k + 1..];
    WithoutIs(s[..k], f, s[k + 1..]);
    OneLess(s, k);
  }

  lemma OneLess(s: seq<nat>, k: nat)
    requires Distinct(s) && k < |s|
    ensures var rest := s[..k] + s[k + 1..];
      && Distinct(rest) && (forall g :: g in rest <==> g in s && g != s[k])
      && forall n :: Within(s, n) ==> Within(rest, n)
  {
    assert forall i :: 0 <= i < |s| && i != k ==> s[i] == (s[..k] + s[k + 1..])[if i < k then i else i - 1];
  }

  lemma EndKeeps(m: Model, f: nat, ending: Ending)
    requires m.Inv() && m.current == Some(f)
    ensures Ended(m, f, ending).Inv() && Ended(m, f, ending).current.None?
  {
    assert m.state[f].Running? && f in m.ready;
    WithoutDistinct(m.ready, f);
  }

  /** One slice: the fiber keeps its place or leaves it, everything new goes to the tail, nobody else's
      turn is given away or taken. */
  lemma RunEffect(m: Model, f: nat, slice: Slice)
    requires MayRun(m, f)
    ensures var after := Ran(m, f, slice);
      && after.Inv() && after.current.None? && m.group <= after.group
      && (if slice.ending.Yield? then m.ready else Without(m.ready, f)) <= after.ready
      && (forall g :: 0 <= g < |m.state| ==> after.slices[g] == m.slices[g] + if g == f then 1 else 0)
      && (forall g :: |m.state| <= g < |after.state| ==> after.slices[g] == 0)
      && (forall g :: 0 <= g < |m.state| && g in m.ready && g != f ==> after.state[g] == m.state[g])
  {
    hide ActedAll, Without;
    BeginKeeps(m, f);
    var begun := Begun(m, f);
    var acted := ActedAll(begun, slice.actions);
    EndKeeps(acted, f, slice.ending);
    WithoutPrefix(m.ready, acted.ready, f);
  }

  lemma WithoutPrefix(s: seq<nat>, longer: seq<nat>, f: nat)
    requires f in s && Distinct(s) && s <= longer
    ensures Without(s, f) <= Without(longer, f)
  {
    hide Without;
    var k :| 0 <= k < |s| && s[k] == f;
    assert s == s[..k] + [f] + s[k + 1..] && longer == s[..k] + [f] + longer[k + 1..];
    WithoutIs(s[..k], f, s[k + 1..]);
    WithoutIs(s[..k], f, longer[k + 1..]);
  }

  // ----- a tick -----

  /** The scheduler as it is when a tick comes to the k-th fiber that was on the list at its start. */
  ghost function Turn(m: Model, mask: set<Group>, plan: Plan, k: nat): (t: Model)
    requires m.Inv() && m.current.None? && k <= |m.ready|
    ensures t.Inv() && t.current.None? && m.group <= t.group && t.Sized() && |m.state| <= |t.state|
  {
    if k == 0 then m
    else
      var before, f := Turn(m, mask, plan, k - 1), m.ready[k - 1];
      if Runnable(before, f, mask) then
        RunEffect(before, f, plan(f, before.slices[f]));
        Ran(before, f, plan(f, before.slices[f]))
      else before
  }

  /** `tick`: a turn for everything on the list at entry. */
  ghost function Ticked(m: Model, mask: set<Group>, plan: Plan): Model
    requires m.Inv() && m.current.None?
  {
    Turn(m, mask, plan, |m.ready|)
  }

  /** Whether the k-th fiber gets a slice at its turn. */
  ghost predicate Sliced(m: Model, mask: set<Group>, plan: Plan, k: nat)
    requires m.Inv() && m.current.None? && k < |m.ready|
  {
    Runnable(Turn(m, mask, plan, k), m.ready[k], mask)
  }

  /** Of the first k fibers on the list at entry, those still in their place. */
  ghost function Stayed(m: Model, mask: set<Group>, plan: Plan, k: nat): seq<nat>
    requires m.Inv() && m.current.None? && k <= |m.ready|
  {
    if k == 0 then []
    else
      var f, before := m.ready[k - 1], Turn(m, mask, plan, k - 1);
      Stayed(m, mask, plan, k - 1)
      + if Sliced(m, mask, plan, k - 1) && !plan(f, before.slices[f]).ending.Yield? then [] else [f]
  }

  /** One turn: the fiber it came to keeps its place or leaves, and arrivals go behind everyone. */
  lemma TurnStep(m: Model, mask: set<Group>, f: nat, slice: Slice, stayed: seq<nat>, rest: seq<nat>, arrivals: seq<nat>)
    returns (later: seq<nat>)
    requires m.Inv() && m.current.None? && m.ready == stayed + [f] + rest + arrivals
    ensures m.Has(f)
    ensures var ran := Runnable(m, f, mask);
      && (ran ==> MayRun(m, f))
      && (if ran then Ran(m, f, slice) else m).ready
         == stayed + (if ran && !slice.ending.Yield? then [] else [f]) + rest + later
  {
    hide Ran;
    assert m.ready[|stayed|] == f && forall i :: 0 <= i < |stayed| ==> m.ready[i] == stayed[i];
    later := arrivals;
    if Runnable(m, f, mask) {
      RunEffect(m, f, slice);
      later := ListStep(stayed, f, rest, arrivals, Ran(m, f, slice).ready, slice.ending.Yield?);
    }
  }

  lemma ListStep(stayed: seq<nat>, f: nat, rest: seq<nat>, arrivals: seq<nat>, after: seq<nat>, keeps: bool)
    returns (later: seq<nat>)
    requires f !in stayed
    requires (if keeps then stayed + [f] + rest + arrivals else Without(stayed + [f] + rest + arrivals, f)) <= after
    ensures after == stayed + (if keeps then [f] else []) + rest + later
  {
    hide Without;
    var list := stayed + [f] + rest + arrivals;
    assert list == stayed + [f] + (rest + arrivals);
    WithoutIs(stayed, f, rest + arrivals);
    var base := if keeps then list else Without(list, f);
    later := arrivals + after[|base|..];
    assert after == base + after[|base|..];
  }

  /** The list during a tick: who stayed of those already passed, everyone not reached yet, arrivals. */
  lemma {:induction false} TurnList(m: Model, mask: set<Group>, plan: Plan, k: nat) returns (arrivals: seq<nat>)
    requires m.Inv() && m.current.None? && k <= |m.ready|
    ensures Turn(m, mask, plan, k).ready == Stayed(m, mask, plan, k) + m.ready[k..] + arrivals
  {
    hide Ran, Without, Runnable, MayRun, Model.Inv;
    if k == 0 {
      arrivals := [];
      assert Turn(m, mask, plan, 0).ready == [] + m.ready[0..] + [];
    } else {
      var before, f, stayed := Turn(m, mask, plan, k - 1), m.ready[k - 1], Stayed(m, mask, plan, k - 1);
      arrivals := TurnList(m, mask, plan, k - 1);
      assert before.ready == stayed + [f] + m.ready[k..] + arrivals;
      arrivals := TurnStep(before, mask, f, plan(f, if before.Has(f) then before.slices[f] else 0), stayed,
          m.ready[k..], arrivals);
    }
  }

  /** Up to any turn: nobody waiting for theirs has lost it, and slices went only to those passed. */
  lemma {:induction false} TurnFacts(m: Model, mask: set<Group>, plan: Plan, k: nat)
    requires m.Inv() && m.current.None? && k <= |m.ready|
    ensures var t := Turn(m, mask, plan, k);
      && (forall j :: k <= j < |m.ready| ==> t.state[m.ready[j]].Ready? && t.slices[m.ready[j]] == m.slices[m.ready[j]])
      && (forall j :: 0 <= j < k ==>
            t.slices[m.ready[j]] == m.slices[m.ready[j]] + if Sliced(m, mask, plan, j) then 1 else 0)
      && (forall f :: 0 <= f < |m.state| && f !in m.ready ==> t.slices[f] == m.slices[f])
      && (forall f :: |m.state| <= f < |t.state| ==> t.slices[f] == 0)
  {
    hide Model.Inv, Model.ListOk, Model.QueueOk, Model.CurrentOk, Ran, Without, Stayed, Runnable, MayRun, Turn;
    TurnStarts(m, mask, plan);
    if 0 < k {
      TurnFacts(m, mask, plan, k - 1);
      TurnUnfolds(m, mask, plan, k);
      var before, f := Turn(m, mask, plan, k - 1), m.ready[k - 1];
      if Runnable(before, f, mask) {
        RunEffect(before, f, plan(f, before.slices[f]));
      }
    }
  }

  lemma TurnStarts(m: Model, mask: set<Group>, plan: Plan)
    requires m.Inv() && m.current.None?
    ensures Turn(m, mask, plan, 0) == m && m.Sized()
    ensures forall j :: 0 <= j < |m.ready| ==> m.ready[j] < |m.state| && m.state[m.ready[j]].Ready?
  {
    assert forall j :: 0 <= j < |m.ready| ==> m.ready[j] in m.ready;
  }

  lemma TurnUnfolds(m: Model, mask: set<Group>, plan: Plan, k: nat)
    requires m.Inv() && m.current.None? && 0 < k <= |m.ready|
    ensures var before, f := Turn(m, mask, plan, k - 1), m.ready[k - 1];
      && before.Has(f) && |m.state| <= |before.state|
      && (forall j :: 0 <= j < |m.ready| && j != k - 1 ==> m.ready[j] != f)
      && (forall j :: k <= j < |m.ready| ==> m.ready[j] in before.ready)
      && (Runnable(before, f, mask) <==> Sliced(m, mask, plan, k - 1))
      && (Runnable(before, f, mask) ==> MayRun(before, f))
      && Turn(m, mask, plan, k) == (if Runnable(before, f, mask) then Ran(before, f, plan(f, before.slices[f]))
          else before)
      && Turn(m, mask, plan, k).Sized() && |m.state| <= |Turn(m, mask, plan, k).state|
  {
    hide Ran, Without;
    var arrivals := TurnList(m, mask, plan, k - 1);
    var before, stayed := Turn(m, mask, plan, k - 1), Stayed(m, mask, plan, k - 1);
    forall j | k <= j < |m.ready|
      ensures m.ready[j] in before.ready
    {
      assert before.ready[|stayed| + j - k + 1] == m.ready[j];
    }
  }

  /** Tick fairness. On the list at entry: exactly one slice each, in list order, except to a fiber
      outside the mask or in a group that is parked when its turn comes. Not on the list at entry,
      whatever woke it or spawned it meanwhile: none. And yielding is not a new arrival: those who
      stay keep their order, in front of everyone who came. */
  lemma TickIsFair(m: Model, mask: set<Group>, plan: Plan) returns (arrivals: seq<nat>)
    requires m.Inv() && m.current.None?
    ensures var after := Ticked(m, mask, plan);
      && after.Inv() && after.current.None? && |m.state| <= |after.state|
      && (forall k :: 0 <= k < |m.ready| ==>
            var f := m.ready[k];
            && after.slices[f] == m.slices[f] + (if Sliced(m, mask, plan, k) then 1 else 0)
            && (Sliced(m, mask, plan, k) <==> m.group[f] in mask && m.group[f] !in Turn(m, mask, plan, k).parked))
      && (forall f :: 0 <= f < |m.state| && f !in m.ready ==> after.slices[f] == m.slices[f])
      && (forall f :: |m.state| <= f < |after.state| ==> after.slices[f] == 0)
      && after.ready == Stayed(m, mask, plan, |m.ready|) + arrivals
  {
    hide Ran, Without, Stayed, Turn, Model.ListOk, Model.QueueOk, Model.CurrentOk;
    TurnStarts(m, mask, plan);
    TurnFacts(m, mask, plan, |m.ready|);
    arrivals := TurnList(m, mask, plan, |m.ready|);
    forall k | 0 <= k < |m.ready|
      ensures var f := m.ready[k];
              Sliced(m, mask, plan, k) <==> m.group[f] in mask && m.group[f] !in Turn(m, mask, plan, k).parked
    {
      TurnFacts(m, mask, plan, k);
    }
  }

  // ----- the eight comparisons -----

  /** Some group of the mask is not parked and has somebody linked. */
  predicate AnyRunnable(m: Model, mask: set<Group>)
    requires m.Sized() && Within(m.ready, |m.group|)
  {
    exists g: Group | g in mask && g !in m.parked :: Among(m.ready, m.group, g, true) != []
  }

  /** Between slices, counting linked fibers by group answers whether any fiber is runnable. */
  lemma CountsAnswer(m: Model, mask: set<Group>)
    requires m.Inv() && m.current.None?
    ensures AnyRunnable(m, mask) <==> exists f :: 0 <= f < |m.state| && Runnable(m, f, mask)
  {
    if AnyRunnable(m, mask) {
      var g: Group :| g in mask && g !in m.parked && Among(m.ready, m.group, g, true) != [];
      var f := Among(m.ready, m.group, g, true)[0];
      assert f in m.ready && Runnable(m, f, mask);
    }
    if f :| 0 <= f < |m.state| && Runnable(m, f, mask) {
      assert f in m.ready && f in Among(m.ready, m.group, m.group[f], true);
    }
  }

  // ----- every run -----

  datatype HostStep = Tick(mask: set<Group>, plan: Plan) | Call(action: Action)

  const EMPTY := Model([], [], [], [], [], {}, None)

  /** Any run at all of the host: ticks over any fibers' behaviour, and calls between them. */
  ghost function HostRun(m: Model, steps: seq<HostStep>): (after: Model)
    requires m.Inv() && m.current.None?
    ensures after.Inv() && after.current.None? && |m.state| <= |after.state|
    decreases |steps|
  {
    if steps == [] then m
    else HostStepped(HostRun(m, steps[..|steps| - 1]), steps[|steps| - 1])
  }

  ghost function HostStepped(m: Model, step: HostStep): (after: Model)
    requires m.Inv() && m.current.None?
    ensures after.Inv() && after.current.None? && |m.state| <= |after.state|
  {
    match step
    case Tick(mask, plan) => Ticked(m, mask, plan)
    case Call(a) => ActGrows(m, a); Acted(m, a)
  }
}
