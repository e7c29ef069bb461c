/** The scheduler itself (scheduler.cpp), threaded through the fibers and proved against `FiberModel`. */
module Scheduling {
  import opened Wrappers
  import opened FiberModel

  class Fiber {
    const id: nat  // spawn order
    const group: Group
    var state: State
    var slices: nat
    var prev: Fiber?
    var next: Fiber?

    constructor (group: Group, id: nat)
      ensures this.group == group && this.id == id
      ensures state == Ready && slices == 0 && prev == null && next == null
    {
      this.group, this.id := group, id;
      state, slices, prev, next := Ready, 0, null, null;
    }
  }

  class Scheduler {
    var fibers: seq<Fiber>
    var head: Fiber?
    var tail: Fiber?
    var readyInGroup: seq<nat>
    var pending: seq<Fiber>
    var current: Fiber?
    var parked: set<Group>
    ghost var m: Model
    ghost var list: seq<Fiber>  // the ready list, head first

    ghost predicate Linked()
      reads this, fibers, list
    {
      Chain(list, fibers, head, tail)
    }

    ghost predicate Counted()
      reads this
    {
      Tallies(readyInGroup, m.ready, m.group)
    }

    /** The list is the model's. */
    ghost predicate Listed()
      reads this
    {
      Names(m.ready, fibers, list)
    }

    /** The other fields are the model's. */
    ghost predicate Held()
      reads this, fibers
    {
      && m.Sized() && |fibers| == |m.state|
      && (forall i :: 0 <= i < |fibers| ==>
            fibers[i].id == i && fibers[i].state == m.state[i] && fibers[i].group == m.group[i]
            && fibers[i].slices == m.slices[i])
      && Names(m.pending, fibers, pending)
      && parked == m.parked
      && (m.current.None? ==> current == null)
      && (m.current.Some? ==> m.current.value < |fibers| && current == fibers[m.current.value])
    }

    /** Everything but the model's own invariant. */
    ghost predicate Mirrors()
      reads this, fibers, list
    {
      Held() && Listed() && Linked() && Counted()
    }

    ghost predicate Valid()
      reads this, fibers, list
    {
      Mirrors() && m.Inv()
    }

    ghost predicate Owns(f: Fiber)
      reads this
    {
      f.id < |fibers| && fibers[f.id] == f
    }

    constructor ()
      ensures Valid() && m == EMPTY && fibers == []
    {
      fibers, head, tail, pending, current, parked := [], null, null, [], null, {};
      readyInGroup := [0, 0, 0, 0, 0, 0, 0, 0];
      m, list := EMPTY, [];
    }

    /** The links' half of `link_ready`: the fiber becomes the tail. */
    method Append(f: Fiber)
      requires Linked() && f in fibers && f !in list && forall k :: 0 <= k < |list| ==> list[k] in fibers
      modifies this`head, this`tail, this`list, fibers`prev, fibers`next
      ensures Linked() && list == old(list) + [f]
    {
      f.prev := tail;
      f.next := null;
      if tail != null {
        tail.next := f;
      } else {
        head := f;
      }
      tail := f;
      list := list + [f];
    }

    /** The links' half of `unlink_ready`; a fiber that is not on the list is left alone. */
    method Remove(f: Fiber) returns (found: bool, ghost k: nat)
      requires Linked() && f in fibers && forall k :: 0 <= k < |list| ==> list[k] in fibers
      modifies this`head, this`tail, this`list, fibers`prev, fibers`next
      ensures Linked() && (found <==> f in old(list))
      ensures !found ==> list == old(list)
      ensures found ==> k < |old(list)| && old(list)[k] == f && Omits(old(list), k, list)
    {
      hide Chain, Omits;
      k := 0;
      OnList(f);
      if f.prev == null && head != f {
        return false, 0;
      }
      k :| k < |list| && list[k] == f;
      ghost var rest := Unthread(f, k);
      list := rest;
      return true, k;
    }

    method Unthread(f: Fiber, ghost k: nat) returns (ghost rest: seq<Fiber>)
      requires Linked() && k < |list| && list[k] == f && forall i :: 0 <= i < |list| ==> list[i] in fibers
      modifies this`head, this`tail, fibers`prev, fibers`next
      ensures Chain(rest, fibers, head, tail) && Omits(list, k, rest)
    {
      hide Once, Spliced, Omits;
      rest := Omitting(list, k);
      Bypass(f, k);
      SplicedIsChain(list, k, rest, fibers, head, tail);
    }

    lemma OnList(f: Fiber)
      requires Linked() && f in fibers && forall k :: 0 <= k < |list| ==> list[k] in fibers
      ensures f in list <==> f.prev != null || head == f
    {
      if f in list {
        var k :| 0 <= k < |list| && list[k] == f;
        assert f.prev == if k == 0 then null else list[k - 1];
      }
    }

    method Bypass(f: Fiber, ghost k: nat)
      requires Linked() && k < |list| && list[k] == f && forall i :: 0 <= i < |list| ==> list[i] in fibers
      modifies this`head, this`tail, fibers`prev, fibers`next
      ensures Spliced(list, k, fibers, head, tail)
    {
      assert f.prev == if k == 0 then null else list[k - 1];
      assert f.next == if k == |list| - 1 then null else list[k + 1];
      if f.prev != null {
        f.prev.next := f.next;
      } else {
        head := f.next;
      }
      if f.next != null {
        f.next.prev := f.prev;
      } else {
        tail := f.prev;
      }
      f.prev := null;
      f.next := null;
    }

    lemma Unlisted(f: Fiber)
      requires Mirrors() && Owns(f) && f.id !in m.ready
      ensures f !in list && forall k :: 0 <= k < |list| ==> list[k] in fibers
      ensures Within(m.ready, |m.group|) && f.id < |m.group| && f.group == m.group[f.id]
      ensures Names(m.ready + [f.id], fibers, list + [f])
    {
      hide Chain, Among;
    }

    method LinkReady(f: Fiber)
      requires Mirrors() && Owns(f) && f.id !in m.ready
      modifies this`head, this`tail, this`readyInGroup, this`m, this`list, fibers`prev, fibers`next
      ensures Mirrors() && m == old(m).(ready := old(m).ready + [f.id])
    {
      hide Chain, Tallies, Names;
      Unlisted(f);
      TallyMore(readyInGroup, m.ready, f.id, m.group);
      Append(f);
      readyInGroup := readyInGroup[f.group := readyInGroup[f.group] + 1];
      m := m.(ready := m.ready + [f.id]);
    }

    method UnlinkReady(f: Fiber)
      requires Mirrors() && Owns(f)
      modifies this`head, this`tail, this`readyInGroup, this`m, this`list, fibers`prev, fibers`next
      ensures Mirrors() && m == old(m).(ready := Without(old(m).ready, f.id))
    {
      hide Chain, Tallies, Without, Omits, Distinct, Names, Once;
      ghost var was := list;
      ListedOnce();
      var found;
      ghost var k;
      found, k := Remove(f);
      assert Held() && Linked();
      if !found {
        WithoutAbsent(m.ready, f.id);
        return;
      }
      Uncount(f, was, k);
    }

    /** The counts' half of `unlink_ready`. */
    method Uncount(f: Fiber, ghost was: seq<Fiber>, ghost k: nat)
      requires Held() && Linked() && Counted() && Owns(f)
      requires Names(m.ready, fibers, was) && Distinct(m.ready) && k < |m.ready| && m.ready[k] == f.id &&
        Omits(was, k, list)
      modifies this`readyInGroup, this`m
      ensures Mirrors() && m == old(m).(ready := Without(old(m).ready, f.id))
    {
      hide Chain, Tallies, Without, Omits, Distinct, Names, Once;
      TallyLess(readyInGroup, m.ready, k, m.group);
      DropMatches(was, list, fibers, m.ready, k, Without(m.ready, f.id));
      readyInGroup := readyInGroup[f.group := readyInGroup[f.group] - 1];
      m := m.(ready := Without(m.ready, f.id));
    }

    lemma ListedOnce()
      requires Mirrors()
      ensures Distinct(m.ready) && |m.ready| == |list| && Within(m.ready, |m.group|)
      ensures forall i :: 0 <= i < |fibers| ==> (fibers[i] in list <==> i in m.ready)
      ensures forall i :: 0 <= i < |list| ==>
        list[i] in fibers && list[i].id == m.ready[i] && list[i].group == m.group[m.ready[i]]
    {
    }

    // ----- the operations -----

    method Spawn(group: Group) returns (born: Fiber)
      requires Mirrors()
      modifies this`fibers, this`head, this`tail, this`readyInGroup, this`m, this`list, fibers`prev, fibers`next
      ensures Mirrors() && m == Spawned(old(m), group)
      ensures fresh(born) && fibers == old(fibers) + [born]
    {
      hide Among, Chain, Names;
      born := Adopt(group);
      LinkReady(born);
    }

    method Adopt(group: Group) returns (born: Fiber)
      requires Mirrors()
      modifies this`fibers, this`m
      ensures Mirrors() && Owns(born) && born.id !in m.ready && fresh(born) && fibers == old(fibers) + [born]
      ensures m == old(m).(state := old(m).state + [State.Ready], group := old(m).group + [group],
                           slices := old(m).slices + [0])
      ensures born.id == |old(m).state|
    {
      hide Among, Once, Names;
      ghost var before := m;
      NamedOnly(m.ready, fibers, list);
      born := new Fiber(group, |fibers|);
      fibers := fibers + [born];
      m := m.(state := m.state + [State.Ready], group := m.group + [group], slices := m.slices + [0]);
      GroupsGrow(before.ready, before.group, m.group);
      NamesGrow(m.ready, old(fibers), fibers, list);
      NamesGrow(m.pending, old(fibers), fibers, pending);
    }

    method Wake(f: Fiber)
      requires Mirrors() && Owns(f) && m.ListOk()
      modifies this`head, this`tail, this`readyInGroup, this`m, this`list, this`pending, fibers
      ensures Mirrors() && m == Woken(old(m), f.id)
      ensures f.group !in parked ==> pending == old(pending)
    {
      hide Among, Chain, Names;
      if f.state != Parked {
        return;
      }
      if f.group in parked {
        var queued := Queued(f);
        if !queued {
          NamesPush(m.pending, fibers, pending, f.id);
          pending := pending + [f];
          m := m.(pending := m.pending + [f.id]);
        }
        return;
      }
      SetState(f, State.Ready);
      LinkReady(f);
    }

    method SetState(f: Fiber, state: State)
      requires Mirrors() && Owns(f)
      modifies this`m, fibers`state
      ensures Mirrors() && f.state == state && m == old(m).(state := old(m).state[f.id := state])
    {
      hide Among, Once, Names;
      f.state := state;
      m := m.(state := m.state[f.id := state]);
    }

    /** The dedup that keeps a wake's first place in the queue. */
    method Queued(f: Fiber) returns (found: bool)
      requires Mirrors() && Owns(f)
      ensures found <==> f.id in m.pending
    {
      hide Among, Chain;
      for i := 0 to |pending|
        invariant f.id !in m.pending[..i]
      {
        if pending[i] == f {
          return true;
        }
      }
      assert m.pending[..|pending|] == m.pending;
      return false;
    }

    method ParkGroup(group: Group)
      requires Valid() && (current == null || current.group != group)
      modifies this`parked, this`m
      ensures Valid() && m == GroupParked(old(m), group)
    {
      hide Among, Chain, Names;
      ParkGroupKeeps(m, group);
      parked := parked + {group};
      m := GroupParked(m, group);
    }

    /** Clears the bit and delivers the group's queued wakes front to back, closing the queue up over them
        as it goes; the others keep their order. Answers how many it delivered. */
    method ResumeGroup(group: Group) returns (replayed: nat)
      requires Valid()
      modifies this`parked, this`pending, this`head, this`tail, this`readyInGroup, this`m, this`list, fibers
      ensures Valid() && m == Resumed(old(m), group)
      ensures replayed == |Among(old(m).pending, old(m).group, group, true)|
    {
      hide Among, Woken, WokenAll, Scheduler.Mirrors, Model.ListOk, Model.QueueOk, Model.CurrentOk, Names;
      ghost var before, queue, open := m, m.pending, m.(parked := m.parked - {group});
      QueueLength();
      ResumeDelivers(before, group);
      ResumeStarts(before, group);
      ClearBit(group);
      replayed := 0;
      var keep := 0;
      for i := 0 to |pending|
        invariant Mirrors() && fibers == old(fibers) && |pending| == |m.pending| == |queue|
        invariant m == WokenAll(open, Among(queue[..i], before.group, group, true)).(pending := m.pending)
        invariant replayed == |Among(queue[..i], before.group, group, true)|
        invariant keep <= i && m.pending[..keep] == Among(queue[..i], before.group, group, false)
        invariant m.pending[i..] == queue[i..]
      {
        ResumePrefix(before, group, i);
        ResumeStep(before, group, i, m.pending, keep);
        QueuedAt(i);
        if pending[i].group == group {
          Wake(pending[i]);
          QueueLength();
          replayed := replayed + 1;
        } else {
          Move(i, keep);
          keep := keep + 1;
        }
      }
      assert queue[..|queue|] == queue;
      Cut(keep);
    }

    method Move(from: nat, to: nat)
      requires Mirrors() && to <= from < |pending| == |m.pending|
      modifies this`pending, this`m
      ensures Mirrors() && m == old(m).(pending := old(m).pending[to := old(m).pending[from]])
      ensures |pending| == old(|pending|)
    {
      hide Among, Chain;
      pending := pending[to := pending[from]];
      m := m.(pending := m.pending[to := m.pending[from]]);
    }

    method Cut(keep: nat)
      requires Mirrors() && keep <= |pending| == |m.pending|
      modifies this`pending, this`m
      ensures Mirrors() && m == old(m).(pending := old(m).pending[..keep])
    {
      hide Among, Chain;
      pending := pending[..keep];
      m := m.(pending := m.pending[..keep]);
    }

    method ClearBit(group: Group)
      requires Mirrors()
      modifies this`parked, this`m
      ensures Mirrors() && m == old(m).(parked := old(m).parked - {group})
    {
      hide Among, Chain;
      parked := parked - {group};
      m := m.(parked := parked);
    }

    lemma QueueLength()
      requires Mirrors()
      ensures |pending| == |m.pending| && |fibers| == |m.state| && m.Sized() && Within(m.pending, |m.state|)
    {
    }

    lemma QueuedAt(i: nat)
      requires Mirrors() && i < |pending|
      ensures |pending| == |m.pending| && |fibers| == |m.state| && m.Sized() && Within(m.pending, |m.state|)
      ensures pending[i] == fibers[m.pending[i]] && Owns(pending[i]) && pending[i].id == m.pending[i]
      ensures pending[i].group == m.group[m.pending[i]] && parked == m.parked
    {
    }

    /** Eight comparisons, whatever the fiber count. */
    method RunnableIn(mask: set<Group>) returns (any: bool)
      requires Mirrors()
      ensures any == AnyRunnable(m, mask)
    {
      for group := 0 to 8
        invariant forall g: Group :: g < group && g in mask && g !in parked ==> Among(m.ready, m.group, g, true) == []
      {
        if group in mask && readyInGroup[group] != 0 && group !in parked {
          assert Among(m.ready, m.group, group, true) != [];
          return true;
        }
      }
      return false;
    }

    /** One call a fiber makes in its slice, or the host between slices. */
    method Perform(a: Action)
      requires Valid()
      modifies this`fibers, this`parked, this`pending, this`head, this`tail, this`readyInGroup, this`m, this`list,
        fibers
      ensures Valid() && m == Acted(old(m), a)
      ensures old(fibers) <= fibers && forall i :: |old(fibers)| <= i < |fibers| ==> fresh(fibers[i])
      ensures current == old(current)
    {
      hide Among, Chain, Names, Spawned, Woken, Resumed;
      assert Acted(m, a).Inv();
      match a
      case Spawn(g) => var born := Spawn(g);
      case Wake(f) => if f < |fibers| { Wake(fibers[f]); }
      case ParkGroup(g) => if current == null || current.group != g { ParkGroup(g); }
      case ResumeGroup(g) => var replayed := ResumeGroup(g);
    }

    /** One slice for one fiber: everything it does, then its yield, its park or its return. */
    method RunOneSlice(f: Fiber, slice: Slice)
      requires Valid() && Owns(f) && current == null && f.group !in parked
      requires f.state.Ready? || f.state.Finished?
      modifies this, fibers
      ensures Valid() && current == null
      ensures m == if old(f.state).Finished? then old(m) else Ran(old(m), f.id, slice)
      ensures old(fibers) <= fibers && forall i :: |old(fibers)| <= i < |fibers| ==> fresh(fibers[i])
    {
      hide Scheduler.Mirrors, Acted, Ended, Model.ListOk, Model.QueueOk, Model.CurrentOk;
      SeenAs(f);
      if f.state == Finished {
        return;
      }
      BeginSlice(f);
      ghost var begun := m;
      assert slice.actions[..0] == [];
      for i := 0 to |slice.actions|
        invariant Valid() && m == ActedAll(begun, slice.actions[..i])
        invariant old(fibers) <= fibers && forall i :: |old(fibers)| <= i < |fibers| ==> fresh(fibers[i])
      {
        assert slice.actions[..i + 1][..i] == slice.actions[..i];
        Perform(slice.actions[i]);
      }
      assert slice.actions[..|slice.actions|] == slice.actions;
      EndSlice(f, slice.ending);
    }

    lemma EveryId()
      requires Mirrors()
      ensures (current == null <==> m.current.None?) && forall i :: 0 <= i < |fibers| ==> fibers[i].id == i
    {
    }

    lemma SeenAs(f: Fiber)
      requires Mirrors() && Owns(f)
      ensures m.Has(f.id) && |fibers| == |m.state| && m.state[f.id] == f.state && m.group[f.id] == f.group &&
        m.slices[f.id] == f.slices
      ensures parked == m.parked && (current == null <==> m.current.None?)
    {
    }

    method BeginSlice(f: Fiber)
      requires Valid() && Owns(f) && MayRun(m, f.id)
      modifies this`current, this`m, fibers`state, fibers`slices
      ensures Valid() && current == f && m == Begun(old(m), f.id)
    {
      hide Among, Once, Names;
      BeginKeeps(m, f.id);
      current := f;
      f.state := Running;
      f.slices := f.slices + 1;
      m := Begun(m, f.id);
    }

    method EndSlice(f: Fiber, ending: Ending)
      requires Valid() && Owns(f) && m.current == Some(f.id)
      modifies this`current, this`head, this`tail, this`readyInGroup, this`m, this`list, fibers
      ensures Valid() && current == null && m == Ended(old(m), f.id, ending)
    {
      hide Scheduler.Mirrors, Without, Model.ListOk, Model.QueueOk, Model.CurrentOk;
      EndKeeps(m, f.id, ending);
      if ending != Yield {
        UnlinkReady(f);
      }
      SetState(f, match ending case Yield => State.Ready case Park => State.Parked case Return => Finished);
      ClearCurrent();
    }

    method ClearCurrent()
      requires Mirrors()
      modifies this`current, this`m
      ensures Mirrors() && current == null && m == old(m).(current := None)
    {
      hide Among, Chain, Names;
      current := null;
      m := m.(current := None);
    }

    lemma ListEnds()
      requires Mirrors()
      ensures if m.ready == [] then head == null && tail == null
              else Within(m.ready, |fibers|) && head == fibers[m.ready[0]] && tail == fibers[m.ready[|m.ready| - 1]]
    {
    }

    /** A fiber reached by the tick is still linked, and followed by the next one to reach. */
    lemma NextInTurn(before: Model, mask: set<Group>, plan: Plan, k: nat)
      requires Valid() && before.Inv() && before.current.None? && k < |before.ready|
      requires m == Turn(before, mask, plan, k)
      ensures before.ready[k] < |fibers|
      ensures k + 1 < |before.ready| ==>
        before.ready[k + 1] < |fibers| && fibers[before.ready[k]].next == fibers[before.ready[k + 1]]
    {
      hide Turn, Among, Once, Model.Inv;
      var arrivals := TurnList(before, mask, plan, k);
      var p := |Stayed(before, mask, plan, k)|;
      assert m.ready[p] == before.ready[k] && list[p] == fibers[m.ready[p]];
      if k + 1 < |before.ready| {
        assert m.ready[p + 1] == before.ready[k + 1] && list[p].next == list[p + 1];
      }
    }

    /** The list is the snapshot and its tail at entry the boundary. The next link is read before the
        slice, because the slice may unlink the fiber that runs it. */
    method Tick(mask: set<Group>, plan: Plan) returns (more: bool)
      requires Valid() && current == null
      modifies this, fibers
      ensures Valid() && current == null && m == Ticked(old(m), mask, plan)
      ensures more == AnyRunnable(m, mask)
      ensures old(fibers) <= fibers && forall i :: |old(fibers)| <= i < |fibers| ==> fresh(fibers[i])
    {
      hide Scheduler.Mirrors, Ran, Turn, Stayed, Sliced, Model.ListOk, Model.QueueOk, Model.CurrentOk;
      ghost var before := m;
      ghost var k := 0;
      var boundary := tail;
      var next := head;
      EveryId();
      ListEnds();
      TurnStarts(before, mask, plan);
      while next != null
        invariant Valid() && current == null && k <= |before.ready| && m == Turn(before, mask, plan, k)
        invariant old(fibers) <= fibers && forall i :: |old(fibers)| <= i < |fibers| ==> fresh(fibers[i])
        invariant forall i :: 0 <= i < |fibers| ==> fibers[i].id == i
        invariant if k < |before.ready| then before.ready[k] < |fibers| && next == fibers[before.ready[k]]
          else next == null
        decreases |before.ready| - k
      {
        var f := next;
        var last := f == boundary;
        next := f.next;
        TurnUnfolds(before, mask, plan, k + 1);
        NextInTurn(before, mask, plan, k);
        SeenAs(f);
        if f.state == State.Ready && f.group in mask && f.group !in parked {
          RunOneSlice(f, plan(f.id, f.slices));
          EveryId();
        }
        k := k + 1;
        if last {
          break;
        }
      }
      more := RunnableIn(mask);
    }
  }

  /** The links are the list: mutually consistent, duplicate-free, and absent everywhere else. */
  ghost predicate Chain(list: seq<Fiber>, fibers: seq<Fiber>, head: Fiber?, tail: Fiber?)
    reads fibers, list
  {
    && (list == [] ==> head == null && tail == null)
    && (list != [] ==>
      head == list[0] && tail == list[|list| - 1] && list[0].prev == null && list[|list| - 1].next == null)
    && (forall k {:trigger list[k].prev} :: 1 <= k < |list| ==> list[k].prev == list[k - 1])
    && (forall k {:trigger list[k].next} :: 0 <= k < |list| - 1 ==> list[k].next == list[k + 1])
    && Once(list)
    && (forall i :: 0 <= i < |fibers| && fibers[i] !in list ==> fibers[i].prev == null && fibers[i].next == null)
  }

  /** The links once the k-th fiber of a chain has been bypassed. */
  ghost predicate Spliced(list: seq<Fiber>, k: nat, fibers: seq<Fiber>, head: Fiber?, tail: Fiber?)
    requires k < |list|
    reads fibers, list
  {
    && (|list| == 1 ==> head == null && tail == null)
    && (1 < |list| ==> head == list[if k == 0 then 1 else 0] && head.prev == null)
    && (1 < |list| ==> tail == list[if k == |list| - 1 then k - 1 else |list| - 1] && tail.next == null)
    && (forall i {:trigger list[i].prev} :: 1 <= i < |list| && i != k && i != k + 1 ==> list[i].prev == list[i - 1])
    && (forall i {:trigger list[i].next} :: 0 <= i < |list| - 1 && i != k && i != k - 1 ==> list[i].next == list[i + 1])
    && (0 < k < |list| - 1 ==> list[k + 1].prev == list[k - 1] && list[k - 1].next == list[k + 1])
    && (forall i :: 0 <= i < |fibers| && (fibers[i] !in list || fibers[i] == list[k]) ==>
          fibers[i].prev == null && fibers[i].next == null)
  }

  lemma SplicedIsChain(list: seq<Fiber>, k: nat, rest: seq<Fiber>, fibers: seq<Fiber>, head: Fiber?, tail: Fiber?)
    requires k < |list| && Spliced(list, k, fibers, head, tail) && Omits(list, k, rest) && Once(rest)
    requires forall f :: f in rest <==> f in list && f != list[k]
    ensures Chain(rest, fibers, head, tail)
  {
    hide Once;
    forall i | 1 <= i < |rest|
      ensures rest[i].prev == rest[i - 1] && rest[i - 1].next == rest[i]
    {
      if i < k {
        assert list[i].prev == list[i - 1] && list[i - 1].next == list[i];
      } else if k < i {
        assert list[i + 1].prev == list[i] && list[i].next == list[i + 1];
      }
    }
  }

  ghost predicate Once(list: seq<Fiber>) {
    forall i, j :: 0 <= i < j < |list| ==> list[i] != list[j]
  }

  /** `rest` is the list without its k-th member. */
  ghost predicate Omits<T>(list: seq<T>, k: nat, rest: seq<T>) {
    && k < |list| && |rest| == |list| - 1
    && (forall i :: 0 <= i < k ==> rest[i] == list[i])
    && (forall i :: k <= i < |rest| ==> rest[i] == list[i + 1])
  }

  lemma Omitting(list: seq<Fiber>, k: nat) returns (rest: seq<Fiber>)
    requires k < |list| && Once(list)
    ensures Omits(list, k, rest) && Once(rest)
    ensures forall f :: f in rest <==> f in list && f != list[k]
  {
    rest := list[..k] + list[k + 1..];
    assert forall i :: 0 <= i < |list| && i != k ==> list[i] == rest[if i < k then i else i - 1];
  }

  /** The fibers a list of indices names. */
  ghost predicate Names(ready: seq<nat>, fibers: seq<Fiber>, list: seq<Fiber>) {
    |list| == |ready| && forall k :: 0 <= k < |list| ==> ready[k] < |fibers| && list[k] == fibers[ready[k]]
  }

  lemma NamesGrow(ready: seq<nat>, fibers: seq<Fiber>, more: seq<Fiber>, list: seq<Fiber>)
    requires Names(ready, fibers, list) && fibers <= more
    ensures Names(ready, more, list)
  {
  }

  lemma NamesPush(ready: seq<nat>, fibers: seq<Fiber>, list: seq<Fiber>, f: nat)
    requires Names(ready, fibers, list) && f < |fibers|
    ensures Names(ready + [f], fibers, list + [fibers[f]])
  {
  }

  lemma NamedOnly(ready: seq<nat>, fibers: seq<Fiber>, list: seq<Fiber>)
    requires Names(ready, fibers, list)
    ensures Within(ready, |fibers|) && forall f :: f in list ==> f in fibers
  {
  }

  lemma DropMatches(list: seq<Fiber>, rest: seq<Fiber>, fibers: seq<Fiber>, ready: seq<nat>, k: nat, left: seq<nat>)
    requires Names(ready, fibers, list) && Omits(list, k, rest) && Omits(ready, k, left)
    ensures Names(left, fibers, rest)
  {
  }

  /** The counts are the linked members of each group. */
  ghost predicate Tallies(counts: seq<nat>, ready: seq<nat>, group: seq<Group>) {
    && |counts| == 8 && Within(ready, |group|)
    && forall g: Group :: counts[g] == |Among(ready, group, g, true)|
  }

  lemma TallyMore(counts: seq<nat>, ready: seq<nat>, f: nat, group: seq<Group>)
    requires Tallies(counts, ready, group) && f < |group|
    ensures |counts| == 8 && Tallies(counts[group[f] := counts[group[f]] + 1], ready + [f], group)
  {
    assert (ready + [f])[..|ready|] == ready;
  }

  lemma TallyLess(counts: seq<nat>, ready: seq<nat>, k: nat, group: seq<Group>)
    requires Tallies(counts, ready, group) && Distinct(ready) && k < |ready|
    ensures |counts| == 8 && ready[k] < |group| && 0 < counts[group[ready[k]]]
    ensures var f := ready[k];
      Omits(ready, k, Without(ready, f)) && Tallies(counts[group[f] := counts[group[f]] - 1], Without(ready, f), group)
  {
    hide Among, Without, Omits;
    WithoutCounts(ready, k, group);
  }

  lemma WithoutCounts(ready: seq<nat>, k: nat, group: seq<Group>)
    requires Within(ready, |group|) && Distinct(ready) && k < |ready|
    ensures Omits(ready, k, Without(ready, ready[k])) && Within(Without(ready, ready[k]), |group|)
    ensures forall g: Group ::
      |Among(ready, group, g, true)| == |Among(Without(ready, ready[k]), group, g, true)| + if group[ready[k]] == g
          then 1 else 0
  {
    hide Among, Without;
    var f, front, back := ready[k], ready[..k], ready[k + 1..];
    assert ready == front + [f] + back;
    WithoutIs(front, f, back);
    forall g: Group
      ensures |Among(ready, group, g, true)| == |Among(front + back, group, g, true)| + if group[f] == g then 1 else 0
    {
      OneCounts(front, f, back, group, g);
    }
  }

  lemma OneCounts(front: seq<nat>, f: nat, back: seq<nat>, group: seq<Group>, g: Group)
    requires Within(front, |group|) && Within(back, |group|) && f < |group|
    ensures |Among(front + [f] + back, group, g, true)| == |Among(front + back, group, g, true)| + if group[f] == g
      then 1 else 0
  {
    AmongJoin(front + [f], back, group, g, true);
    AmongNext(front + [f], |front|, group, g, true);
    assert (front + [f])[..|front| + 1] == front + [f] && (front + [f])[..|front|] == front;
    AmongJoin(front, back, group, g, true);
  }

  lemma {:induction false} WithoutAbsent(s: seq<nat>, f: nat)
    requires f !in s
    ensures Without(s, f) == s
  {
    if s != [] {
      WithoutAbsent(s[1..], f);
    }
  }

  lemma {:induction false} GroupsGrow(ready: seq<nat>, group: seq<Group>, more: seq<Group>)
    requires Within(ready, |group|) && group <= more
    ensures forall g: Group :: Among(ready, more, g, true) == Among(ready, group, g, true)
  {
    if ready != [] {
      GroupsGrow(ready[..|ready| - 1], group, more);
    }
  }

  lemma ResumeStarts(m: Model, g: Group)
    requires m.Inv()
    ensures Among(m.pending[..0], m.group, g, true) == [] == Among(m.pending[..0], m.group, g, false)
    ensures WokenAll(m.(parked := m.parked - {g}), []) == m.(parked := m.parked - {g})
  {
  }

  /** What the next place of the queue adds, whatever the places before it hold by now. */
  lemma ResumeStep(m: Model, g: Group, i: nat, places: seq<nat>, keep: nat)
    requires m.Inv() && keep <= i < |m.pending| == |places| && places[i..] == m.pending[i..]
    requires Within(m.pending[..i], |m.group|) && places[..keep] == Among(m.pending[..i], m.group, g, false)
    requires WokenAll(m.(parked := m.parked - {g}), Among(m.pending[..i], m.group, g, true)).ListOk()
    ensures var open, f := m.(parked := m.parked - {g}), m.pending[i];
      && var mine, more := Among(m.pending[..i], m.group, g, true), Among(m.pending[..i + 1], m.group, g, true);
      && places[i] == f && places[i + 1..] == m.pending[i + 1..]
      && var at := WokenAll(open, mine).(pending := places);
      && at.ListOk() && at.Has(f)
      && if m.group[f] == g then
           && |more| == |mine| + 1 && Woken(at, f) == WokenAll(open, more).(pending := places)
           && places[..keep] == Among(m.pending[..i + 1], m.group, g, false)
         else
           && more == mine
           && places[keep := f][..keep + 1] == Among(m.pending[..i + 1], m.group, g, false)
           && places[keep := f][i + 1..] == m.pending[i + 1..]
  {
    hide WokenAll, Among, Model.CurrentOk;
    var open, f := m.(parked := m.parked - {g}), m.pending[i];
    var mine := Among(m.pending[..i], m.group, g, true);
    AmongNext(m.pending, i, m.group, g, true);
    AmongNext(m.pending, i, m.group, g, false);
    assert places[i..][0] == f && places[i + 1..] == places[i..][1..];
    assert places[keep := f][..keep + 1] == places[..keep] + [f];
    ParkedStays(open, mine);
    if m.group[f] == g {
      WokenNext(open, mine, f);
      QueueApart(WokenAll(open, mine), f, places);
    }
  }

  /** A wake that is not deferred neither reads the queue nor writes it. */
  lemma QueueApart(m: Model, f: nat, places: seq<nat>)
    requires m.Has(f) && m.group[f] !in m.parked
    ensures Woken(m.(pending := places), f) == Woken(m, f).(pending := places)
  {
  }

  lemma {:induction false} ParkedStays(m: Model, fs: seq<nat>)
    requires m.Sized() && Within(fs, |m.state|)
    ensures WokenAll(m, fs).parked == m.parked
  {
    if fs != [] {
      ParkedStays(m, fs[..|fs| - 1]);
    }
  }

  lemma AmongNext(queue: seq<nat>, i: nat, group: seq<Group>, g: Group, inside: bool)
    requires Within(queue, |group|) && i < |queue|
    ensures Among(queue[..i + 1], group, g, inside)
         == if (group[queue[i]] == g) == inside then Among(queue[..i], group, g, inside) + [queue[i]]
            else Among(queue[..i], group, g, inside)
  {
    assert queue[..i + 1][..i] == queue[..i];
  }

  lemma WokenNext(m: Model, mine: seq<nat>, f: nat)
    requires m.Sized() && Within(mine, |m.state|) && f < |m.state|
    ensures WokenAll(m, mine + [f]) == Woken(WokenAll(m, mine), f)
  {
    assert (mine + [f])[..|mine|] == mine;
  }
}
