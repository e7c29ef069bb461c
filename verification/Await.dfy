/** One answer for one wait (scheduler.h: `await_slot`, `block_or_park`). */
module Awaiting {
  import opened Wrappers
  import opened FiberModel
  import Slots

  // A fiber says what it waits for, enlists it, and parks until it is answered. The answer may come
  // while it is still enlisting, or after its group was parked, or twice; and the fiber may be woken by
  // somebody who has no answer. That the wait cannot end without one is the loop's condition; that it
  // does end is that a fiber with an answer is never left parked with nobody to wake it.

  datatype Wait = Wait(who: Option<nat>, done: bool, answer: int) {
    function Enlisted(me: nat): Wait {
      Wait(Some(me), false, 0)
    }

    predicate Pending() {
      who.Some? && !done
    }

    /** At most once a wait: a second answer is not the one that was true. */
    function Completed(offer: int): Wait {
      if Pending() then this.(answer := offer, done := true) else this
    }
  }

  class AwaitSlot {
    var who: Option<nat>
    var done: bool
    var answer: int

    constructor ()
      ensures View() == Wait(None, false, 0)
    {
      who, done, answer := None, false, 0;
    }

    function View(): Wait
      reads this
    {
      Wait(who, done, answer)
    }

    /** Returns the fiber to wake. */
    method Complete(offer: int) returns (woken: Option<nat>)
      modifies this
      ensures View() == old(View()).Completed(offer) && woken == if old(View()).Pending() then old(who) else None
    {
      if done || who.None? {
        return None;
      }
      answer := offer;
      done := true;
      return who;
    }

    /** The front of `block_or_park`, on a fiber. */
    method Enlist(me: nat)
      modifies this
      ensures View() == old(View()).Enlisted(me)
    {
      who, done, answer := Some(me), false, 0;
    }

    /** One pass of its loop: the answer, or the caller is to park. */
    method Check() returns (out: Option<int>)
      modifies this`who
      ensures out == if done then Some(answer) else None
      ensures View() == if done then old(View()).(who := None) else old(View())
    {
      if !done {
        return None;
      }
      who := None;
      return Some(answer);
    }
  }

  /** The slot in a running scheduler, and the answers offered since the wait began. */
  datatype World = World(m: Model, s: Wait, waiting: bool, offered: seq<int>)

  ghost predicate Sound(w: World, f: nat) {
    && w.m.Inv() && w.m.Has(f)
    && w.s.who == (if w.waiting then Some(f) else None)
    // The answer is the first one offered, and a fiber with an answer will run.
    && (w.waiting ==> (w.s.done <==> w.offered != []))
    && (w.waiting && w.s.done ==> w.s.answer == w.offered[0] && Slots.Alerted(w.m, f))
  }

  datatype Step =
    | Act(action: Action)
    | Begin(fiber: nat)
    | End(ending: Ending)
    | Enlist
    | Complete(answer: int)
    | Check

  /** The waiting fiber gives the thread back only by parking in the loop. */
  ghost predicate Allowed(w: World, f: nat, step: Step) {
    match step
    case Begin(g) => MayRun(w.m, g)
    case End(_) => w.m.current.Some? && !(w.m.current == Some(f) && w.waiting)
    case Enlist => w.m.current == Some(f) && !w.waiting
    case Check => w.m.current == Some(f) && w.waiting
    case _ => true
  }

  ghost function Next(w: World, f: nat, step: Step): World
    requires Sound(w, f) && Allowed(w, f, step)
  {
    match step
    case Act(action) => w.(m := Slots.AfterAct(w.m, action, f))
    case Begin(g) => w.(m := Slots.AfterBegin(w.m, g, f))
    case End(ending) => w.(m := Slots.AfterEnd(w.m, ending, f))
    case Enlist => w.(s := w.s.Enlisted(f), waiting := true, offered := [])
    case Complete(answer) =>
      var m := if w.s.Pending() then Woken(w.m, w.s.who.value) else w.m;
      World(m, w.s.Completed(answer), w.waiting, w.offered + [answer])
    case Check =>
      if w.s.done then w.(s := w.s.(who := None), waiting := false)
      else w.(m := Slots.AfterEnd(w.m, Park, f))
  }

  /** A wait ends with the first answer offered since it began, whatever wakes came before it or between;
      until there is one it does not end, and once there is one the fiber is never left parked. */
  lemma NextKeeps(w: World, f: nat, step: Step)
    requires Sound(w, f) && Allowed(w, f, step)
    ensures Sound(Next(w, f, step), f)
    ensures w.waiting && !Next(w, f, step).waiting ==>
      step == Check && w.offered != [] && Next(w, f, step).s.answer == w.offered[0]
    ensures step == Check ==> (Next(w, f, step).waiting <==> w.offered == [])
  {
    hide Woken, Slots.AfterAct, Slots.AfterBegin, Slots.AfterEnd, Slots.Alerted, Model.ListOk, Model.QueueOk, Model.Inv;
    if step.Complete? {
      Slots.WakeAlerts(w.m, f);
    }
  }

  // ----- runs -----

  /** Where a run leads, if every step of it can be taken. */
  ghost function Run(w: World, f: nat, steps: seq<Step>): (after: Option<World>)
    requires Sound(w, f)
    ensures after.Some? ==> Sound(after.value, f)
    decreases |steps|
  {
    if steps == [] then Some(w)
    else
      var before, step := Run(w, f, steps[..|steps| - 1]), steps[|steps| - 1];
      if before.None? || !Allowed(before.value, f, step) then None
      else NextKeeps(before.value, f, step); Some(Next(before.value, f, step))
  }

  /** The answers a run offers behind the last time a wait began in it. */
  function OfferedSince(steps: seq<Step>): seq<int>
    decreases |steps|
  {
    if steps == [] then []
    else
      var before, step := OfferedSince(steps[..|steps| - 1]), steps[|steps| - 1];
      if step.Enlist? then [] else if step.Complete? then before + [step.answer] else before
  }

  /** A slot nobody waits on, whatever the scheduler has been through. */
  function Fresh(m: Model): World {
    World(m, Wait(None, false, 0), false, [])
  }

  lemma FreshIsSound(m: Model, f: nat)
    requires m.Inv() && m.Has(f)
    ensures Sound(Fresh(m), f)
  {
  }

  /** On every run: a look at the slot ends the wait if and only if an answer was offered since the wait
      began, and then with the first; and a waiting fiber that was answered runs or will be run. */
  lemma {:induction false} FirstAnswerWins(m: Model, f: nat, steps: seq<Step>)
    requires m.Inv() && m.Has(f) && Run(Fresh(m), f, steps).Some?
    ensures var after, offered := Run(Fresh(m), f, steps).value, OfferedSince(steps);
      && after.offered == offered
      && (after.waiting && offered != [] ==> Slots.Alerted(after.m, f))
      && (steps != [] && steps[|steps| - 1] == Check ==>
            && (after.waiting <==> offered == [])
            && (!after.waiting ==> after.s.answer == offered[0]))
    decreases |steps|
  {
    hide Slots.Alerted, Model.Inv, Allowed;
    if steps != [] {
      var n := |steps| - 1;
      FirstAnswerWins(m, f, steps[..n]);
      var before := Run(Fresh(m), f, steps[..n]).value;
      NextKeeps(before, f, steps[n]);
      OfferIsKept(before, f, steps[n]);
    }
  }

  lemma OfferIsKept(w: World, f: nat, step: Step)
    requires Sound(w, f) && Allowed(w, f, step)
    ensures Next(w, f, step).offered ==
      if step.Enlist? then [] else if step.Complete? then w.offered + [step.answer] else w.offered
    ensures step == Check ==> w.waiting
  {
  }
}
