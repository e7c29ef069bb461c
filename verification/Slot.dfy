/** The capacity-one channel (slot.h), over every run of the scheduler it parks and wakes on. */
module Slots {
  import opened Wrappers
  import opened FiberModel

  // The receiver is one fiber. Between its calls the scheduler does whatever it does: slices begin and
  // end, fibers are spawned and woken, groups are parked and resumed; and the receiver itself is woken
  // for reasons of others. Senders come from anywhere. What must not happen is that a value is lost
  // without being counted, or that the receiver sleeps over one: parked, not queued for a wake, and
  // registered nowhere.

  // ----- the channel -----

  datatype Channel<+T> = Channel(value: Option<T>, waiter: Option<nat>, token: Option<nat>, sends: nat,
                                    supersededSends: nat)

  function Sent<T>(c: Channel<T>, value: T): Channel<T> {
    Channel(Some(value), None, c.token, c.sends + 1, c.supersededSends + if c.value.Some? then 1 else 0)
  }

  /** A value handed over, and the token for it. */
  function Taken<T>(c: Channel<T>): Channel<T> {
    c.(value := None, token := Some(c.sends))
  }

  /** `token::superseded`: also of a token never handed out. */
  predicate Superseded<T>(token: Option<nat>, c: Channel<T>) {
    token.None? || c.sends != token.value
  }

  class Slot<T> {
    var value: Option<T>
    var waiter: Option<nat>
    var inFlight: Option<nat>
    var sends: nat
    var supersededSends: nat

    constructor ()
      ensures View() == Channel(None, None, None, 0, 0)
    {
      value, waiter, inFlight, sends, supersededSends := None, None, None, 0, 0;
    }

    function View(): Channel<T>
      reads this
    {
      Channel(value, waiter, inFlight, sends, supersededSends)
    }

    /** Latest wins. Returns the fiber to wake. */
    method Send(message: T) returns (woken: Option<nat>)
      modifies this
      ensures View() == Sent(old(View()), message) && woken == old(waiter)
    {
      if value.Some? {
        supersededSends := supersededSends + 1;
      }
      value := Some(message);
      sends := sends + 1;
      woken := None;
      if waiter.Some? {
        woken := waiter;
        waiter := None;
      }
    }

    /** One pass of the loop in `recv`: what is there is taken, or the caller is to park. */
    method RecvPass(me: nat) returns (out: Option<T>)
      requires waiter.None? || waiter == Some(me)
      modifies this
      ensures out == old(value)
      ensures View() == if out.Some? then Taken(old(View())).(waiter := None) else old(View()).(waiter := Some(me))
    {
      if value.None? {
        waiter := Some(me);
        return None;
      }
      waiter := None;
      inFlight := Some(sends);
      out := value;
      value := None;
    }

    method TryRecv() returns (out: Option<T>)
      modifies this
      ensures out == old(value)
      ensures View() == if out.Some? then Taken(old(View())) else old(View())
    {
      if value.None? {
        return None;
      }
      inFlight := Some(sends);
      out := value;
      value := None;
    }
  }

  // ----- the channel in a running scheduler -----

  /** A scheduler with one slot in it, and all that was ever sent and taken: `taken[n]` is how many
      sends there had been when the n-th value was handed over. */
  datatype World<+T> = World(m: Model, c: Channel<T>, receiving: bool, sent: seq<T>, taken: seq<nat>)

  /** A fiber that runs, will run, or is in the queue of its parked group. */
  predicate Alerted(m: Model, f: nat)
    requires m.Has(f)
  {
    !m.state[f].Parked? || f in m.pending
  }

  /** Everything a run keeps, for the receiver `r`. */
  ghost predicate Sound<T>(w: World<T>, r: nat) {
    && w.m.Inv() && w.m.Has(r)
    // Nothing is counted twice or lost: every send was taken, or overwritten, or is still there.
    && w.c.sends == |w.sent|
    && w.c.sends == |w.taken| + w.c.supersededSends + (if w.c.value.Some? then 1 else 0)
    // What is there is the latest, and nobody waits for it.
    && (w.c.value.Some? ==> w.sent != [] && w.c.value.value == w.sent[|w.sent| - 1] && w.c.waiter.None?)
    // A receiver that waits is registered, or has been alerted.
    && (w.c.waiter.Some? ==> w.c.waiter.value == r && w.receiving)
    && (w.receiving && w.c.waiter.None? ==> Alerted(w.m, r))
    // Values are taken in the order they were sent, the token is the last one's.
    && (forall n :: 0 <= n < |w.taken| ==> 0 < w.taken[n] <= |w.sent|)
    && (forall i, j :: 0 <= i < j < |w.taken| ==> w.taken[i] < w.taken[j])
    && (w.c.value.Some? && w.taken != [] ==> w.taken[|w.taken| - 1] < |w.sent|)
    && w.c.token == if w.taken == [] then None else Some(w.taken[|w.taken| - 1])
  }

  /** One step of anybody: a call on the scheduler, a send, the host's poll, and the pieces of a slice. */
  datatype Step<+T> =
    | Act(action: Action)
    | Send(value: T)
    | TryRecv
    | Begin(fiber: nat)
    | Recv
    | End(ending: Ending)

  /** Only the receiver receives, and inside `recv` it gives the thread back only by parking there. */
  ghost predicate Allowed<T>(w: World<T>, r: nat, step: Step<T>) {
    match step
    case Begin(f) => MayRun(w.m, f)
    case Recv => w.m.current == Some(r)
    case End(_) => w.m.current.Some? && !(w.m.current == Some(r) && w.receiving)
    case _ => true
  }

  // What the scheduler does keeps the fiber, and keeps it alerted until it parks.

  ghost function AfterAct(m: Model, a: Action, f: nat): (after: Model)
    requires m.Inv() && m.Has(f)
    ensures after.Inv() && after.Has(f) && (Alerted(m, f) ==> Alerted(after, f))
  {
    ActSizes(m, a, f);
    Acted(m, a)
  }

  ghost function AfterBegin(m: Model, g: nat, f: nat): (after: Model)
    requires MayRun(m, g) && m.Has(f)
    ensures after.Inv() && after.Has(f) && (Alerted(m, f) ==> Alerted(after, f))
  {
    BeginSizes(m, g, f);
    Begun(m, g)
  }

  ghost function AfterEnd(m: Model, ending: Ending, f: nat): (after: Model)
    requires m.Inv() && m.Has(f) && m.current.Some?
    ensures after.Inv() && after.Has(f) && (m.current.value != f && Alerted(m, f) ==> Alerted(after, f))
  {
    EndSizes(m, ending, f);
    Ended(m, m.current.value, ending)
  }

  ghost function Next<T>(w: World<T>, r: nat, step: Step<T>): World<T>
    requires Sound(w, r) && Allowed(w, r, step)
  {
    match step
    case Act(a) => w.(m := AfterAct(w.m, a, r))
    case Send(v) =>
      w.(m := if w.c.waiter.Some? then Woken(w.m, w.c.waiter.value) else w.m, c := Sent(w.c, v), sent := w.sent + [v])
    case TryRecv =>
      if w.c.value.None? then w else w.(c := Taken(w.c), taken := w.taken + [w.c.sends])
    case Begin(f) => w.(m := AfterBegin(w.m, f, r))
    case Recv =>
      if w.c.value.Some? then
        w.(c := Taken(w.c).(waiter := None), receiving := false, taken := w.taken + [w.c.sends])
      else w.(m := AfterEnd(w.m, Park, r), c := w.c.(waiter := Some(r)), receiving := true)
    case End(ending) => w.(m := AfterEnd(w.m, ending, r))
  }

  lemma AlertStays(m: Model, a: Action, f: nat)
    requires m.Inv() && m.Has(f) && Alerted(m, f)
    ensures Acted(m, a).Has(f) && Alerted(Acted(m, a), f)
  {
    if a.ResumeGroup? {
      ResumeDelivers(m, a.group);
    }
  }

  lemma WakeAlerts(m: Model, f: nat)
    requires m.Inv() && m.Has(f)
    ensures Woken(m, f).Inv() && Alerted(Woken(m, f), f)
  {
    WakeKeeps(m, f);
  }

  lemma NextKeeps<T>(w: World<T>, r: nat, step: Step<T>)
    requires Sound(w, r) && Allowed(w, r, step)
    ensures Sound(Next(w, r, step), r)
  {
    hide Woken, AfterAct, AfterBegin, AfterEnd, Alerted, Model.ListOk, Model.QueueOk, Model.Inv;
    if step.Send? && w.c.waiter.Some? {
      WakeAlerts(w.m, r);
    }
  }

  lemma ActSizes(m: Model, a: Action, r: nat)
    requires m.Inv() && m.Has(r)
    ensures Acted(m, a).Has(r) && (Alerted(m, r) ==> Alerted(Acted(m, a), r))
  {
    hide Acted, Alerted;
    ActGrows(m, a);
    if Alerted(m, r) {
      AlertStays(m, a, r);
    }
  }

  lemma BeginSizes(m: Model, f: nat, r: nat)
    requires MayRun(m, f) && m.Has(r)
    ensures Begun(m, f).Inv() && Begun(m, f).Has(r)
    ensures Alerted(m, r) ==> Alerted(Begun(m, f), r)
  {
    BeginKeeps(m, f);
  }

  lemma EndSizes(m: Model, ending: Ending, r: nat)
    requires m.Inv() && m.Has(r) && m.current.Some?
    ensures var after := Ended(m, m.current.value, ending);
      after.Inv() && after.Has(r) && (m.current.value != r && Alerted(m, r) ==> Alerted(after, r))
  {
    EndKeeps(m, m.current.value, ending);
  }

  // ----- runs -----

  ghost predicate AllAllowed<T>(w: World<T>, r: nat, steps: seq<Step<T>>)
    requires Sound(w, r)
    decreases |steps|
  {
    steps != [] ==>
      Allowed(w, r, steps[0]) && (NextKeeps(w, r, steps[0]); AllAllowed(Next(w, r, steps[0]), r, steps[1..]))
  }

  ghost function Run<T>(w: World<T>, r: nat, steps: seq<Step<T>>): World<T>
    requires Sound(w, r) && AllAllowed(w, r, steps)
    decreases |steps|
  {
    if steps == [] then w
    else NextKeeps(w, r, steps[0]); Run(Next(w, r, steps[0]), r, steps[1..])
  }

  /** On every run: the sends add up, the latest value wins, and a receiver is never left parked with
      nobody to wake it while a value is there. */
  lemma {:induction false} ChannelIsSafe<T>(w: World<T>, r: nat, steps: seq<Step<T>>)
    requires Sound(w, r) && AllAllowed(w, r, steps)
    ensures var after := Run(w, r, steps);
      && Sound(after, r) && w.sent <= after.sent
      && after.c.sends == |after.taken| + after.c.supersededSends + (if after.c.value.Some? then 1 else 0)
      && (after.c.value.Some? ==> after.c.waiter.None? && after.c.value.value == after.sent[|after.sent| - 1])
      && (after.c.value.Some? && after.receiving ==> Alerted(after.m, r))
    decreases |steps|
  {
    hide Sound, Next, Allowed, Alerted;
    if steps == [] {
      SoundMeans(w, r);
    } else {
      NextKeeps(w, r, steps[0]);
      SentGrows(w, r, steps[0]);
      ChannelIsSafe(Next(w, r, steps[0]), r, steps[1..]);
    }
  }

  lemma SoundMeans<T>(w: World<T>, r: nat)
    requires Sound(w, r)
    ensures w.c.sends == |w.taken| + w.c.supersededSends + (if w.c.value.Some? then 1 else 0)
    ensures w.c.value.Some? ==>
      w.sent != [] && w.c.value.value == w.sent[|w.sent| - 1] && w.c.waiter.None?
    ensures w.m.Has(r) && (w.c.value.Some? && w.receiving ==> Alerted(w.m, r))
  {
    hide Model.Inv, Alerted;
  }

  lemma SentGrows<T>(w: World<T>, r: nat, step: Step<T>)
    requires Sound(w, r) && Allowed(w, r, step)
    ensures w.sent <= Next(w, r, step).sent
  {
    hide Model.Inv, Alerted, AfterAct, AfterBegin, AfterEnd, Woken;
  }

  /** A slot nobody has used. */
  function Fresh<T>(m: Model): World<T> {
    World(m, Channel(None, None, None, 0, 0), false, [], [])
  }

  /** Such a slot is sound whatever the scheduler has been through, so every run from it is safe. */
  lemma FreshIsSafe<T>(m: Model, r: nat, steps: seq<Step<T>>)
    requires m.Inv() && m.Has(r)
    ensures Sound(Fresh<T>(m), r)
    ensures AllAllowed(Fresh<T>(m), r, steps) ==> Sound(Run(Fresh<T>(m), r, steps), r)
  {
    if AllAllowed(Fresh<T>(m), r, steps) {
      ChannelIsSafe(Fresh<T>(m), r, steps);
    }
  }

  /** A token reads superseded exactly when something was sent after its value was handed over. */
  lemma SupersededMeans<T>(w: World<T>, r: nat, n: nat, later: World<T>)
    requires Sound(w, r) && Sound(later, r)
    requires n < |w.taken| && w.sent <= later.sent
    ensures Superseded(Some(w.taken[n]), later.c) <==> w.taken[n] < |later.sent|
    ensures w.c.token == Some(w.taken[n]) && w.c.value.None? && |w.sent| == w.taken[n] ==>
      (Superseded(w.c.token, later.c) <==> w.sent != later.sent)
  {
    if |w.sent| == |later.sent| {
      assert w.sent == later.sent;
    }
  }

  /** What `recv` hands over is the last value sent before it, and the token it leaves is fresh. */
  lemma RecvTakesLatest<T>(w: World<T>, r: nat)
    requires Sound(w, r) && w.m.current == Some(r) && w.c.value.Some?
    ensures var after := Next(w, r, Recv);
      && w.c.value.value == w.sent[after.taken[|after.taken| - 1] - 1]
      && after.c.value.None? && after.c.waiter.None? && !Superseded(after.c.token, after.c)
  {
  }
}
