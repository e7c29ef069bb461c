/** The decoder as the loop drives it (decode.cpp, decode.h): buffers written in place, each call proved
    to be its meaning in `Decoder`. */
module InputDecoding {
  import opened Wrappers
  import opened Utf8
  import opened Decoder

  class InputDecoder {
    const escapeTimeout: int
    var deadline: Option<int>
    var held: Bytes
    var paste: Bytes
    var pasting: bool

    constructor (escapeTimeout: int)
      ensures this.escapeTimeout == escapeTimeout
      ensures View() == State(FRESH, None) && Resting(View())
    {
      this.escapeTimeout := escapeTimeout;
      deadline, held, paste, pasting := None, [], [], false;
    }

    function View(): State
      reads this
    {
      State(Input(held, paste, pasting), deadline)
    }

    method Feed(bytes: Bytes, now: int) returns (out: seq<Event>)
      requires Resting(View())
      modifies this
      ensures (View(), out) == Fed(old(View()), bytes, now, escapeTimeout)
      ensures Resting(View())
    {
      hide Drained, Settled;
      held := held + bytes;
      out := Drain();
      Arm(now);
    }

    method Expire(now: int) returns (out: seq<Event>)
      requires Resting(View())
      modifies this
      ensures (View(), out) == Expired(old(View()), now, escapeTimeout)
      ensures Resting(View())
      ensures old(deadline.Some? && deadline.value <= now) ==> out != [] && out[0] == ESCAPE
    {
      hide Drained, Settled;
      if deadline.None? || now < deadline.value {
        return [];
      }
      deadline := None;
      if held == [] || held[0] != ESC {
        return [];
      }
      out := [ESCAPE];
      held := held[1..];
      var others := Drain();
      out := out + others;
      Arm(now);
    }

    method Reset()
      modifies this
      ensures View() == State(FRESH, None) && Resting(View())
    {
      held, paste, pasting, deadline := [], [], false, None;
    }

    method Arm(now: int)
      modifies this`deadline
      ensures deadline == Armed(old(deadline), View().input, now, escapeTimeout)
    {
      if pasting || held == [] || held[0] != ESC {
        deadline := None;
        return;
      }
      if deadline.None? {
        deadline := Some(now + escapeTimeout);
      }
    }

    method Drain() returns (out: seq<Event>)
      modifies this`held, this`paste, this`pasting
      ensures (View().input, out) == Drained(old(View().input))
    {
      hide Drained, Consume, TakeOne, TakePayload;
      var at := 0;
      out := [];
      assert held[0..] == held;
      ghost var start := View().input;
      ghost var rest := start;
      while at < |held|
        invariant at <= |held| && held == old(held)
        invariant rest == Input(held[at..], paste, pasting)
        invariant Drained(rest).0 == Drained(start).0 && out + Drained(rest).1 == Drained(start).1
        decreases |held| - at
      {
        DrainedStep(rest);
        PassOf(rest);
        var taken, events;
        if pasting {
          taken, events := ConsumePaste(held[at..]);
        } else {
          taken, events := ConsumeOne(held[at..]);
        }
        assert out + events + Drained(Rest(rest)).1 == out + (events + Drained(Rest(rest)).1);
        assert taken == 0 ==> out + events == out;
        out := out + events;
        if taken == 0 {
          break;
        }
        assert held[at..][taken..] == held[at + taken..];
        at := at + taken;
        rest := Input(held[at..], paste, pasting);
      }
      DrainedStep(rest);
      assert out + [] == out;
      held := held[at..];
    }

    method ConsumeOne(rest: Bytes) returns (taken: nat, out: seq<Event>)
      requires rest != [] && !pasting
      modifies this`pasting
      ensures Taken(taken, out, pasting) == TakeOne(rest)
    {
      hide TakeCsi;
      if rest[0] == ESC {
        taken, out := ConsumeEscape(rest);
      } else {
        var t := TakeText(rest, PLAIN);
        taken, out := t.count, t.events;
      }
    }

    method ConsumeEscape(rest: Bytes) returns (taken: nat, out: seq<Event>)
      requires rest != [] && rest[0] == ESC && !pasting
      modifies this`pasting
      ensures Taken(taken, out, pasting) == TakeEscape(rest)
    {
      hide TakeCsi;
      if |rest| < 2 {
        return 0, [];
      }
      var next := rest[1];
      if next == 0x5B {
        taken, out := ConsumeCsi(rest);
      } else if next == 0x4F {
        var t := TakeSs3(rest);
        taken, out := t.count, t.events;
      } else if next == ESC {
        taken, out := 1, [ESCAPE];
      } else {
        var t := TakeText(rest[1..], ALT);
        taken, out := if t.count == 0 then 0 else t.count + 1, t.events;
      }
    }

    method ConsumeCsi(rest: Bytes) returns (taken: nat, out: seq<Event>)
      requires 2 <= |rest| && !pasting
      modifies this`pasting
      ensures Taken(taken, out, pasting) == TakeCsi(rest)
    {
      hide ReadParameters, RunEnd;
      var at := 2;
      while at < |rest| && 0x30 <= rest[at] <= 0x3F
        invariant 2 <= at <= |rest|
        invariant forall i :: 2 <= i < at ==> 0x30 <= rest[i] <= 0x3F
      {
        at := at + 1;
      }
      RunEndIs(rest, 2, 0x30, 0x3F, at);
      var parametersEnd := at;
      while at < |rest| && 0x20 <= rest[at] <= 0x2F
        invariant parametersEnd <= at <= |rest|
        invariant forall i :: parametersEnd <= i < at ==> 0x20 <= rest[i] <= 0x2F
      {
        at := at + 1;
      }
      RunEndIs(rest, parametersEnd, 0x20, 0x2F, at);
      if at == |rest| {
        return 0, [];
      }
      var final := rest[at];
      if final < 0x40 || final > 0x7E {
        return at, [];
      }
      taken, out := at + 1, [];
      var parameters := ParseParameters(Chars(rest[2..parametersEnd]));
      if parameters.privateUse {
        return;
      }
      if final as char == '~' {
        if parameters.first == PASTE_START {
          pasting := true;
          return;
        }
        if parameters.first == PASTE_END {
          return;
        }
        var key := KeyForTilde(parameters.first);
        if key.Some? {
          out := [Named(key.value, ModifiersFrom(parameters.second))];
        }
        return;
      }
      var key := KeyForFinal(final as char);
      if key.Some? && (!parameters.hasFirst || parameters.first == 1) {
        out := [Named(key.value, ModifiersFrom(parameters.second))];
      }
    }

    method ConsumePaste(rest: Bytes) returns (taken: nat, out: seq<Event>)
      requires rest != [] && pasting
      modifies this`paste, this`pasting
      ensures Pass(taken, out, paste, pasting) == TakePayload(rest, old(paste))
    {
      hide First, Scalars, EncodeAll, Holds, EndsInMarker;
      var marker := Find(rest);
      if marker.Some? {
        FoundIsFirst(rest, marker.value);
        var text := WellFormed(paste + rest[..marker.value]);
        pasting, paste := false, [];
        return marker.value + |MARKER|, [Paste(text)];
      }
      var keep := if |rest| < |MARKER| - 1 then |rest| else |MARKER| - 1;
      while keep > 0 && !EndsInMarker(rest, keep)
        invariant 0 <= keep <= |rest| && keep < |MARKER|
        invariant forall k :: keep < k <= |rest| && k < |MARKER| ==> !EndsInMarker(rest, k)
      {
        keep := keep - 1;
      }
      KeptIsFirst(rest, keep);
      taken, out := |rest| - keep, [];
      if taken == 0 {
        assert paste + rest[..0] == paste;
        return;
      }
      paste := paste + rest[..taken];
    }
  }

  /** The last `keep` bytes could begin it. */
  predicate EndsInMarker(text: Bytes, keep: nat)
    requires keep <= |text| && keep < |MARKER|
  {
    text[|text| - keep..] == MARKER[..keep]
  }

  /** `find` of the closing marker: its first occurrence, if it occurs. */
  method Find(rest: Bytes) returns (at: Option<nat>)
    ensures at.Some? ==> at.value <= |rest| && Holds(rest, at.value)
    ensures at.Some? ==> forall j :: 0 <= j < at.value ==> !Holds(rest, j)
    ensures at.None? ==> forall j :: 0 <= j <= |rest| ==> !Holds(rest, j)
  {
    hide Holds;
    var i := 0;
    while i <= |rest|
      invariant i <= |rest| + 1
      invariant forall j :: 0 <= j < i ==> !Holds(rest, j)
    {
      if Holds(rest, i) {
        return Some(i);
      }
      i := i + 1;
    }
    return None;
  }

  lemma FoundIsFirst(rest: Bytes, at: nat)
    requires at <= |rest| && Holds(rest, at)
    requires forall j :: 0 <= j < at ==> !Holds(rest, j)
    ensures First(rest) == at && |MARKER| <= |rest| - at
  {
    hide Holds, Compatible;
    HeldFits(rest, at);
    WhatIsCompatible(rest, at);
    forall j | 0 <= j < at
      ensures !Compatible(rest[j..])
    {
      WhatIsCompatible(rest, j);
    }
    FirstIs(rest, at);
  }

  lemma HeldFits(text: Bytes, at: nat)
    requires at <= |text| && Holds(text, at)
    ensures |MARKER| <= |text| - at
  {
  }

  lemma WhatIsCompatible(text: Bytes, at: nat)
    requires at <= |text|
    ensures Compatible(text[at..]) <==>
      if |text| - at < |MARKER| then EndsInMarker(text, |text| - at) else Holds(text, at)
  {
    var s := text[at..];
    if |s| == |MARKER| && s <= MARKER {
      assert s == MARKER;
    }
    if |s| < |MARKER| {
      assert text[|text| - |s|..] == s;
    }
  }

  lemma KeptIsFirst(rest: Bytes, keep: nat)
    requires keep <= |rest| && keep < |MARKER|
    requires keep == 0 || EndsInMarker(rest, keep)
    requires forall k :: keep < k <= |rest| && k < |MARKER| ==> !EndsInMarker(rest, k)
    requires forall j :: 0 <= j <= |rest| ==> !Holds(rest, j)
    ensures First(rest) == |rest| - keep
  {
    hide Holds, Compatible, EndsInMarker;
    forall j | 0 <= j < |rest| - keep
      ensures !Compatible(rest[j..])
    {
      WhatIsCompatible(rest, j);
    }
    WhatIsCompatible(rest, |rest| - keep);
    NothingEnds(rest);
    FirstIs(rest, |rest| - keep);
  }

  lemma NothingEnds(rest: Bytes)
    ensures EndsInMarker(rest, 0)
  {
  }

  /** What a pass is, by the mode it starts in. */
  lemma PassOf(s: Input)
    requires s.held != []
    ensures s.pasting ==> Consume(s) == TakePayload(s.held, s.paste)
    ensures !s.pasting ==> var t := TakeOne(s.held); Consume(s) == Pass(t.count, t.events, s.paste, t.pasting)
  {
  }
}
