/** Bytes from the terminal into events (decode.cpp): UTF-8, CSI and SS3 keys and bracketed paste, over
    one held prefix, however the bytes were split across reads. */
module Decoder {
  import opened Wrappers
  import opened Utf8
  import Sgr

  datatype Modifiers = Modifiers(shift: bool, alt: bool, ctrl: bool)

  datatype NamedKey =
    | Backspace | Left | Right | Home | End | Up | Down | PageUp | PageDown | Insert | DeleteForward
    | F1 | F2 | F3 | F4 | F5 | F6 | F7 | F8 | F9 | F10 | F11 | F12

  datatype Event =
    | Char(codepoint: int, modifiers: Modifiers)
    | Named(key: NamedKey, modifiers: Modifiers)
    | Paste(text: Bytes)

  const PLAIN := Modifiers(false, false, false)
  const ALT := Modifiers(false, true, false)

  const ESC: Byte := 0x1B
  const ESCAPE := Char(0x1B, PLAIN)

  const MARKER: Bytes := [0x1B, 0x5B, 0x32, 0x30, 0x31, 0x7E]
  const OPENING: Bytes := [0x1B, 0x5B, 0x32, 0x30, 0x30, 0x7E]

  const PASTE_START := 200
  const PASTE_END := 201

  // ----- the tables -----

  function ModifiersFrom(parameter: nat): Modifiers {
    if parameter < 2 then PLAIN
    else
      var mask := parameter - 1;
      Modifiers(mask % 2 == 1, mask / 2 % 2 == 1, mask / 4 % 2 == 1)
  }

  function KeyForFinal(final: char): Option<NamedKey> {
    match final
    case 'A' => Some(Up)
    case 'B' => Some(Down)
    case 'C' => Some(Right)
    case 'D' => Some(Left)
    case 'H' => Some(Home)
    case 'F' => Some(End)
    case 'P' => Some(F1)
    case 'Q' => Some(F2)
    case 'R' => Some(F3)
    case 'S' => Some(F4)
    case _ => None
  }

  function KeyForTilde(parameter: nat): Option<NamedKey> {
    match parameter
    case 1 => Some(Home)
    case 7 => Some(Home)
    case 2 => Some(Insert)
    case 3 => Some(DeleteForward)
    case 4 => Some(End)
    case 8 => Some(End)
    case 5 => Some(PageUp)
    case 6 => Some(PageDown)
    case 11 => Some(F1)
    case 12 => Some(F2)
    case 13 => Some(F3)
    case 14 => Some(F4)
    case 15 => Some(F5)
    case 17 => Some(F6)
    case 18 => Some(F7)
    case 19 => Some(F8)
    case 20 => Some(F9)
    case 21 => Some(F10)
    case 23 => Some(F11)
    case 24 => Some(F12)
    case _ => None
  }

  // ----- the parameters of a CSI sequence -----

  datatype Parameters = Parameters(first: nat, second: nat, hasFirst: bool, privateUse: bool)

  predicate IsPrivate(c: char) {
    '<' <= c <= '?'
  }

  ghost predicate AnyPrivate(text: string) {
    exists i :: 0 <= i < |text| && IsPrivate(text[i])
  }

  /** The number of the field a text starts with: its first digit run, unless a `:` comes before it. */
  function Number(text: string): Option<nat> {
    if text == [] || text[0] == ';' || text[0] == ':' then None
    else if Sgr.IsDigit(text[0]) then Some(Sgr.ValueOf(text[..Sgr.DigitRun(text)]))
    else Number(text[1..])
  }

  /** The text behind the first `;`. */
  function NextField(text: string): Option<string> {
    if text == [] then None
    else if text[0] == ';' then Some(text[1..])
    else NextField(text[1..])
  }

  function OrZero(n: Option<nat>): nat {
    if n.Some? then n.value else 0
  }

  ghost function ReadParameters(text: string): Parameters {
    var next := NextField(text);
    Parameters(OrZero(Number(text)), if next.Some? then OrZero(Number(next.value)) else 0,
               Number(text).Some?, AnyPrivate(text))
  }

  lemma {:induction false} DigitsHoldNoField(text: string, n: nat)
    requires n <= |text| && forall i :: 0 <= i < n ==> Sgr.IsDigit(text[i])
    ensures NextField(text) == NextField(text[n..])
    ensures AnyPrivate(text) == AnyPrivate(text[n..])
  {
    if n == 0 {
      assert text[0..] == text;
    } else {
      DigitsHoldNoField(text[1..], n - 1);
      assert text[1..][n - 1..] == text[n..];
      PrivateStep(text);
    }
  }

  lemma PrivateStep(text: string)
    requires text != []
    ensures AnyPrivate(text) <==> IsPrivate(text[0]) || AnyPrivate(text[1..])
  {
    if AnyPrivate(text) && !IsPrivate(text[0]) {
      var i :| 0 <= i < |text| && IsPrivate(text[i]);
      assert IsPrivate(text[1..][i - 1]);
    }
    if AnyPrivate(text[1..]) {
      var i :| 0 <= i < |text| - 1 && IsPrivate(text[1..][i]);
      assert IsPrivate(text[i + 1]);
    }
  }

  /** What the rest of a field leaves of its number. */
  function NumberFrom(value: nat, seen: bool, inSub: bool, rest: string): Option<nat> {
    if seen then Some(value) else if inSub then None else Number(rest)
  }

  method ParseParameters(text: string) returns (parsed: Parameters)
    ensures parsed == ReadParameters(text)
  {
    hide Sgr.ValueOf, Sgr.DigitRun, AnyPrivate, Number, NextField, Sgr.IsDigit;
    parsed := Parameters(0, 0, false, false);
    var value, seen, inSub, field, i := 0, false, false, 0, 0;
    ghost var next := NextField(text);
    assert text[0..] == text;
    while i < |text|
      invariant i <= |text| && field <= 2
      invariant !seen ==> value == 0
      invariant parsed.privateUse || AnyPrivate(text[i..]) <==> AnyPrivate(text)
      invariant field == 0 ==> NumberFrom(value, seen, inSub, text[i..]) == Number(text) && NextField(text[i..]) == next
      invariant field == 0 ==> parsed.second == 0
      invariant field >= 1 ==>
        next.Some? && parsed.first == OrZero(Number(text)) && parsed.hasFirst == Number(text).Some?
      invariant field == 1 ==> NumberFrom(value, seen, inSub, text[i..]) == Number(next.value)
      invariant field == 2 ==> parsed.second == OrZero(Number(next.value))
    {
      ghost var rest := text[i..];
      assert rest[1..] == text[i + 1..];
      PrivateStep(rest);
      FieldStep(rest);
      var c := text[i];
      if IsPrivate(c) {
        parsed := parsed.(privateUse := true);
        i := i + 1;
      } else if c == ';' {
        parsed := Store(parsed, field, value, seen);
        field := if field < 2 then field + 1 else 2;
        value, seen, inSub := 0, false, false;
        i := i + 1;
      } else if c == ':' {
        inSub := true;
        i := i + 1;
      } else if Sgr.IsDigit(c) {
        var consumed, run := Sgr.ScanDigits(text[i..]);
        DigitsHoldNoField(rest, consumed);
        assert rest[consumed..] == text[i + consumed..];
        if !inSub && !seen {
          value, seen := run, true;
        }
        i := i + consumed;
      } else {
        i := i + 1;
      }
    }
    assert text[i..] == [];
    FieldStep([]);
    EndOfParameters();
    parsed := Store(parsed, field, value, seen);
  }

  lemma EndOfParameters()
    ensures !AnyPrivate([])
  {
  }

  /** How the field readings change over one character. */
  lemma FieldStep(rest: string)
    ensures rest == [] ==> Number(rest) == None && NextField(rest) == None
    ensures rest != [] && rest[0] == ';' ==> Number(rest) == None && NextField(rest) == Some(rest[1..])
    ensures rest != [] && rest[0] == ':' ==> Number(rest) == None
    ensures rest != [] && rest[0] != ';' ==> NextField(rest) == NextField(rest[1..])
    ensures rest != [] && Sgr.IsDigit(rest[0]) ==>
      0 < Sgr.DigitRun(rest) && Number(rest) == Some(Sgr.ValueOf(rest[..Sgr.DigitRun(rest)]))
    ensures rest != [] && rest[0] != ';' && rest[0] != ':' && !Sgr.IsDigit(rest[0]) ==>
      Number(rest) == Number(rest[1..])
    ensures rest != [] && IsPrivate(rest[0]) ==> !Sgr.IsDigit(rest[0])
  {
  }

  /** `store`: a field's number, if it is one of the two that are read. */
  function Store(parsed: Parameters, field: nat, value: nat, seen: bool): Parameters {
    if field == 0 then parsed.(first := value, hasFirst := seen)
    else if field == 1 then parsed.(second := value)
    else parsed
  }

  // ----- one event off the front, outside a paste -----

  /** What a pass over the front of the input took; zero bytes is "still arriving". */
  datatype Taken = Taken(count: nat, events: seq<Event>, pasting: bool)

  const WAIT := Taken(0, [], false)

  /** `emit_text`. */
  function TakeText(rest: Bytes, modifiers: Modifiers): Taken
    requires rest != []
  {
    match ScanScalar(rest)
    case Incomplete => WAIT
    case Malformed(n) => Taken(n, [Char(REPLACEMENT, modifiers)], false)
    case Valid(c, n) => Taken(n, [Char(c, modifiers)], false)
  }

  predicate IsFinal(b: Byte) {
    0x40 <= b <= 0x7E
  }

  function Chars(bytes: Bytes): string {
    seq(|bytes|, i requires 0 <= i < |bytes| => bytes[i] as char)
  }

  /** The end of the run of bytes from `low` to `high` that starts at `at`. */
  function RunEnd(text: Bytes, at: nat, low: Byte, high: Byte): (end: nat)
    requires at <= |text|
    ensures at <= end <= |text|
    ensures forall i :: at <= i < end ==> low <= text[i] <= high
    ensures end < |text| ==> !(low <= text[end] <= high)
    decreases |text| - at
  {
    if at < |text| && low <= text[at] <= high then RunEnd(text, at + 1, low, high) else at
  }

  /** What a finished CSI sequence says. */
  ghost function Meaning(p: Parameters, final: char): (r: (seq<Event>, bool)) {
    if p.privateUse then ([], false)
    else if final == '~' then
      if p.first == PASTE_START then ([], true)
      else if p.first == PASTE_END || KeyForTilde(p.first).None? then ([], false)
      else ([Named(KeyForTilde(p.first).value, ModifiersFrom(p.second))], false)
    else if KeyForFinal(final).Some? && (!p.hasFirst || p.first == 1) then
      ([Named(KeyForFinal(final).value, ModifiersFrom(p.second))], false)
    else ([], false)
  }

  ghost function TakeCsi(rest: Bytes): Taken
    requires 2 <= |rest|
  {
    var end := RunEnd(rest, 2, 0x30, 0x3F);
    var at := RunEnd(rest, end, 0x20, 0x2F);
    if at == |rest| then WAIT
    else if !IsFinal(rest[at]) then Taken(at, [], false)
    else
      var (events, pasting) := Meaning(ReadParameters(Chars(rest[2..end])), rest[at] as char);
      Taken(at + 1, events, pasting)
  }

  function TakeSs3(rest: Bytes): Taken
    requires 2 <= |rest|
  {
    if |rest| < 3 then WAIT
    else if !IsFinal(rest[2]) then Taken(2, [], false)
    else
      var key := KeyForFinal(rest[2] as char);
      Taken(3, if key.Some? then [Named(key.value, PLAIN)] else [], false)
  }

  ghost function TakeEscape(rest: Bytes): Taken
    requires rest != []
  {
    if |rest| < 2 then WAIT
    else if rest[1] == 0x5B then TakeCsi(rest)
    else if rest[1] == 0x4F then TakeSs3(rest)
    else if rest[1] == ESC then Taken(1, [ESCAPE], false)
    else
      var t := TakeText(rest[1..], ALT);
      if t.count == 0 then WAIT else t.(count := t.count + 1)
  }

  ghost function TakeOne(rest: Bytes): (t: Taken)
    requires rest != []
    ensures t.count <= |rest|
    ensures t.count == 0 ==> t == WAIT
  {
    if rest[0] == ESC then TakeEscape(rest) else TakeText(rest, PLAIN)
  }

  // ----- a paste -----

  predicate Compatible(s: Bytes) {
    s <= MARKER || MARKER <= s
  }

  /** The closing marker stands at an offset. */
  predicate Holds(text: Bytes, at: nat)
    requires at <= |text|
  {
    MARKER <= text[at..]
  }

  /** Where the closing marker begins, or what may still become one. */
  function First(rest: Bytes): (i: nat)
    ensures i <= |rest| && Compatible(rest[i..])
    ensures forall j :: 0 <= j < i ==> !Compatible(rest[j..])
  {
    if Compatible(rest) then assert rest[0..] == rest; 0
    else
      var i := First(rest[1..]);
      assert rest[1..][i..] == rest[i + 1..];
      assert forall j :: 0 < j <= i ==> rest[1..][j - 1..] == rest[j..];
      i + 1
  }

  // ----- the whole of the held input -----

  datatype Input = Input(held: Bytes, paste: Bytes, pasting: bool) {
    function More(bytes: Bytes): Input {
      this.(held := held + bytes)
    }
  }

  const FRESH := Input([], [], false)

  /** What one pass of `drain` takes, and the paste it leaves. */
  datatype Pass = Pass(count: nat, events: seq<Event>, paste: Bytes, pasting: bool)

  ghost function TakePayload(rest: Bytes, paste: Bytes): Pass {
    var i := First(rest);
    if |MARKER| <= |rest| - i then
      Pass(i + |MARKER|, [Paste(EncodeAll(Scalars(paste + rest[..i])))], [], false)
    else Pass(i, [], paste + rest[..i], true)
  }

  ghost function Consume(s: Input): (p: Pass)
    requires s.held != []
    ensures p.count <= |s.held|
    ensures p.count == 0 ==> p == Pass(0, [], s.paste, s.pasting)
  {
    if s.pasting then
      var p := TakePayload(s.held, s.paste);
      assert p.count == 0 ==> s.paste + s.held[..0] == s.paste;
      p
    else
      var t := TakeOne(s.held);
      Pass(t.count, t.events, s.paste, t.pasting)
  }

  ghost predicate Settled(s: Input) {
    s.held == [] || Consume(s).count == 0
  }

  ghost function Rest(s: Input): Input
    requires s.held != []
  {
    var p := Consume(s);
    Input(s.held[p.count..], p.paste, p.pasting)
  }

  /** `drain`: everything that is complete. */
  ghost function Drained(s: Input): (r: (Input, seq<Event>))
    ensures Settled(r.0)
    ensures Settled(s) ==> r == (s, [])
    decreases |s.held|
  {
    if Settled(s) then (s, [])
    else
      var (last, events) := Drained(Rest(s));
      (last, Consume(s).events + events)
  }

  // ----- how the bytes were split does not matter -----

  lemma RunEndStays(text: Bytes, at: nat, low: Byte, high: Byte, more: Bytes)
    requires at <= |text| && RunEnd(text, at, low, high) < |text|
    ensures RunEnd(text + more, at, low, high) == RunEnd(text, at, low, high)
    decreases |text| - at
  {
    if low <= text[at] <= high {
      RunEndStays(text, at + 1, low, high, more);
    }
  }

  /** Whatever is complete stays what it is however the input goes on. */
  lemma TakenStays(rest: Bytes, more: Bytes)
    requires rest != [] && TakeOne(rest).count != 0
    ensures TakeOne(rest + more) == TakeOne(rest)
  {
    hide RunEnd, Meaning, ScanScalar, ReadParameters;
    var whole := rest + more;
    if rest[0] != ESC {
      ScanStays(rest, more);
    } else if |rest| < 2 {
    } else if rest[1] == 0x5B {
      var end := RunEnd(rest, 2, 0x30, 0x3F);
      var at := RunEnd(rest, end, 0x20, 0x2F);
      RunEndStays(rest, 2, 0x30, 0x3F, more);
      RunEndStays(rest, end, 0x20, 0x2F, more);
      assert whole[2..end] == rest[2..end];
    } else if rest[1] != 0x4F && rest[1] != ESC {
      ScanStays(rest[1..], more);
      assert whole[1..] == rest[1..] + more;
    }
  }

  lemma ScanStays(rest: Bytes, more: Bytes)
    requires rest != [] && !ScanScalar(rest).Incomplete?
    ensures ScanScalar(rest + more) == ScanScalar(rest)
  {
  }

  lemma FirstIs(rest: Bytes, i: nat)
    requires i <= |rest| && Compatible(rest[i..])
    requires forall j :: 0 <= j < i ==> !Compatible(rest[j..])
    ensures First(rest) == i
  {
    assert Compatible(rest[First(rest)..]);
  }

  /** More input can only rule a beginning marker out. */
  lemma FirstGrows(rest: Bytes, more: Bytes)
    ensures First(rest) <= First(rest + more)
    ensures |MARKER| <= |rest| - First(rest) ==> First(rest + more) == First(rest)
  {
    hide Compatible;
    var whole, i := rest + more, First(rest);
    forall j | 0 <= j < i
      ensures !Compatible(whole[j..])
    {
      assert whole[j..] == rest[j..] + more;
      CompatibleGrows(rest[j..], more);
    }
    assert Compatible(whole[First(whole)..]);
    if |MARKER| <= |rest| - i {
      assert whole[i..] == rest[i..] + more;
      CompatibleGrows(rest[i..], more);
      FirstIs(whole, i);
    }
  }

  lemma CompatibleGrows(s: Bytes, more: Bytes)
    ensures Compatible(s + more) ==> Compatible(s)
    ensures Compatible(s) && |MARKER| <= |s| ==> Compatible(s + more)
  {
    assert (s + more)[..|s|] == s;
  }

  /** Draining, one pass unfolded. */
  lemma DrainedStep(s: Input)
    ensures !Settled(s) ==> Drained(s).0 == Drained(Rest(s)).0 && Drained(s).1 == Consume(s).events + Drained(Rest(s)).1
    ensures Settled(s) ==> Drained(s) == (s, [])
  {
  }

  /** A pass inside a paste: the payload goes to the paste, and a whole marker ends it. */
  lemma PayloadPass(text: Bytes, paste: Bytes)
    requires text != []
    ensures var s, i := Input(text, paste, true), First(text);
      if |MARKER| <= |text| - i then
        !Settled(s) && Rest(s) == Input(text[i + |MARKER|..], [], false)
        && Consume(s).events == [Paste(EncodeAll(Scalars(paste + text[..i])))]
      else if i > 0 then !Settled(s) && Rest(s) == Input(text[i..], paste + text[..i], true) && Consume(s).events == []
      else Settled(s)
  {
    hide First;
  }

  /** Payload may be taken in any pieces. */
  lemma PayloadSplits(text: Bytes, i: nat, paste: Bytes)
    requires i <= First(text)
    ensures Drained(Input(text, paste, true)) == Drained(Input(text[i..], paste + text[..i], true))
  {
    hide Scalars, EncodeAll, Consume, Rest, Compatible, First, Drained;
    var first, left, right := First(text), Input(text, paste, true), Input(text[i..], paste + text[..i], true);
    FirstOfRest(text, i);
    DrainedStep(left);
    DrainedStep(right);
    assert text[i..][..first - i] == text[i..first];
    assert paste + text[..i] + text[i..first] == paste + text[..first];
    if text != [] { PayloadPass(text, paste); }
    if text[i..] != [] { PayloadPass(text[i..], paste + text[..i]); }
    if |MARKER| <= |text| - first {
      assert text[first + |MARKER|..] == text[i..][first - i + |MARKER|..];
    } else if i < first {
      assert text[i..][first - i..] == text[first..];
    } else if i == 0 {
      assert text[0..] == text && paste + text[..0] == paste;
    }
  }

  lemma FirstOfRest(text: Bytes, i: nat)
    requires i <= First(text)
    ensures First(text[i..]) == First(text) - i
  {
    assert forall j :: 0 <= j <= First(text) - i ==> text[i..][j..] == text[i + j..];
    FirstIs(text[i..], First(text) - i);
  }

  /** One pass with more input behind it comes to the same. */
  lemma PassJoins(s: Input, more: Bytes)
    requires !Settled(s)
    ensures var whole := s.More(more);
      Drained(whole).0 == Drained(Rest(s).More(more)).0
      && Drained(whole).1 == Consume(s).events + Drained(Rest(s).More(more)).1
  {
    hide Scalars, EncodeAll, TakeOne, Drained, First;
    var whole, p, next := s.More(more), Consume(s), Rest(s);
    assert whole.held[p.count..] == next.held + more;
    DrainedStep(whole);
    if s.pasting {
      FirstGrows(s.held, more);
      var i := First(s.held);
      assert whole.held[..i] == s.held[..i];
      if |MARKER| > |s.held| - i {
        PayloadSplits(whole.held, i, s.paste);
      }
    } else {
      TakenStays(s.held, more);
    }
  }

  /** Draining what has come so far, and then the rest behind what was held, is draining it all. */
  lemma {:induction false} DrainJoins(s: Input, more: Bytes)
    ensures var (middle, events) := Drained(s);
      var (last, others) := Drained(middle.More(more));
      Drained(s.More(more)) == (last, events + others)
    decreases |s.held|
  {
    hide Consume, Settled, Rest, Drained;
    DrainedStep(s);
    if !Settled(s) {
      assert |Rest(s).held| < |s.held| by { RestIsShorter(s); }
      PassJoins(s, more);
      DrainJoins(Rest(s), more);
      var head, tail := Consume(s).events, Drained(Rest(s));
      var others := Drained(tail.0.More(more)).1;
      assert head + tail.1 + others == head + (tail.1 + others);
    } else {
      assert [] + Drained(s.More(more)).1 == Drained(s.More(more)).1;
    }
  }

  lemma RestIsShorter(s: Input)
    requires !Settled(s)
    ensures |Rest(s).held| < |s.held|
  {
  }

  // ----- with the escape timeout -----

  datatype State = State(input: Input, deadline: Option<int>)

  /** Only an ESC prefix waits on time. */
  predicate Waits(s: Input) {
    !s.pasting && s.held != [] && s.held[0] == ESC
  }

  /** `arm`: anchored to when the ESC first arrived. */
  function Armed(deadline: Option<int>, s: Input, now: int, timeout: int): Option<int> {
    if !Waits(s) then None else if deadline.None? then Some(now + timeout) else deadline
  }

  ghost function Fed(d: State, bytes: Bytes, now: int, timeout: int): (State, seq<Event>) {
    var (s, events) := Drained(d.input.More(bytes));
    (State(s, Armed(d.deadline, s, now, timeout)), events)
  }

  /** `expire`: an ESC that waited out its time was the Escape key, and what followed it is input. */
  ghost function Expired(d: State, now: int, timeout: int): (State, seq<Event>) {
    if d.deadline.None? || now < d.deadline.value then (d, [])
    else if d.input.held == [] || d.input.held[0] != ESC then (d.(deadline := None), [])
    else
      var (s, events) := Drained(d.input.(held := d.input.held[1..]));
      (State(s, Armed(None, s, now, timeout)), [ESCAPE] + events)
  }

  /** What every call leaves: nothing complete is held, and a deadline stands exactly while an ESC
      prefix waits. */
  ghost predicate Resting(d: State) {
    && Settled(d.input)
    && (d.deadline.Some? <==> Waits(d.input))
  }

  /** The same bytes in pieces, all at one instant. */
  ghost function FedAll(d: State, pieces: seq<Bytes>, now: int, timeout: int): (r: (State, seq<Event>))
    decreases |pieces|
  {
    if pieces == [] then (d, [])
    else
      var (next, events) := Fed(d, pieces[0], now, timeout);
      var (last, others) := FedAll(next, pieces[1..], now, timeout);
      (last, events + others)
  }

  function Together(pieces: seq<Bytes>): Bytes {
    if pieces == [] then [] else pieces[0] + Together(pieces[1..])
  }

  /** An ESC prefix stays held after every piece. */
  ghost predicate WaitsThroughout(s: Input, pieces: seq<Bytes>)
    decreases |pieces|
  {
    pieces != [] ==>
      var next := Drained(s.More(pieces[0])).0;
      Waits(next) && WaitsThroughout(next, pieces[1..])
  }

  /** However a text is split, its events, what is held and the paste are those of feeding it whole.
      The deadline is too, exactly unless an ESC waits at the end under a deadline older than these
      bytes although in between none did: whole, it keeps the old deadline; in pieces, it gets its own. */
  lemma {:induction false} ChunksDoNotMatter(d: State, pieces: seq<Bytes>, now: int, timeout: int)
    requires Settled(d.input)
    requires pieces != []
    ensures var (split, events) := FedAll(d, pieces, now, timeout);
      var (whole, others) := Fed(d, Together(pieces), now, timeout);
      && split.input == whole.input && events == others
      && (split.deadline == whole.deadline <==>
          !Waits(whole.input) || d.deadline == None || d.deadline == Some(now + timeout) ||
              WaitsThroughout(d.input, pieces))
    decreases |pieces|
  {
    hide Drained;
    var bytes, rest := pieces[0], pieces[1..];
    var (next, events) := Fed(d, bytes, now, timeout);
    var (last, others) := FedAll(next, rest, now, timeout);
    DrainJoins(d.input.More(bytes), Together(rest));
    assert d.input.More(Together(pieces)) == d.input.More(bytes).More(Together(rest));
    if rest == [] {
      assert next.input.More([]) == next.input;
      assert Drained(next.input) == (next.input, []);
      assert events + [] == events;
    } else {
      ChunksDoNotMatter(next, rest, now, timeout);
    }
  }

  /** What is held has no ESC but the one it may begin with. */
  lemma OneEscapeHeld(s: Input)
    requires Settled(s) && s.held != []
    ensures ESC !in s.held[1..]
  {
    hide First, ScanScalar, RunEnd;
    var rest := s.held;
    if s.pasting {
      assert rest[First(rest)..] == rest;
      assert forall i :: 0 <= i < |rest| ==> rest[i] == MARKER[i];
    } else if rest[0] != ESC {
      PartHasNoEscape(rest);
    } else if 2 <= |rest| && rest[1] != 0x5B && rest[1] != 0x4F {
      PartHasNoEscape(rest[1..]);
    }
  }

  /** Nor has the part of a character that has come so far. */
  lemma PartHasNoEscape(rest: Bytes)
    requires rest != [] && ScanScalar(rest).Incomplete?
    ensures ESC !in rest
  {
  }

  /** Draining keeps a part from the end. */
  lemma {:induction false} DrainedEnds(s: Input)
    ensures var after := Drained(s).0;
      && |after.held| <= |s.held| && after.held == s.held[|s.held| - |after.held|..]
      && (|after.held| == |s.held| ==> Settled(s))
    decreases |s.held|
  {
    hide Consume, Settled, Rest, Drained;
    DrainedStep(s);
    if !Settled(s) {
      assert Settled(s) || (|Rest(s).held| < |s.held| && Rest(s).held == s.held[|s.held| - |Rest(s).held|..])
          by { RestEnds(s); }
      DrainedEnds(Rest(s));
    }
  }

  lemma RestEnds(s: Input)
    requires !Settled(s)
    ensures |Rest(s).held| < |s.held| && Rest(s).held == s.held[|s.held| - |Rest(s).held|..]
  {
    RestIsShorter(s);
  }

  /** Input without an ESC leaves an ESC waiting only if it is all still held. */
  lemma NothingCame(s: Input, bytes: Bytes)
    requires Settled(s) && ESC !in bytes && Waits(Drained(s.More(bytes)).0)
    ensures Settled(s.More(bytes)) && Waits(s.More(bytes))
  {
    hide Settled, Drained;
    var whole := s.More(bytes);
    var after := Drained(whole).0;
    DrainedEnds(whole);
    if s.held != [] {
      OneEscapeHeld(s);
    }
    assert forall i :: 1 <= i < |s.held| ==> s.held[i] == s.held[1..][i - 1];
    assert forall i :: 0 <= i < |whole.held| && whole.held[i] == ESC ==> i == 0;
    assert after.held[0] == whole.held[|whole.held| - |after.held|];
    DrainedStep(whole);
  }

  /** What settles with more input was settled before it. */
  lemma SettledBefore(s: Input, more: Bytes)
    requires Settled(s.More(more)) && Waits(s.More(more))
    ensures Settled(s) && (s.held != [] ==> Waits(s))
  {
    hide TakeOne;
    if s.held != [] && TakeOne(s.held).count != 0 {
      TakenStays(s.held, more);
    }
  }

  lemma {:induction false} AllHeldThroughout(s: Input, pieces: seq<Bytes>)
    requires Settled(s) && s.held != []
    requires Settled(s.More(Together(pieces))) && Waits(s.More(Together(pieces)))
    ensures WaitsThroughout(s, pieces)
    decreases |pieces|
  {
    hide Settled, Drained;
    if pieces != [] {
      var next := s.More(pieces[0]);
      assert s.More(Together(pieces)) == next.More(Together(pieces[1..]));
      SettledBefore(next, Together(pieces[1..]));
      DrainedStep(next);
      AllHeldThroughout(next, pieces[1..]);
    }
  }

  /** So the deadline is the same whenever no ESC is among the new bytes, or no deadline was pending. */
  lemma DeadlineNeedsEscape(d: State, pieces: seq<Bytes>, now: int, timeout: int)
    requires Resting(d) && pieces != []
    requires ESC !in Together(pieces) || d.deadline == None
    ensures FedAll(d, pieces, now, timeout).0.deadline == Fed(d, Together(pieces), now, timeout).0.deadline
  {
    hide Settled, Drained, FedAll, Together, WaitsThroughout;
    ChunksDoNotMatter(d, pieces, now, timeout);
    var bytes := Together(pieces);
    if d.deadline != None && Waits(Fed(d, bytes, now, timeout).0.input) {
      NothingCame(d.input, bytes);
      AllHeldThroughout(d.input, pieces);
    }
  }

  /** The second ESC inherits the first one's deadline when both come in one read. */
  lemma InheritedDeadline()
    ensures var d := State(Input([ESC], [], false), Some(10));
      && Resting(d)
      && Fed(d, [0x61, ESC], 5, 50).0.deadline == Some(10)
      && FedAll(d, [[0x61], [ESC]], 5, 50).0.deadline == Some(55)
  {
    hide Drained;
    var d, pieces := State(Input([ESC], [], false), Some(10)), [[0x61], [ESC]];
    var both := Input([ESC, 0x61, ESC], [], false);
    var alt := Input([ESC, 0x61], [], false);
    DrainedStep(both);
    DrainedStep(alt);
    assert TakeOne(both.held) == Taken(2, [Char(0x61, ALT)], false);
    assert TakeOne(alt.held) == Taken(2, [Char(0x61, ALT)], false);
    assert both.held[2..] == [ESC] && alt.held[2..] == [];
    assert Settled(d.input);
    DrainedStep(d.input);
    DrainedStep(FRESH);
    assert d.input.More([0x61, ESC]) == both && d.input.More([0x61]) == alt && FRESH.More([ESC]) == d.input;
    assert pieces[1..] == [[ESC]];
    var next := Fed(d, [0x61], 5, 50).0;
    assert next == State(FRESH, None);
    assert FedAll(next, [[ESC]], 5, 50).0 == FedAll(Fed(next, [ESC], 5, 50).0, [], 5, 50).0;
  }

  // ----- nothing is held that could not be completed -----

  /** Whatever is held back, some continuation completes it: no byte stalls the input. */
  lemma NothingIsStuck(s: Input) returns (more: Bytes)
    requires s.held != [] && Settled(s)
    ensures !Settled(s.More(more))
  {
    hide First, Meaning, ReadParameters, RunEnd, Scalars, EncodeAll, ScanScalar;
    if s.pasting {
      more := RestOfMarker(s.held);
    } else if s.held[0] != ESC {
      more := Completion(s.held);
    } else if |s.held| == 1 {
      more := [ESC];
    } else if s.held[1] == 0x4F {
      more := [0x41];
    } else if s.held[1] == 0x5B {
      more := [0x41];
      var whole := s.held + more;
      assert whole[|s.held|] == 0x41 && IsFinal(0x41);
      assert RunEnd(whole, 2, 0x30, 0x3F) < |whole|;
    } else {
      more := Completion(s.held[1..]);
      assert (s.held + more)[1..] == s.held[1..] + more;
    }
  }

  lemma RestOfMarker(held: Bytes) returns (more: Bytes)
    requires held != [] && First(held) == 0 && |held| < |MARKER|
    ensures First(held + more) == 0 && |held + more| == |MARKER|
  {
    hide First;
    assert held[0..] == held;
    more := MARKER[|held|..];
    assert held + more == MARKER && MARKER[0..] == MARKER;
    FirstIs(MARKER, 0);
  }

  lemma Completion(rest: Bytes) returns (more: Bytes)
    requires rest != [] && ScanScalar(rest).Incomplete?
    ensures !ScanScalar(rest + more).Incomplete?
  {
    hide ScanScalar, Encode;
    var c := Promised(rest);
    more := Encode(c)[|rest|..];
    assert rest + more == Encode(c) + [];
    ScanEncoded(c, []);
  }

  // ----- typed and pasted alike -----

  predicate NoEscape(bytes: Bytes) {
    ESC !in bytes
  }

  /** Plain keys, and the characters they are. */
  predicate Typed(events: seq<Event>) {
    forall e :: e in events ==> e.Char? && e.modifiers == PLAIN
  }

  function Codepoints(events: seq<Event>): seq<int>
    requires Typed(events)
  {
    seq(|events|, i requires 0 <= i < |events| => assert events[i] in events; events[i].codepoint)
  }

  /** Typed, bytes without an ESC become one plain key for each character they are read as; a truncated
      character at the end is held. */
  lemma {:induction false} TypedAsRead(bytes: Bytes, paste: Bytes)
    requires NoEscape(bytes)
    ensures var (s, events) := Drained(Input(bytes, paste, false));
      && Typed(events) && !s.pasting && s.paste == paste && NoEscape(s.held)
      && Scalars(bytes) == Codepoints(events) + (if s.held == [] then [] else [REPLACEMENT])
    decreases |bytes|
  {
    hide ScanScalar, Drained;
    var s := Input(bytes, paste, false);
    DrainedStep(s);
    if bytes != [] && !Settled(s) {
      assert ScanScalar(bytes).Valid? || ScanScalar(bytes).Malformed?;
      TypedAsRead(Rest(s).held, paste);
      var (last, events) := Drained(Rest(s));
      var key := Consume(s).events[0];
      assert Codepoints([key] + events) == [key.codepoint] + Codepoints(events);
    }
  }

  /** The closing marker overlaps nothing: it is found exactly behind a payload that does not hold it. */
  lemma MarkerAfter(payload: Bytes)
    requires forall i :: 0 <= i <= |payload| ==> !Holds(payload, i)
    ensures First(payload + MARKER) == |payload|
  {
    hide Compatible, Holds;
    var text := payload + MARKER;
    assert text[|payload|..] == MARKER;
    MarkerIsCompatible();
    forall j | 0 <= j < |payload|
      ensures !Compatible(text[j..])
    {
      NotBefore(payload, j);
    }
    FirstIs(text, |payload|);
  }

  lemma NotBefore(payload: Bytes, j: nat)
    requires j < |payload| && !Holds(payload, j)
    ensures !Compatible((payload + MARKER)[j..])
  {
    assert (payload + MARKER)[j..] == payload[j..] + MARKER;
    NoOverlap(payload[j..]);
  }

  lemma MarkerIsCompatible()
    ensures Compatible(MARKER)
  {
  }

  lemma NoOverlap(s: Bytes)
    requires s != [] && !(MARKER <= s)
    ensures !Compatible(s + MARKER)
  {
    var whole := s + MARKER;
    assert |s| < |MARKER| ==> whole[|s|] == ESC && MARKER[|s|] != ESC;
    assert |MARKER| <= |s| ==> whole[..|MARKER|] == s[..|MARKER|];
  }

  lemma OpeningOpens(rest: Bytes)
    ensures TakeOne(OPENING + rest) == Taken(|OPENING|, [], true)
  {
    hide Sgr.ValueOf, Number, NextField, AnyPrivate;
    var text := OPENING + rest;
    assert RunEnd(text, 5, 0x30, 0x3F) == 5;
    assert RunEnd(text, 4, 0x30, 0x3F) == 5;
    assert RunEnd(text, 3, 0x30, 0x3F) == 5;
    assert RunEnd(text, 2, 0x30, 0x3F) == 5;
    assert RunEnd(text, 5, 0x20, 0x2F) == 5;
    assert Chars(text[2..5]) == "200";
    TwoHundred();
  }

  lemma TwoHundred()
    ensures ReadParameters("200") == Parameters(200, 0, true, false)
  {
    var text := "200";
    assert text[1..] == "00" && "00"[1..] == "0" && "0"[1..] == "";
    assert Sgr.DigitRun("") == 0 && Sgr.DigitRun("0") == 1 && Sgr.DigitRun("00") == 2 && Sgr.DigitRun(text) == 3;
    assert text[..3] == text && text[..2] == "20" && "20"[..1] == "2" && "2"[..0] == "";
    assert Sgr.ValueOf("") == 0 && Sgr.ValueOf("2") == 2 && Sgr.ValueOf("20") == 20 && Sgr.ValueOf(text) == 200;
    assert NextField("") == None && NextField("0") == None && NextField("00") == None && NextField(text) == None;
  }

  /** A bracketed paste is one event, whatever it holds and however it is split, as long as it does not
      hold the closing marker; behind it the decoder is as it was. */
  lemma PasteIsOneEvent(payload: Bytes, pieces: seq<Bytes>, now: int, timeout: int)
    requires forall i :: 0 <= i <= |payload| ==> !Holds(payload, i)
    requires Together(pieces) == OPENING + payload + MARKER
    ensures FedAll(State(FRESH, None), pieces, now, timeout) ==
      (State(FRESH, None), [Paste(EncodeAll(Scalars(payload)))])
  {
    hide Drained, TakeOne, First, Scalars, EncodeAll;
    var text := OPENING + payload + MARKER;
    var s := Input(text, [], false);
    assert text == OPENING + (payload + MARKER);
    OpeningOpens(payload + MARKER);
    var inside := Input(payload + MARKER, [], true);
    assert text[|OPENING|..] == inside.held;
    DrainedStep(s);
    MarkerAfter(payload);
    PayloadPass(inside.held, []);
    assert [] + inside.held[..|payload|] == payload;
    assert inside.held[|payload| + |MARKER|..] == [];
    DrainedStep(inside);
    DrainedStep(FRESH);
    assert FRESH.More(text) == s && Rest(inside) == FRESH && Rest(s) == inside;
    var event := Paste(EncodeAll(Scalars(payload)));
    assert Drained(inside) == (FRESH, [event]) by { assert [event] + [] == [event]; }
    assert Drained(s) == (FRESH, [event]) by { assert [] + [event] == [event]; }
    assert Fed(State(FRESH, None), text, now, timeout) == (State(FRESH, None), [Paste(EncodeAll(Scalars(payload)))]);
    ChunksDoNotMatter(State(FRESH, None), pieces, now, timeout);
  }

  /** The same bytes, typed and pasted, each split anyhow, degrade to the same text: the keys' encodings,
      and one U+FFFD for what is still held, are the paste. */
  lemma TypedIsPasted(bytes: Bytes, typed: seq<Bytes>, pasted: seq<Bytes>, now: int, timeout: int)
    requires NoEscape(bytes) && typed != []
    requires Together(typed) == bytes && Together(pasted) == OPENING + bytes + MARKER
    ensures var (d, keys) := FedAll(State(FRESH, None), typed, now, timeout);
      && Typed(keys)
      && exists cs: seq<Scalar> ::
        && cs == Codepoints(keys) + (if d.input.held == [] then [] else [REPLACEMENT])
        && FedAll(State(FRESH, None), pasted, now, timeout).1 == [Paste(EncodeAll(cs))]
  {
    hide Drained, Scalars, EncodeAll;
    ChunksDoNotMatter(State(FRESH, None), typed, now, timeout);
    assert FRESH.More(bytes) == Input(bytes, [], false);
    TypedAsRead(bytes, []);
    forall i | 0 <= i <= |bytes|
      ensures !Holds(bytes, i)
    {
      assert i < |bytes| ==> bytes[i..][0] == bytes[i] && bytes[i] in bytes;
    }
    PasteIsOneEvent(bytes, pasted, now, timeout);
  }

  // ----- the keys, spelled as xterm spells them -----

  function Ascii(text: string): Bytes
    requires forall i :: 0 <= i < |text| ==> text[i] < 128 as char
  {
    seq(|text|, i requires 0 <= i < |text| => text[i] as int)
  }

  /** The final character of a key's CSI form, and the parameter in front of it. */
  function Spelling(key: NamedKey): Option<(nat, char)> {
    match key
    case Backspace => None
    case Up => Some((1, 'A'))
    case Down => Some((1, 'B'))
    case Right => Some((1, 'C'))
    case Left => Some((1, 'D'))
    case Home => Some((1, 'H'))
    case End => Some((1, 'F'))
    case Insert => Some((2, '~'))
    case DeleteForward => Some((3, '~'))
    case PageUp => Some((5, '~'))
    case PageDown => Some((6, '~'))
    case F1 => Some((1, 'P'))
    case F2 => Some((1, 'Q'))
    case F3 => Some((1, 'R'))
    case F4 => Some((1, 'S'))
    case F5 => Some((15, '~'))
    case F6 => Some((17, '~'))
    case F7 => Some((18, '~'))
    case F8 => Some((19, '~'))
    case F9 => Some((20, '~'))
    case F10 => Some((21, '~'))
    case F11 => Some((23, '~'))
    case F12 => Some((24, '~'))
  }

  function ModifierParameter(m: Modifiers): nat {
    1 + (if m.shift then 1 else 0) + (if m.alt then 2 else 0) + (if m.ctrl then 4 else 0)
  }

  function Csi(parameters: string, final: char): Bytes
    requires forall i :: 0 <= i < |parameters| ==> parameters[i] < 128 as char
    requires final < 128 as char
  {
    [ESC, 0x5B] + Ascii(parameters) + [final as int]
  }

  lemma RunEndIs(text: Bytes, at: nat, low: Byte, high: Byte, end: nat)
    requires at <= end <= |text|
    requires forall i :: at <= i < end ==> low <= text[i] <= high
    requires end < |text| ==> !(low <= text[end] <= high)
    ensures RunEnd(text, at, low, high) == end
  {
  }

  /** A CSI sequence is read as its parameters and its final character say. */
  lemma CsiReads(parameters: string, final: char, more: Bytes)
    requires forall i :: 0 <= i < |parameters| ==> '0' <= parameters[i] <= ';'
    requires '@' <= final <= '~'
    ensures var text, (events, pasting) := Csi(parameters, final), Meaning(ReadParameters(parameters), final);
      TakeOne(text + more) == Taken(|text|, events, pasting)
  {
    hide Meaning, ReadParameters;
    var text := Csi(parameters, final) + more;
    var end := 2 + |parameters|;
    RunEndIs(text, 2, 0x30, 0x3F, end);
    RunEndIs(text, end, 0x20, 0x2F, end);
    assert text[end] as char == final;
    assert Chars(text[2..end]) == parameters;
  }

  /** One number, read up to what ends it. */
  lemma NumberReads(n: nat, rest: string)
    requires n <= Sgr.LIMIT
    requires rest == [] || rest[0] == ';'
    ensures Number(Sgr.Digits(n) + rest) == Some(n)
    ensures NextField(Sgr.Digits(n) + rest) == NextField(rest)
    ensures AnyPrivate(Sgr.Digits(n) + rest) == AnyPrivate(rest)
  {
    var digits := Sgr.Digits(n);
    var text := digits + rest;
    Sgr.DigitsReadBack(n);
    Sgr.DigitRunIs(text, |digits|);
    assert text[..|digits|] == digits && text[|digits|..] == rest;
    DigitsHoldNoField(text, |digits|);
    assert Sgr.IsDigit(text[0]);
  }

  /** The decoder reads back every named key but backspace, which terminals send as a character, with
      every combination of modifiers. */
  lemma KeyReadsBack(key: NamedKey, m: Modifiers, more: Bytes)
    requires Spelling(key).Some?
    ensures var (parameter, final) := Spelling(key).value;
      var parameters := Sgr.Digits(parameter) + ";" + Sgr.Digits(ModifierParameter(m));
      var text := Csi(parameters, final);
      TakeOne(text + more) == Taken(|text|, [Named(key, m)], false)
  {
    hide Sgr.Digits, ReadParameters, NextField, Number, AnyPrivate, TakeOne, Csi, Spelling, ModifierParameter, Meaning;
    SpellingIsSmall(key, m);
    SpellingMeans(key, m);
    var (parameter, final) := Spelling(key).value;
    var second := Sgr.Digits(ModifierParameter(m));
    var parameters := Sgr.Digits(parameter) + ";" + second;
    NumberReads(parameter, ";" + second);
    NumberReads(ModifierParameter(m), "");
    assert Sgr.Digits(parameter) + (";" + second) == parameters && second + "" == second;
    FieldStep(";" + second);
    FieldStep("");
    assert (";" + second)[1..] == second;
    PrivateStep(";" + second);
    EndOfParameters();
    assert ReadParameters(parameters) == Parameters(parameter, ModifierParameter(m), true, false)
        by { ParametersAre(parameters); }
    CsiReads(parameters, final, more);
  }

  lemma SpellingIsSmall(key: NamedKey, m: Modifiers)
    requires Spelling(key).Some?
    ensures Spelling(key).value.0 <= 24 && '@' <= Spelling(key).value.1 <= '~' && ModifierParameter(m) <= 8
  {
  }

  lemma SpellingMeans(key: NamedKey, m: Modifiers)
    requires Spelling(key).Some?
    ensures var (parameter, final) := Spelling(key).value;
      Meaning(Parameters(parameter, ModifierParameter(m), true, false), final) == ([Named(key, m)], false)
  {
  }

  lemma ParametersAre(text: string)
    ensures ReadParameters(text) ==
      Parameters(OrZero(Number(text)), if NextField(text).Some? then OrZero(Number(NextField(text).value)) else 0,
                 Number(text).Some?, AnyPrivate(text))
  {
  }
}
