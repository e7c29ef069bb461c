/** How keys are written in an rc file, and read back (keymap.cpp). A notation is characters, standing for
    themselves, and groups in angle brackets: modifiers, and then a name or one character. Reading folds
    Shift and Ctrl into the character where the keyboard would, so that not every key has a notation, and
    of those that have one two families are written so that they do not come back.

    The reader is as lax as the source's: a `<` that nothing closes is itself. */
module Notation {
  import opened Wrappers
  import opened Utf8
  import opened Decoder
  import opened Keymaps

  // ----- the vocabulary -----

  function Lowered(c: char): char {
    if 'A' <= c <= 'Z' then (c as int + 32) as char else c
  }

  function Lower(text: string): (s: string)
    ensures |s| == |text|
  {
    seq(|text|, i requires 0 <= i < |text| => Lowered(text[i]))
  }

  predicate IsLetter(c: nat) {
    0x41 <= c <= 0x5A || 0x61 <= c <= 0x7A
  }

  /** Names are matched whatever their case. */
  function KeyNamed(name: string): Option<NamedKey> {
    var n := Lower(name);
    if n == "up" then Some(Up) else if n == "down" then Some(Down)
    else if n == "left" then Some(Left) else if n == "right" then Some(Right)
    else if n == "home" then Some(Home) else if n == "end" then Some(End)
    else if n == "pageup" then Some(PageUp) else if n == "pagedown" then Some(PageDown)
    else if n == "insert" then Some(Insert)
    else if n == "del" then Some(DeleteForward) else if n == "delete" then Some(DeleteForward)
    else if n == "f1" then Some(F1) else if n == "f2" then Some(F2) else if n == "f3" then Some(F3)
    else if n == "f4" then Some(F4) else if n == "f5" then Some(F5) else if n == "f6" then Some(F6)
    else if n == "f7" then Some(F7) else if n == "f8" then Some(F8) else if n == "f9" then Some(F9)
    else if n == "f10" then Some(F10) else if n == "f11" then Some(F11) else if n == "f12" then Some(F12)
    else if n == "bskey" then Some(Backspace)
    else None
  }

  function CodeNamed(name: string): Option<nat> {
    var n := Lower(name);
    if n == "space" then Some(0x20) else if n == "tab" then Some(0x09)
    else if n == "cr" then Some(0x0D) else if n == "enter" then Some(0x0D) else if n == "return" then Some(0x0D)
    else if n == "nl" then Some(0x0A) else if n == "lf" then Some(0x0A)
    else if n == "esc" then Some(0x1B)
    else if n == "bs" then Some(0x7F) else if n == "backspace" then Some(0x7F)
    else if n == "lt" then Some(0x3C) else if n == "gt" then Some(0x3E) else if n == "bslash" then Some(0x5C)
    else None
  }

  /** The first spelling of a key is the one written back. */
  function NameOf(key: NamedKey): string {
    match key
    case Up => "Up"
    case Down => "Down"
    case Left => "Left"
    case Right => "Right"
    case Home => "Home"
    case End => "End"
    case PageUp => "PageUp"
    case PageDown => "PageDown"
    case Insert => "Insert"
    case DeleteForward => "Del"
    case F1 => "F1"
    case F2 => "F2"
    case F3 => "F3"
    case F4 => "F4"
    case F5 => "F5"
    case F6 => "F6"
    case F7 => "F7"
    case F8 => "F8"
    case F9 => "F9"
    case F10 => "F10"
    case F11 => "F11"
    case F12 => "F12"
    case Backspace => "BSKey"
  }

  /** Ctrl folded onto a character, where it has a C0 spelling. */
  function ControlOf(c: nat): Option<nat> {
    if IsLetter(c) then Some(c % 0x20)
    else if c == 0x40 || c == 0x20 then Some(0)
    else if 0x5B <= c <= 0x5F then Some(c - 0x40)
    else if c == 0x3F then Some(0x7F)
    else None
  }

  predicate IsControl(c: nat) {
    c < 0x20 || c == 0x7F
  }

  /** How a control is written: by name, or as what Ctrl folds onto it. */
  function ControlName(c: nat): string
    requires IsControl(c)
  {
    if c == 0x09 then "Tab" else if c == 0x0D then "CR" else if c == 0x0A then "NL"
    else if c == 0x1B then "Esc" else if c == 0x7F then "BS"
    else if 1 <= c <= 0x1A then ['C', '-', (c + 0x60) as char]
    else ['C', '-', (c + 0x40) as char]
  }

  // ----- characters -----

  function Text(c: Codepoint): (s: string)
    ensures |s| == |Encode(c)|
  {
    Chars(Encode(c))
  }

  /** `encode_utf8`, of any number: what does not fit the lead byte is cut off. */
  function Spelled(c: nat): string {
    if c < 0x200000 then Text(c)
    else Chars([0xF0 + High(High(High(c))) % 0x10, 0x80 + Low(High(High(c))), 0x80 + Low(High(c)), 0x80 + Low(c)])
  }

  predicate Continues(text: string, i: nat) {
    i < |text| && 0x80 <= text[i] as int < 0xC0
  }

  function LowOf(c: char): nat {
    c as int % 0x40
  }

  /** `next_scalar`: the character at the front and its length. Lax: it refuses no overlong form and no
      surrogate. */
  function NextScalar(text: string): (r: Option<(nat, nat)>)
    requires text != []
    ensures r.Some? ==> r.value.0 < 0x200000 && 1 <= r.value.1 <= |text|
  {
    var lead := text[0] as int;
    if lead < 0x80 then Some((lead, 1))
    else if 0xC0 <= lead < 0xE0 && Continues(text, 1) then Some(((lead - 0xC0) * 0x40 + LowOf(text[1]), 2))
    else if 0xE0 <= lead < 0xF0 && Continues(text, 1) && Continues(text, 2) then
      Some((((lead - 0xE0) * 0x40 + LowOf(text[1])) * 0x40 + LowOf(text[2]), 3))
    else if 0xF0 <= lead < 0xF8 && Continues(text, 1) && Continues(text, 2) && Continues(text, 3) then
      Some(((((lead - 0xF0) * 0x40 + LowOf(text[1])) * 0x40 + LowOf(text[2])) * 0x40 + LowOf(text[3]), 4))
    else None
  }

  lemma TextReads(c: Codepoint, rest: string)
    ensures NextScalar(Text(c) + rest) == Some((c, |Text(c)|))
    ensures forall i :: 0 <= i < |Text(c)| ==>
      (c < 0x80 && Text(c)[i] as int == c) || (0x80 <= c && 0x80 <= Text(c)[i] as int < 0x100)
  {
    hide High, Low, Encode, LowOf;
    var text, h, hh := Text(c) + rest, High(c), High(High(c));
    SplitsLow(c);
    SplitsLow(h);
    SplitsLow(hh);
    TextBytes(c);
    assert forall i :: 0 <= i < |Text(c)| ==> text[i] == Text(c)[i];
    LowsRead();
  }

  lemma LowsRead()
    ensures forall x: nat :: LowOf((0x80 + Low(x)) as char) == Low(x)
  {
    forall x: nat
      ensures LowOf((0x80 + Low(x)) as char) == Low(x)
    {
      SplitsLow(x);
    }
  }

  /** The bytes of a character, lead first. */
  lemma TextBytes(c: Codepoint)
    ensures var s, h, hh := Text(c), High(c), High(High(c));
      if c < 0x80 then |s| == 1 && s[0] as int == c
      else if c < 0x800 then |s| == 2 && h < 0x20 && s[0] as int == 0xC0 + h && s[1] as int == 0x80 + Low(c)
      else if c < 0x10000 then
        && |s| == 3 && hh < 0x10 && s[0] as int == 0xE0 + hh
        && s[1] as int == 0x80 + Low(h) && s[2] as int == 0x80 + Low(c)
      else
        && |s| == 4 && High(hh) < 8 && s[0] as int == 0xF0 + High(hh) && s[1] as int == 0x80 + Low(hh)
        && s[2] as int == 0x80 + Low(h) && s[3] as int == 0x80 + Low(c)
  {
    hide Low;
  }

  lemma SplitsLow(c: nat)
    ensures c == High(c) * 0x40 + Low(c) && (0x80 + Low(c)) % 0x40 == Low(c)
  {
  }

  // ----- one group -----

  /** The modifier prefixes, in any order. */
  function Strip(body: string, m: Modifiers): (r: (Modifiers, string))
    ensures |r.1| <= |body|
    decreases |body|
  {
    if |body| < 3 || body[1] != '-' then (m, body)
    else
      var which := Lowered(body[0]);
      if which == 'c' then Strip(body[2..], m.(ctrl := true))
      else if which == 'a' || which == 'm' then Strip(body[2..], m.(alt := true))
      else if which == 's' then Strip(body[2..], m.(shift := true))
      else (m, body)
  }

  /** What the keyboard sends: shift is folded into a letter, and ctrl into a control. */
  function Folded(c: nat, m: Modifiers): Option<Key> {
    var shifted := m.shift && IsLetter(c);
    var code, left := if shifted && 0x61 <= c then c - 0x20 else c, if shifted then m.(shift := false) else m;
    if !left.ctrl then Some(Code(code, left))
    else if ControlOf(code).None? then None
    else Some(Code(ControlOf(code).value, left.(ctrl := false)))
  }

  function GroupKey(m: Modifiers, body: string): Option<Key> {
    if body == [] then None
    else if KeyNamed(body).Some? then Some(Name(KeyNamed(body).value, m))
    else if CodeNamed(body).Some? then Folded(CodeNamed(body).value, m)
    else
      var next := NextScalar(body);
      if next.None? || next.value.1 != |body| then None else Folded(next.value.0, m)
  }

  function Group(body: string): Option<Key> {
    var (m, left) := Strip(body, PLAIN);
    GroupKey(m, left)
  }

  /** Where a group closes. */
  function Close(text: string, from: nat): (r: Option<nat>)
    requires from <= |text|
    ensures r.Some? ==> from <= r.value < |text| && text[r.value] == '>'
    ensures r.Some? ==> forall i :: from <= i < r.value ==> text[i] != '>'
    ensures r.None? ==> forall i :: from <= i < |text| ==> text[i] != '>'
    decreases |text| - from
  {
    if from == |text| then None else if text[from] == '>' then Some(from) else Close(text, from + 1)
  }

  lemma CloseIs(text: string, from: nat, at: nat)
    requires from <= at < |text| && text[at] == '>' && forall i :: from <= i < at ==> text[i] != '>'
    ensures Close(text, from) == Some(at)
  {
  }

  // ----- a whole notation -----

  function Prepend(key: Key, keys: Option<seq<Key>>): Option<seq<Key>> {
    if keys.None? then None else Some([key] + keys.value)
  }

  /** A `<` no `>` follows is itself; anything else that looks like a group must be one. */
  function ReadKeys(text: string): Option<seq<Key>>
    decreases |text|
  {
    if text == [] then Some([])
    else if text[0] == '<' && Close(text, 1).Some? then
      var close := Close(text, 1).value;
      var key := if close == 1 then None else Group(text[1..close]);
      if key.None? then None else Prepend(key.value, ReadKeys(text[close + 1..]))
    else
      var next := NextScalar(text);
      if next.None? then None else Prepend(Code(next.value.0, PLAIN), ReadKeys(text[next.value.1..]))
  }

  function Read(text: string): Option<seq<Key>> {
    if text == [] then None else ReadKeys(text)
  }

  /** Keys already read, and then the rest's. */
  function After(done: seq<Key>, rest: Option<seq<Key>>): Option<seq<Key>> {
    if rest.None? then None else Some(done + rest.value)
  }

  /** `parse_key_notation`. */
  method ParseKeyNotation(text: string) returns (into: Option<Bytes>)
    ensures var keys := Read(text); if keys.Some? then into == Some(EncodeKeys(keys.value)) else into == None
  {
    hide Group, NextScalar, EncodeKey, EncodeKeys, ReadKeys, Prepend, After, Close;
    if text == [] {
      return None;
    }
    var built: Bytes := [];
    var at := 0;
    ghost var done: seq<Key> := [];
    Beginning(text);
    while at < |text|
      invariant 0 <= at <= |text| && built == EncodeKeys(done)
      invariant ReadKeys(text) == After(done, ReadKeys(text[at..]))
    {
      ReadStep(text, at);
      if text[at] == '<' {
        var close := Close(text, at + 1);
        if close.Some? {
          var key := if close.value == at + 1 then None else Group(text[at + 1..close.value]);
          if key.None? {
            Nowhere(done);
            return None;
          }
          OneMore(done, key.value, ReadKeys(text[close.value + 1..]));
          built := built + EncodeKey(key.value);
          done := done + [key.value];
          at := close.value + 1;
          continue;
        }
      }
      var next := NextScalar(text[at..]);
      if next.None? {
        Nowhere(done);
        return None;
      }
      var key := Code(next.value.0, PLAIN);
      OneMore(done, key, ReadKeys(text[at + next.value.1..]));
      built := built + EncodeKey(key);
      done := done + [key];
      at := at + next.value.1;
    }
    Ending(done, text[at..]);
    return Some(built);
  }

  lemma Beginning(text: string)
    ensures EncodeKeys([]) == [] && text[0..] == text && ReadKeys(text) == After([], ReadKeys(text))
  {
    assert ReadKeys(text).Some? ==> [] + ReadKeys(text).value == ReadKeys(text).value;
  }

  lemma Nowhere(done: seq<Key>)
    ensures After(done, None) == None
  {
  }

  lemma Ending(done: seq<Key>, rest: string)
    requires rest == []
    ensures After(done, ReadKeys(rest)) == Some(done)
  {
    assert done + [] == done;
  }

  /** One step of reading, part of the way through a text. */
  lemma ReadStep(text: string, at: nat)
    requires at < |text|
    ensures var close := Close(text, at + 1);
      if text[at] == '<' && close.Some? then
        var key := if close.value == at + 1 then None else Group(text[at + 1..close.value]);
        ReadKeys(text[at..]) == if key.None? then None else Prepend(key.value, ReadKeys(text[close.value + 1..]))
      else
        var next := NextScalar(text[at..]);
        ReadKeys(text[at..]) == if next.None? then None
            else Prepend(Code(next.value.0, PLAIN), ReadKeys(text[at + next.value.1..]))
  {
    hide Group, NextScalar, Close, Prepend;
    var rest, close := text[at..], Close(text, at + 1);
    CloseShifts(text, at);
    if close.Some? {
      assert rest[1..close.value - at] == text[at + 1..close.value];
      assert rest[close.value - at + 1..] == text[close.value + 1..];
    }
    var next := NextScalar(rest);
    if next.Some? {
      assert rest[next.value.1..] == text[at + next.value.1..];
    }
  }

  lemma CloseShifts(text: string, at: nat)
    requires at < |text|
    ensures var far, near := Close(text, at + 1), Close(text[at..], 1);
      if far.None? then near.None? else near == Some(far.value - at)
  {
    var rest := text[at..];
    assert Close(rest, 1).Some? ==> text[at + Close(rest, 1).value] == '>';
    if Close(text, at + 1).Some? {
      CloseIs(rest, 1, Close(text, at + 1).value - at);
    }
  }

  lemma OneMore(done: seq<Key>, key: Key, rest: Option<seq<Key>>)
    ensures EncodeKeys(done + [key]) == EncodeKeys(done) + EncodeKey(key)
    ensures After(done, Prepend(key, rest)) == After(done + [key], rest)
  {
    assert rest.Some? ==> done + ([key] + rest.value) == done + [key] + rest.value;
    EncodeJoin(done, [key]);
    assert [key][1..] == [];
    assert EncodeKeys([key]) == EncodeKey(key) + [];
  }

  lemma {:induction false} EncodeJoin(a: seq<Key>, b: seq<Key>)
    ensures EncodeKeys(a + b) == EncodeKeys(a) + EncodeKeys(b)
  {
    if a == [] {
      assert a + b == b;
    } else {
      assert (a + b)[1..] == a[1..] + b;
      EncodeJoin(a[1..], b);
    }
  }

  // ----- writing -----

  /** Written as itself. */
  predicate IsLiteral(k: Key) {
    k.Code? && k.modifiers == PLAIN && k.codepoint != 0x3C && k.codepoint != 0x20 && !IsControl(k.codepoint)
  }

  /** A character the encoding form can carry. */
  predicate Writable(k: Key) {
    k.Code? ==> k.codepoint < 0x200000
  }

  /** What a parser can have built. */
  predicate Buildable(k: Key) {
    Writable(k) && (k.Code? ==> !k.modifiers.ctrl && !(k.modifiers.shift && IsLetter(k.codepoint)))
  }

  function BodyOf(k: Key): string {
    if k.Name? then NameOf(k.key)
    else if k.codepoint == 0x3C then "lt"
    else if k.codepoint == 0x20 then "Space"
    else if IsControl(k.codepoint) then ControlName(k.codepoint)
    else Spelled(k.codepoint)
  }

  function Prefixes(m: Modifiers): string {
    (if m.ctrl then "C-" else "") + ((if m.alt then "A-" else "") + (if m.shift then "S-" else ""))
  }

  function WriteKey(k: Key): string {
    if IsLiteral(k) then Spelled(k.codepoint) else "<" + (Prefixes(k.modifiers) + BodyOf(k)) + ">"
  }

  ghost predicate AllBuildable(keys: seq<Key>) {
    forall i :: 0 <= i < |keys| ==> Buildable(keys[i])
  }

  ghost function WriteKeys(keys: seq<Key>): string {
    if keys == [] then [] else WriteKey(keys[0]) + WriteKeys(keys[1..])
  }

  /** `render_key_notation`: as far as the encoding decodes. */
  method RenderKeyNotation(encoded: Bytes) returns (out: string)
    ensures out == WriteKeys(DecodeKeys(encoded))
  {
    hide WriteKey, DecodeKey;
    out := [];
    var rest := encoded;
    var key := DecodeKey(rest);
    while key.Some?
      invariant key == DecodeKey(rest)
      invariant out + WriteKeys(DecodeKeys(rest)) == WriteKeys(DecodeKeys(encoded))
      decreases |rest|
    {
      ghost var left := DecodeKeys(rest);
      assert |rest| >= KEY_SIZE by { DecodesEnough(rest); }
      assert left[0] == key.value && left[1..] == DecodeKeys(rest[KEY_SIZE..]);
      assert out + (WriteKey(key.value) + WriteKeys(left[1..])) == out + WriteKey(key.value) + WriteKeys(left[1..]);
      out := out + WriteKey(key.value);
      rest := rest[KEY_SIZE..];
      key := DecodeKey(rest);
    }
    assert out + [] == out;
  }

  lemma DecodesEnough(encoded: Bytes)
    requires DecodeKey(encoded).Some?
    ensures |encoded| >= KEY_SIZE
  {
  }

  // ----- reading back what was written -----

  /** A `>` with a modifier closes its group early. */
  predicate ClosesEarly(k: Key) {
    k.Code? && k.codepoint == 0x3E && k.modifiers != PLAIN
  }

  /** A shifted control that is written as Ctrl and a letter: the letter takes the shift. */
  predicate LosesShift(k: Key) {
    k.Code? && k.modifiers.shift && 1 <= k.codepoint <= 0x1A && k.codepoint !in {0x09, 0x0A, 0x0D}
  }

  /** What one written key is read as, if it is read at all. */
  function Reread(k: Key): Key {
    if LosesShift(k) then Code(k.codepoint, k.modifiers.(shift := false)) else k
  }

  lemma NamesRead(key: NamedKey)
    ensures KeyNamed(NameOf(key)) == Some(key)
    ensures |NameOf(key)| >= 2 && NameOf(key)[1] != '-'
    ensures forall i :: 0 <= i < |NameOf(key)| ==> NameOf(key)[i] != '>'
  {
    hide KeyNamed;
    var n := NumberOf(key);
    if n < 6 { ArrowsRead(key); } else if n < 11 { WordsRead(key); } else if n < 17 { FunctionsRead(key); }
        else { MoreFunctionsRead(key); }
  }

  lemma ArrowsRead(key: NamedKey)
    requires NumberOf(key) < 6
    ensures KeyNamed(NameOf(key)) == Some(key)
  {
    match key
    case Backspace => assert Lower("BSKey") == "bskey";
    case Left => assert Lower("Left") == "left";
    case Right => assert Lower("Right") == "right";
    case Home => assert Lower("Home") == "home";
    case End => assert Lower("End") == "end";
    case Up => assert Lower("Up") == "up";
  }

  lemma WordsRead(key: NamedKey)
    requires 6 <= NumberOf(key) < 11
    ensures KeyNamed(NameOf(key)) == Some(key)
  {
    match key
    case Down => assert Lower("Down") == "down";
    case PageUp => assert Lower("PageUp") == "pageup";
    case PageDown => assert Lower("PageDown") == "pagedown";
    case Insert => assert Lower("Insert") == "insert";
    case DeleteForward => assert Lower("Del") == "del";
  }

  lemma FunctionsRead(key: NamedKey)
    requires 11 <= NumberOf(key) < 17
    ensures KeyNamed(NameOf(key)) == Some(key)
  {
    match key
    case F1 => assert Lower("F1") == "f1";
    case F2 => assert Lower("F2") == "f2";
    case F3 => assert Lower("F3") == "f3";
    case F4 => assert Lower("F4") == "f4";
    case F5 => assert Lower("F5") == "f5";
    case F6 => assert Lower("F6") == "f6";
  }

  lemma MoreFunctionsRead(key: NamedKey)
    requires 17 <= NumberOf(key)
    ensures KeyNamed(NameOf(key)) == Some(key)
  {
    match key
    case F7 => assert Lower("F7") == "f7";
    case F8 => assert Lower("F8") == "f8";
    case F9 => assert Lower("F9") == "f9";
    case F10 => assert Lower("F10") == "f10";
    case F11 => assert Lower("F11") == "f11";
    case F12 => assert Lower("F12") == "f12";
  }

  /** The characters that are written by name. */
  predicate HasName(name: string, c: nat) {
    if c == 0x20 then name == "Space" else if c == 0x09 then name == "Tab" else if c == 0x0D then name == "CR"
    else if c == 0x0A then name == "NL" else if c == 0x1B then name == "Esc" else if c == 0x7F then name == "BS"
    else c == 0x3C && name == "lt"
  }

  lemma CodeNamesRead(name: string, c: nat)
    requires HasName(name, c)
    ensures KeyNamed(name) == None && CodeNamed(name) == Some(c)
    ensures |name| >= 2 && name[1] != '-' && forall i :: 0 <= i < |name| ==> name[i] != '>'
  {
    hide KeyNamed, CodeNamed;
    NoKeyIsNamed(name, c);
    NamedCodeReads(name, c);
  }

  lemma NoKeyIsNamed(name: string, c: nat)
    requires HasName(name, c)
    ensures KeyNamed(name) == None
  {
    hide KeyNamed, Lower;
    if |name| == 2 { NoShortKey(name); } else { NoLongKey(name, c); }
  }

  lemma NoShortKey(name: string)
    requires name in ["CR", "NL", "BS", "lt"]
    ensures KeyNamed(name) == None
  {
    var n := Lower(name);
    assert n[0] == Lowered(name[0]) && n[0] != 'u' && n[0] != 'f';
  }

  lemma NoLongKey(name: string, c: nat)
    requires HasName(name, c) && |name| > 2
    ensures KeyNamed(name) == None
  {
    if c == 0x20 { assert Lower("Space") == "space"; }
    else if c == 0x09 { assert Lower("Tab") == "tab"; }
    else { assert Lower("Esc") == "esc"; }
  }

  lemma NamedCodeReads(name: string, c: nat)
    requires HasName(name, c)
    ensures CodeNamed(name) == Some(c)
  {
    if c == 0x20 { assert Lower("Space") == "space"; }
    else if c == 0x09 { assert Lower("Tab") == "tab"; }
    else if c == 0x0D { assert Lower("CR") == "cr"; }
    else if c == 0x0A { assert Lower("NL") == "nl"; }
    else if c == 0x1B { assert Lower("Esc") == "esc"; }
    else if c == 0x7F { assert Lower("BS") == "bs"; }
    else { assert Lower("lt") == "lt"; }
  }

  /** A character alone is no name. */
  lemma CharacterIsNoName(body: string)
    requires |body| == 1 || (body != [] && body[0] as int >= 0x80)
    ensures KeyNamed(body) == None && CodeNamed(body) == None
  {
    var n := Lower(body);
    assert |n| == |body| && (|body| > 1 ==> n[0] == body[0]);
  }

  /** The prefixes come off again, and nothing of the body with them unless it starts with one. */
  lemma StripsPrefixes(m: Modifiers, body: string)
    requires body != [] && (|body| < 3 || body[1] != '-')
    ensures Strip(Prefixes(m) + body, PLAIN) == (m, body)
  {
    hide Strip;
    var c, a, s := if m.ctrl then "C-" else "", if m.alt then "A-" else "", if m.shift then "S-" else "";
    var m1 := PLAIN.(ctrl := m.ctrl);
    var m2 := m1.(alt := m.alt);
    assert Prefixes(m) + body == c + (a + (s + body));
    StripOne(m.ctrl, 'C', a + (s + body), PLAIN);
    StripOne(m.alt, 'A', s + body, m1);
    StripOne(m.shift, 'S', body, m2);
    assert Strip(body, m) == (m, body) by { StripsNothing(body, m); }
    assert m2.(shift := m.shift) == m;
  }

  lemma StripOne(held: bool, which: char, rest: string, m: Modifiers)
    requires rest != [] && which in ['C', 'A', 'S']
    ensures var prefix := if held then [which, '-'] else "";
      var now := if !held then m else if which == 'C' then m.(ctrl := true) else if which == 'A' then m.(alt := true)
          else m.(shift := true);
      Strip(prefix + rest, m) == Strip(rest, now)
  {
    if held {
      assert ([which, '-'] + rest)[2..] == rest;
    } else {
      assert "" + rest == rest;
    }
  }

  /** One written group is read as its key. */
  lemma GroupReads(k: Key)
    requires Buildable(k) && !IsLiteral(k) && !ClosesEarly(k)
    ensures var body := Prefixes(k.modifiers) + BodyOf(k);
      body != [] && Group(body) == Some(Reread(k)) && forall i :: 0 <= i < |body| ==> body[i] != '>'
  {
    hide KeyNamed, CodeNamed, Strip, Lower, Encode;
    var m, body := k.modifiers, BodyOf(k);
    if k.Name? {
      NamesRead(k.key);
      StripsPrefixes(m, body);
    } else if k.codepoint == 0x3C || k.codepoint == 0x20 || k.codepoint in {0x09, 0x0A, 0x0D, 0x1B, 0x7F} {
      assert HasName(body, k.codepoint);
      CodeNamesRead(body, k.codepoint);
      StripsPrefixes(m, body);
    } else if IsControl(k.codepoint) {
      ControlReads(k);
    } else {
      TextReads(k.codepoint, []);
      assert body + [] == body;
      assert |body| == 1 || body[0] as int >= 0x80 by { TextIsOneOrHigh(k.codepoint); }
      CharacterIsNoName(body);
      StripsPrefixes(m, body);
    }
  }

  lemma TextIsOneOrHigh(c: Codepoint)
    ensures Text(c) != [] && (|Text(c)| == 1 || (Text(c)[0] as int >= 0x80 && Text(c)[1] != '-'))
  {
    TextReads(c, []);
  }

  lemma ControlReads(k: Key)
    requires Buildable(k) && k.Code? && k.codepoint < 0x20 && k.codepoint !in {0x09, 0x0A, 0x0D, 0x1B}
    ensures var body := Prefixes(k.modifiers) + BodyOf(k);
      Group(body) == Some(Reread(k)) && forall i :: 0 <= i < |body| ==> body[i] != '>'
  {
    hide KeyNamed, CodeNamed, Strip, Lower, GroupKey, Reread;
    var m, letter := k.modifiers, ControlLetter(k.codepoint);
    var held := m.(ctrl := true);
    assert BodyOf(k) == "C-" + letter;
    // The body's own `C-` is read as a prefix like the others.
    var a, s := if m.alt then "A-" else "", if m.shift then "S-" else "";
    var m1 := PLAIN.(alt := m.alt);
    var m2 := m1.(shift := m.shift);
    assert Prefixes(m) + BodyOf(k) == a + (s + ("C-" + letter));
    StripOne(m.alt, 'A', s + ("C-" + letter), PLAIN);
    StripOne(m.shift, 'S', "C-" + letter, m1);
    StripOne(true, 'C', letter, m2);
    assert Strip(letter, held) == (held, letter) by { StripsNothing(letter, held); }
    assert m2.(ctrl := true) == held;
    LetterReads(k);
  }

  /** What Ctrl folds onto a control. */
  function ControlLetter(c: nat): string
    requires c < 0x20
  {
    [(if 1 <= c <= 0x1A then c + 0x60 else c + 0x40) as char]
  }

  lemma LetterReads(k: Key)
    requires Buildable(k) && k.Code? && k.codepoint < 0x20
    requires k.codepoint !in {0x09, 0x0A, 0x0D, 0x1B}
    ensures GroupKey(k.modifiers.(ctrl := true), ControlLetter(k.codepoint)) == Some(Reread(k))
  {
    hide KeyNamed, CodeNamed;
    CharacterIsNoName(ControlLetter(k.codepoint));
  }

  lemma StripsNothing(body: string, m: Modifiers)
    requires |body| < 3 || body[1] != '-'
    ensures Strip(body, m) == (m, body)
  {
  }

  lemma EarlyCloseFails(m: Modifiers)
    requires m != PLAIN && !m.ctrl
    ensures Prefixes(m) != [] && Group(Prefixes(m)) == None
    ensures forall i :: 0 <= i < |Prefixes(m)| ==> Prefixes(m)[i] != '>'
  {
    hide KeyNamed, CodeNamed, Lower;
    var last := if m.shift then "S-" else "A-";
    var front := PLAIN.(alt := m.alt && m.shift);
    assert Prefixes(m) == (if m.alt && m.shift then "A-" else "") + last;
    StripOne(m.alt && m.shift, 'A', last, PLAIN);
    StripsNothing(last, front);
    assert KeyNamed(last) == None && CodeNamed(last) == None by { DashIsNoName(last); }
  }

  lemma DashIsNoName(body: string)
    requires |body| == 2 && body[1] == '-'
    ensures KeyNamed(body) == None && CodeNamed(body) == None
  {
    assert Lower(body)[1] == '-';
  }

  /** One written key at the front of a notation. */
  lemma WrittenReads(k: Key, rest: string)
    requires Buildable(k)
    ensures ReadKeys(WriteKey(k) + rest) == if ClosesEarly(k) then None else Prepend(Reread(k), ReadKeys(rest))
  {
    hide Group, NextScalar, Text, BodyOf, Prefixes;
    var text := WriteKey(k) + rest;
    if IsLiteral(k) {
      TextReads(k.codepoint, rest);
      TextIsOneOrHigh(k.codepoint);
      assert text[0] != '<';
      assert text[|Text(k.codepoint)|..] == rest;
    } else {
      var body := if ClosesEarly(k) then Prefixes(k.modifiers) else Prefixes(k.modifiers) + BodyOf(k);
      if ClosesEarly(k) {
        EarlyCloseFails(k.modifiers);
        assert BodyOf(k) == ">" by { GreaterIsItself(k); }
      } else {
        GroupReads(k);
      }
      var tail := if ClosesEarly(k) then ">" + rest else rest;
      assert text == "<" + body + ">" + tail;
      GroupAtFront(body, tail);
    }
  }

  /** A group at the front of a notation. */
  lemma GroupAtFront(body: string, tail: string)
    requires body != [] && forall i :: 0 <= i < |body| ==> body[i] != '>'
    ensures ReadKeys("<" + body + ">" + tail) == if Group(body).None? then None
      else Prepend(Group(body).value, ReadKeys(tail))
  {
    hide Group, NextScalar;
    var text, close := "<" + body + ">" + tail, 1 + |body|;
    assert text[close] == '>' && text[0] == '<' && forall i :: 1 <= i < close ==> text[i] == body[i - 1];
    CloseIs(text, 1, close);
    assert text[1..close] == body && text[close + 1..] == tail;
  }

  lemma GreaterIsItself(k: Key)
    requires Buildable(k) && k.Code? && k.codepoint == 0x3E
    ensures BodyOf(k) == ">"
  {
    assert Encode(0x3E) == [0x3E];
  }

  function RereadAll(keys: seq<Key>): (s: seq<Key>)
    ensures |s| == |keys|
  {
    seq(|keys|, i requires 0 <= i < |keys| => Reread(keys[i]))
  }

  lemma {:induction false} WrittenKeysRead(keys: seq<Key>)
    requires AllBuildable(keys)
    ensures ReadKeys(WriteKeys(keys)) == if exists i :: 0 <= i < |keys| && ClosesEarly(keys[i]) then None
      else Some(RereadAll(keys))
  {
    hide WriteKey, ClosesEarly, Reread;
    if keys == [] {
      assert RereadAll(keys) == [];
    } else {
      var tail := keys[1..];
      WrittenKeysRead(tail);
      WrittenReads(keys[0], WriteKeys(tail));
      if i :| 0 <= i < |keys| && ClosesEarly(keys[i]) {
        if i > 0 { assert ClosesEarly(tail[i - 1]); }
      } else {
        assert [Reread(keys[0])] + RereadAll(tail) == RereadAll(keys);
      }
    }
  }

  /** Keys written and read back are the same keys, exactly unless one of them is a `>` with a modifier,
      which closes its group early, or a shifted control written as Ctrl and a letter, which loses its
      shift. */
  lemma NotationRoundTrip(keys: seq<Key>)
    requires AllBuildable(keys) && keys != []
    ensures Read(WriteKeys(keys)) == Some(keys) <==>
      forall i :: 0 <= i < |keys| ==> !ClosesEarly(keys[i]) && !LosesShift(keys[i])
  {
    hide WriteKey, ClosesEarly, LosesShift;
    WrittenKeysRead(keys);
    WritesSomething(keys);
    if forall i :: 0 <= i < |keys| ==> !ClosesEarly(keys[i]) && !LosesShift(keys[i]) {
      assert RereadAll(keys) == keys;
    } else if !(exists i :: 0 <= i < |keys| && ClosesEarly(keys[i])) {
      var i :| 0 <= i < |keys| && LosesShift(keys[i]);
      ShiftIsLost(keys[i]);
      assert RereadAll(keys)[i] == Reread(keys[i]);
    }
  }

  lemma ShiftIsLost(k: Key)
    requires LosesShift(k)
    ensures Reread(k) != k
  {
  }

  lemma WritesSomething(keys: seq<Key>)
    requires AllBuildable(keys) && keys != []
    ensures WriteKeys(keys) != []
  {
    var k := keys[0];
    if IsLiteral(k) { TextIsOneOrHigh(k.codepoint); }
    assert WriteKey(k) != [];
  }

  /** Whatever is read can be written. */
  lemma {:induction false} ReadIsBuildable(text: string)
    ensures ReadKeys(text).Some? ==> AllBuildable(ReadKeys(text).value)
    decreases |text|
  {
    hide Group, NextScalar;
    if text != [] {
      var close := Close(text, 1);
      if text[0] == '<' && close.Some? {
        if close.value > 1 {
          GroupIsBuildable(text[1..close.value]);
          ReadIsBuildable(text[close.value + 1..]);
        }
      } else if NextScalar(text).Some? {
        ReadIsBuildable(text[NextScalar(text).value.1..]);
      }
    }
  }

  lemma GroupIsBuildable(body: string)
    ensures Group(body).Some? ==> Buildable(Group(body).value)
  {
    hide KeyNamed, CodeNamed, Strip, Lower;
    var left := Strip(body, PLAIN).1;
    assert CodeNamed(left).Some? ==> CodeNamed(left).value < 0x80 by { CodeNamesAreSmall(left); }
  }

  lemma CodeNamesAreSmall(name: string)
    ensures CodeNamed(name).Some? ==> CodeNamed(name).value < 0x80
  {
  }
}
