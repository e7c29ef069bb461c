/** SGR in both directions: the parameters `set_pen` writes (blit.cpp) and the reader that takes them
    back into a pen (sgr.h). ECMA-48, section 8.3.117. */
module Sgr {
  import opened Styles

  // ----- the parameter grammar -----

  /** One parameter; `sub` says it followed a `:` rather than a `;`. */
  datatype Field = Field(value: nat, sub: bool)

  const LIMIT: nat := 4294967295

  predicate IsDigit(c: char) {
    '0' <= c <= '9'
  }

  predicate IsSeparator(c: char) {
    c == ';' || c == ':'
  }

  /** `append_uint`. */
  function Digits(n: nat): (s: string)
    ensures s != [] && forall i :: 0 <= i < |s| ==> IsDigit(s[i])
  {
    (if n < 10 then [] else Digits(n / 10)) + ['0' + (n % 10) as char]
  }

  /** The length of the digit run at the front of a text. */
  function DigitRun(text: string): (n: nat)
    ensures n <= |text| && (forall i :: 0 <= i < n ==> IsDigit(text[i]))
    ensures n < |text| ==> !IsDigit(text[n])
  {
    if text != [] && IsDigit(text[0]) then 1 + DigitRun(text[1..]) else 0
  }

  function DigitValue(c: char): nat
    requires IsDigit(c)
  {
    (c - '0') as nat
  }

  /** `accumulate_digit`: past the limit the value stays at the limit. */
  function Accumulate(value: nat, digit: nat): nat {
    if digit > LIMIT || value > (LIMIT - digit) / 10 then LIMIT else value * 10 + digit
  }

  function ValueOf(digits: string): nat
    requires forall i :: 0 <= i < |digits| ==> IsDigit(digits[i])
  {
    if digits == [] then 0
    else Accumulate(ValueOf(digits[..|digits| - 1]), DigitValue(digits[|digits| - 1]))
  }

  /** The fields of a parameter string: an empty one is 0. */
  function ReadFields(text: string, sub: bool): (fields: seq<Field>)
    ensures fields != []
    decreases |text|
  {
    var n := DigitRun(text);
    var first := Field(ValueOf(text[..n]), sub);
    if n < |text| && IsSeparator(text[n]) then [first] + ReadFields(text[n + 1..], text[n] == ':')
    else [first]
  }

  function Separator(f: Field): char {
    if f.sub then ':' else ';'
  }

  /** `add_param` over a list: a separator goes before every field but the first. */
  function Render(fields: seq<Field>): string {
    if fields == [] then []
    else if |fields| == 1 then Digits(fields[0].value)
    else Digits(fields[0].value) + [Separator(fields[1])] + Render(fields[1..])
  }

  // ----- reading a pen -----

  function UnderlineStyle(attrs: Attrs, which: nat): Attrs {
    attrs.(underline := which != 0 && which != 3, undercurl := which == 3)
  }

  /** A 38 or 48: the colour if a whole well-formed form follows, and the fields left over. */
  function ReadExtended(fields: seq<Field>, out: Color): (r: (Color, seq<Field>))
    ensures |r.1| <= |fields|
  {
    if fields == [] then (out, [])
    else if fields[0].value == 5 then
      if |fields| < 2 then (out, [])
      else if fields[1].value > 255 then (out, fields[2..])
      else (Indexed(fields[1].value), fields[2..])
    else if fields[0].value == 2 then
      if |fields| < 2 then (out, [])
      else if fields[1].value > 255 then (out, fields[2..])
      else if |fields| < 3 then (out, [])
      else if fields[2].value > 255 then (out, fields[3..])
      else if |fields| < 4 then (out, [])
      else if fields[3].value > 255 then (out, fields[4..])
      else (Rgb(fields[1].value, fields[2].value, fields[3].value), fields[4..])
    else (out, fields[1..])
  }

  /** Every parameter but the two extended-colour introducers. */
  function ApplyCode(code: nat, pen: Style): Style {
    var a := pen.attrs;
    if code == 0 then DEFAULT_STYLE
    else if code == 1 then pen.(attrs := a.(bold := true))
    else if code == 2 then pen.(attrs := a.(dim := true))
    else if code == 3 then pen.(attrs := a.(italic := true))
    else if code == 4 then pen.(attrs := a.(undercurl := false, underline := true))
    else if code == 7 then pen.(attrs := a.(reverse := true))
    else if code == 9 then pen.(attrs := a.(strikethrough := true))
    else if code == 22 then pen.(attrs := a.(bold := false, dim := false))
    else if code == 23 then pen.(attrs := a.(italic := false))
    else if code == 24 then pen.(attrs := a.(underline := false, undercurl := false))
    else if code == 27 then pen.(attrs := a.(reverse := false))
    else if code == 29 then pen.(attrs := a.(strikethrough := false))
    else if code == 39 then pen.(fg := Default)
    else if code == 49 then pen.(bg := Default)
    else if 30 <= code <= 37 then pen.(fg := Indexed(code - 30))
    else if 90 <= code <= 97 then pen.(fg := Indexed(code - 90 + 8))
    else if 40 <= code <= 47 then pen.(bg := Indexed(code - 40))
    else if 100 <= code <= 107 then pen.(bg := Indexed(code - 100 + 8))
    else pen
  }

  /** The pen a field list leaves; `qualified` is the top-level field a sub-parameter belongs to. */
  function ApplyFields(fields: seq<Field>, qualified: nat, pen: Style): Style
    decreases |fields|
  {
    if fields == [] then pen
    else
      var code, rest := fields[0].value, fields[1..];
      if fields[0].sub then
        ApplyFields(rest, qualified,
                    if qualified == 4 then pen.(attrs := UnderlineStyle(pen.attrs, code)) else pen)
      else if code == 38 then
        var (color, left) := ReadExtended(rest, pen.fg);
        ApplyFields(left, code, pen.(fg := color))
      else if code == 48 then
        var (color, left) := ReadExtended(rest, pen.bg);
        ApplyFields(left, code, pen.(bg := color))
      else ApplyFields(rest, code, ApplyCode(code, pen))
  }

  /** What the parameter bytes of one SGR sequence make of a pen. */
  function Apply(text: string, pen: Style): Style {
    ApplyFields(ReadFields(text, false), 0, pen)
  }

  /** `sgr_detail::parameters`: a cursor over the fields that stores none of them. */
  class Parameters {
    const text: string
    var at: nat
    var sub: bool
    var done: bool

    constructor (text: string)
      ensures this.text == text && Valid() && Left() == ReadFields(text, false)
    {
      this.text := text;
      at, sub, done := 0, false, false;
      new;
      assert text[0..] == text;
    }

    ghost predicate Valid()
      reads this
    {
      at <= |text|
    }

    /** The fields not read yet. */
    ghost function Left(): seq<Field>
      requires Valid()
      reads this
    {
      if done then [] else ReadFields(text[at..], sub)
    }

    method Next() returns (ok: bool, value: nat, wasSub: bool)
      requires Valid()
      modifies this
      ensures Valid()
      ensures ok <==> old(Left()) != []
      ensures ok ==> Field(value, wasSub) == old(Left())[0] && Left() == old(Left())[1..]
      ensures !ok ==> Left() == []
    {
      hide ValueOf, DigitRun;
      if done {
        return false, 0, false;
      }
      wasSub := sub;
      var consumed;
      consumed, value := ScanDigits(text[at..]);
      ghost var rest := text[at..];
      at := at + consumed;
      if at >= |text| || !IsSeparator(text[at]) {
        done := true;
        return true, value, wasSub;
      }
      assert rest[consumed + 1..] == text[at + 1..] && rest[consumed] == text[at];
      sub := text[at] == ':';
      at := at + 1;
      return true, value, wasSub;
    }
  }

  /** `scan_digits` at the site `csi_parameter`. */
  method ScanDigits(text: string) returns (consumed: nat, value: nat)
    ensures consumed == DigitRun(text) && value == ValueOf(text[..consumed])
  {
    consumed, value := 0, 0;
    while consumed < |text| && IsDigit(text[consumed])
      invariant consumed <= |text|
      invariant forall i :: 0 <= i < consumed ==> IsDigit(text[i])
      invariant value == ValueOf(text[..consumed])
    {
      assert text[..consumed + 1][..consumed] == text[..consumed];
      value := Accumulate(value, DigitValue(text[consumed]));
      consumed := consumed + 1;
    }
    DigitRunIs(text, consumed);
  }

  lemma DigitRunIs(text: string, n: nat)
    requires n <= |text| && (forall i :: 0 <= i < n ==> IsDigit(text[i]))
    requires n < |text| ==> !IsDigit(text[n])
    ensures DigitRun(text) == n
  {
  }

  method ReadExtendedColor(params: Parameters, out: Color) returns (color: Color)
    requires params.Valid()
    modifies params
    ensures params.Valid()
    ensures (color, params.Left()) == ReadExtended(old(params.Left()), out)
  {
    color := out;
    var ok, form, sub := params.Next();
    if !ok {
      return;
    }
    if form == 5 {
      var index;
      ok, index, sub := params.Next();
      if !ok || index > 255 {
        return;
      }
      return Indexed(index);
    }
    if form == 2 {
      var r, g, b;
      ok, r, sub := params.Next();
      if !ok || r > 255 {
        return;
      }
      ok, g, sub := params.Next();
      if !ok || g > 255 {
        return;
      }
      ok, b, sub := params.Next();
      if !ok || b > 255 {
        return;
      }
      return Rgb(r, g, b);
    }
  }

  /** `apply_sgr`, on the parameter bytes between `ESC [` and `m`. */
  method ApplySgr(text: string, start: Style) returns (pen: Style)
    ensures pen == Apply(text, start)
  {
    pen := start;
    var params := new Parameters(text);
    var qualified := 0;
    var ok, code, sub := params.Next();
    ghost var todo := ReadFields(text, false);
    while ok
      invariant params.Valid()
      invariant ok <==> todo != []
      invariant ok ==> Field(code, sub) == todo[0] && params.Left() == todo[1..]
      invariant ApplyFields(todo, qualified, pen) == Apply(text, start)
      decreases |todo|
    {
      if sub {
        if qualified == 4 {
          pen := pen.(attrs := UnderlineStyle(pen.attrs, code));
        }
      } else {
        qualified := code;
        if code == 38 {
          var color := ReadExtendedColor(params, pen.fg);
          pen := pen.(fg := color);
        } else if code == 48 {
          var color := ReadExtendedColor(params, pen.bg);
          pen := pen.(bg := color);
        } else {
          pen := ApplyCode(code, pen);
        }
      }
      todo := params.Left();
      ok, code, sub := params.Next();
    }
  }

  // ----- writing a pen -----

  function Top(n: nat): seq<Field> {
    [Field(n, false)]
  }

  function When(condition: bool, fields: seq<Field>): seq<Field> {
    if condition then fields else []
  }

  /** `add_color`. */
  function ColorFields(caps: Capabilities, base: nat, c: Color): seq<Field> {
    match c
    case Default => Top(base + 9)
    case Indexed(i) => Top(base + 8) + Top(5) + Top(i)
    case Rgb(r, g, b) =>
      if caps.colors.Truecolor? then Top(base + 8) + Top(2) + Top(r) + Top(g) + Top(b)
      else Top(base + 8) + Top(5) + Top(QuantizeTo256(r, g, b))
  }

  function WeightFields(added: Attrs, rest: seq<Field>): seq<Field> {
    When(added.bold, Top(1)) + (When(added.dim, Top(2)) + rest)
  }

  /** An undercurl wins over the plain underline asked for beside it. */
  function LineFields(added: Attrs, rest: seq<Field>): seq<Field> {
    When(added.italic, Top(3))
    + UnderlineFields(added, rest)
  }

  function UnderlineFields(added: Attrs, rest: seq<Field>): seq<Field> {
    When(added.undercurl, [Field(4, false), Field(3, true)])
    + (When(added.underline && !added.undercurl, Top(4)) + rest)
  }

  function OtherFields(added: Attrs, rest: seq<Field>): seq<Field> {
    When(added.reverse, Top(7)) + (When(added.strikethrough, Top(9)) + rest)
  }

  function ColorsFields(caps: Capabilities, pen: Style, want: Style): seq<Field> {
    When(want.fg != pen.fg, ColorFields(caps, 30, want.fg))
    + When(want.bg != pen.bg, ColorFields(caps, 40, want.bg))
  }

  function AttrFields(added: Attrs, rest: seq<Field>): seq<Field> {
    WeightFields(added, LineFields(added, OtherFields(added, rest)))
  }

  /** The parameters that take `pen` to `want` when nothing has to turn off. */
  function PenFields(caps: Capabilities, pen: Style, want: Style): seq<Field> {
    AttrFields(want.attrs.Minus(pen.attrs), ColorsFields(caps, pen, want))
  }

  // ----- the two directions meet -----

  lemma {:induction false} DigitsReadBack(n: nat)
    requires n <= LIMIT
    ensures ValueOf(Digits(n)) == n
  {
    var s := Digits(n);
    var last := '0' + (n % 10) as char;
    assert s[|s| - 1] == last && DigitValue(last) == n % 10;
    if n < 10 {
      assert s[..|s| - 1] == [];
    } else {
      assert s[..|s| - 1] == Digits(n / 10);
      DigitsReadBack(n / 10);
    }
  }

  /** Any parameter list written with `add_param` is read back field for field. */
  lemma {:induction false} FieldsReadBack(fields: seq<Field>)
    requires fields != [] && forall f :: f in fields ==> f.value <= LIMIT
    ensures ReadFields(Render(fields), fields[0].sub) == fields
    decreases |fields|
  {
    hide ValueOf, DigitRun, Digits;
    var digits, text := Digits(fields[0].value), Render(fields);
    assert text[..|digits|] == digits;
    DigitRunIs(text, |digits|);
    DigitsReadBack(fields[0].value);
    if |fields| > 1 {
      assert text[|digits| + 1..] == Render(fields[1..]);
      FieldsReadBack(fields[1..]);
      assert fields == [fields[0]] + fields[1..];
    }
  }

  /** One optional plain parameter; `after` is the pen it leaves. */
  lemma PlainStep(condition: bool, code: nat, rest: seq<Field>, q: nat, pen: Style, after: Style) returns (q': nat)
    requires code != 38 && code != 48
    requires after == if condition then ApplyCode(code, pen) else pen
    ensures ApplyFields(When(condition, Top(code)) + rest, q, pen) == ApplyFields(rest, q', after)
  {
    q' := if condition then code else q;
    var all := When(condition, Top(code)) + rest;
    if condition {
      assert all[1..] == rest;
    } else {
      assert all == rest;
    }
  }

  lemma UndercurlStep(condition: bool, rest: seq<Field>, q: nat, pen: Style) returns (q': nat)
    ensures ApplyFields(When(condition, [Field(4, false), Field(3, true)]) + rest, q, pen)
         == ApplyFields(rest, q', if condition then pen.(attrs := UnderlineStyle(pen.attrs, 3)) else pen)
  {
    q' := if condition then 4 else q;
    var all := When(condition, [Field(4, false), Field(3, true)]) + rest;
    if condition {
      assert all[1..] == [Field(3, true)] + rest && all[1..][1..] == rest;
    } else {
      assert all == rest;
    }
  }

  function WithColor(foreground: bool, pen: Style, c: Color): Style {
    if foreground then pen.(fg := c) else pen.(bg := c)
  }

  lemma ColorStep(caps: Capabilities, condition: bool, foreground: bool, c: Color, rest: seq<Field>, q: nat, pen: Style)
    returns (q': nat)
    ensures ApplyFields(When(condition, ColorFields(caps, if foreground then 30 else 40, c)) + rest, q, pen)
         == ApplyFields(rest, q', if condition then WithColor(foreground, pen, Quantized(caps, c)) else pen)
  {
    var base := if foreground then 30 else 40;
    var all := When(condition, ColorFields(caps, base, c)) + rest;
    if !condition {
      assert all == rest;
      q' := q;
    } else if c.Default? {
      q' := PlainStep(true, base + 9, rest, q, pen, WithColor(foreground, pen, Default));
    } else {
      q' := base + 8;
      var left := all[1..];
      var current := if foreground then pen.fg else pen.bg;
      assert ReadExtended(left, current) == (Quantized(caps, c), rest) by {
        if c.Rgb? && caps.colors.Truecolor? {
          assert left[4..] == rest;
        } else {
          assert left[2..] == rest;
        }
      }
    }
  }

  lemma NothingLeft(q: nat, pen: Style)
    ensures ApplyFields([], q, pen) == pen
  {
  }

  lemma OnSwitches(pen: Style)
    ensures ApplyCode(1, pen) == pen.(attrs := pen.attrs.(bold := true))
    ensures ApplyCode(2, pen) == pen.(attrs := pen.attrs.(dim := true))
    ensures ApplyCode(7, pen) == pen.(attrs := pen.attrs.(reverse := true))
    ensures ApplyCode(9, pen) == pen.(attrs := pen.attrs.(strikethrough := true))
  {
  }

  function Weighted(a: Attrs, added: Attrs): Attrs {
    a.(bold := a.bold || added.bold, dim := a.dim || added.dim)
  }

  function Underlined(a: Attrs, added: Attrs): Attrs {
    a.(underline := !added.undercurl && (added.underline || a.underline),
       undercurl := added.undercurl || (!added.underline && a.undercurl))
  }

  function Lined(a: Attrs, added: Attrs): Attrs {
    Underlined(a.(italic := a.italic || added.italic), added)
  }

  function Othered(a: Attrs, added: Attrs): Attrs {
    a.(reverse := a.reverse || added.reverse, strikethrough := a.strikethrough || added.strikethrough)
  }

  lemma WeightStep(added: Attrs, rest: seq<Field>, q: nat, pen: Style) returns (q': nat)
    ensures ApplyFields(WeightFields(added, rest), q, pen)
         == ApplyFields(rest, q', pen.(attrs := Weighted(pen.attrs, added)))
  {
    hide ApplyFields, When, Top, ApplyCode;
    var p1 := pen.(attrs := pen.attrs.(bold := pen.attrs.bold || added.bold));
    var p2 := p1.(attrs := p1.attrs.(dim := p1.attrs.dim || added.dim));
    OnSwitches(pen);
    OnSwitches(p1);
    q' := PlainStep(added.bold, 1, When(added.dim, Top(2)) + rest, q, pen, p1);
    q' := PlainStep(added.dim, 2, rest, q', p1, p2);
  }

  lemma LineStep(added: Attrs, rest: seq<Field>, q: nat, pen: Style) returns (q': nat)
    ensures ApplyFields(LineFields(added, rest), q, pen)
         == ApplyFields(rest, q', pen.(attrs := Lined(pen.attrs, added)))
  {
    hide ApplyFields, When, Top, UnderlineFields;
    var p1 := pen.(attrs := pen.attrs.(italic := pen.attrs.italic || added.italic));
    q' := PlainStep(added.italic, 3, UnderlineFields(added, rest), q, pen, p1);
    q' := UnderlineStep(added, rest, q', p1);
  }

  lemma UnderlineStep(added: Attrs, rest: seq<Field>, q: nat, pen: Style) returns (q': nat)
    ensures ApplyFields(UnderlineFields(added, rest), q, pen)
         == ApplyFields(rest, q', pen.(attrs := Underlined(pen.attrs, added)))
  {
    hide ApplyFields, When, Top;
    q' := UndercurlStep(added.undercurl, When(added.underline && !added.undercurl, Top(4)) + rest, q, pen);
    var p1 := if added.undercurl then pen.(attrs := UnderlineStyle(pen.attrs, 3)) else pen;
    var plain := added.underline && !added.undercurl;
    q' := PlainStep(plain, 4, rest, q', p1, if plain then ApplyCode(4, p1) else p1);
  }

  lemma OtherStep(added: Attrs, rest: seq<Field>, q: nat, pen: Style) returns (q': nat)
    ensures ApplyFields(OtherFields(added, rest), q, pen)
         == ApplyFields(rest, q', pen.(attrs := Othered(pen.attrs, added)))
  {
    hide ApplyFields, When, Top, ApplyCode;
    var p1 := pen.(attrs := pen.attrs.(reverse := pen.attrs.reverse || added.reverse));
    var p2 := p1.(attrs := p1.attrs.(strikethrough := p1.attrs.strikethrough || added.strikethrough));
    OnSwitches(pen);
    OnSwitches(p1);
    q' := PlainStep(added.reverse, 7, When(added.strikethrough, Top(9)) + rest, q, pen, p1);
    q' := PlainStep(added.strikethrough, 9, rest, q', p1, p2);
  }

  lemma ColorsStep(caps: Capabilities, pen: Style, want: Style, q: nat, held: Style)
    requires held.fg == Quantized(caps, pen.fg) && held.bg == Quantized(caps, pen.bg)
    ensures ApplyFields(ColorsFields(caps, pen, want), q, held)
         == Style(Quantized(caps, want.fg), Quantized(caps, want.bg), held.attrs)
  {
    hide ApplyFields, When, ColorFields, Quantized;
    var back := When(want.bg != pen.bg, ColorFields(caps, 40, want.bg));
    var q' := ColorStep(caps, want.fg != pen.fg, true, want.fg, back, q, held);
    assert back + [] == back;
    q' := ColorStep(caps, want.bg != pen.bg, false, want.bg, [], q', held.(fg := Quantized(caps, want.fg)));
    NothingLeft(q', Style(Quantized(caps, want.fg), Quantized(caps, want.bg), held.attrs));
  }

  /** The attributes held once the attribute parameters from `pen` to `want` are read. */
  function Reached(pen: Attrs, want: Attrs): Attrs {
    Underlined(want.(underline := pen.underline, undercurl := pen.undercurl), want.Minus(pen))
  }

  lemma StepsReach(pen: Attrs, want: Attrs)
    requires pen.Minus(want) == NO_ATTRS
    ensures var added := want.Minus(pen);
      Othered(Lined(Weighted(pen, added), added), added) == Reached(pen, want)
  {
  }

  lemma AttrsStep(pen: Style, want: Attrs, rest: seq<Field>, held: Style) returns (q: nat)
    requires pen.attrs.Minus(want) == NO_ATTRS && held.attrs == pen.attrs
    ensures ApplyFields(AttrFields(want.Minus(pen.attrs), rest), 0, held)
         == ApplyFields(rest, q, held.(attrs := Reached(pen.attrs, want)))
  {
    hide ApplyFields, WeightFields, LineFields, OtherFields, Weighted, Lined, Othered, Reached;
    var added := want.Minus(pen.attrs);
    StepsReach(pen.attrs, want);
    var others := OtherFields(added, rest);
    q := WeightStep(added, LineFields(added, others), 0, held);
    q := LineStep(added, others, q, held.(attrs := Weighted(pen.attrs, added)));
    q := OtherStep(added, rest, q, held.(attrs := Lined(Weighted(pen.attrs, added), added)));
  }

  /** Everything `PenFields` writes, read back: the wanted pen exactly when it is sayable at all. */
  lemma PenFieldsReadBack(caps: Capabilities, pen: Style, want: Style)
    requires pen.attrs.Minus(want.attrs) == NO_ATTRS && !pen.TwoUnderlines() && (want.TwoUnderlines() ==> want != pen)
    ensures ApplyFields(PenFields(caps, pen, want), 0, Sent(caps, pen)) == Sent(caps, want)
       <==> !want.TwoUnderlines()
  {
    hide ApplyFields, Quantized, AttrFields, ColorsFields;
    var q := AttrsStep(pen, want.attrs, ColorsFields(caps, pen, want), Sent(caps, pen));
    ColorsStep(caps, pen, want, q, Sent(caps, pen).(attrs := Reached(pen.attrs, want.attrs)));
  }

  /** The parameter strings `set_pen` sends for one change of pen, in order. */
  function PenStrings(caps: Capabilities, pen: Style, want: Style): seq<string> {
    if want == pen then []
    else if pen.attrs.Minus(want.attrs) != NO_ATTRS then
      if want == DEFAULT_STYLE then ["0"] else ["0", Render(PenFields(caps, DEFAULT_STYLE, want))]
    else [Render(PenFields(caps, pen, want))]
  }

  function ApplyAll(strings: seq<string>, pen: Style): Style {
    if strings == [] then pen else ApplyAll(strings[1..], Apply(strings[0], pen))
  }

  lemma ResetReadsBack(pen: Style)
    ensures Apply("0", pen) == DEFAULT_STYLE
  {
    DigitsReadBack(0);
    FieldsReadBack(Top(0));
    assert Render(Top(0)) == "0";
  }

  predicate Sendable(fields: seq<Field>) {
    && (fields != [] ==> !fields[0].sub)
    && forall f :: f in fields ==> f.value <= LIMIT
  }

  lemma SendableJoin(condition: bool, a: seq<Field>, b: seq<Field>)
    requires Sendable(a) && Sendable(b) && a != []
    ensures Sendable(When(condition, a) + b)
    ensures condition || b != [] ==> When(condition, a) + b != []
  {
  }

  lemma PenFieldsAreSendable(caps: Capabilities, pen: Style, want: Style)
    requires pen.attrs.Minus(want.attrs) == NO_ATTRS && want != pen
    ensures PenFields(caps, pen, want) != [] && Sendable(PenFields(caps, pen, want))
  {
    hide When, Sendable, ColorFields;
    var added := want.attrs.Minus(pen.attrs);
    SmallFields(caps, want.fg, want.bg);
    var back := When(want.bg != pen.bg, ColorFields(caps, 40, want.bg));
    assert back + [] == back;
    SendableJoin(want.bg != pen.bg, ColorFields(caps, 40, want.bg), []);
    SendableJoin(want.fg != pen.fg, ColorFields(caps, 30, want.fg), back);
    var f6 := ColorsFields(caps, pen, want);
    SendableJoin(added.strikethrough, Top(9), f6);
    SendableJoin(added.reverse, Top(7), When(added.strikethrough, Top(9)) + f6);
    var f4 := OtherFields(added, f6);
    SendableJoin(added.underline && !added.undercurl, Top(4), f4);
    SendableJoin(added.undercurl, [Field(4, false), Field(3, true)],
        When(added.underline && !added.undercurl, Top(4)) + f4);
    SendableJoin(added.italic, Top(3), UnderlineFields(added, f4));
    var f3 := LineFields(added, f4);
    SendableJoin(added.dim, Top(2), f3);
    SendableJoin(added.bold, Top(1), When(added.dim, Top(2)) + f3);
  }

  lemma SmallFields(caps: Capabilities, fg: Color, bg: Color)
    ensures Sendable(ColorFields(caps, 30, fg)) && ColorFields(caps, 30, fg) != []
    ensures Sendable(ColorFields(caps, 40, bg)) && ColorFields(caps, 40, bg) != []
    ensures forall n :: n <= 9 ==> Sendable(Top(n))
    ensures Sendable([Field(4, false), Field(3, true)]) && Sendable([])
  {
  }

  /** `set_pen` and `apply_sgr` are inverse, through the bytes: exactly when the wanted pen does not
      ask for a plain underline and an undercurl at once. */
  lemma PenReadsBack(caps: Capabilities, pen: Style, want: Style)
    requires !pen.TwoUnderlines()
    ensures ApplyAll(PenStrings(caps, pen, want), Sent(caps, pen)) == Sent(caps, want)
       <==> !want.TwoUnderlines()
  {
    hide ApplyFields, PenFields, ReadFields, Render;
    ResetReadsBack(Sent(caps, pen));
    var off := pen.attrs.Minus(want.attrs) != NO_ATTRS;
    var base := if off then DEFAULT_STYLE else pen;
    if want != base {
      var text := Render(PenFields(caps, base, want));
      PenFieldsAreSendable(caps, base, want);
      FieldsReadBack(PenFields(caps, base, want));
      PenFieldsReadBack(caps, base, want);
      assert ApplyAll([text], Sent(caps, base)) == Apply(text, Sent(caps, base));
      assert ["0", text][1..] == [text];
    }
  }
}
