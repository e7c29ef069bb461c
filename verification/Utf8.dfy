/** UTF-8 at the front of the input (decode.cpp), against the encoding form itself: section 3.9 and
    Table 3-7 of the Unicode Standard. */
module Utf8 {
  import opened Wrappers

  type Bytes = seq<Byte>

  predicate IsScalar(c: int) {
    0 <= c < 0xD800 || 0xE000 <= c < 0x110000
  }

  type Scalar = c: int | 0 <= c < 0xD800 || 0xE000 <= c < 0x110000

  const REPLACEMENT: Scalar := 0xFFFD

  /** Six bits at a time. */
  function High(c: nat): nat {
    c / 0x40
  }

  function Low(c: nat): (r: nat)
    ensures r < 0x40
  {
    c % 0x40
  }

  /** What four bytes can carry; the scalars are those of them the standard assigns. */
  type Codepoint = c: nat | c < 0x200000

  /** The encoding form. */
  function Encode(c: Codepoint): (s: Bytes)
    ensures 1 <= |s| <= 4
  {
    if c < 0x80 then var a: Byte := c; [a]
    else if c < 0x800 then var a: Byte := 0xC0 + High(c); [a, 0x80 + Low(c)]
    else if c < 0x10000 then
      var a: Byte := 0xE0 + High(High(c));
      [a, 0x80 + Low(High(c)), 0x80 + Low(c)]
    else
      var a: Byte := 0xF0 + High(High(High(c)));
      [a, 0x80 + Low(High(High(c))), 0x80 + Low(High(c)), 0x80 + Low(c)]
  }

  function EncodeAll(cs: seq<Scalar>): Bytes {
    if cs == [] then [] else Encode(cs[0]) + EncodeAll(cs[1..])
  }

  // ----- the scanner -----

  /** What one scan of the front of the input finds. */
  datatype Scan = Incomplete | Malformed(length: nat) | Valid(codepoint: int, length: nat)

  function SequenceLength(lead: Byte): nat {
    if lead < 0x80 then 1 else if lead < 0xC2 then 0 else if lead < 0xE0 then 2
    else if lead < 0xF0 then 3 else if lead < 0xF5 then 4 else 0
  }

  function SecondByteRange(lead: Byte): (Byte, Byte) {
    if lead == 0xE0 then (0xA0, 0xBF) else if lead == 0xED then (0x80, 0x9F)
    else if lead == 0xF0 then (0x90, 0xBF) else if lead == 0xF4 then (0x80, 0x8F) else (0x80, 0xBF)
  }

  predicate IsContinuation(b: Byte) {
    b / 0x40 == 2
  }

  /** Six more bits behind those read so far. */
  function Joined(high: nat, continuation: Byte): nat {
    high * 0x40 + Low(continuation)
  }

  function ScanScalar(rest: Bytes): (s: Scan)
    requires rest != []
    ensures s.Valid? ==> 1 <= s.length <= |rest| && s.length <= 4
    ensures s.Malformed? ==> 1 <= s.length <= |rest| && s.length <= 3
  {
    var lead := rest[0];
    var want := SequenceLength(lead);
    if want == 0 then Malformed(1)
    else if want == 1 then Valid(lead, 1)
    else if |rest| < 2 then Incomplete
    else
      var second := rest[1];
      var (low, high) := SecondByteRange(lead);
      if second < low || second > high then Malformed(1)
      else if want == 2 then Valid(Joined(lead % 0x20, second), 2)
      else if |rest| < 3 then Incomplete
      else
        var third := rest[2];
        if !IsContinuation(third) then Malformed(2)
        else if want == 3 then Valid(Joined(Joined(lead % 0x10, second), third), 3)
        else if |rest| < 4 then Incomplete
        else
          var fourth := rest[3];
          if !IsContinuation(fourth) then Malformed(3)
          else Valid(Joined(Joined(Joined(lead % 0x08, second), third), fourth), 4)
  }

  lemma JoinSplits(high: nat, b: Byte)
    ensures High(Joined(high, b)) == high && Low(Joined(high, b)) == Low(b)
    ensures high * 0x40 <= Joined(high, b) < high * 0x40 + 0x40
    ensures 0x80 <= b <= 0xBF <==> IsContinuation(b)
    ensures IsContinuation(b) ==> b == 0x80 + Low(b)
  {
  }

  lemma SplitJoins(c: nat)
    ensures Joined(High(c), 0x80 + Low(c)) == c && IsContinuation(0x80 + Low(c))
    ensures c == High(c) * 0x40 + Low(c)
  {
  }

  /** What a lead byte carries. */
  lemma Leads(a: Byte)
    ensures 0xC0 <= a < 0xE0 ==> a % 0x20 == a - 0xC0
    ensures 0xE0 <= a < 0xF0 ==> a % 0x10 == a - 0xE0
    ensures 0xF0 <= a < 0xF8 ==> a % 0x08 == a - 0xF0
  {
  }

  /** The scanner recognises exactly the encodings: reading one back gives the scalar... */
  lemma ScanEncoded(c: Scalar, rest: Bytes)
    ensures ScanScalar(Encode(c) + rest) == Valid(c, |Encode(c)|)
  {
    hide Joined, High, Low, IsContinuation;
    var text, h, hh := Encode(c) + rest, High(c), High(High(c));
    SplitJoins(c);
    SplitJoins(h);
    SplitJoins(hh);
    Leads(text[0]);
    if 0x10000 <= c {
      assert text[0] == 0xF0 + High(hh) && text[1] == 0x80 + Low(hh) && text[2] == 0x80 + Low(h) &&
          text[3] == 0x80 + Low(c);
    } else if 0x800 <= c {
      assert text[0] == 0xE0 + hh && text[1] == 0x80 + Low(h) && text[2] == 0x80 + Low(c);
    } else if 0x80 <= c {
      assert text[0] == 0xC0 + h && text[1] == 0x80 + Low(c);
    }
  }

  /** ... and whatever it accepts is one. */
  lemma ScanIsEncoding(rest: Bytes)
    requires rest != [] && ScanScalar(rest).Valid?
    ensures var s := ScanScalar(rest);
      IsScalar(s.codepoint) && rest[..s.length] == Encode(s.codepoint)
  {
    var n := ScanScalar(rest).length;
    if n == 1 {
      assert rest[..1] == [rest[0]];
    } else if n == 2 {
      TwoBytes(rest[0], rest[1]);
      assert rest[..2] == [rest[0], rest[1]];
    } else if n == 3 {
      ThreeBytes(rest[0], rest[1], rest[2]);
      assert rest[..3] == [rest[0], rest[1], rest[2]];
    } else {
      FourBytes(rest[0], rest[1], rest[2], rest[3]);
      assert rest[..4] == [rest[0], rest[1], rest[2], rest[3]];
    }
  }

  lemma TwoBytes(a: Byte, b: Byte)
    requires 0xC2 <= a < 0xE0 && 0x80 <= b <= 0xBF
    ensures var c := Joined(a % 0x20, b);
      IsScalar(c) && Encode(c) == [a, b]
  {
    hide Joined, High, Low;
    Leads(a);
    JoinSplits(a % 0x20, b);
  }

  lemma ThreeBytes(a: Byte, b: Byte, c: Byte)
    requires 0xE0 <= a < 0xF0 && IsContinuation(c)
    requires SecondByteRange(a).0 <= b <= SecondByteRange(a).1
    ensures var cp := Joined(Joined(a % 0x10, b), c);
      IsScalar(cp) && Encode(cp) == [a, b, c]
  {
    hide Joined, High, Low;
    Leads(a);
    JoinSplits(a % 0x10, b);
    JoinBounds(a % 0x10, b);
    JoinSplits(Joined(a % 0x10, b), c);
  }

  lemma FourBytes(a: Byte, b: Byte, c: Byte, d: Byte)
    requires 0xF0 <= a < 0xF5 && IsContinuation(c) && IsContinuation(d)
    requires SecondByteRange(a).0 <= b <= SecondByteRange(a).1
    ensures var cp := Joined(Joined(Joined(a % 0x08, b), c), d);
      IsScalar(cp) && Encode(cp) == [a, b, c, d]
  {
    hide Joined, High, Low;
    Leads(a);
    JoinSplits(a % 0x08, b);
    JoinBounds(a % 0x08, b);
    JoinSplits(Joined(a % 0x08, b), c);
    JoinSplits(Joined(Joined(a % 0x08, b), c), d);
  }

  /** The second byte's range is where the overlong, surrogate and too-large forms die. */
  lemma JoinBounds(high: nat, b: Byte)
    requires 0x80 <= b <= 0xBF
    ensures Joined(high, b) == high * 0x40 + (b - 0x80)
  {
  }

  predicate Begins(s: Bytes, c: int) {
    IsScalar(c) && s <= Encode(c)
  }

  /** `Incomplete` is said exactly of what could still become a character and is none yet. */
  lemma IncompleteIsPromise(rest: Bytes)
    requires rest != []
    ensures ScanScalar(rest).Incomplete? <==> exists c :: Begins(rest, c) && rest != Encode(c)
  {
    if ScanScalar(rest).Incomplete? {
      var c := Promised(rest);
    }
    if c :| Begins(rest, c) && rest != Encode(c) {
      PrefixIsIncomplete(rest, c);
    }
  }

  lemma PrefixIsIncomplete(rest: Bytes, c: Scalar)
    requires rest != [] && rest < Encode(c)
    ensures ScanScalar(rest).Incomplete?
  {
    ScanEncoded(c, []);
    assert Encode(c) + [] == Encode(c);
    assert forall i :: 0 <= i < |rest| ==> rest[i] == Encode(c)[i];
  }

  /** A character the bytes of an unfinished sequence could still become. */
  lemma Promised(rest: Bytes) returns (c: int)
    requires rest != [] && ScanScalar(rest).Incomplete?
    ensures Begins(rest, c) && rest != Encode(c)
  {
    var lead := rest[0];
    var second := if 1 < |rest| then rest[1] else SecondByteRange(lead).0;
    var third := if 2 < |rest| then rest[2] else 0x80;
    var want := SequenceLength(lead);
    var whole := if want == 2 then [lead, second] else if want == 3 then [lead, second, third]
        else [lead, second, third, 0x80];
    assert ScanScalar(whole).Valid? && ScanScalar(whole).length == want;
    ScanIsEncoding(whole);
    c := ScanScalar(whole).codepoint;
    assert whole[..want] == whole;
  }

  /** What is replaced is the maximal subpart: one byte more could begin no character, and whatever is
      longer than one byte could have. */
  lemma MalformedIsMaximal(rest: Bytes)
    requires rest != [] && ScanScalar(rest).Malformed?
    ensures var n := ScanScalar(rest).length;
      && (1 < n ==> exists c :: Begins(rest[..n], c))
      && (n < |rest| ==> var more := rest[..n + 1]; forall c :: !Begins(more, c))
      && (n == |rest| ==> forall c :: !Begins(rest, c))
  {
    var n := ScanScalar(rest).length;
    if 1 < n {
      assert ScanScalar(rest[..n]).Incomplete?;
      var c := Promised(rest[..n]);
    }
    var more := if n < |rest| then rest[..n + 1] else rest;
    assert ScanScalar(more) == ScanScalar(rest) && more + [] == more;
    forall c | Begins(more, c)
      ensures false
    {
      if more == Encode(c) {
        ScanEncoded(c, []);
      } else {
        PrefixIsIncomplete(more, c);
      }
    }
  }

  // ----- malformed text degrades -----

  /** The characters a text is read as: one U+FFFD for every maximal subpart, and for a truncated end. */
  function Scalars(text: Bytes): (cs: seq<Scalar>)
  {
    if text == [] then []
    else match ScanScalar(text)
      case Incomplete => [REPLACEMENT]
      case Malformed(n) => [REPLACEMENT] + Scalars(text[n..])
      case Valid(c, n) => ScanIsEncoding(text); [c] + Scalars(text[n..])
  }

  /** `well_formed`, on the text as it is. */
  method WellFormed(text: Bytes) returns (clean: Bytes)
    ensures clean == EncodeAll(Scalars(text))
  {
    hide Encode, ScanScalar, Scalars, EncodeAll;
    ScalarsStep([]);
    var at := 0;
    while at < |text| && ScanScalar(text[at..]).Valid?
      invariant at <= |text| && text[..at] + EncodeAll(Scalars(text[at..])) == EncodeAll(Scalars(text))
      decreases |text| - at
    {
      var n := ScanScalar(text[at..]).length;
      ScalarsStep(text[at..]);
      assert text[at..][n..] == text[at + n..] && text[..at] + text[at..][..n] == text[..at + n];
      at := at + n;
    }
    if at == |text| {
      assert text[..at] == text;
      return text;
    }
    clean := text[..at];
    var rest := text[at..];
    while rest != []
      invariant clean + EncodeAll(Scalars(rest)) == EncodeAll(Scalars(text))
      decreases |rest|
    {
      ScalarsStep(rest);
      var scan := ScanScalar(rest);
      if scan.Incomplete? {
        return clean + Encode(REPLACEMENT);
      }
      clean := clean + if scan.Malformed? then Encode(REPLACEMENT) else rest[..scan.length];
      rest := rest[scan.length..];
    }
  }

  /** One step of cleaning: what the front of a text becomes, and what is left of it. */
  lemma ScalarsStep(text: Bytes)
    ensures EncodeAll(Scalars([])) == []
    ensures text != [] ==>
      var scan := ScanScalar(text);
      EncodeAll(Scalars(text)) == if scan.Incomplete? then Encode(REPLACEMENT)
        else
          (if scan.Malformed? then Encode(REPLACEMENT) else text[..scan.length])
          + EncodeAll(Scalars(text[scan.length..]))
  {
    hide Encode, ScanScalar;
    if text != [] {
      var scan := ScanScalar(text);
      if scan.Incomplete? {
        assert EncodeAll([REPLACEMENT]) == Encode(REPLACEMENT);
      } else {
        var c := if scan.Valid? then scan.codepoint else REPLACEMENT;
        if scan.Valid? { ScanIsEncoding(text); }
        assert ([c] + Scalars(text[scan.length..]))[1..] == Scalars(text[scan.length..]);
      }
    }
  }

  lemma {:induction false} EncodeAllJoin(a: seq<Scalar>, b: seq<Scalar>)
    ensures EncodeAll(a + b) == EncodeAll(a) + EncodeAll(b)
  {
    if a == [] {
      assert a + b == b;
    } else {
      assert (a + b)[1..] == a[1..] + b;
      EncodeAllJoin(a[1..], b);
    }
  }

  /** Well-formed text is read as exactly the characters it encodes. */
  lemma {:induction false} ScalarsOfEncoding(cs: seq<Scalar>)
    ensures Scalars(EncodeAll(cs)) == cs
  {
    if cs != [] {
      var text := EncodeAll(cs);
      ScanEncoded(cs[0], EncodeAll(cs[1..]));
      assert text[|Encode(cs[0])|..] == EncodeAll(cs[1..]);
      ScalarsOfEncoding(cs[1..]);
    }
  }

  /** Cleaning a text: the result is well formed, is the text exactly when the text was, and cleaning
      it again changes nothing. */
  lemma CleanText(text: Bytes)
    ensures var clean := EncodeAll(Scalars(text));
      && (clean == text <==> exists cs :: text == EncodeAll(cs))
      && EncodeAll(Scalars(clean)) == clean
  {
    ScalarsOfEncoding(Scalars(text));
    if cs :| text == EncodeAll(cs) {
      ScalarsOfEncoding(cs);
    }
  }
}
