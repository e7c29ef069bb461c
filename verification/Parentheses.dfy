/** How many parentheses a tree needs: no text with fewer than `Print` writes is read as the tree. */
module Parentheses {
  import opened Wrappers
  import opened Expressions
  import opened Precedence

  // Where C needs no parentheses, around a comma list in the middle of `?:`, this grammar does.

  // ----- counting -----

  /** The opening parentheses among the first n characters of a text. */
  function Opens(text: string, n: nat): nat
    requires n <= |text|
  {
    if n == 0 then 0 else Opens(text, n - 1) + if text[n - 1] == '(' then 1 else 0
  }

  /** All of them. */
  function AllOpens(text: string): nat {
    Opens(text, |text|)
  }

  lemma {:induction false} OpensGrow(text: string, i: nat, j: nat)
    requires i <= j <= |text|
    ensures Opens(text, i) <= Opens(text, j)
    decreases j - i
  {
    if i < j {
      OpensGrow(text, i, j - 1);
    }
  }

  lemma OpensGrowAll(text: string)
    ensures forall i, j :: 0 <= i <= j <= |text| ==> Opens(text, i) <= Opens(text, j)
  {
    forall i, j | 0 <= i <= j <= |text|
      ensures Opens(text, i) <= Opens(text, j)
    {
      OpensGrow(text, i, j);
    }
  }

  lemma {:induction false} OpensJoin(a: string, b: string, n: nat)
    requires n <= |b|
    ensures Opens(a + b, |a| + n) == AllOpens(a) + Opens(b, n)
    decreases n
  {
    if n > 0 {
      OpensJoin(a, b, n - 1);
    } else {
      OpensAgree(a + b, a, |a|);
    }
  }

  lemma {:induction false} OpensAgree(s: string, t: string, n: nat)
    requires n <= |s| && n <= |t| && s[..n] == t[..n]
    ensures Opens(s, n) == Opens(t, n)
    decreases n
  {
    if n > 0 {
      assert s[n - 1] == s[..n][n - 1] && t[n - 1] == t[..n][n - 1];
      assert s[..n - 1] == s[..n][..n - 1] && t[..n - 1] == t[..n][..n - 1];
      OpensAgree(s, t, n - 1);
    }
  }

  lemma AllOpensJoin(a: string, b: string)
    ensures AllOpens(a + b) == AllOpens(a) + AllOpens(b)
  {
    OpensJoin(a, b, |b|);
  }

  lemma {:induction false} NoOpens(text: string)
    requires '(' !in text
    ensures AllOpens(text) == 0
    decreases |text|
  {
    if text != [] {
      NoOpens(text[..|text| - 1]);
      OpensAgree(text, text[..|text| - 1], |text| - 1);
    }
  }

  // ----- the parentheses a tree needs -----

  /** Where the grammar wants level `m`. */
  function Needed(e: Expr, m: int): nat
    decreases e, 1
  {
    Inside(e) + if LevelOf(e) < m then 1 else 0
  }

  function Inside(e: Expr): nat
    decreases e, 0
  {
    match e
    case Number(_) | Variable(_) => 0
    case Unary(_, e1) => Needed(e1, UNARY_LEVEL)
    case Binary(op, l, r) => Needed(l, OpLevel(op)) + Needed(r, OpLevel(op) + 1)
    case Conditional(c, t, f) => Needed(c, 0) + Needed(t, ASSIGNMENT) + Needed(f, CONDITIONAL)
    case Assign(_, r) => Needed(r, ASSIGNMENT)
    case Update(_, _, r) => Needed(r, ASSIGNMENT)
    case Sequence(a, b) => Needed(a, SEQUENCE) + Needed(b, ASSIGNMENT)
  }

  /** What a parser of level `m` reads has at least the parentheses it needs there. */
  ghost predicate Paid(p: Parsed, text: string, at: nat, m: int)
    requires at <= |text| && Within(p, text, at)
  {
    p.Parsed? ==> Opens(text, at) + Needed(p.e, m) <= Opens(text, p.next)
  }

  lemma LooserNeedsLess(p: Parsed, m: int, tighter: int)
    ensures p.Parsed? && m <= tighter ==> Needed(p.e, m) <= Needed(p.e, tighter)
    ensures p.Parsed? ==> Needed(p.e, tighter) <= 1 + Needed(p.e, m)
  {
    hide Inside;
  }

  lemma {:induction false} CommaPays(text: string, at: nat)
    requires at <= |text|
    ensures Paid(ParseComma(text, at), text, at, SEQUENCE)
    decreases |text| - at, 20
  {
    hide ParseAssignment, ParseCommas;
    AssignmentPays(text, at);
    var p := ParseAssignment(text, at);
    if p.Parsed? {
      CommasPay(text, p.e, p.next);
    }
  }

  lemma {:induction false} CommasPay(text: string, first: Expr, at: nat)
    requires at <= |text|
    ensures var p := ParseCommas(text, first, at);
      p.Parsed? ==> Opens(text, at) + Needed(p.e, SEQUENCE) <= Opens(text, p.next) + Needed(first, SEQUENCE)
    decreases |text| - at, 0
  {
    hide ParseAssignment, Consumed;
    OpensGrowAll(text);
    var (more, next) := Consumed(text, at, ",");
    if more {
      AssignmentPays(text, next);
      var p := ParseAssignment(text, next);
      if p.Parsed? {
        CommasPay(text, Sequence(first, p.e), p.next);
      }
    }
  }

  lemma {:induction false} AssignmentPays(text: string, at: nat)
    requires at <= |text|
    ensures Paid(ParseAssignment(text, at), text, at, ASSIGNMENT)
    decreases |text| - at, 19
  {
    hide ReadHead, ParseConditional;
    OpensGrowAll(text);
    var h := ReadHead(text, at);
    if h.NoHead? {
      ConditionalPays(text, at);
      LooserNeedsLess(ParseConditional(text, at), ASSIGNMENT, CONDITIONAL);
    } else {
      AssignmentPays(text, h.next);
      var p := ParseAssignment(text, h.next);
      if p.Parsed? {
        RightNeedsAll(p.e, if h.AssignHead? then Assign(h.name, p.e) else Update(h.name, h.op, p.e));
      }
    }
  }

  lemma RightNeedsAll(r: Expr, e: Expr)
    requires (e.Assign? || e.Update?) && e.right == r
    ensures Needed(e, ASSIGNMENT) == Needed(r, ASSIGNMENT)
  {
  }

  lemma {:induction false} ConditionalPays(text: string, at: nat)
    requires at <= |text|
    ensures Paid(ParseConditional(text, at), text, at, CONDITIONAL)
    decreases |text| - at, 18
  {
    hide ParseBinary, ParseAssignment, Consumed;
    OpensGrowAll(text);
    BinaryPays(text, 0, at);
    LooserNeedsLess(ParseBinary(text, 0, at), CONDITIONAL, 0);
    var c := ParseBinary(text, 0, at);
    if c.Parsed? && Consumed(text, c.next, "?").0 {
      var next1 := Consumed(text, c.next, "?").1;
      AssignmentPays(text, next1);
      var t := ParseAssignment(text, next1);
      if t.Parsed? && Consumed(text, t.next, ":").0 {
        ConditionalPays(text, Consumed(text, t.next, ":").1);
        var f := ParseConditional(text, Consumed(text, t.next, ":").1);
        if f.Parsed? {
          ThreeNeeds(c.e, t.e, f.e);
        }
      }
    }
  }

  lemma ThreeNeeds(c: Expr, t: Expr, f: Expr)
    ensures Needed(Conditional(c, t, f), CONDITIONAL) == Needed(c, 0) + Needed(t, ASSIGNMENT) + Needed(f, CONDITIONAL)
  {
  }

  lemma {:induction false} BinaryPays(text: string, level: nat, at: nat)
    requires at <= |text| && level <= UNARY_LEVEL
    ensures Paid(ParseBinary(text, level, at), text, at, level)
    decreases |text| - at, 17 - level
  {
    hide ParseUnary, ParseOperands;
    if level == UNARY_LEVEL {
      UnaryPays(text, at);
    } else {
      BinaryPays(text, level + 1, at);
      var p := ParseBinary(text, level + 1, at);
      if p.Parsed? {
        OperandsPay(text, level, p.e, p.next);
      }
    }
  }

  lemma {:induction false} OperandsPay(text: string, level: nat, left: Expr, at: nat)
    requires at <= |text| && level < UNARY_LEVEL
    ensures var p := ParseOperands(text, level, left, at);
      p.Parsed? ==> Opens(text, at) + Needed(p.e, level) <= Opens(text, p.next) + Needed(left, level)
    decreases |text| - at, 0
  {
    hide FirstConsumed, ParseBinary, Operators;
    OpensGrowAll(text);
    var (op, next) := FirstConsumed(text, at, Operators(level));
    if op.Some? {
      BinaryPays(text, level + 1, next);
      var p := ParseBinary(text, level + 1, next);
      if p.Parsed? {
        OperatorIsOfLevel(text, at, level);
        OperandsPay(text, level, Binary(op.value, left, p.e), p.next);
      }
    }
  }

  /** An operator read at a level is of that level. */
  lemma OperatorIsOfLevel(text: string, at: nat, level: nat)
    requires at <= |text| && level < UNARY_LEVEL
    ensures var op := FirstConsumed(text, at, Operators(level)).0; op.Some? ==> OpLevel(op.value) == level
  {
    hide Consumed;
    TablesAgree(level);
    FoundIsListed(text, at, Operators(level));
  }

  lemma {:induction false} FoundIsListed<T>(text: string, at: nat, table: seq<(string, T)>)
    requires at <= |text| && forall i :: 0 <= i < |table| ==> table[i].0 != ""
    ensures var found := FirstConsumed(text, at, table).0;
      found.Some? ==> exists i :: 0 <= i < |table| && table[i].1 == found.value
    decreases |table|
  {
    hide Consumed;
    if table != [] && !Consumed(text, at, table[0].0).0 {
      FoundIsListed(text, Consumed(text, at, table[0].0).1, table[1..]);
      assert forall i :: 0 <= i < |table| - 1 ==> table[1..][i] == table[i + 1];
    }
  }

  lemma {:induction false} UnaryPays(text: string, at: nat)
    requires at <= |text|
    ensures Paid(ParseUnary(text, at), text, at, UNARY_LEVEL)
    decreases |text| - at, 6
  {
    hide FirstConsumed, ParsePrimary, SkipBlanks;
    OpensGrowAll(text);
    var (sign, next) := FirstConsumed(text, SkipBlanks(text, at), SIGNS);
    if sign.Some? {
      UnaryPays(text, next);
      var p := ParseUnary(text, next);
      assert p.Parsed? ==> Needed(Unary(sign.value, p.e), UNARY_LEVEL) == Needed(p.e, UNARY_LEVEL);
    } else {
      PrimaryPays(text, next);
      LooserNeedsLess(ParsePrimary(text, next), UNARY_LEVEL, PRIMARY);
    }
  }

  lemma {:induction false} PrimaryPays(text: string, at: nat)
    requires at <= |text|
    ensures Paid(ParsePrimary(text, at), text, at, PRIMARY)
    decreases |text| - at, 5
  {
    hide ParseComma, ParseAtom;
    OpensGrowAll(text);
    var start := SkipBlanks(text, at);
    if start < |text| {
      var (open, next) := Consumed(text, start, "(");
      if open {
        OpenIsCounted(text, start);
        CommaPays(text, next);
        LooserNeedsLess(ParseComma(text, next), SEQUENCE, PRIMARY);
      } else {
        AtomPays(text, start);
      }
    }
  }

  lemma OpenIsCounted(text: string, at: nat)
    requires at <= |text| && Consumed(text, at, "(").0
    ensures var next := Consumed(text, at, "(").1;
      at < next && Opens(text, next) == 1 + Opens(text, next - 1)
  {
    var next := SkipBlanks(text, at) + 1;
    hide Opens, SkipBlanks;
    assert text[next - 1..next] == "(";
    assert text[next - 1] == text[next - 1..next][0];
    CountedHere(text, next);
  }

  lemma CountedHere(text: string, n: nat)
    requires 0 < n <= |text| && text[n - 1] == '('
    ensures Opens(text, n) == 1 + Opens(text, n - 1)
  {
  }

  lemma AtomPays(text: string, at: nat)
    requires at < |text|
    ensures Paid(ParseAtom(text, at), text, at, PRIMARY)
  {
    hide DigitsEnd, Base, Saturated, Numeral;
    OpensGrowAll(text);
    var p := ParseAtom(text, at);
    assert p.Parsed? ==> Needed(p.e, PRIMARY) == 0 && Opens(text, at) <= Opens(text, p.next);
  }

  // ----- the parentheses a text has -----

  lemma NameHasNone(name: string)
    requires NameOk(name)
    ensures AllOpens(name) == 0
  {
    NoOpens(name);
  }

  lemma {:induction false} PrintOpens(e: Expr, m: int)
    requires Writable(e)
    ensures AllOpens(Print(e, m)) == Needed(e, m)
    decreases e, 1
  {
    hide Body, Inside;
    BodyOpens(e);
    if LevelOf(e) < m {
      AllOpensJoin("(", Body(e));
      AllOpensJoin("(" + Body(e), ")");
      assert AllOpens("(") == 1 && AllOpens(")") == 0 by { OneOpens('('); OneOpens(')'); }
    }
  }

  lemma OneOpens(c: char)
    ensures AllOpens([c]) == if c == '(' then 1 else 0
  {
    assert Opens([c], 0) == 0;
  }

  lemma Joined3(a: string, b: string, c: string)
    requires '(' !in b
    ensures AllOpens(a + b + c) == AllOpens(a) + AllOpens(c)
  {
    NoOpens(b);
    AllOpensJoin(a, b);
    AllOpensJoin(a + b, c);
  }

  lemma {:induction false} BodyOpens(e: Expr)
    requires Writable(e)
    ensures AllOpens(Body(e)) == Inside(e)
    decreases e, 0
  {
    hide Print, Needed, AllOpens;
    match e
    case Number(v) => NoOpens(Decimal(v));
    case Variable(name) => NameHasNone(name);
    case Unary(sign, e1) =>
      PrintOpens(e1, UNARY_LEVEL);
      NoOpens(SignText(sign));
      AllOpensJoin(SignText(sign), Print(e1, UNARY_LEVEL));
    case Binary(op, l, r) =>
      PrintOpens(l, OpLevel(op));
      PrintOpens(r, OpLevel(op) + 1);
      Joined3(Print(l, OpLevel(op)), OpText(op), Print(r, OpLevel(op) + 1));
    case Conditional(c, t, f) =>
      PrintOpens(c, 0);
      PrintOpens(t, ASSIGNMENT);
      PrintOpens(f, CONDITIONAL);
      Joined3(Print(c, 0), "?", Print(t, ASSIGNMENT));
      Joined3(Print(c, 0) + "?" + Print(t, ASSIGNMENT), ":", Print(f, CONDITIONAL));
    case Assign(name, r) =>
      PrintOpens(r, ASSIGNMENT);
      NameHasNone(name);
      Joined3(name, "=", Print(r, ASSIGNMENT));
    case Update(name, op, r) =>
      PrintOpens(r, ASSIGNMENT);
      NameHasNone(name);
      NoOpens(OpText(op));
      AllOpensJoin(name, OpText(op));
      Joined3(name + OpText(op), "=", Print(r, ASSIGNMENT));
    case Sequence(a, b) =>
      PrintOpens(a, SEQUENCE);
      PrintOpens(b, ASSIGNMENT);
      Joined3(Print(a, SEQUENCE), ",", Print(b, ASSIGNMENT));
  }

  /** No text that is read as a tree has fewer parentheses than the one `Print` writes for it. */
  lemma FewestParentheses(text: string, e: Expr)
    requires Parse(text) == Some(e) && Writable(e)
    ensures AllOpens(Print(e, SEQUENCE)) <= AllOpens(text)
  {
    hide ParseComma, Needed, Print;
    PrintOpens(e, SEQUENCE);
    CommaPays(text, 0);
    OpensGrow(text, ParseComma(text, 0).next, |text|);
  }

  // ----- what C would read -----

  /** C's conditional takes a whole expression in the middle. */
  function PrintForC(e: Expr, m: int): string
    decreases e, 1
  {
    if LevelOf(e) < m then "(" + BodyForC(e) + ")" else BodyForC(e)
  }

  function BodyForC(e: Expr): string
    decreases e, 0
  {
    match e
    case Number(_) | Variable(_) => Body(e)
    case Unary(sign, e1) => SignText(sign) + PrintForC(e1, UNARY_LEVEL)
    case Binary(op, l, r) => PrintForC(l, OpLevel(op)) + OpText(op) + PrintForC(r, OpLevel(op) + 1)
    case Conditional(c, t, f) => PrintForC(c, 0) + "?" + PrintForC(t, SEQUENCE) + ":" + PrintForC(f, CONDITIONAL)
    case Assign(name, r) => name + "=" + PrintForC(r, ASSIGNMENT)
    case Update(name, op, r) => name + OpText(op) + "=" + PrintForC(r, ASSIGNMENT)
    case Sequence(a, b) => PrintForC(a, SEQUENCE) + "," + PrintForC(b, ASSIGNMENT)
  }

  /** The conditionals with a comma list in the middle. */
  function CommasInside(e: Expr): nat {
    match e
    case Number(_) | Variable(_) => 0
    case Unary(_, e1) => CommasInside(e1)
    case Binary(_, l, r) => CommasInside(l) + CommasInside(r)
    case Conditional(c, t, f) => CommasInside(c) + CommasInside(t) + CommasInside(f) + if t.Sequence? then 1 else 0
    case Assign(_, r) => CommasInside(r)
    case Update(_, _, r) => CommasInside(r)
    case Sequence(a, b) => CommasInside(a) + CommasInside(b)
  }

  /** C's text has one pair fewer for each of them, and is the same text if there are none. */
  lemma {:induction false} PrintForCOpens(e: Expr, m: int)
    requires Writable(e)
    ensures AllOpens(PrintForC(e, m)) + CommasInside(e) == Needed(e, m)
    ensures CommasInside(e) == 0 ==> PrintForC(e, m) == Print(e, m)
    decreases e, 1
  {
    hide Body, BodyForC, Inside, CommasInside;
    BodyForCOpens(e);
    if LevelOf(e) < m {
      AllOpensJoin("(", BodyForC(e));
      AllOpensJoin("(" + BodyForC(e), ")");
      assert AllOpens("(") == 1 && AllOpens(")") == 0 by { OneOpens('('); OneOpens(')'); }
    }
  }

  lemma {:induction false} BodyForCOpens(e: Expr)
    requires Writable(e)
    ensures AllOpens(BodyForC(e)) + CommasInside(e) == Inside(e)
    ensures CommasInside(e) == 0 ==> BodyForC(e) == Body(e)
    decreases e, 0
  {
    hide Print, PrintForC, AllOpens;
    match e
    case Number(v) => NoOpens(Decimal(v));
    case Variable(name) => NameHasNone(name);
    case Unary(sign, e1) =>
      PrintForCOpens(e1, UNARY_LEVEL);
      NoOpens(SignText(sign));
      AllOpensJoin(SignText(sign), PrintForC(e1, UNARY_LEVEL));
    case Binary(op, l, r) =>
      PrintForCOpens(l, OpLevel(op));
      PrintForCOpens(r, OpLevel(op) + 1);
      Joined3(PrintForC(l, OpLevel(op)), OpText(op), PrintForC(r, OpLevel(op) + 1));
    case Conditional(c, t, f) => ConditionalForC(c, t, f);
    case Assign(name, r) =>
      PrintForCOpens(r, ASSIGNMENT);
      NameHasNone(name);
      Joined3(name, "=", PrintForC(r, ASSIGNMENT));
    case Update(name, op, r) =>
      PrintForCOpens(r, ASSIGNMENT);
      NameHasNone(name);
      NoOpens(OpText(op));
      AllOpensJoin(name, OpText(op));
      Joined3(name + OpText(op), "=", PrintForC(r, ASSIGNMENT));
    case Sequence(a, b) =>
      PrintForCOpens(a, SEQUENCE);
      PrintForCOpens(b, ASSIGNMENT);
      Joined3(PrintForC(a, SEQUENCE), ",", PrintForC(b, ASSIGNMENT));
  }

  lemma {:induction false} ConditionalForC(c: Expr, t: Expr, f: Expr)
    requires Writable(Conditional(c, t, f))
    ensures var e := Conditional(c, t, f);
      && AllOpens(BodyForC(e)) + CommasInside(e) == Inside(e)
      && (CommasInside(e) == 0 ==> BodyForC(e) == Body(e))
    decreases Conditional(c, t, f), -1
  {
    hide AllOpens, Inside, Body, BodyForC;
    PrintForCOpens(c, 0);
    PrintForCOpens(t, SEQUENCE);
    PrintForCOpens(f, CONDITIONAL);
    var c1, t1, f1 := PrintForC(c, 0), PrintForC(t, SEQUENCE), PrintForC(f, CONDITIONAL);
    Joined3(c1, "?", t1);
    Joined3(c1 + "?" + t1, ":", f1);
    MiddleLevel(t);
    ConditionalParts(c, t, f);
  }

  /** Only a comma list is looser than an assignment. */
  lemma MiddleLevel(t: Expr)
    ensures Needed(t, ASSIGNMENT) == Needed(t, SEQUENCE) + if t.Sequence? then 1 else 0
    ensures !t.Sequence? ==> Print(t, ASSIGNMENT) == Print(t, SEQUENCE)
  {
    hide Inside, Body;
  }

  lemma ConditionalParts(c: Expr, t: Expr, f: Expr)
    ensures var e := Conditional(c, t, f);
      && Inside(e) == Needed(c, 0) + Needed(t, ASSIGNMENT) + Needed(f, CONDITIONAL)
      && Body(e) == Print(c, 0) + "?" + Print(t, ASSIGNMENT) + ":" + Print(f, CONDITIONAL)
      && BodyForC(e) == PrintForC(c, 0) + "?" + PrintForC(t, SEQUENCE) + ":" + PrintForC(f, CONDITIONAL)
  {
  }

  /** A tree written as C would have it is read back if and only if no conditional in it has a comma list
      in the middle. */
  lemma ForCParses(e: Expr)
    requires Writable(e)
    ensures Parse(PrintForC(e, SEQUENCE)) == Some(e) <==> CommasInside(e) == 0
  {
    hide Parse, Print, PrintForC, AllOpens, Needed, CommasInside, Writable;
    var text := PrintForC(e, SEQUENCE);
    PrintForCOpens(e, SEQUENCE);
    PrintOpens(e, SEQUENCE);
    if CommasInside(e) == 0 {
      PrintedParses(e);
    } else if Parse(text) == Some(e) {
      FewestParentheses(text, e);
    }
  }

  /** The smallest text C reads and this grammar does not. */
  lemma CommaInTheMiddle()
    ensures var e := Conditional(Number(1), Sequence(Number(2), Number(3)), Number(4));
      PrintForC(e, SEQUENCE) == "1?2,3:4" && Parse("1?2,3:4") == None
  {
    hide Parse;
    var e := Conditional(Number(1), Sequence(Number(2), Number(3)), Number(4));
    CommaIsRefused("1?2,3:4");
    DigitIsDecimal(1);
    DigitIsDecimal(2);
    DigitIsDecimal(3);
    DigitIsDecimal(4);
    assert PrintForC(e.whenTrue, SEQUENCE) == "2" + "," + "3" == "2,3";
  }

  lemma CommaIsRefused(text: string)
    requires text == "1?2,3:4"
    ensures Parse(text) == None
  {
    hide Consumed, ReadHead, ParseBinary, ParseAssignment, Quiet;
    DigitIsDecimal(1);
    DigitIsDecimal(2);
    assert Print(Number(1), 0) == "1" && Print(Number(2), ASSIGNMENT) == "2";
    CloserIsQuiet(text, 1);
    CloserIsQuiet(text, 3);
    PrintReads(text, 0, Number(1), 0);
    PrintReads(text, 2, Number(2), ASSIGNMENT);
    PunctuationConsumed(text, 1, "?");
    NoColon(text);
    StartSigns(text, 0);
    assert ParseConditional(text, 0).Malformed?;
    assert ParseAssignment(text, 0).Malformed? by { AssignmentIsConditional(text); }
  }

  lemma NoColon(text: string)
    requires text == "1?2,3:4"
    ensures !Consumed(text, 3, ":").0
  {
  }

  lemma AssignmentIsConditional(text: string)
    requires ReadHead(text, 0) == NoHead
    ensures ParseAssignment(text, 0) == ParseConditional(text, 0)
  {
    hide ReadHead, ParseConditional;
  }

  lemma DigitIsDecimal(n: nat)
    requires n < 10
    ensures Decimal(n) == ['0' + n as char]
  {
  }
}
