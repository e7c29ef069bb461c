/** The grammar's precedences: every tree, written with no blank and no parenthesis more than its
    operators' levels call for, is read back as itself. For that, where one operator stands no other
    may be consumed; behind what a tighter level has read, no looser one may go on; and the look-ahead for
    an assignment has to see none where none was written. What stands behind an operand is what decides
    all three.

    The printer has a level for each of the parser's, and prints what the parser of that level reads. */
module Precedence {
  import opened Integers
  import opened Wrappers
  import opened Expressions

  // ----- writing a tree -----

  const SEQUENCE: int := -3
  const ASSIGNMENT: int := -2
  const CONDITIONAL: int := -1
  const PRIMARY: int := 11

  function OpLevel(op: Operator): nat {
    match op
    case Or => 0
    case And => 1
    case BitOr => 2
    case BitXor => 3
    case BitAnd => 4
    case Equal | NotEqual => 5
    case LessEqual | GreaterEqual | Less | Greater => 6
    case ShiftLeft | ShiftRight => 7
    case Add | Subtract => 8
    case Multiply | Divide | Modulo => 9
  }

  function OpText(op: Operator): string {
    match op
    case Or => "||"
    case And => "&&"
    case BitOr => "|"
    case BitXor => "^"
    case BitAnd => "&"
    case Equal => "=="
    case NotEqual => "!="
    case LessEqual => "<="
    case GreaterEqual => ">="
    case Less => "<"
    case Greater => ">"
    case ShiftLeft => "<<"
    case ShiftRight => ">>"
    case Add => "+"
    case Subtract => "-"
    case Multiply => "*"
    case Divide => "/"
    case Modulo => "%"
  }

  predicate HasUpdate(op: Operator) {
    op in {ShiftLeft, ShiftRight, Add, Subtract, Multiply, Divide, Modulo, BitAnd, BitXor, BitOr}
  }

  function SignText(sign: Sign): string {
    match sign
    case Not => "!"
    case Complement => "~"
    case Negate => "-"
    case Plus => "+"
  }

  function Decimal(n: nat): (s: string)
    ensures s != [] && forall i :: 0 <= i < |s| ==> IsDigit(s[i])
    ensures 0 < n ==> s[0] != '0'
    ensures n == 0 ==> s == "0"
  {
    (if n < 10 then [] else Decimal(n / 10)) + ['0' + (n % 10) as char]
  }

  function LevelOf(e: Expr): int {
    match e
    case Number(_) | Variable(_) => PRIMARY
    case Unary(_, _) => UNARY_LEVEL
    case Binary(op, _, _) => OpLevel(op)
    case Conditional(_, _, _) => CONDITIONAL
    case Assign(_, _) | Update(_, _, _) => ASSIGNMENT
    case Sequence(_, _) => SEQUENCE
  }

  /** A tree where the grammar wants level `m`: in parentheses only if it is looser than that. */
  function Print(e: Expr, m: int): string
    decreases e, 1
  {
    if LevelOf(e) < m then "(" + Body(e) + ")" else Body(e)
  }

  function Body(e: Expr): string
    decreases e, 0
  {
    match e
    case Number(v) => if 0 <= v then Decimal(v) else ""
    case Variable(name) => name
    case Unary(sign, e1) => SignText(sign) + Print(e1, UNARY_LEVEL)
    case Binary(op, l, r) => Print(l, OpLevel(op)) + OpText(op) + Print(r, OpLevel(op) + 1)
    case Conditional(c, t, f) => Print(c, 0) + "?" + Print(t, ASSIGNMENT) + ":" + Print(f, CONDITIONAL)
    case Assign(name, r) => name + "=" + Print(r, ASSIGNMENT)
    case Update(name, op, r) => name + OpText(op) + "=" + Print(r, ASSIGNMENT)
    case Sequence(a, b) => Print(a, SEQUENCE) + "," + Print(b, ASSIGNMENT)
  }

  predicate NameOk(name: string) {
    name != "" && StartsName(name[0]) && forall i :: 0 <= i < |name| ==> ContinuesName(name[i])
  }

  /** The trees there is a text for: literals have no sign, names are names, updates have an operator. */
  predicate Writable(e: Expr) {
    match e
    case Number(v) => 0 <= v
    case Variable(name) => NameOk(name)
    case Unary(_, e1) => Writable(e1)
    case Binary(_, l, r) => Writable(l) && Writable(r)
    case Conditional(c, t, f) => Writable(c) && Writable(t) && Writable(f)
    case Assign(name, r) => NameOk(name) && Writable(r)
    case Update(name, op, r) => NameOk(name) && HasUpdate(op) && Writable(r)
    case Sequence(a, b) => Writable(a) && Writable(b)
  }

  // ----- where a text can be cut -----

  predicate OperandStart(c: char) {
    ContinuesName(c) || c == '(' || c == '!' || c == '~' || c == '-' || c == '+'
  }

  predicate Here(text: string, at: nat, s: string) {
    at + |s| <= |text| && text[at..at + |s|] == s
  }

  /** What stands at `at` neither continues a name or number nor turns one into an assignment. */
  ghost predicate Apart(text: string, at: nat)
    requires at <= |text|
  {
    at < |text| ==>
      && !IsBlank(text[at]) && !ContinuesName(text[at])
      && FirstMatch(text, at, UPDATES).None?
      && !(text[at] == '=' && !(at + 1 < |text| && text[at + 1] == '='))
  }

  /** What stands at `at` is no operator of level m or tighter. */
  ghost predicate Quiet(text: string, at: nat, m: int)
    requires at <= |text|
  {
    && Apart(text, at)
    && (forall k :: 0 <= k < UNARY_LEVEL && m <= k ==> FirstConsumed(text, at, Operators(k)) == (None, at))
    && (m <= CONDITIONAL ==> Consumed(text, at, "?") == (false, at))
    && (m <= SEQUENCE ==> Consumed(text, at, ",") == (false, at))
  }

  lemma MatchesByChar(text: string, at: nat, s: string)
    requires 1 <= |s| <= 2
    ensures Matches(text, at, s) <==>
      at + |s| <= |text| && text[at] == s[0] && (|s| == 2 ==> text[at + 1] == s[1])
  {
    if at + |s| <= |text| {
      assert |text[at..at + |s|]| == |s| && text[at..at + |s|][0] == text[at];
      assert |s| == 2 ==> text[at..at + |s|][1] == text[at + 1];
    }
  }

  /** An operator's text with an operand behind it. */
  predicate Stands(text: string, at: nat, op: Operator) {
    Here(text, at, OpText(op)) && at + |OpText(op)| < |text| && OperandStart(text[at + |OpText(op)|])
  }

  /** Two characters begin an operator's text that `consume` would take. */
  predicate Begin(c0: char, c1: char, o: string)
    requires 1 <= |o| <= 2
  {
    && c0 == o[0] && (|o| == 2 ==> c1 == o[1])
    && !((o == "<" || o == ">") && (c1 == '=' || c1 == o[0])) && !((o == "&" || o == "|") && c1 == o[0])
  }

  lemma BeginOnlyItself(op: Operator, other: Operator, c1: char)
    requires if |OpText(op)| == 2 then c1 == OpText(op)[1] else OperandStart(c1)
    ensures Begin(OpText(op)[0], c1, OpText(other)) <==> other == op
  {
    if |OpText(op)| == 1 {
      assert c1 !in {'=', '<', '>', '&', '|'};
    }
  }

  /** Longest match: where one operator stands, no other can be consumed. */
  lemma OnlyItself(text: string, at: nat, op: Operator, other: Operator)
    requires Stands(text, at, op)
    ensures Consumed(text, at, OpText(other)) == if other == op then (true, at + |OpText(op)|) else (false, at)
  {
    hide OpText, OperandStart, Consumed, Begin;
    OpShape(op);
    OpShape(other);
    MatchesByChar(text, at, OpText(op));
    ConsumedAsBegun(text, at, OpText(other));
    BeginOnlyItself(op, other, text[at + 1]);
  }

  lemma ConsumedAsBegun(text: string, at: nat, o: string)
    requires at + 1 < |text| && !IsBlank(text[at]) && 1 <= |o| <= 2
    ensures Consumed(text, at, o) == if Begin(text[at], text[at + 1], o) then (true, at + |o|) else (false, at)
  {
    MatchesByChar(text, at, o);
  }

  lemma OpShape(op: Operator)
    ensures 1 <= |OpText(op)| <= 2 && !IsBlank(OpText(op)[0]) && !ContinuesName(OpText(op)[0])
    ensures |OpText(op)| == 1 ==> OpText(op)[0] != '='
    ensures OpText(op)[0] == '=' ==> OpText(op)[1] == '='
  {
  }

  /** The tables say what `OpText` and `OpLevel` say. */
  lemma TablesAgree(k: nat)
    requires k < UNARY_LEVEL
    ensures forall i :: 0 <= i < |Operators(k)| ==>
      Operators(k)[i].0 == OpText(Operators(k)[i].1) && OpLevel(Operators(k)[i].1) == k
  {
  }

  lemma ListedAtItsLevel(op: Operator)
    ensures exists i :: 0 <= i < |Operators(OpLevel(op))| && Operators(OpLevel(op))[i].1 == op
  {
    var ops := Operators(OpLevel(op));
    assert ops[0].1 == op || ops[1].1 == op || ops[2].1 == op || ops[3].1 == op;
  }

  lemma {:induction false} TableConsumes(text: string, at: nat, op: Operator, table: seq<(string, Operator)>)
    requires Stands(text, at, op)
    requires forall i :: 0 <= i < |table| ==> table[i].0 == OpText(table[i].1) && table[i].0 != ""
    ensures FirstConsumed(text, at, table)
         == if exists i :: 0 <= i < |table| && table[i].1 == op then (Some(op), at + |OpText(op)|) else (None, at)
    decreases |table|
  {
    if table != [] {
      OnlyItself(text, at, op, table[0].1);
      TableConsumes(text, at, op, table[1..]);
      assert forall i :: 1 <= i < |table| ==> table[i] == table[1..][i - 1];
    }
  }

  lemma NoUpdate(text: string, at: nat, table: seq<(string, Operator)>)
    requires at <= |text|
    requires forall i :: 0 <= i < |table| ==> table[i].0 != "" && !Matches(text, at, table[i].0)
    ensures FirstMatch(text, at, table).None?
    decreases |table|
  {
  }

  /** The first characters of a compound assignment are not those of an operator and an operand. */
  lemma NotAnUpdate(text: string, at: nat, op: Operator, i: nat)
    requires Stands(text, at, op) && i < |UPDATES|
    ensures !Matches(text, at, UPDATES[i].0)
  {
    hide OpText;
    OpShape(op);
    var s, u := OpText(op), UPDATES[i].0;
    MatchesByChar(text, at, s);
    MatchesByFirsts(text, at, u);
    UpdateIsNoOperator(op, i, text[at + 1], if at + 2 < |text| then text[at + 2] else ' ');
  }

  lemma MatchesByFirsts(text: string, at: nat, s: string)
    requires 2 <= |s| <= 3
    ensures Matches(text, at, s) ==> text[at] == s[0] && text[at + 1] == s[1] && (|s| == 3 ==> text[at + 2] == s[2])
  {
    if Matches(text, at, s) {
      var here := text[at..at + |s|];
      assert here[0] == text[at] && here[1] == text[at + 1] && (|s| == 3 ==> here[2] == text[at + 2]);
    }
  }

  lemma UpdateIsNoOperator(op: Operator, i: nat, c1: char, c2: char)
    requires i < |UPDATES|
    requires if |OpText(op)| == 2 then c1 == OpText(op)[1] && OperandStart(c2) else OperandStart(c1)
    ensures var u := UPDATES[i].0;
      u[0] == OpText(op)[0] ==> c1 != u[1] || (|u| == 3 && c2 != u[2])
  {
    assert |OpText(op)| == 1 ==> c1 != '=' && c1 != '<' && c1 != '>';
    assert |OpText(op)| == 2 ==> c2 != '=';
  }

  lemma OperatorIsApart(text: string, at: nat, op: Operator)
    requires Stands(text, at, op)
    ensures Apart(text, at)
  {
    hide OpText, OperandStart, Matches;
    OpShape(op);
    MatchesByChar(text, at, OpText(op));
    assert Matches(text, at, OpText(op)) by { StandsMatches(text, at, op); }
    forall i | 0 <= i < |UPDATES|
      ensures !Matches(text, at, UPDATES[i].0)
    {
      NotAnUpdate(text, at, op, i);
    }
    NoUpdate(text, at, UPDATES);
  }

  lemma StandsMatches(text: string, at: nat, op: Operator)
    requires Stands(text, at, op)
    ensures Matches(text, at, OpText(op))
  {
  }

  /** An operator with an operand behind it is consumed at its own level and at none tighter. */
  lemma OperatorStands(text: string, at: nat, op: Operator)
    requires Stands(text, at, op)
    ensures Quiet(text, at, OpLevel(op) + 1)
    ensures FirstConsumed(text, at, Operators(OpLevel(op))) == (Some(op), at + |OpText(op)|)
  {
    hide Consumed, FirstConsumed, Operators, Stands, Apart, OpText;
    OperatorIsApart(text, at, op);
    ListedAtItsLevel(op);
    TablesAgree(OpLevel(op));
    TableConsumes(text, at, op, Operators(OpLevel(op)));
    forall k | OpLevel(op) < k < UNARY_LEVEL
      ensures FirstConsumed(text, at, Operators(k)) == (None, at)
    {
      TablesAgree(k);
      TableConsumes(text, at, op, Operators(k));
    }
  }

  lemma NoneConsumed<T>(text: string, at: nat, table: seq<(string, T)>)
    requires at <= |text| && (at < |text| ==> !IsBlank(text[at]))
    requires forall i :: 0 <= i < |table| ==> table[i].0 != "" && !(at < |text| && text[at] == table[i].0[0])
    ensures FirstConsumed(text, at, table) == (None, at)
    decreases |table|
  {
    if table != [] {
      NoneConsumed(text, at, table[1..]);
    }
  }

  /** The end of the text and the closing punctuation are no operator at all. */
  lemma CloserIsQuiet(text: string, at: nat)
    requires at <= |text| && (at < |text| ==> text[at] in {')', ':', '?', ','})
    ensures Quiet(text, at, if at < |text| && text[at] == '?' then 0
                            else if at < |text| && text[at] == ',' then ASSIGNMENT else SEQUENCE)
  {
    hide FirstConsumed, Apart;
    CloserIsApart(text, at);
    forall k | 0 <= k < UNARY_LEVEL
      ensures FirstConsumed(text, at, Operators(k)) == (None, at)
    {
      NoneConsumed(text, at, Operators(k));
    }
  }

  // ----- cutting a printed tree into its parts -----

  lemma HereSplit(text: string, at: nat, a: string, b: string)
    requires Here(text, at, a + b)
    ensures Here(text, at, a) && Here(text, at + |a|, b)
  {
    var s := text[at..at + |a + b|];
    assert text[at..at + |a|] == s[..|a|] == a;
    assert text[at + |a|..at + |a| + |b|] == s[|a|..] == b;
  }

  lemma HereSplit3(text: string, at: nat, a: string, b: string, c: string)
    requires Here(text, at, a + b + c)
    ensures Here(text, at, a) && Here(text, at + |a|, b) && Here(text, at + |a| + |b|, c)
  {
    HereSplit(text, at, a + b, c);
    HereSplit(text, at, a, b);
  }

  lemma HereChar(text: string, at: nat, s: string)
    requires Here(text, at, s) && s != ""
    ensures at < |text| && text[at] == s[0]
  {
    assert text[at..at + |s|][0] == text[at];
  }

  lemma {:induction false} PrintStarts(e: Expr, m: int)
    requires Writable(e)
    ensures Print(e, m) != "" && OperandStart(Print(e, m)[0]) && Body(e) != "" && OperandStart(Body(e)[0])
    decreases e
  {
    match e
    case Binary(op, l, _) => PrintStarts(l, OpLevel(op));
    case Conditional(c, _, _) => PrintStarts(c, 0);
    case Sequence(a, _) => PrintStarts(a, SEQUENCE);
    case _ =>
  }

  lemma PunctuationConsumed(text: string, at: nat, s: string)
    requires Here(text, at, s) && s in {"?", ":", ",", "(", ")"}
    ensures Consumed(text, at, s) == (true, at + 1)
  {
    HereChar(text, at, s);
  }

  // ----- reading it back -----

  /** The parser of each level. */
  function ParseAt(text: string, m: int, at: nat): Parsed
    requires at <= |text| && SEQUENCE <= m <= PRIMARY
  {
    if m == SEQUENCE then ParseComma(text, at)
    else if m == ASSIGNMENT then ParseAssignment(text, at)
    else if m == CONDITIONAL then ParseConditional(text, at)
    else if m == PRIMARY then ParsePrimary(text, at)
    else ParseBinary(text, m, at)
  }

  ghost predicate Signless(text: string, at: nat)
    requires at <= |text|
  {
    FirstConsumed(text, SkipBlanks(text, at), SIGNS) == (None, at)
  }

  /** A looser level hands on what a tighter one has read, if nothing it could add stands behind. */
  lemma Loosen(text: string, at: nat, e: Expr, end: nat, m: int)
    requires at <= end <= |text| && SEQUENCE <= m < PRIMARY
    requires ParseAt(text, m + 1, at) == Parsed(e, end) && Quiet(text, end, m)
    requires m == ASSIGNMENT ==> ReadHead(text, at) == NoHead
    requires m == UNARY_LEVEL ==> Signless(text, at)
    ensures ParseAt(text, m, at) == Parsed(e, end)
  {
    hide ReadHead, FirstConsumed, Consumed, Apart, ParseUnary, ParseAtom;
    if m == UNARY_LEVEL {
      UnaryIs(text, at);
    } else if 0 <= m {
      assert FirstConsumed(text, end, Operators(m)) == (None, end);
      assert ParseOperands(text, m, e, end) == Parsed(e, end);
    } else if m == CONDITIONAL {
      assert Consumed(text, end, "?") == (false, end);
    } else if m == SEQUENCE {
      assert ParseCommas(text, e, end) == Parsed(e, end);
    }
  }

  lemma UnaryIs(text: string, at: nat)
    requires at <= |text| && Signless(text, at)
    ensures ParseBinary(text, UNARY_LEVEL, at) == ParsePrimary(text, at)
  {
    hide FirstConsumed, ParsePrimary;
  }

  lemma {:induction false} Climb(text: string, at: nat, e: Expr, end: nat, from: int, to: int)
    requires at <= end <= |text| && SEQUENCE <= to <= from <= PRIMARY
    requires ParseAt(text, from, at) == Parsed(e, end) && Quiet(text, end, to)
    requires to <= ASSIGNMENT < from ==> ReadHead(text, at) == NoHead
    requires to <= UNARY_LEVEL < from ==> Signless(text, at)
    ensures ParseAt(text, to, at) == Parsed(e, end)
    decreases from - to
  {
    hide ParseAt, ReadHead, Signless, Apart, FirstConsumed, Consumed;
    if to < from {
      Climb(text, at, e, end, from, to + 1);
      Loosen(text, at, e, end, to);
    }
  }

  /** What begins with neither a sign nor a name needs no look-ahead. */
  lemma StartSigns(text: string, at: nat)
    requires at < |text| && OperandStart(text[at])
    ensures SkipBlanks(text, at) == at
    ensures !(text[at] in {'!', '~', '-', '+'}) ==> Signless(text, at)
    ensures !StartsName(text[at]) ==> ReadHead(text, at) == NoHead
  {
    if !(text[at] in {'!', '~', '-', '+'}) {
      NoneConsumed(text, at, SIGNS);
    }
  }

  lemma NameEnds(text: string, at: nat, name: string)
    requires Here(text, at, name) && NameOk(name)
    requires at + |name| < |text| ==> !ContinuesName(text[at + |name|])
    ensures at < |text| && StartsName(text[at]) && SkipBlanks(text, at) == at
    ensures Skip(text, at, ContinuesName) == at + |name| && text[at..at + |name|] == name
  {
    HereChar(text, at, name);
    var end := Skip(text, at, ContinuesName);
    assert forall j :: at <= j < at + |name| ==> text[j] == text[at..at + |name|][j - at] == name[j - at];
  }

  lemma NameStandsAlone(text: string, at: nat, name: string)
    requires Here(text, at, name) && NameOk(name) && Apart(text, at + |name|)
    ensures ReadHead(text, at) == NoHead
  {
    hide FirstMatch;
    var end := at + |name|;
    NameEnds(text, at, name);
    assert Skip(text, end, IsSpaceOrTab) == end;
    if end == |text| {
      NoUpdate(text, end, UPDATES);
    }
  }

  lemma CloserIsApart(text: string, at: nat)
    requires at <= |text| && (at < |text| ==> text[at] in {')', ':', '?', ','})
    ensures Apart(text, at)
  {
    forall i | 0 <= i < |UPDATES|
      ensures UPDATES[i].0 != "" && !Matches(text, at, UPDATES[i].0)
    {
      MatchesByFirsts(text, at, UPDATES[i].0);
    }
    NoUpdate(text, at, UPDATES);
  }

  /** A name on its own, or in front of an operator, starts no assignment. */
  lemma {:induction false} NoHeadBefore(text: string, at: nat, e: Expr, m: int)
    requires Writable(e) && CONDITIONAL <= m && Here(text, at, Print(e, m)) && Apart(text, at + |Print(e, m)|)
    ensures ReadHead(text, at) == NoHead
    decreases e, 1
  {
    hide Stands, Operators, Apart, ReadHead, Quiet, Signless;
    PrintStarts(e, m);
    HereChar(text, at, Print(e, m));
    StartSigns(text, at);
    if m <= LevelOf(e) {
      match e
      case Variable(name) => NameStandsAlone(text, at, name);
      case Binary(op, l, r) => NoHeadBinary(text, at, op, l, r);
      case Conditional(c, t, f) => NoHeadConditional(text, at, c, t, f);
      case _ =>
    }
  }

  lemma {:induction false} NoHeadBinary(text: string, at: nat, op: Operator, l: Expr, r: Expr)
    requires Writable(l) && Writable(r) && Here(text, at, Body(Binary(op, l, r)))
    ensures ReadHead(text, at) == NoHead
    decreases Binary(op, l, r), 0
  {
    hide Stands, Operators, Apart, ReadHead, Here, OpText;
    var l1 := Print(l, OpLevel(op));
    HereSplit3(text, at, l1, OpText(op), Print(r, OpLevel(op) + 1));
    OperandStands(text, at + |l1|, op, r, OpLevel(op) + 1);
    OperatorIsApart(text, at + |l1|, op);
    NoHeadBefore(text, at, l, OpLevel(op));
  }

  lemma {:induction false} NoHeadConditional(text: string, at: nat, c: Expr, t: Expr, f: Expr)
    requires Writable(c) && Here(text, at, Body(Conditional(c, t, f)))
    ensures ReadHead(text, at) == NoHead
    decreases Conditional(c, t, f), 0
  {
    hide Apart, ReadHead, Here;
    var c1 := Print(c, 0);
    var rest := "?" + (Print(t, ASSIGNMENT) + ":" + Print(f, CONDITIONAL));
    assert Body(Conditional(c, t, f)) == c1 + rest;
    HereSplit(text, at, c1, rest);
    HereChar(text, at + |c1|, rest);
    CloserIsApart(text, at + |c1|);
    NoHeadBefore(text, at, c, 0);
  }

  lemma OperandStands(text: string, at: nat, op: Operator, r: Expr, m: int)
    requires Writable(r) && Here(text, at, OpText(op)) && Here(text, at + |OpText(op)|, Print(r, m))
    ensures Stands(text, at, op)
  {
    PrintStarts(r, m);
    HereChar(text, at + |OpText(op)|, Print(r, m));
  }

  lemma NameReads(text: string, at: nat, name: string)
    requires Here(text, at, name) && NameOk(name)
    requires at + |name| < |text| ==> !ContinuesName(text[at + |name|])
    ensures ParseAt(text, PRIMARY, at) == Parsed(Variable(name), at + |name|)
  {
    hide Skip, Consumed, ParseComma, NameOk;
    NameEnds(text, at, name);
    NotConsumed(text, at, "(");
  }

  lemma NotConsumed(text: string, at: nat, op: string)
    requires at < |text| && OperandStart(text[at]) && op != "" && text[at] != op[0]
    ensures Consumed(text, at, op) == (false, at)
  {
  }

  lemma {:induction false} DecimalIs(n: nat)
    ensures Numeral(Decimal(n), 10) == n
  {
    var s := Decimal(n);
    if n < 10 {
      assert s[..|s| - 1] == [];
    } else {
      assert s[..|s| - 1] == Decimal(n / 10);
      DecimalIs(n / 10);
    }
  }

  lemma {:induction false} DecimalEnds(text: string, at: nat, end: nat)
    requires at <= end <= |text| && forall i :: at <= i < end ==> IsDigit(text[i])
    requires end < |text| ==> !ContinuesName(text[end])
    ensures DigitsEnd(text, at, 10) == end
    decreases end - at
  {
    if at < end {
      DecimalEnds(text, at + 1, end);
    }
  }

  lemma NumberReads(text: string, at: nat, v: Int64)
    requires 0 <= v && Here(text, at, Decimal(v))
    requires at + |Decimal(v)| < |text| ==> !ContinuesName(text[at + |Decimal(v)|])
    ensures ParseAt(text, PRIMARY, at) == Parsed(Number(v), at + |Decimal(v)|)
  {
    hide DigitsEnd, Numeral, Decimal, Consumed, ParseComma;
    var s, end := Decimal(v), at + |Decimal(v)|;
    HereChar(text, at, s);
    assert forall j :: at <= j < end ==> text[j] == text[at..end][j - at];
    DecimalEnds(text, at, end);
    DecimalIs(v);
    NotConsumed(text, at, "(");
    assert Base(text, at) == (10, at);
    assert text[at..end] == s;
  }

  lemma OneSign(text: string, at: nat, s: string)
    requires at < |text| && !IsBlank(text[at]) && s in {"!", "~", "-", "+"}
    ensures Consumed(text, at, s) == if text[at] == s[0] then (true, at + 1) else (false, at)
  {
    MatchesByChar(text, at, s);
  }

  lemma SignConsumed(text: string, at: nat, sign: Sign)
    requires Here(text, at, SignText(sign))
    ensures FirstConsumed(text, SkipBlanks(text, at), SIGNS) == (Some(sign), at + 1)
  {
    HereChar(text, at, SignText(sign));
    assert SkipBlanks(text, at) == at;
    hide Consumed, Skip;
    OneSign(text, at, "!");
    OneSign(text, at, "~");
    OneSign(text, at, "-");
    OneSign(text, at, "+");
    assert SIGNS[1..] == [("~", Complement), ("-", Negate), ("+", Plus)];
    assert SIGNS[1..][1..] == [("-", Negate), ("+", Plus)];
    assert SIGNS[1..][1..][1..] == [("+", Plus)];
  }

  lemma HeadIsAssign(text: string, at: nat, name: string)
    requires NameOk(name) && Here(text, at, name + "=") && at + |name| + 1 < |text| &&
      OperandStart(text[at + |name| + 1])
    ensures ReadHead(text, at) == AssignHead(name, at + |name| + 1)
  {
    hide FirstMatch;
    HereSplit(text, at, name, "=");
    HereChar(text, at + |name|, "=");
    NameEnds(text, at, name);
    var end := at + |name|;
    assert Skip(text, end, IsSpaceOrTab) == end;
    forall i | 0 <= i < |UPDATES|
      ensures !Matches(text, end, UPDATES[i].0)
    {
      MatchesByFirsts(text, end, UPDATES[i].0);
    }
    NoUpdate(text, end, UPDATES);
  }

  lemma HeadIsUpdate(text: string, at: nat, name: string, op: Operator)
    requires NameOk(name) && HasUpdate(op) && Here(text, at, name + (OpText(op) + "="))
    ensures ReadHead(text, at) == UpdateHead(name, op, at + |name| + |OpText(op)| + 1)
  {
    hide FirstMatch, OpText;
    OpShape(op);
    var u := OpText(op) + "=";
    HereSplit(text, at, name, u);
    HereChar(text, at + |name|, u);
    NameEnds(text, at, name);
    var end := at + |name|;
    assert Skip(text, end, IsSpaceOrTab) == end;
    UpdateFound(text, end, op);
  }

  lemma UpdateListed(op: Operator) returns (k: nat)
    requires HasUpdate(op)
    ensures k < |UPDATES| && UPDATES[k].0 == OpText(op) + "=" && UPDATES[k].1 == op
  {
    match op
    case ShiftLeft => k := 0;
    case ShiftRight => k := 1;
    case Add => k := 2;
    case Subtract => k := 3;
    case Multiply => k := 4;
    case Divide => k := 5;
    case Modulo => k := 6;
    case BitAnd => k := 7;
    case BitXor => k := 8;
    case BitOr => k := 9;
  }

  /** No compound assignment is the beginning of another. */
  lemma UpdatesDiffer(i: nat, k: nat)
    requires i < |UPDATES| && k < |UPDATES| && i != k
    ensures UPDATES[i].0[0] != UPDATES[k].0[0] || UPDATES[i].0[1] != UPDATES[k].0[1]
  {
  }

  lemma UpdateFound(text: string, at: nat, op: Operator)
    requires HasUpdate(op) && Here(text, at, OpText(op) + "=")
    ensures FirstMatch(text, at, UPDATES) == Some((op, at + |OpText(op)| + 1))
  {
    hide OpText, FirstMatch;
    var k := UpdateListed(op);
    var u := UPDATES[k].0;
    MatchesByFirsts(text, at, u);
    forall i | 0 <= i < |UPDATES| && i != k
      ensures !Matches(text, at, UPDATES[i].0)
    {
      UpdatesDiffer(i, k);
      MatchesByFirsts(text, at, UPDATES[i].0);
    }
    FirstMatchIs(text, at, UPDATES, k);
  }

  lemma {:induction false} FirstMatchIs(text: string, at: nat, table: seq<(string, Operator)>, k: nat)
    requires at <= |text| && k < |table| && Matches(text, at, table[k].0)
    requires forall i :: 0 <= i < |table| ==> table[i].0 != "" && (i < k ==> !Matches(text, at, table[i].0))
    ensures FirstMatch(text, at, table) == Some((table[k].1, at + |table[k].0|))
    decreases k
  {
    if 0 < k {
      FirstMatchIs(text, at, table[1..], k - 1);
    }
  }

  lemma ClosedPrimary(text: string, at: nat, e: Expr, end: nat)
    requires at + 1 <= end < |text| && text[at] == '(' && text[end] == ')'
    requires ParseAt(text, SEQUENCE, at + 1) == Parsed(e, end)
    ensures ParseAt(text, PRIMARY, at) == Parsed(e, end + 1)
  {
    hide ParseComma;
    PunctuationConsumed(text, at, "(");
    PunctuationConsumed(text, end, ")");
  }

  /** Anything printed for a level is what the parser of that level reads there, whole and no more. */
  lemma {:induction false} PrintReads(text: string, at: nat, e: Expr, m: int)
    requires Writable(e) && SEQUENCE <= m <= PRIMARY && Here(text, at, Print(e, m))
    requires Quiet(text, at + |Print(e, m)|, m)
    ensures ParseAt(text, m, at) == Parsed(e, at + |Print(e, m)|)
    decreases e, if LevelOf(e) < m then 3 else 2
  {
    hide ParseAt, Quiet, Apart, Consumed, FirstConsumed, ReadHead, Signless, Body, Writable, OperandStart;
    var end := at + |Print(e, m)|;
    PrintStarts(e, m);
    HereChar(text, at, Print(e, m));
    StartSigns(text, at);
    QuietIsApart(text, end, m);
    if CONDITIONAL <= m { NoHeadBefore(text, at, e, m); }
    if LevelOf(e) < m {
      HereSplit3(text, at, "(", Body(e), ")");
      HereChar(text, at + 1 + |Body(e)|, ")");
      CloserIsQuiet(text, at + 1 + |Body(e)|);
      PrintReads(text, at + 1, e, SEQUENCE);
      ClosedPrimary(text, at, e, end - 1);
      Climb(text, at, e, end, PRIMARY, m);
    } else {
      QuietTighter(text, end, m, LevelOf(e));
      BodyReads(text, at, e);
      if m <= ASSIGNMENT < LevelOf(e) { NoHeadBefore(text, at, e, CONDITIONAL); }
      if m <= UNARY_LEVEL < LevelOf(e) { PrimaryStarts(e); }
      Climb(text, at, e, end, LevelOf(e), m);
    }
  }

  lemma PrimaryStarts(e: Expr)
    requires Writable(e) && LevelOf(e) == PRIMARY
    ensures !(Body(e)[0] in {'!', '~', '-', '+'})
  {
  }

  lemma QuietIsApart(text: string, at: nat, m: int)
    requires at <= |text| && Quiet(text, at, m)
    ensures Apart(text, at) && (at < |text| ==> !ContinuesName(text[at]))
  {
  }

  lemma QuietTighter(text: string, at: nat, m: int, tighter: int)
    requires at <= |text| && Quiet(text, at, m) && m <= tighter
    ensures Quiet(text, at, tighter)
  {
  }

  /** A tree without parentheses, read by the parser of its own level. */
  lemma {:induction false} BodyReads(text: string, at: nat, e: Expr)
    requires Writable(e) && Here(text, at, Body(e)) && Quiet(text, at + |Body(e)|, LevelOf(e))
    ensures ParseAt(text, LevelOf(e), at) == Parsed(e, at + |Body(e)|)
    decreases e, 1
  {
    hide Quiet, Apart, Consumed, FirstConsumed, ReadHead, Signless, Operators, OpText, Skip, ParseUnary, ParsePrimary;
    var end := at + |Body(e)|;
    QuietIsApart(text, end, LevelOf(e));
    match e
    case Number(v) => NumberReads(text, at, v);
    case Variable(name) => NameReads(text, at, name);
    case Unary(sign, e1) =>
      SignedReads(text, at, sign, e1);
    case Binary(op, l, r) =>
      QuietTighter(text, end, OpLevel(op), OpLevel(op) + 1);
      OperandsRead(text, at, e, OpLevel(op));
      QuietEnds(text, OpLevel(op), e, end);
    case Conditional(c, t, f) => ConditionalReads(text, at, c, t, f);
    case Assign(name, r) =>
      AssignReads(text, at, name, r);
    case Update(name, op, r) =>
      UpdateReads(text, at, name, op, r);
    case Sequence(a, b) =>
      QuietTighter(text, end, SEQUENCE, ASSIGNMENT);
      CommasRead(text, at, e);
      QuietEndsCommas(text, e, end);
  }

  lemma UnaryReads(text: string, at: nat, sign: Sign, e: Expr, end: nat)
    requires at < |text| && FirstConsumed(text, SkipBlanks(text, at), SIGNS) == (Some(sign), at + 1)
    requires ParseAt(text, UNARY_LEVEL, at + 1) == Parsed(e, end)
    ensures ParseAt(text, UNARY_LEVEL, at) == Parsed(Unary(sign, e), end)
  {
    hide FirstConsumed, Skip;
    assert ParseAt(text, UNARY_LEVEL, at + 1) == ParseUnary(text, at + 1);
    assert ParseAt(text, UNARY_LEVEL, at) == ParseUnary(text, at);
  }

  lemma QuietEnds(text: string, level: nat, e: Expr, end: nat)
    requires end <= |text| && level < UNARY_LEVEL && Quiet(text, end, level)
    ensures ParseOperands(text, level, e, end) == Parsed(e, end)
  {
    assert FirstConsumed(text, end, Operators(level)) == (None, end);
  }

  lemma QuietEndsCommas(text: string, e: Expr, end: nat)
    requires end <= |text| && Quiet(text, end, SEQUENCE)
    ensures ParseCommas(text, e, end) == Parsed(e, end)
  {
  }

  lemma {:induction false} SignedReads(text: string, at: nat, sign: Sign, e1: Expr)
    requires var e := Unary(sign, e1);
      Writable(e) && Here(text, at, Body(e)) && Quiet(text, at + |Body(e)|, UNARY_LEVEL)
    ensures ParseAt(text, UNARY_LEVEL, at) == Parsed(Unary(sign, e1), at + |Body(Unary(sign, e1))|)
    decreases Unary(sign, e1), 0
  {
    hide Quiet, FirstConsumed, Skip, ParseAt;
    HereSplit(text, at, SignText(sign), Print(e1, UNARY_LEVEL));
    SignConsumed(text, at, sign);
    PrintReads(text, at + 1, e1, UNARY_LEVEL);
    UnaryReads(text, at, sign, e1, at + |Body(Unary(sign, e1))|);
  }

  lemma {:induction false} AssignReads(text: string, at: nat, name: string, r: Expr)
    requires var e := Assign(name, r);
      Writable(e) && Here(text, at, Body(e)) && Quiet(text, at + |Body(e)|, ASSIGNMENT)
    ensures ParseAssignment(text, at) == Parsed(Assign(name, r), at + |Body(Assign(name, r))|)
    decreases Assign(name, r), 0
  {
    hide Quiet, ReadHead, ParseConditional;
    HereSplit(text, at, name + "=", Print(r, ASSIGNMENT));
    PrintStarts(r, ASSIGNMENT);
    HereChar(text, at + |name| + 1, Print(r, ASSIGNMENT));
    HeadIsAssign(text, at, name);
    PrintReads(text, at + |name| + 1, r, ASSIGNMENT);
  }

  lemma {:induction false} UpdateReads(text: string, at: nat, name: string, op: Operator, r: Expr)
    requires var e := Update(name, op, r);
      Writable(e) && Here(text, at, Body(e)) && Quiet(text, at + |Body(e)|, ASSIGNMENT)
    ensures ParseAssignment(text, at) == Parsed(Update(name, op, r), at + |Body(Update(name, op, r))|)
    decreases Update(name, op, r), 0
  {
    hide Quiet, ReadHead, ParseConditional, OpText;
    assert Body(Update(name, op, r)) == name + (OpText(op) + "=") + Print(r, ASSIGNMENT);
    HereSplit(text, at, name + (OpText(op) + "="), Print(r, ASSIGNMENT));
    HeadIsUpdate(text, at, name, op);
    PrintReads(text, at + |name| + |OpText(op)| + 1, r, ASSIGNMENT);
  }

  lemma {:induction false} ConditionalReads(text: string, at: nat, c: Expr, t: Expr, f: Expr)
    requires var e := Conditional(c, t, f);
      Writable(e) && Here(text, at, Body(e)) && Quiet(text, at + |Body(e)|, CONDITIONAL)
    ensures var e := Conditional(c, t, f);
      ParseConditional(text, at) == Parsed(e, at + |Body(e)|)
    decreases Conditional(c, t, f), 0
  {
    hide Quiet, Apart, Consumed, FirstConsumed, ReadHead, Here, Operators, OpText, Print, ParseBinary, ParseAssignment;
    var c1, t1, f1 := Print(c, 0), Print(t, ASSIGNMENT), Print(f, CONDITIONAL);
    assert Body(Conditional(c, t, f)) == (c1 + "?" + t1) + ":" + f1;
    var q := at + |c1|;
    var d := q + 1 + |t1|;
    HereSplit3(text, at, c1 + "?" + t1, ":", f1);
    HereSplit3(text, at, c1, "?", t1);
    HereChar(text, q, "?");
    HereChar(text, d, ":");
    CloserIsQuiet(text, q);
    CloserIsQuiet(text, d);
    QuietTighter(text, d, SEQUENCE, ASSIGNMENT);
    PrintReads(text, at, c, 0);
    PrintReads(text, q + 1, t, ASSIGNMENT);
    PrintReads(text, d + 1, f, CONDITIONAL);
    PunctuationConsumed(text, q, "?");
    PunctuationConsumed(text, d, ":");
  }

  /** A level's parser reads a tree of that level as its left operand so far, whatever comes next. */
  lemma {:induction false} OperandsRead(text: string, at: nat, e: Expr, level: nat)
    requires Writable(e) && level < UNARY_LEVEL && Here(text, at, Print(e, level))
    requires Quiet(text, at + |Print(e, level)|, level + 1)
    ensures ParseBinary(text, level, at) == ParseOperands(text, level, e, at + |Print(e, level)|)
    decreases e, if LevelOf(e) == level then 0 else 4
  {
    hide Quiet, Apart, Consumed, FirstConsumed, ReadHead, Here, Operators, OpText;
    var end := at + |Print(e, level)|;
    if LevelOf(e) == level {
      var Binary(op, l, r) := e;
      var l1, s, r1 := Print(l, level), OpText(op), Print(r, level + 1);
      var o := at + |l1|;
      HereSplit3(text, at, l1, s, r1);
      OperandStands(text, o, op, r, level + 1);
      OperatorStands(text, o, op);
      OperandsRead(text, at, l, level);
      PrintReads(text, o + |s|, r, level + 1);
    } else {
      PrintReads(text, at, e, level + 1);
    }
  }

  lemma {:induction false} CommasRead(text: string, at: nat, e: Expr)
    requires Writable(e) && Here(text, at, Print(e, SEQUENCE))
    requires Quiet(text, at + |Print(e, SEQUENCE)|, ASSIGNMENT)
    ensures ParseComma(text, at) == ParseCommas(text, e, at + |Print(e, SEQUENCE)|)
    decreases e, if e.Sequence? then 0 else 4
  {
    hide Quiet, Apart, Consumed, ReadHead, Here, ParseAssignment;
    if e.Sequence? {
      var a1, b1 := Print(e.first, SEQUENCE), Print(e.last, ASSIGNMENT);
      var c := at + |a1|;
      HereSplit3(text, at, a1, ",", b1);
      HereChar(text, c, ",");
      CloserIsQuiet(text, c);
      CommasRead(text, at, e.first);
      PunctuationConsumed(text, c, ",");
      PrintReads(text, c + 1, e.last, ASSIGNMENT);
    } else {
      PrintReads(text, at, e, ASSIGNMENT);
    }
  }

  /** Every tree that can be written is read back from its text: the levels are C's, binary operators
      group to the left, assignment and `?:` to the right, and no operator is taken for another. */
  lemma PrintedParses(e: Expr)
    requires Writable(e)
    ensures Parse(Print(e, SEQUENCE)) == Some(e)
  {
    hide Print, Writable;
    var text := Print(e, SEQUENCE);
    CloserIsQuiet(text, |text|);
    PrintReads(text, 0, e, SEQUENCE);
  }
}
