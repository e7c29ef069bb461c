/** The grammar, the tree it describes and what a tree means. */
module Expressions {
  import opened Integers
  import opened Wrappers

  datatype Operator =
    | Or | And | BitOr | BitXor | BitAnd | Equal | NotEqual
    | LessEqual | GreaterEqual | Less | Greater | ShiftLeft | ShiftRight
    | Add | Subtract | Multiply | Divide | Modulo

  datatype Sign = Not | Complement | Negate | Plus

  datatype Expr =
    | Number(value: Int64)
    | Variable(name: string)
    | Unary(sign: Sign, e: Expr)
    | Binary(op: Operator, left: Expr, right: Expr)
    | Conditional(condition: Expr, whenTrue: Expr, whenFalse: Expr)
    | Assign(name: string, right: Expr)
    | Update(name: string, op: Operator, right: Expr)
    | Sequence(first: Expr, last: Expr)

  // ----- meaning -----

  /** The caller's variables, as the evaluator sees them: a value where one is set, and who refuses
      to be written. */
  datatype Store = Store(values: map<string, Int64>, readonly: set<string>)

  /** The store and the first name read that was never set ("" while there is none). */
  datatype Env = Env(store: Store, unset: string)

  datatype Error = DivisionByZero | ReadonlyVariable

  datatype Outcome = Done(value: Int64, env: Env) | Failed(error: Error)

  function Defined(env: Env, name: string): bool {
    name in env.store.values
  }

  function Get(env: Env, name: string): Int64 {
    if name in env.store.values then env.store.values[name] else 0
  }

  /** The environment after reading a name: the first unset one is remembered. */
  function Noticed(env: Env, name: string): Env {
    if env.unset == "" && !Defined(env, name) then env.(unset := name) else env
  }

  function Written(env: Env, name: string, value: Int64): Env {
    env.(store := env.store.(values := env.store.values[name := value]))
  }

  predicate DividesByZero(op: Operator, right: Int64) {
    (op == Divide || op == Modulo) && right == 0
  }

  /** Every operator on two evaluated operands. */
  function Apply(op: Operator, a: Int64, b: Int64): Int64
    requires !DividesByZero(op, b)
  {
    match op
    case Or => Truth(a != 0 || b != 0)
    case And => Truth(a != 0 && b != 0)
    case BitOr => Wrap(Bits(Either, a, b, 64))
    case BitXor => Wrap(Bits(Odd, a, b, 64))
    case BitAnd => Wrap(Bits(Both, a, b, 64))
    case Equal => Truth(a == b)
    case NotEqual => Truth(a != b)
    case LessEqual => Truth(a <= b)
    case GreaterEqual => Truth(a >= b)
    case Less => Truth(a < b)
    case Greater => Truth(a > b)
    case ShiftLeft => Wrap(a * Power2(b % 64))
    case ShiftRight => Wrap(FloorDivide(a, Power2(b % 64)))
    case Add => Wrap(a + b)
    case Subtract => Wrap(a - b)
    case Multiply => Wrap(a * b)
    case Divide => Quotient(a, b)
    case Modulo => Remainder(a, b)
  }

  function FloorDivide(a: int, n: nat): int {
    if n == 0 then 0 else a / n
  }

  function Signed(sign: Sign, a: Int64): Int64 {
    match sign
    case Not => Truth(a == 0)
    case Complement => -1 - a
    case Negate => Wrap(0 - a)
    case Plus => a
  }

  /** What a tree means: `&&`, `||` and `?:` evaluate only the operands they need, an update evaluates
      its right side before it reads its left. */
  function Eval(e: Expr, env: Env): Outcome {
    match e
    case Number(v) => Done(v, env)
    case Variable(name) => Done(Get(env, name), Noticed(env, name))
    case Unary(sign, e1) =>
      (match Eval(e1, env)
       case Done(v, env1) => Done(Signed(sign, v), env1)
       case Failed(error) => Failed(error))
    case Binary(op, left, right) =>
      (match Eval(left, env)
       case Failed(error) => Failed(error)
       case Done(a, env1) =>
         if op == And && a == 0 then Done(0, env1)
         else if op == Or && a != 0 then Done(1, env1)
         else match Eval(right, env1)
           case Failed(error) => Failed(error)
           case Done(b, env2) => Combined(op, a, b, env2))
    case Conditional(c, t, f) =>
      (match Eval(c, env)
       case Failed(error) => Failed(error)
       case Done(v, env1) => if v != 0 then Eval(t, env1) else Eval(f, env1))
    case Assign(name, right) =>
      (match Eval(right, env)
       case Failed(error) => Failed(error)
       case Done(v, env1) => Stored(name, v, env1))
    case Update(name, op, right) =>
      (match Eval(right, env)
       case Failed(error) => Failed(error)
       case Done(b, env1) =>
         match Combined(op, Get(env1, name), b, Noticed(env1, name))
         case Failed(error) => Failed(error)
         case Done(v, env2) => Stored(name, v, env2))
    case Sequence(first, last) =>
      (match Eval(first, env)
       case Failed(error) => Failed(error)
       case Done(_, env1) => Eval(last, env1))
  }

  function Combined(op: Operator, a: Int64, b: Int64, env: Env): Outcome {
    if DividesByZero(op, b) then Failed(DivisionByZero) else Done(Apply(op, a, b), env)
  }

  function Stored(name: string, v: Int64, env: Env): Outcome {
    if name in env.store.readonly then Failed(ReadonlyVariable) else Done(v, Written(env, name, v))
  }

  // ----- the text -----

  predicate IsBlank(c: char) {
    c == ' ' || c == '\t' || c == '\n'
  }

  predicate IsSpaceOrTab(c: char) {
    c == ' ' || c == '\t'
  }

  predicate IsDigit(c: char) {
    '0' <= c <= '9'
  }

  predicate StartsName(c: char) {
    'A' <= c <= 'Z' || 'a' <= c <= 'z' || c == '_'
  }

  predicate ContinuesName(c: char) {
    StartsName(c) || IsDigit(c)
  }

  /** Past the characters of a class. */
  function Skip(text: string, at: nat, within: char -> bool): (next: nat)
    requires at <= |text|
    ensures at <= next <= |text|
    ensures forall i :: at <= i < next ==> within(text[i])
    ensures next < |text| ==> !within(text[next])
    decreases |text| - at
  {
    if at < |text| && within(text[at]) then Skip(text, at + 1, within) else at
  }

  function SkipBlanks(text: string, at: nat): (next: nat)
    requires at <= |text|
    ensures at <= next <= |text|
  {
    Skip(text, at, IsBlank)
  }

  predicate Matches(text: string, at: nat, op: string) {
    at + |op| <= |text| && text[at..at + |op|] == op
  }

  /** The character after the one at `at` would make this the start of a longer operator. */
  predicate Guarded(text: string, at: nat, op: string) {
    at + 1 < |text| &&
    (((op == "<" || op == ">") && (text[at + 1] == '=' || text[at + 1] == op[0]))
     || ((op == "&" || op == "|") && text[at + 1] == op[0]))
  }

  /** `consume`: blanks go either way, the operator only if it is there. */
  function Consumed(text: string, at: nat, op: string): (r: (bool, nat))
    requires at <= |text| && op != ""
    ensures at <= r.1 <= |text| && (r.0 ==> at < r.1)
  {
    var start := SkipBlanks(text, at);
    if Matches(text, start, op) && !Guarded(text, start, op) then (true, start + |op|) else (false, start)
  }

  /** The binary levels, loosest first; within a level, operators in the order they are tried. */
  function Operators(level: nat): (ops: seq<(string, Operator)>)
    ensures forall i :: 0 <= i < |ops| ==> ops[i].0 != ""
  {
    match level
    case 0 => [("||", Or)]
    case 1 => [("&&", And)]
    case 2 => [("|", BitOr)]
    case 3 => [("^", BitXor)]
    case 4 => [("&", BitAnd)]
    case 5 => [("==", Equal), ("!=", NotEqual)]
    case 6 => [("<=", LessEqual), (">=", GreaterEqual), ("<", Less), (">", Greater)]
    case 7 => [("<<", ShiftLeft), (">>", ShiftRight)]
    case 8 => [("+", Add), ("-", Subtract)]
    case 9 => [("*", Multiply), ("/", Divide), ("%", Modulo)]
    case _ => []
  }

  const UNARY_LEVEL: nat := 10

  const SIGNS: seq<(string, Sign)> := [("!", Not), ("~", Complement), ("-", Negate), ("+", Plus)]

  const UPDATES: seq<(string, Operator)> := [
    ("<<=", ShiftLeft), (">>=", ShiftRight), ("+=", Add), ("-=", Subtract), ("*=", Multiply),
    ("/=", Divide), ("%=", Modulo), ("&=", BitAnd), ("^=", BitXor), ("|=", BitOr)]

  /** The first operator of a table that can be consumed, and where that leaves the text. */
  function FirstConsumed<T>(text: string, at: nat, table: seq<(string, T)>): (r: (Option<T>, nat))
    requires at <= |text| && forall i :: 0 <= i < |table| ==> table[i].0 != ""
    ensures at <= r.1 <= |text| && (r.0.Some? ==> at < r.1)
    decreases |table|
  {
    if table == [] then (None, at)
    else
      var (found, next) := Consumed(text, at, table[0].0);
      if found then (Some(table[0].1), next) else FirstConsumed(text, next, table[1..])
  }

  /** The first operator of a table that is there, with no blanks skipped and no guard. */
  function FirstMatch(text: string, at: nat, table: seq<(string, Operator)>): (r: Option<(Operator, nat)>)
    requires at <= |text| && forall i :: 0 <= i < |table| ==> table[i].0 != ""
    ensures r.Some? ==> at < r.value.1 <= |text|
    decreases |table|
  {
    if table == [] then None
    else if Matches(text, at, table[0].0) then Some((table[0].1, at + |table[0].0|))
    else FirstMatch(text, at, table[1..])
  }

  datatype Head = NoHead | AssignHead(name: string, next: nat) | UpdateHead(name: string, op: Operator, next: nat)

  /** The look-ahead of an assignment: a name, spaces or tabs, and `=` or a compound. */
  function ReadHead(text: string, at: nat): (h: Head)
    requires at <= |text|
    ensures !h.NoHead? ==> at < h.next <= |text|
  {
    var start := SkipBlanks(text, at);
    if start < |text| && StartsName(text[start]) then
      var end := Skip(text, start, ContinuesName);
      var name := text[start..end];
      var after := Skip(text, end, IsSpaceOrTab);
      match FirstMatch(text, after, UPDATES)
      case Some((op, next)) => UpdateHead(name, op, next)
      case None =>
        if after < |text| && text[after] == '=' && !(after + 1 < |text| && text[after + 1] == '=')
        then AssignHead(name, after + 1) else NoHead
    else NoHead
  }

  // ----- numbers -----

  /** A character's value in a base, or the base itself for a character that is not one of its digits. */
  function DigitValue(c: char, base: nat): (d: nat)
    ensures d <= base
  {
    var d := if '0' <= c <= '9' then (c - '0') as nat
             else if 'a' <= c <= 'f' then (c - 'a') as nat + 10
             else if 'A' <= c <= 'F' then (c - 'A') as nat + 10 else base;
    if d < base then d else base
  }

  /** C's bases: where the digits begin, and in which. */
  function Base(text: string, at: nat): (r: (nat, nat))
    requires at < |text|
    ensures at <= r.1 <= |text| && r.0 in {8, 10, 16}
  {
    if text[at] == '0' && at + 1 < |text| && (text[at + 1] == 'x' || text[at + 1] == 'X') then (16, at + 2)
    else if text[at] == '0' && at + 1 < |text| && '0' <= text[at + 1] <= '7' then (8, at + 1)
    else (10, at)
  }

  function DigitsEnd(text: string, at: nat, base: nat): (next: nat)
    requires at <= |text|
    ensures at <= next <= |text|
    decreases |text| - at
  {
    if at < |text| && DigitValue(text[at], base) < base then DigitsEnd(text, at + 1, base) else at
  }

  /** What a run of digits denotes, with nothing lost. */
  function Numeral(digits: string, base: nat): nat {
    if digits == [] then 0
    else Appended(Numeral(digits[..|digits| - 1], base), base, DigitValue(digits[|digits| - 1], base))
  }

  function Appended(n: nat, base: nat, digit: nat): nat {
    n * base + digit
  }

  /** A literal too large to represent saturates. */
  function Saturated(n: nat): Int64 {
    if n < HALF then n else HALF - 1
  }

  // ----- parsing to a tree -----

  datatype Parsed = Malformed | Parsed(e: Expr, next: nat)

  /** What every parser promises: it never goes back and never past the end. */
  predicate Within(p: Parsed, text: string, at: nat) {
    p.Parsed? ==> at <= p.next <= |text|
  }

  function ParseComma(text: string, at: nat): (p: Parsed)
    requires at <= |text|
    ensures Within(p, text, at)
    decreases |text| - at, 20
  {
    match ParseAssignment(text, at)
    case Malformed => Malformed
    case Parsed(e, next) => ParseCommas(text, e, next)
  }

  function ParseCommas(text: string, first: Expr, at: nat): (p: Parsed)
    requires at <= |text|
    ensures Within(p, text, at)
    decreases |text| - at, 0
  {
    var (more, next) := Consumed(text, at, ",");
    if !more then Parsed(first, next)
    else match ParseAssignment(text, next)
      case Malformed => Malformed
      case Parsed(e, next') => ParseCommas(text, Sequence(first, e), next')
  }

  function ParseAssignment(text: string, at: nat): (p: Parsed)
    requires at <= |text|
    ensures Within(p, text, at)
    decreases |text| - at, 19
  {
    match ReadHead(text, at)
    case NoHead => ParseConditional(text, at)
    case AssignHead(name, next) =>
      (match ParseAssignment(text, next)
       case Malformed => Malformed
       case Parsed(e, next') => Parsed(Assign(name, e), next'))
    case UpdateHead(name, op, next) =>
      (match ParseAssignment(text, next)
       case Malformed => Malformed
       case Parsed(e, next') => Parsed(Update(name, op, e), next'))
  }

  function ParseConditional(text: string, at: nat): (p: Parsed)
    requires at <= |text|
    ensures Within(p, text, at)
    decreases |text| - at, 18
  {
    match ParseBinary(text, 0, at)
    case Malformed => Malformed
    case Parsed(c, next) =>
      var (asked, next1) := Consumed(text, next, "?");
      if !asked then Parsed(c, next1)
      else match ParseAssignment(text, next1)
        case Malformed => Malformed
        case Parsed(t, next2) =>
          var (chosen, next3) := Consumed(text, next2, ":");
          if !chosen then Malformed
          else match ParseConditional(text, next3)
            case Malformed => Malformed
            case Parsed(f, next4) => Parsed(Conditional(c, t, f), next4)
  }

  function ParseBinary(text: string, level: nat, at: nat): (p: Parsed)
    requires at <= |text| && level <= UNARY_LEVEL
    ensures Within(p, text, at)
    decreases |text| - at, 17 - level
  {
    if level == UNARY_LEVEL then ParseUnary(text, at)
    else match ParseBinary(text, level + 1, at)
      case Malformed => Malformed
      case Parsed(e, next) => ParseOperands(text, level, e, next)
  }

  /** Left-associative: what has been read so far becomes the left operand of the next operator. */
  function ParseOperands(text: string, level: nat, left: Expr, at: nat): (p: Parsed)
    requires at <= |text| && level < UNARY_LEVEL
    ensures Within(p, text, at)
    decreases |text| - at, 0
  {
    var (op, next) := FirstConsumed(text, at, Operators(level));
    if op.None? then Parsed(left, next)
    else match ParseBinary(text, level + 1, next)
      case Malformed => Malformed
      case Parsed(e, next') => ParseOperands(text, level, Binary(op.value, left, e), next')
  }

  function ParseUnary(text: string, at: nat): (p: Parsed)
    requires at <= |text|
    ensures Within(p, text, at)
    decreases |text| - at, 6
  {
    var (sign, next) := FirstConsumed(text, SkipBlanks(text, at), SIGNS);
    if sign.None? then ParsePrimary(text, next)
    else match ParseUnary(text, next)
      case Malformed => Malformed
      case Parsed(e, next') => Parsed(Unary(sign.value, e), next')
  }

  function ParsePrimary(text: string, at: nat): (p: Parsed)
    requires at <= |text|
    ensures Within(p, text, at)
    decreases |text| - at, 5
  {
    var start := SkipBlanks(text, at);
    if start == |text| then Malformed
    else
      var (open, next) := Consumed(text, start, "(");
      if open then
        (match ParseComma(text, next)
         case Malformed => Malformed
         case Parsed(e, next1) =>
           var (closed, next2) := Consumed(text, next1, ")");
           if closed then Parsed(e, next2) else Malformed)
      else ParseAtom(text, start)
  }

  function ParseAtom(text: string, at: nat): (p: Parsed)
    requires at < |text|
    ensures Within(p, text, at)
  {
    if IsDigit(text[at]) then
      var (base, digits) := Base(text, at);
      var end := DigitsEnd(text, digits, base);
      if end == digits && base == 16 then Malformed
      else Parsed(Number(Saturated(Numeral(text[digits..end], base))), end)
    else if StartsName(text[at]) then
      var end := Skip(text, at, ContinuesName);
      Parsed(Variable(text[at..end]), end)
    else Malformed
  }

  /** The whole text as one expression. */
  function Parse(text: string): Option<Expr> {
    match ParseComma(text, 0)
    case Malformed => None
    case Parsed(e, next) => if SkipBlanks(text, next) == |text| then Some(e) else None
  }
}
