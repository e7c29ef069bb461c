/** The evaluator (arithmetic.cpp): it computes while it parses, and a flag stands in for the tree. */
module Arithmetic {
  import opened Integers
  import opened Wrappers
  import opened Expressions

  datatype Problem = Nothing | Malformed | Runtime(error: Error)

  class Evaluator {
    const text: string
    var env: Env
    var at: nat
    var failed: bool
    var refused: bool
    var live: bool
    var error: Problem

    constructor (text: string, store: Store)
      ensures Valid() && this.text == text && at == 0 && env == Env(store, "")
      ensures !failed && live && !refused && error == Nothing
    {
      this.text, env, at := text, Env(store, ""), 0;
      failed, refused, live, error := false, false, true, Nothing;
    }

    predicate Valid()
      reads this
    {
      at <= |text|
    }

    /** What every parse keeps: it moves forward, hands the flag back as it was, and forgets no failure. */
    predicate Steady(at: nat, live: bool, failed: bool, refused: bool, error: Problem)
      reads this
    {
      && at <= this.at <= |text| && this.live == live
      && (failed ==> this.failed && this.error == error) && (refused ==> this.refused)
    }

    /** A failure the tree has too: the text is malformed, or evaluating it fails first in this way. */
    ghost predicate Broke(p: Parsed, from: Env)
      reads this
    {
      && failed
      && (p.Parsed? ==>
            var r := Eval(p.e, from);
            live && r.Failed? && error == Runtime(r.error) && (r.error == ReadonlyVariable ==> refused))
    }

    /** What evaluating while parsing owes to the tree: with effects on, its value and environment or
        its first error; with effects off, a parse and nothing else. */
    ghost predicate Agrees(p: Parsed, from: Env, value: Int64)
      reads this
    {
      Broke(p, from)
      || (&& p.Parsed? && !failed && at == p.next
          && if live then Eval(p.e, from) == Done(value, env) else env == from)
    }

    method Fail(why: Problem)
      modifies this`failed, this`error
      ensures failed && error == if old(failed) then old(error) else why
    {
      if !failed {
        failed, error := true, why;
      }
    }

    method ReadVariable(name: string) returns (value: Int64)
      modifies this`env
      ensures if live then value == Get(old(env), name) && env == Noticed(old(env), name)
        else value == 0 && env == old(env)
    {
      if !live {
        return 0;
      }
      if env.unset == "" && !Defined(env, name) {
        env := env.(unset := name);
      }
      return Get(env, name);
    }

    /** True when the caller must abandon what it was computing. */
    method DivideByZero() returns (abandon: bool)
      modifies this`failed, this`error
      ensures abandon == live
      ensures if live then failed && error == (if old(failed) then old(error) else Runtime(DivisionByZero))
              else failed == old(failed) && error == old(error)
    {
      if !live {
        return false;
      }
      Fail(Runtime(DivisionByZero));
      return true;
    }

    /** A variable may refuse the write; a skipped assignment does not ask. */
    method WriteVariable(name: string, value: Int64)
      modifies this`env, this`failed, this`refused, this`error
      ensures !live ==> env == old(env) && failed == old(failed) && refused == old(refused) && error == old(error)
      ensures live && name !in old(env).store.readonly ==>
        env == Written(old(env), name, value) && failed == old(failed) && refused == old(refused) && error == old(error)
      ensures live && name in old(env).store.readonly ==>
        failed && refused && env == old(env) && error == if old(failed) then old(error) else Runtime(ReadonlyVariable)
    {
      if live {
        if name in env.store.readonly {
          refused := true;
          Fail(Runtime(ReadonlyVariable));
        } else {
          env := Written(env, name, value);
        }
      }
    }

    method SkipBlanks()
      requires Valid()
      modifies this`at
      ensures Valid() && at == Expressions.SkipBlanks(text, old(at))
    {
      while at < |text| && IsBlank(text[at])
        invariant old(at) <= at <= |text|
        invariant Expressions.SkipBlanks(text, at) == Expressions.SkipBlanks(text, old(at))
      {
        at := at + 1;
      }
    }

    method Consume(op: string) returns (found: bool)
      requires Valid() && op != ""
      modifies this`at
      ensures Valid() && (found, at) == Consumed(text, old(at), op)
    {
      SkipBlanks();
      if !Matches(text, at, op) || Guarded(text, at, op) {
        return false;
      }
      at := at + |op|;
      return true;
    }

    /** The `if (consume(...)) ... else if (consume(...)) ...` of one level. */
    method ConsumeFirst<T>(table: seq<(string, T)>) returns (which: Option<T>)
      requires Valid() && forall i :: 0 <= i < |table| ==> table[i].0 != ""
      modifies this`at
      ensures Valid() && (which, at) == FirstConsumed(text, old(at), table)
    {
      for i := 0 to |table|
        invariant Valid() && FirstConsumed(text, at, table[i..]) == FirstConsumed(text, old(at), table)
      {
        var found := Consume(table[i].0);
        if found {
          return Some(table[i].1);
        }
        assert table[i..][1..] == table[i + 1..];
      }
      return None;
    }

    method ParseComma() returns (value: Int64)
      requires Valid()
      modifies this
      ensures Steady(old(at), old(live), old(failed), old(refused), old(error))
      ensures !old(failed) ==> Agrees(Expressions.ParseComma(text, old(at)), old(env), value)
      decreases |text| - at, 20
    {
      hide Consumed, Expressions.ParseAssignment, Combined, Stored;
      ghost var p := Expressions.ParseComma(text, at);
      ghost var first := Expressions.ParseAssignment(text, at);
      value := ParseAssignment();
      ghost var acc := if first.Parsed? then first.e else Number(0);
      if first.Parsed? { CommasFail(text, first.e, first.next, old(env)); }
      var more := true;
      while more
        invariant Steady(old(at), old(live), old(failed), old(refused), old(error))
        invariant !old(failed) && failed ==> Broke(p, old(env))
        invariant more && !failed ==> p == ParseCommas(text, acc, at)
        invariant !more && !failed ==> p == Parsed(acc, at)
        invariant !failed ==> if live then Eval(acc, old(env)) == Done(value, env) else env == old(env)
        decreases more, |text| - at
      {
        more := Consume(",");
        if more {
          ghost var next := Expressions.ParseAssignment(text, at);
          value := ParseAssignment();
          if next.Parsed? {
            acc := Sequence(acc, next.e);
            CommasFail(text, acc, next.next, old(env));
          }
        }
      }
    }

    /** Past the characters of a class. */
    method Scan(from: nat, within: char -> bool) returns (end: nat)
      requires from <= |text|
      ensures end == Skip(text, from, within)
    {
      end := from;
      while end < |text| && within(text[end])
        invariant from <= end <= |text| && Skip(text, end, within) == Skip(text, from, within)
      {
        end := end + 1;
      }
    }

    method FindFirst(from: nat, table: seq<(string, Operator)>) returns (found: Option<(Operator, nat)>)
      requires from <= |text| && forall i :: 0 <= i < |table| ==> table[i].0 != ""
      ensures found == FirstMatch(text, from, table)
    {
      for i := 0 to |table|
        invariant FirstMatch(text, from, table[i..]) == FirstMatch(text, from, table)
      {
        if Matches(text, from, table[i].0) {
          return Some((table[i].1, from + |table[i].0|));
        }
        assert table[i..][1..] == table[i + 1..];
      }
      return None;
    }

    /** The look-ahead for a name and an assignment operator; nothing moves. */
    method LookAhead() returns (head: Head)
      requires Valid()
      ensures head == ReadHead(text, at)
    {
      hide Skip, FirstMatch;
      var start := Scan(at, IsBlank);
      if start == |text| || !StartsName(text[start]) {
        return NoHead;
      }
      var end := Scan(start, ContinuesName);
      var name := text[start..end];
      var after := Scan(end, IsSpaceOrTab);
      var update := FindFirst(after, UPDATES);
      if update.Some? {
        return UpdateHead(name, update.value.0, update.value.1);
      }
      if after < |text| && text[after] == '=' && !(after + 1 < |text| && text[after + 1] == '=') {
        return AssignHead(name, after + 1);
      }
      return NoHead;
    }

    method ParseAssignment() returns (value: Int64)
      requires Valid()
      modifies this
      ensures Steady(old(at), old(live), old(failed), old(refused), old(error))
      ensures !old(failed) ==> Agrees(Expressions.ParseAssignment(text, old(at)), old(env), value)
      decreases |text| - at, 19
    {
      hide ReadHead, Expressions.ParseConditional, Apply, Consumed;
      var head := LookAhead();
      match head {
        case NoHead =>
          value := ParseConditional();
        case AssignHead(name, next) =>
          at := next;
          value := ParseAssignment();
          WriteVariable(name, value);
        case UpdateHead(name, op, next) =>
          at := next;
          var right := ParseAssignment();
          var left := ReadVariable(name);
          if DividesByZero(op, right) {
            var abandon := DivideByZero();
            value := 0;
          } else {
            value := Apply(op, left, right);
          }
          WriteVariable(name, value);
      }
    }

    /** Exactly one branch runs; both are parsed. */
    method ParseConditional() returns (value: Int64)
      requires Valid()
      modifies this
      ensures Steady(old(at), old(live), old(failed), old(refused), old(error))
      ensures !old(failed) ==> Agrees(Expressions.ParseConditional(text, old(at)), old(env), value)
      decreases |text| - at, 18
    {
      hide Consumed, Expressions.ParseBinary, Expressions.ParseAssignment, Combined, Stored;
      var condition := ParseBinary(0);
      var asked := Consume("?");
      if !asked {
        return condition;
      }
      var wasLive := live;
      if condition == 0 {
        live := false;
      }
      var whenTrue := ParseAssignment();
      live := wasLive;
      var chosen := Consume(":");
      if !chosen {
        Fail(Problem.Malformed);
        return 0;
      }
      if condition != 0 {
        live := false;
      }
      var whenFalse := ParseConditional();
      live := wasLive;
      return if condition != 0 then whenTrue else whenFalse;
    }

    /** One binary level; the ten of them differ only in their operators and in what those do. */
    method ParseBinary(level: nat) returns (value: Int64)
      requires Valid() && level <= UNARY_LEVEL
      modifies this
      ensures Steady(old(at), old(live), old(failed), old(refused), old(error))
      ensures !old(failed) ==> Agrees(Expressions.ParseBinary(text, level, old(at)), old(env), value)
      decreases |text| - at, 17 - level
    {
      hide FirstConsumed, Expressions.ParseUnary, Eval, Operand;
      if level == UNARY_LEVEL {
        value := ParseUnary();
        return;
      }
      ghost var p := Expressions.ParseBinary(text, level, at);
      ghost var first := Expressions.ParseBinary(text, level + 1, at);
      value := ParseBinary(level + 1);
      ghost var acc := if first.Parsed? then first.e else Number(0);
      if first.Parsed? { OperandsFail(text, level, first.e, first.next, old(env)); }
      var more := true;
      while more
        invariant Steady(old(at), old(live), old(failed), old(refused), old(error))
        invariant !old(failed) && failed ==> Broke(p, old(env))
        invariant more && !failed ==> p == ParseOperands(text, level, acc, at)
        invariant !more && !failed ==> p == Parsed(acc, at)
        invariant !failed ==> if live then Eval(acc, old(env)) == Done(value, env) else env == old(env)
        decreases more, |text| - at
      {
        var op := ConsumeFirst(Operators(level));
        if op.None? {
          more := false;
        } else {
          ghost var next := Expressions.ParseBinary(text, level + 1, at);
          if live && !failed && next.Parsed? {
            EvalOperand(op.value, acc, next.e, old(env), value, env);
            EvalOperand(op.value, Number(value), next.e, env, value, env);
          }
          var abandon;
          value, abandon := ParseOperand(level, op.value, value);
          if next.Parsed? {
            acc := Binary(op.value, acc, next.e);
            OperandsFail(text, level, acc, next.next, old(env));
          }
          if abandon {
            return;
          }
        }
      }
    }

    /** The right operand of a binary operator, parsed with its effects off when the left one has
        settled the answer. */
    method ParseOperand(level: nat, op: Operator, left: Int64) returns (value: Int64, abandon: bool)
      requires Valid() && level < UNARY_LEVEL
      modifies this
      ensures Steady(old(at), old(live), old(failed), old(refused), old(error))
      ensures !old(failed) ==>
        var p := Expressions.ParseBinary(text, level + 1, old(at));
        Agrees(if p.Parsed? then Parsed(Binary(op, Number(left), p.e), p.next) else p, old(env), value)
      ensures abandon ==> failed
      decreases |text| - at, 17 - level
    {
      hide Expressions.ParseBinary, Stored, Combined, Eval, Apply;
      ghost var p := Expressions.ParseBinary(text, level + 1, at);
      if p.Parsed? { EvalOperand(op, Number(left), p.e, env, left, env); }
      var wasLive := live;
      if (op == Or && left != 0) || (op == And && left == 0) {
        live := false;
      }
      var right := ParseBinary(level + 1);
      live := wasLive;
      if DividesByZero(op, right) {
        abandon := DivideByZero();
        return 0, abandon;
      }
      SettledByLeft(op, left, right);
      value, abandon := Apply(op, left, right), false;
    }

    method ParseUnary() returns (value: Int64)
      requires Valid()
      modifies this
      ensures Steady(old(at), old(live), old(failed), old(refused), old(error))
      ensures !old(failed) ==> Agrees(Expressions.ParseUnary(text, old(at)), old(env), value)
      decreases |text| - at, 6
    {
      hide FirstConsumed, Expressions.ParsePrimary, Combined, Stored;
      SkipBlanks();
      var sign := ConsumeFirst(SIGNS);
      if sign.None? {
        value := ParsePrimary();
      } else {
        value := ParseUnary();
        value := Signed(sign.value, value);
      }
    }

    method ParsePrimary() returns (value: Int64)
      requires Valid()
      modifies this
      ensures Steady(old(at), old(live), old(failed), old(refused), old(error))
      ensures !old(failed) ==> Agrees(Expressions.ParsePrimary(text, old(at)), old(env), value)
      decreases |text| - at, 5
    {
      hide Consumed, Skip, Expressions.ParseComma, Numeral, Combined, Stored;
      SkipBlanks();
      if at == |text| {
        Fail(Problem.Malformed);
        return 0;
      }
      ConsumedStays(text, at, "(");
      var open := Consume("(");
      if open {
        value := ParseComma();
        var closed := Consume(")");
        if !closed {
          Fail(Problem.Malformed);
        }
        return;
      }
      value := ParseAtom();
    }

    method ParseAtom() returns (value: Int64)
      requires at < |text|
      modifies this
      ensures Steady(old(at), old(live), old(failed), old(refused), old(error))
      ensures !old(failed) ==> Agrees(Expressions.ParseAtom(text, old(at)), old(env), value)
      decreases |text| - at, 4
    {
      hide Numeral, Skip, DigitsEnd, Base;
      var c := text[at];
      if IsDigit(c) {
        value := ParseNumber();
      } else if StartsName(c) {
        var end := Scan(at, ContinuesName);
        var name := text[at..end];
        at := end;
        value := ReadVariable(name);
      } else {
        Fail(Problem.Malformed);
        value := 0;
      }
    }

    /** Digits in C's bases, saturating; `0x` with nothing after it names no number. */
    method ParseNumber() returns (value: Int64)
      requires at < |text|
      modifies this`at, this`failed, this`error
      ensures Valid() && old(at) <= at
      ensures var (base, digits) := Base(text, old(at));
        && at == DigitsEnd(text, digits, base)
        && value == Saturated(Numeral(text[digits..at], base))
        && failed == (old(failed) || (at == digits && base == 16))
        && (old(failed) ==> error == old(error)) && (!failed ==> error == old(error))
    {
      hide Base, Saturated, Accumulated, Appended;
      var (base, digits) := Base(text, at);
      at := digits;
      value := 0;
      SaturatedNothing();
      while at < |text| && DigitValue(text[at], base) < base
        invariant digits <= at <= |text| && DigitsEnd(text, at, base) == DigitsEnd(text, digits, base)
        invariant value == Saturated(Numeral(text[digits..at], base))
        invariant failed == old(failed) && error == old(error)
      {
        var digit := DigitValue(text[at], base);
        assert text[digits..at + 1][..at - digits] == text[digits..at];
        SaturatedStep(Numeral(text[digits..at], base), digit, base);
        value := Accumulated(value, digit, base);
        at := at + 1;
      }
      if at == digits && base == 16 {
        Fail(Problem.Malformed);
      }
    }
  }

  /** What a binary expression comes to once its left operand has. */
  function Operand(op: Operator, left: Int64, right: Expr, env: Env): Outcome {
    if op == And && left == 0 then Done(0, env)
    else if op == Or && left != 0 then Done(1, env)
    else match Eval(right, env)
      case Failed(error) => Failed(error)
      case Done(b, env2) => if DividesByZero(op, b) then Failed(DivisionByZero) else Done(Apply(op, left, b), env2)
  }

  lemma EvalOperand(op: Operator, acc: Expr, right: Expr, from: Env, left: Int64, env: Env)
    requires Eval(acc, from) == Done(left, env) || (acc == Number(left) && from == env)
    ensures Eval(Binary(op, acc, right), from) == Operand(op, left, right, env)
  {
    hide Apply;
  }

  /** `&&` and `||` answer from a left operand that settles them, whatever stands for the right one. */
  lemma SettledByLeft(op: Operator, left: Int64, right: Int64)
    requires !DividesByZero(op, right)
    ensures op == And && left == 0 ==> Apply(op, left, right) == 0
    ensures op == Or && left != 0 ==> Apply(op, left, right) == 1
  {
  }

  /** Where blanks have been skipped, failing to consume moves nothing. */
  lemma ConsumedStays(text: string, at: nat, op: string)
    requires at < |text| && !IsBlank(text[at]) && op != ""
    ensures !Consumed(text, at, op).0 ==> Consumed(text, at, op).1 == at
  {
  }

  lemma SaturatedNothing()
    ensures Saturated(0) == 0 && forall n: nat :: 0 <= Saturated(n)
  {
  }

  /** `accumulate_digit`: past the limit the value stays at the limit. */
  function Accumulated(value: Int64, digit: nat, base: nat): Int64
    requires 0 <= value && base in {8, 10, 16} && digit < base
  {
    if value > (HALF - 1 - digit) / base then HALF - 1 else value * base + digit
  }

  /** Accumulating digit by digit and stopping at the limit is clamping the whole numeral. */
  lemma SaturatedStep(n: nat, digit: nat, base: nat)
    requires base in {8, 10, 16} && digit < base
    ensures Saturated(Appended(n, base, digit)) == Accumulated(Saturated(n), digit, base)
  {
    if base == 8 {
    } else if base == 10 {
    } else {
    }
  }

  lemma {:induction false} OperandsFail(text: string, level: nat, acc: Expr, at: nat, env: Env)
    requires at <= |text| && level < UNARY_LEVEL
    ensures var p := ParseOperands(text, level, acc, at);
      p.Parsed? && Eval(acc, env).Failed? ==> Eval(p.e, env) == Eval(acc, env)
    decreases |text| - at
  {
    hide FirstConsumed, Expressions.ParseBinary, Operators, Apply;
    var (op, next) := FirstConsumed(text, at, Operators(level));
    if op.Some? {
      var right := Expressions.ParseBinary(text, level + 1, next);
      if right.Parsed? {
        OperandsFail(text, level, Binary(op.value, acc, right.e), right.next, env);
      }
    }
  }

  /** An error in what a comma list has so far is the list's. */
  lemma {:induction false} CommasFail(text: string, acc: Expr, at: nat, env: Env)
    requires at <= |text|
    ensures var p := ParseCommas(text, acc, at);
      p.Parsed? && Eval(acc, env).Failed? ==> Eval(p.e, env) == Eval(acc, env)
    decreases |text| - at
  {
    hide Consumed, Expressions.ParseAssignment;
    var (more, next) := Consumed(text, at, ",");
    if more {
      var right := Expressions.ParseAssignment(text, next);
      if right.Parsed? {
        CommasFail(text, Sequence(acc, right.e), right.next, env);
      }
    }
  }

  // ----- the whole expression -----

  datatype Answer = Answer(value: Int64, unset: string) | Error(problem: Problem, refused: bool)

  /** `evaluate`: the answer, and the variables as it leaves them. The answer is good exactly when the
      text is an expression whose evaluation fails nowhere, and then the value, the variables and the
      first unset name are the tree's; a text that is an expression fails as its evaluation does. */
  method Evaluate(text: string, store: Store) returns (answer: Answer, after: Store)
    ensures answer.Answer? <==> Parse(text).Some? && Eval(Parse(text).value, Env(store, "")).Done?
    ensures answer.Answer? ==>
      Eval(Parse(text).value, Env(store, "")) == Done(answer.value, Env(after, answer.unset))
    ensures answer.Error? && Parse(text).Some? ==>
      var error := Eval(Parse(text).value, Env(store, "")).error;
      answer.problem == Runtime(error) && (error == ReadonlyVariable ==> answer.refused)
  {
    var e := new Evaluator(text, store);
    var value := e.ParseComma();
    e.SkipBlanks();
    after := e.env.store;
    if e.failed {
      return Error(e.error, e.refused), after;
    }
    if e.at < |text| {
      return Error(Problem.Malformed, false), after;
    }
    return Answer(value, e.env.unset), after;
  }
}
