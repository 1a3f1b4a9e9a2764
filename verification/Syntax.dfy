/** Rule bodies, and the evaluation of expressions in a state. */
module Syntax {
  import opened Values

  datatype Operator = Add | Sub | Mul | Eq | Neq | Lesser | Greater | LesserEq | GreaterEq | And | Or

  datatype Expression =
    | Constant(value: Value)
    | Parameter(offset: nat)
    | FunctionAtom(func: string, arguments: seq<Expression>)
    | Binary(op: Operator, left: Expression, right: Expression)
    | Not(operand: Expression)

  /** What a forall ranges over: the static type of the expression decides. */
  datatype Range =
    | OverList(list: Expression)
    | OverInt(bound: Expression)
    | OverEnum(name: string, mapping: seq<(string, Value)>)

  datatype Target = Direct(rule: string) | Indirect(rule_expr: Expression)

  datatype Statement =
    | Skip
    | Update(func: string, arguments: seq<Expression>, expr: Expression)
    | IfThenElse(condition: Expression, then_: Statement, else_: Statement)
    | Let(expr: Expression, body: Statement)
    | Call(target: Target, arguments: seq<Expression>)
    | ParBlock(statements: seq<Statement>)
    | SeqBlock(statements: seq<Statement>)
    | Forall(range: Range, body: Statement)
    | Iterate(body: Statement)
    | Assert(condition: Expression)
    | Diedie

  datatype Rule = Rule(arity: nat, body: Statement)

  type Program = map<string, Rule>

  /** Failures other than an update conflict. */
  datatype Fault =
    | ConditionUndef
    | CallUndef
    | InvalidIndirectCall
    | AssertionFailed
    | DiedieExecuted
    | NoSuchBinding
    | IllTyped
    | OutOfFuel

  datatype Result<+T> = Success(value: T) | Failure(fault: Fault) {
    predicate IsFailure() { Failure? }
    function PropagateFailure<U>(): Result<U> requires Failure? { Failure(fault) }
    function Extract(): T requires Success? { value }
  }

  function Arithmetic(op: Operator, x: int, y: int): Value {
    match op
    case Add => Int(x + y)
    case Sub => Int(x - y)
    case Mul => Int(x * y)
    case Lesser => Boolean(x < y)
    case Greater => Boolean(x > y)
    case LesserEq => Boolean(x <= y)
    case GreaterEq => Boolean(x >= y)
    case _ => Undef
  }

  /** The operators on concrete values; all but equality are strict in undef. */
  function Operate(op: Operator, l: Value, r: Value): Result<Value> {
    if op.Eq? then Success(Boolean(l == r))
    else if op.Neq? then Success(Boolean(l != r))
    else if l.Undef? || r.Undef? then Success(Undef)
    else if op.And? && l.Boolean? && r.Boolean? then Success(Boolean(l.b && r.b))
    else if op.Or? && l.Boolean? && r.Boolean? then Success(Boolean(l.b || r.b))
    else if !op.And? && !op.Or? && l.Int? && r.Int? then Success(Arithmetic(op, l.i, r.i))
    else Failure(IllTyped)
  }

  function Negate(v: Value): Result<Value> {
    if v.Undef? then Success(Undef) else if v.Boolean? then Success(Boolean(!v.b)) else Failure(IllTyped)
  }

  function Eval(e: Expression, frame: seq<Value>, s: State): Result<Value> {
    match e
    case Constant(v) => Success(v)
    case Parameter(offset) => if offset < |frame| then Success(frame[offset]) else Failure(NoSuchBinding)
    case FunctionAtom(func, args) =>
      var vs :- EvalAll(args, frame, s);
      Success(Lookup(s, Location(func, vs)))
    case Binary(op, left, right) =>
      var l :- Eval(left, frame, s);
      var r :- Eval(right, frame, s);
      Operate(op, l, r)
    case Not(operand) =>
      var v :- Eval(operand, frame, s);
      Negate(v)
  }

  /** Evaluates a list of expressions from the left; the first failure wins. */
  function EvalAll(es: seq<Expression>, frame: seq<Value>, s: State): (r: Result<seq<Value>>)
    ensures r.Success? ==> |r.value| == |es|
  {
    if es == [] then Success([])
    else
      var vs :- EvalAll(es[..|es| - 1], frame, s);
      var v :- Eval(es[|es| - 1], frame, s);
      Success(vs + [v])
  }

  /** The first failure of a prefix is the failure of the whole list. */
  lemma {:induction false} EvalAllPrefix(es: seq<Expression>, n: nat, frame: seq<Value>, s: State)
    requires n <= |es| && EvalAll(es[..n], frame, s).Failure?
    ensures EvalAll(es, frame, s) == EvalAll(es[..n], frame, s)
  {
    if n < |es| {
      assert es[..|es| - 1][..n] == es[..n];
      EvalAllPrefix(es[..|es| - 1], n, frame, s);
    } else {
      assert es[..n] == es;
    }
  }

  /** The numbers that a forall over an integer visits, in order: up from 0, or down when it is not positive. */
  function Numbers(bound: int): (vs: seq<Value>)
    ensures |vs| == if bound > 0 then bound else -bound
  {
    if bound > 0 then seq(bound, i => Int(i)) else seq(-bound, i => Int(-i))
  }

  lemma NumbersAt(bound: int, k: nat)
    requires k < |Numbers(bound)|
    ensures Numbers(bound)[k] == if bound > 0 then Int(k) else Int(0 - k)
  {
  }

  /** The members of an enum; the mapping also holds an entry under the name of the enum itself. */
  function Members(name: string, mapping: seq<(string, Value)>): seq<Value> {
    if mapping == [] then []
    else
      var last := mapping[|mapping| - 1];
      Members(name, mapping[..|mapping| - 1]) + if last.0 == name then [] else [last.1]
  }

  lemma {:induction false} MembersPrefix(name: string, mapping: seq<(string, Value)>, n: nat)
    requires n <= |mapping|
    ensures Members(name, mapping[..n]) <= Members(name, mapping)
  {
    if n == |mapping| {
      assert mapping[..n] == mapping;
    } else {
      assert mapping[..|mapping| - 1][..n] == mapping[..n];
      MembersPrefix(name, mapping[..|mapping| - 1], n);
    }
  }

  /** The entry at position i is the member at position k, unless it has the name of the enum. */
  lemma MembersNext(name: string, mapping: seq<(string, Value)>, i: nat, k: nat)
    requires i < |mapping| && k <= |Members(name, mapping)|
    requires Members(name, mapping[..i]) == Members(name, mapping)[..k]
    ensures mapping[i].0 == name ==> Members(name, mapping[..i + 1]) == Members(name, mapping)[..k]
    ensures mapping[i].0 != name ==>
      && k < |Members(name, mapping)| && Members(name, mapping)[k] == mapping[i].1
      && Members(name, mapping[..i + 1]) == Members(name, mapping)[..k + 1]
  {
    MembersPrefix(name, mapping, i + 1);
    assert mapping[..i + 1][..i] == mapping[..i];
    if mapping[i].0 != name {
      assert Members(name, mapping[..i + 1]) == Members(name, mapping)[..k] + [mapping[i].1];
    }
  }

  /** The values that a forall visits, in order, when the expression of the range has the value v. */
  function ItemsOf(range: Range, v: Value): Result<seq<Value>> {
    match range
    case OverList(_) => if v.ListOf? then Success(v.items) else Failure(IllTyped)
    case OverInt(_) => if v.Int? then Success(Numbers(v.i)) else Failure(IllTyped)
    case OverEnum(name, mapping) => Success(Members(name, mapping))
  }

  function Items(range: Range, frame: seq<Value>, s: State): Result<seq<Value>> {
    if range.OverEnum? then ItemsOf(range, Undef)
    else
      var v :- Eval(if range.OverList? then range.list else range.bound, frame, s);
      ItemsOf(range, v)
  }
}
