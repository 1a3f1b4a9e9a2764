/**
  What evaluation makes of expressions: the laws that determine the operators, stated for all
  operand expressions by what these evaluate to.
 */
module ExpressionLaws {
  import opened Values
  import opened Syntax

  /** The expression evaluates to an integer. */
  predicate Integer(e: Expression, frame: seq<Value>, s: State) {
    var r := Eval(e, frame, s);
    r.Success? && r.value.Int?
  }

  /** The expression evaluates to a truth value or to undef. */
  predicate Truth(e: Expression, frame: seq<Value>, s: State) {
    var r := Eval(e, frame, s);
    r.Success? && (r.value.Boolean? || r.value.Undef?)
  }

  predicate Same(e: Expression, f: Expression, frame: seq<Value>, s: State) {
    Eval(e, frame, s) == Eval(f, frame, s)
  }

  /** The expression evaluates to true. */
  predicate IsTrue(e: Expression, frame: seq<Value>, s: State) {
    Eval(e, frame, s) == Success(Boolean(true))
  }

  predicate IsFalse(e: Expression, frame: seq<Value>, s: State) {
    Eval(e, frame, s) == Success(Boolean(false))
  }

  function Number(n: int): Expression {
    Constant(Int(n))
  }

  function Const(b: bool): Expression {
    Constant(Boolean(b))
  }

  lemma Applied(op: Operator, e: Expression, f: Expression, frame: seq<Value>, s: State)
    requires Eval(e, frame, s).Success? && Eval(f, frame, s).Success?
    ensures Eval(Binary(op, e, f), frame, s) == Operate(op, Eval(e, frame, s).value, Eval(f, frame, s).value)
  {
  }

  lemma Negated(e: Expression, frame: seq<Value>, s: State)
    requires Eval(e, frame, s).Success?
    ensures Eval(Not(e), frame, s) == Negate(Eval(e, frame, s).value)
  {
  }

  // ---- Arithmetic ----

  /** Adding 0 changes nothing, and adding 1 gives the next number. */
  lemma CountingLaws(e: Expression, frame: seq<Value>, s: State)
    requires Integer(e, frame, s)
    ensures Same(Binary(Add, e, Number(0)), e, frame, s)
    ensures Eval(Binary(Add, e, Number(1)), frame, s) == Success(Int(Eval(e, frame, s).value.i + 1))
  {
    Applied(Add, e, Number(0), frame, s);
    Applied(Add, e, Number(1), frame, s);
  }

  /** Sums commute and associate. */
  lemma SumLaws(e: Expression, f: Expression, g: Expression, frame: seq<Value>, s: State)
    requires Integer(e, frame, s) && Integer(f, frame, s) && Integer(g, frame, s)
    ensures Integer(Binary(Add, e, f), frame, s)
    ensures Same(Binary(Add, e, f), Binary(Add, f, e), frame, s)
    ensures Same(Binary(Add, Binary(Add, e, f), g), Binary(Add, e, Binary(Add, f, g)), frame, s)
  {
    Applied(Add, e, f, frame, s);
    Applied(Add, f, e, frame, s);
    Applied(Add, f, g, frame, s);
    Applied(Add, Binary(Add, e, f), g, frame, s);
    Applied(Add, e, Binary(Add, f, g), frame, s);
  }

  /** A difference undoes a sum, and is undone by one. */
  lemma DifferenceLaws(e: Expression, f: Expression, frame: seq<Value>, s: State)
    requires Integer(e, frame, s) && Integer(f, frame, s)
    ensures Integer(Binary(Sub, e, f), frame, s)
    ensures Same(Binary(Sub, Binary(Add, e, f), f), e, frame, s)
    ensures Same(Binary(Add, Binary(Sub, e, f), f), e, frame, s)
  {
    Applied(Add, e, f, frame, s);
    Applied(Sub, e, f, frame, s);
    Applied(Sub, Binary(Add, e, f), f, frame, s);
    Applied(Add, Binary(Sub, e, f), f, frame, s);
  }

  /** Products have the unit 1, commute, and distribute over sums. */
  lemma ProductLaws(e: Expression, f: Expression, g: Expression, frame: seq<Value>, s: State)
    requires Integer(e, frame, s) && Integer(f, frame, s) && Integer(g, frame, s)
    ensures Integer(Binary(Mul, e, f), frame, s)
    ensures Same(Binary(Mul, e, Number(1)), e, frame, s)
    ensures Same(Binary(Mul, e, f), Binary(Mul, f, e), frame, s)
    ensures Same(Binary(Mul, e, Binary(Add, f, g)), Binary(Add, Binary(Mul, e, f), Binary(Mul, e, g)), frame, s)
  {
    Applied(Mul, e, f, frame, s);
    Applied(Mul, f, e, frame, s);
    Applied(Mul, e, g, frame, s);
    Applied(Add, f, g, frame, s);
    Applied(Mul, e, Binary(Add, f, g), frame, s);
    Applied(Add, Binary(Mul, e, f), Binary(Mul, e, g), frame, s);
    var x, y, z := Eval(e, frame, s).value.i, Eval(f, frame, s).value.i, Eval(g, frame, s).value.i;
    assert x * (y + z) == x * y + x * z;
  }

  // ---- Comparisons ----

  /** An equation tells whether two values are the same, whatever they are, and its negation the opposite. */
  lemma EqualityLaws(e: Expression, f: Expression, frame: seq<Value>, s: State)
    requires Eval(e, frame, s).Success? && Eval(f, frame, s).Success?
    ensures Truth(Binary(Eq, e, f), frame, s) && (IsTrue(Binary(Eq, e, f), frame, s) <==> Same(e, f, frame, s))
    ensures Same(Binary(Neq, e, f), Not(Binary(Eq, e, f)), frame, s)
    ensures !IsTrue(Binary(Eq, e, f), frame, s) ==> IsFalse(Binary(Eq, e, f), frame, s)
  {
  }

  /** Exactly one of three comparisons of integers is true. */
  lemma TrichotomyLaws(e: Expression, f: Expression, frame: seq<Value>, s: State)
    requires Integer(e, frame, s) && Integer(f, frame, s)
    ensures IsTrue(Binary(Lesser, e, f), frame, s) ==>
      IsFalse(Binary(Eq, e, f), frame, s) && IsFalse(Binary(Greater, e, f), frame, s)
    ensures IsTrue(Binary(Greater, e, f), frame, s) ==>
      IsFalse(Binary(Eq, e, f), frame, s) && IsFalse(Binary(Lesser, e, f), frame, s)
    ensures IsTrue(Binary(Eq, e, f), frame, s) ==>
      IsFalse(Binary(Lesser, e, f), frame, s) && IsFalse(Binary(Greater, e, f), frame, s)
    ensures IsTrue(Binary(Lesser, e, f), frame, s) || IsTrue(Binary(Eq, e, f), frame, s) ||
      IsTrue(Binary(Greater, e, f), frame, s)
  {
    Applied(Lesser, e, f, frame, s);
    Applied(Eq, e, f, frame, s);
    Applied(Greater, e, f, frame, s);
  }

  /** The order is transitive, and each number precedes the next one. */
  lemma OrderLaws(e: Expression, f: Expression, g: Expression, frame: seq<Value>, s: State)
    requires Integer(e, frame, s) && Integer(f, frame, s) && Integer(g, frame, s)
    ensures IsTrue(Binary(Lesser, e, Binary(Add, e, Number(1))), frame, s)
    ensures IsTrue(Binary(Lesser, e, f), frame, s) && IsTrue(Binary(Lesser, f, g), frame, s) ==>
      IsTrue(Binary(Lesser, e, g), frame, s)
  {
    Applied(Add, e, Number(1), frame, s);
    Applied(Lesser, e, Binary(Add, e, Number(1)), frame, s);
    Applied(Lesser, e, f, frame, s);
    Applied(Lesser, f, g, frame, s);
    Applied(Lesser, e, g, frame, s);
  }

  /** The other comparisons by the first one. */
  lemma ComparisonLaws(e: Expression, f: Expression, frame: seq<Value>, s: State)
    requires Integer(e, frame, s) && Integer(f, frame, s)
    ensures Same(Binary(Greater, e, f), Binary(Lesser, f, e), frame, s)
    ensures Same(Binary(LesserEq, e, f), Not(Binary(Greater, e, f)), frame, s)
    ensures Same(Binary(GreaterEq, e, f), Not(Binary(Lesser, e, f)), frame, s)
  {
    Applied(Greater, e, f, frame, s);
    Applied(Lesser, e, f, frame, s);
    Negated(Binary(Greater, e, f), frame, s);
    Negated(Binary(Lesser, e, f), frame, s);
  }

  // ---- Truth values ----

  /** Double negation and De Morgan, undef included. */
  lemma NegationLaws(e: Expression, f: Expression, frame: seq<Value>, s: State)
    requires Truth(e, frame, s) && Truth(f, frame, s)
    ensures Same(Not(Not(e)), e, frame, s)
    ensures Same(Not(Binary(And, e, f)), Binary(Or, Not(e), Not(f)), frame, s)
    ensures Same(Not(Binary(Or, e, f)), Binary(And, Not(e), Not(f)), frame, s)
  {
    Negated(e, frame, s);
    Negated(f, frame, s);
    Negated(Not(e), frame, s);
    Applied(And, e, f, frame, s);
    Applied(Or, e, f, frame, s);
    Negated(Binary(And, e, f), frame, s);
    Negated(Binary(Or, e, f), frame, s);
    Applied(Or, Not(e), Not(f), frame, s);
    Applied(And, Not(e), Not(f), frame, s);
  }

  /** Units, idempotence and commutation. */
  lemma ConnectiveLaws(e: Expression, f: Expression, frame: seq<Value>, s: State)
    requires Truth(e, frame, s) && Truth(f, frame, s)
    ensures Same(Binary(And, e, Const(true)), e, frame, s) && Same(Binary(Or, e, Const(false)), e, frame, s)
    ensures Same(Binary(And, e, e), e, frame, s) && Same(Binary(Or, e, e), e, frame, s)
    ensures Same(Binary(And, e, f), Binary(And, f, e), frame, s) && Same(Binary(Or, e, f), Binary(Or, f, e), frame, s)
  {
    Applied(And, e, Const(true), frame, s);
    Applied(Or, e, Const(false), frame, s);
    Applied(And, e, f, frame, s);
    Applied(Or, e, f, frame, s);
  }

  /** Conjunction distributes over disjunction. */
  lemma DistributionLaws(e: Expression, f: Expression, g: Expression, frame: seq<Value>, s: State)
    requires Truth(e, frame, s) && Truth(f, frame, s) && Truth(g, frame, s)
    ensures Same(Binary(And, e, Binary(Or, f, g)), Binary(Or, Binary(And, e, f), Binary(And, e, g)), frame, s)
  {
    Applied(And, e, f, frame, s);
    Applied(And, e, g, frame, s);
    Applied(Or, f, g, frame, s);
    Applied(And, e, Binary(Or, f, g), frame, s);
    Applied(Or, Binary(And, e, f), Binary(And, e, g), frame, s);
  }

  /** Unless it is undef, a truth value and its negation exclude each other and leave nothing else. */
  lemma ComplementLaws(e: Expression, frame: seq<Value>, s: State)
    requires Truth(e, frame, s)
    ensures IsTrue(Not(e), frame, s) <==> IsFalse(e, frame, s)
    ensures Eval(e, frame, s) != Success(Undef) ==>
      IsFalse(Binary(And, e, Not(e)), frame, s) && IsTrue(Binary(Or, e, Not(e)), frame, s)
  {
  }

  // ---- Undef and failures ----

  /** All operators but the equations yield undef when an operand does. */
  lemma UndefLaws(op: Operator, e: Expression, f: Expression, frame: seq<Value>, s: State)
    requires Eval(e, frame, s).Success? && Eval(f, frame, s).Success? && !op.Eq? && !op.Neq?
    requires Eval(e, frame, s).value.Undef? || Eval(f, frame, s).value.Undef?
    ensures Eval(Binary(op, e, f), frame, s) == Success(Undef)
    ensures Eval(e, frame, s).value.Undef? ==> Eval(Not(e), frame, s) == Success(Undef)
  {
  }

  /** A failing operand makes the expression fail in the same way, the left one first. */
  lemma FailureLaws(op: Operator, e: Expression, f: Expression, frame: seq<Value>, s: State)
    ensures Eval(e, frame, s).Failure? ==>
      Eval(Binary(op, e, f), frame, s) == Eval(e, frame, s) == Eval(Not(e), frame, s)
    ensures Eval(e, frame, s).Success? && Eval(f, frame, s).Failure? ==>
      Eval(Binary(op, e, f), frame, s) == Eval(f, frame, s)
  {
  }

  /** Two operands of the type of the operator never fail. */
  lemma TypedLaws(op: Operator, e: Expression, f: Expression, frame: seq<Value>, s: State)
    requires op.And? || op.Or? ==> Truth(e, frame, s) && Truth(f, frame, s)
    requires !op.And? && !op.Or? ==> Integer(e, frame, s) && Integer(f, frame, s)
    ensures op.Add? || op.Sub? || op.Mul? ==> Integer(Binary(op, e, f), frame, s)
    ensures !op.Add? && !op.Sub? && !op.Mul? ==> Truth(Binary(op, e, f), frame, s)
  {
  }

  /** Other operands make it fail, unless one of them is undef: a sum of truth values, say, or a negated number. */
  lemma IllTypedLaws(op: Operator, e: Expression, f: Expression, frame: seq<Value>, s: State)
    requires Eval(e, frame, s).Success? && Eval(f, frame, s).Success? && !op.Eq? && !op.Neq?
    requires !Eval(e, frame, s).value.Undef? && !Eval(f, frame, s).value.Undef?
    ensures Eval(Binary(op, e, f), frame, s) == Failure(IllTyped) <==>
      if op.And? || op.Or? then !Truth(e, frame, s) || !Truth(f, frame, s)
      else !Integer(e, frame, s) || !Integer(f, frame, s)
    ensures Eval(Not(e), frame, s) == Failure(IllTyped) <==> !Truth(e, frame, s)
  {
    Applied(op, e, f, frame, s);
    Negated(e, frame, s);
  }

  // ---- Atoms ----

  /** The arguments of an atom: all of their values in order, or the first failure. */
  lemma {:induction false} ArgumentLaws(es: seq<Expression>, frame: seq<Value>, s: State, i: nat)
    requires i < |es|
    ensures EvalAll(es, frame, s).Success? ==> Eval(es[i], frame, s) == Success(EvalAll(es, frame, s).value[i])
    ensures Eval(es[i], frame, s).Failure? && (forall k :: 0 <= k < i ==> Eval(es[k], frame, s).Success?) ==>
      EvalAll(es, frame, s) == Failure(Eval(es[i], frame, s).fault)
    decreases |es|
  {
    var n := |es| - 1;
    if i < n {
      ArgumentLaws(es[..n], frame, s, i);
    } else if n > 0 && EvalAll(es[..n], frame, s).Failure? {
      var k := FirstFailure(es[..n], frame, s);
    }
  }

  lemma {:induction false} FirstFailure(es: seq<Expression>, frame: seq<Value>, s: State) returns (k: nat)
    requires EvalAll(es, frame, s).Failure?
    ensures k < |es| && Eval(es[k], frame, s).Failure?
    ensures EvalAll(es, frame, s) == Failure(Eval(es[k], frame, s).fault)
    decreases |es|
  {
    var n := |es| - 1;
    if EvalAll(es[..n], frame, s).Failure? {
      k := FirstFailure(es[..n], frame, s);
    } else {
      k := n;
    }
  }

  /** Once a location is updated, an atom for it yields the new value, and the atoms for others what they did. */
  lemma AtomLaws(func: string, args: seq<Expression>, l: Location, v: Value, frame: seq<Value>, s: State)
    requires EvalAll(args, frame, Fire(s, map[l := v])).Success?
    ensures var vs := EvalAll(args, frame, Fire(s, map[l := v])).value;
      Eval(FunctionAtom(func, args), frame, Fire(s, map[l := v]))
        == Success(if Location(func, vs) == l then v else Lookup(s, Location(func, vs)))
  {
  }

  /** A value that is pushed is read at the depth at which it was pushed, and moves nothing else. */
  lemma ParameterLaws(offset: nat, v: Value, frame: seq<Value>, s: State)
    ensures Eval(Parameter(offset), frame + [v], s)
         == if offset == |frame| then Success(v) else Eval(Parameter(offset), frame, s)
    ensures Eval(Parameter(offset), frame, s).Failure? <==> offset >= |frame|
  {
  }
}
