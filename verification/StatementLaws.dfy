/**
  What statements denote, by laws that hold for all of their parts: conditionals choose, bindings and
  calls pass values, parallel statements do not see each other and sequential ones do, and loops run
  until nothing is left to do.
 */
module StatementLaws {
  import opened Values
  import opened Sequences
  import opened Syntax
  import opened Semantics
  import opened Laws
  import opened Interpreter
  import opened ExpressionLaws

  /** A function without arguments. */
  function Nullary(f: string): Location {
    Location(f, [])
  }

  function Read(f: string): Expression {
    FunctionAtom(f, [])
  }

  function Assign(f: string, e: Expression): Statement {
    Update(f, [], e)
  }

  lemma ReadLaws(f: string, frame: seq<Value>, s: State)
    ensures Eval(Read(f), frame, s) == Success(Lookup(s, Nullary(f)))
  {
    assert EvalAll([], frame, s) == Success([]);
  }

  lemma AssignLaws(p: Program, f: string, e: Expression, frame: seq<Value>, s: State, fuel: nat, rounds: nat)
    requires fuel > 0 && Eval(e, frame, s).Success?
    ensures Denote(p, Assign(f, e), frame, s, fuel, rounds) == Ok(map[Nullary(f) := Eval(e, frame, s).value])
  {
    assert EvalAll([], frame, s) == Success([]);
  }

  lemma OneArgument(e: Expression, frame: seq<Value>, s: State)
    requires Eval(e, frame, s).Success?
    ensures EvalAll([e], frame, s) == Success([Eval(e, frame, s).value])
  {
    var none: seq<Value> := [];
    assert [e][..0] == [] && EvalAll([], frame, s) == Success(none);
    assert none + [Eval(e, frame, s).value] == [Eval(e, frame, s).value];
  }

  // ---- Choice ----

  /** A conditional is its first branch if the condition is true, its second one if it is false, and fails on undef. */
  lemma ConditionalLaws(p: Program, c: Expression, t: Statement, e: Statement, frame: seq<Value>, s: State, fuel: nat,
                        rounds: nat)
    ensures IsTrue(c, frame, s) ==>
      Denote(p, IfThenElse(c, t, e), frame, s, fuel + 1, rounds) == Denote(p, t, frame, s, fuel, rounds)
    ensures IsFalse(c, frame, s) ==>
      Denote(p, IfThenElse(c, t, e), frame, s, fuel + 1, rounds) == Denote(p, e, frame, s, fuel, rounds)
    ensures Eval(c, frame, s) == Success(Undef) ==>
      Denote(p, IfThenElse(c, t, e), frame, s, fuel + 1, rounds) == Semantics.Failed(ConditionUndef)
  {
  }

  /** An assertion does nothing when it is true, and fails when it is false. */
  lemma AssertionLaws(p: Program, c: Expression, frame: seq<Value>, s: State, fuel: nat, rounds: nat)
    requires fuel > 0
    ensures IsTrue(c, frame, s) ==>
      Denote(p, Assert(c), frame, s, fuel, rounds) == Denote(p, Skip, frame, s, fuel, rounds) == Ok(map[])
    ensures IsFalse(c, frame, s) ==> Denote(p, Assert(c), frame, s, fuel, rounds) == Semantics.Failed(AssertionFailed)
  {
  }

  // ---- Bindings ----

  /** A variable stands for its value: `let x = e in f := x` is `f := e`. */
  lemma LetLaws(p: Program, f: string, e: Expression, frame: seq<Value>, s: State, fuel: nat, rounds: nat)
    requires fuel > 0
    ensures Denote(p, Let(e, Assign(f, Parameter(|frame|))), frame, s, fuel + 1, rounds)
         == Denote(p, Assign(f, e), frame, s, fuel, rounds)
  {
    var v := Eval(e, frame, s);
    if v.Success? {
      ParameterLaws(|frame|, v.value, frame, s);
      AssignLaws(p, f, Parameter(|frame|), frame + [v.value], s, fuel, rounds);
      AssignLaws(p, f, e, frame, s, fuel, rounds);
    }
  }

  /** So does a parameter: with `r(a0, a1, ...) = f := ai`, a call of r with some values is `f := vi`. */
  lemma CallLaws(p: Program, r: string, f: string, vs: seq<Value>, i: nat, frame: seq<Value>, s: State, fuel: nat,
                 rounds: nat)
    requires fuel > 0 && i < |vs| && r in p && p[r] == Rule(|vs|, Assign(f, Parameter(i)))
    ensures Denote(p, Call(Direct(r), Constants(vs)), frame, s, fuel + 1, rounds) == Ok(map[Nullary(f) := vs[i]])
    ensures Denote(p, Call(Indirect(Constant(RuleRef(r))), Constants(vs)), frame, s, fuel + 1, rounds)
         == Ok(map[Nullary(f) := vs[i]])
  {
    ConstantsEvaluate(vs, frame, s);
    AssignLaws(p, f, Parameter(i), vs, s, fuel, rounds);
  }

  /** An indirect call fails on undef, and with the wrong number of arguments. */
  lemma IndirectCallLaws(p: Program, r: string, vs: seq<Value>, frame: seq<Value>, s: State, fuel: nat, rounds: nat)
    requires fuel > 0 && r in p && p[r].arity != |vs|
    ensures Denote(p, Call(Indirect(Constant(Undef)), Constants(vs)), frame, s, fuel, rounds)
         == Semantics.Failed(CallUndef)
    ensures Denote(p, Call(Indirect(Constant(RuleRef(r))), Constants(vs)), frame, s, fuel, rounds)
         == Semantics.Failed(InvalidIndirectCall)
  {
    ConstantsEvaluate(vs, frame, s);
  }

  function Constants(vs: seq<Value>): (es: seq<Expression>)
    ensures |es| == |vs| && forall i :: 0 <= i < |vs| ==> es[i] == Constant(vs[i])
  {
    seq(|vs|, i requires 0 <= i < |vs| => Constant(vs[i]))
  }

  lemma {:induction false} ConstantsEvaluate(vs: seq<Value>, frame: seq<Value>, s: State)
    ensures EvalAll(Constants(vs), frame, s) == Success(vs)
    decreases |vs|
  {
    if vs != [] {
      var n := |vs| - 1;
      assert Constants(vs)[..n] == Constants(vs[..n]);
      ConstantsEvaluate(vs[..n], frame, s);
      assert vs[..n] + [vs[n]] == vs;
    }
  }

  // ---- Parallel and sequential statements ----

  lemma TwoBranches(p: Program, a: Statement, b: Statement, frame: seq<Value>, s: State, fuel: nat, rounds: nat)
    ensures Denote(p, ParBlock([a, b]), frame, s, fuel + 1, rounds)
         == JoinAll([Denote(p, a, frame, s, fuel, rounds), Denote(p, b, frame, s, fuel, rounds)])
  {
    assert Branches(p, [a, b], frame, s, fuel, rounds)
        == [Denote(p, a, frame, s, fuel, rounds), Denote(p, b, frame, s, fuel, rounds)];
  }

  lemma JoinTwo(r: Outcome, r': Outcome)
    ensures JoinAll([r, r']) == if r.Ok? then Join(r.updates, r') else r
  {
    assert [r, r'][..1] == [r] && [r][..0] == [];
    JoinNothing(r);
    assert JoinAll([r]) == r;
    assert [r, r'][1] == r';
  }

  lemma TwoStatements(p: Program, a: Statement, b: Statement, frame: seq<Value>, s: State, fuel: nat, rounds: nat)
    ensures var r := Denote(p, a, frame, s, fuel, rounds);
      r.Ok? ==>
        Denote(p, SeqBlock([a, b]), frame, s, fuel + 1, rounds)
          == Override(r.updates, Denote(p, b, frame, Fire(s, r.updates), fuel, rounds))
  {
    assert [a, b][..1] == [a] && [a][..0] == [];
    var r := Denote(p, a, frame, s, fuel, rounds);
    FireNothing(s);
    if r.Ok? {
      assert map[] + r.updates == r.updates;
      assert DenoteSeq(p, [a], frame, s, fuel, rounds) == r;
    }
  }

  /** Two updates in parallel exchange the values of two functions; in sequence the second one sees the first one. */
  lemma ExchangeLaws(p: Program, f: string, g: string, frame: seq<Value>, s: State, fuel: nat, rounds: nat)
    requires fuel > 0 && f != g
    ensures var a, b := Assign(f, Read(g)), Assign(g, Read(f));
      var x, y := Lookup(s, Nullary(f)), Lookup(s, Nullary(g));
      && Denote(p, ParBlock([a, b]), frame, s, fuel + 1, rounds) == Ok(map[Nullary(f) := y, Nullary(g) := x])
      && Denote(p, SeqBlock([a, b]), frame, s, fuel + 1, rounds) == Ok(map[Nullary(f) := y, Nullary(g) := y])
  {
    var a, b := Assign(f, Read(g)), Assign(g, Read(f));
    var x, y := Lookup(s, Nullary(f)), Lookup(s, Nullary(g));
    ReadLaws(f, frame, s);
    ReadLaws(g, frame, s);
    AssignLaws(p, f, Read(g), frame, s, fuel, rounds);
    AssignLaws(p, g, Read(f), frame, s, fuel, rounds);
    TwoBranches(p, a, b, frame, s, fuel, rounds);
    JoinTwo(Ok(map[Nullary(f) := y]), Ok(map[Nullary(g) := x]));
    assert Nullary(f) != Nullary(g);
    var u: Updates := map[Nullary(f) := y];
    LookupFire(s, u, Nullary(f));
    ReadLaws(f, frame, Fire(s, u));
    AssignLaws(p, g, Read(f), frame, Fire(s, u), fuel, rounds);
    TwoStatements(p, a, b, frame, s, fuel, rounds);
  }

  /** Two updates of one function conflict in parallel, also with the same value; in sequence the last one counts. */
  lemma OverwriteLaws(p: Program, f: string, v: Value, w: Value, frame: seq<Value>, s: State, fuel: nat, rounds: nat)
    requires fuel > 0
    ensures var a, b := Assign(f, Constant(v)), Assign(f, Constant(w));
      && Denote(p, ParBlock([a, b]), frame, s, fuel + 1, rounds) == Clash
      && Denote(p, SeqBlock([a, b]), frame, s, fuel + 1, rounds) == Ok(map[Nullary(f) := w])
  {
    var a, b := Assign(f, Constant(v)), Assign(f, Constant(w));
    AssignLaws(p, f, Constant(v), frame, s, fuel, rounds);
    AssignLaws(p, f, Constant(w), frame, s, fuel, rounds);
    TwoBranches(p, a, b, frame, s, fuel, rounds);
    JoinTwo(Ok(map[Nullary(f) := v]), Ok(map[Nullary(f) := w]));
    assert Nullary(f) in map[Nullary(f) := v];
    AssignLaws(p, f, Constant(w), frame, Fire(s, map[Nullary(f) := v]), fuel, rounds);
    TwoStatements(p, a, b, frame, s, fuel, rounds);
  }

  // ---- Loops ----

  /** `f(x) := x` for the variable that is bound next. */
  function Mark(f: string, depth: nat): Statement {
    Update(f, [Parameter(depth)], Parameter(depth))
  }

  lemma MarkOnce(p: Program, f: string, v: Value, frame: seq<Value>, s: State, fuel: nat, rounds: nat)
    requires fuel > 0
    ensures Denote(p, Mark(f, |frame|), frame + [v], s, fuel, rounds) == Ok(map[Location(f, [v]) := v])
  {
    ParameterLaws(|frame|, v, frame, s);
    OneArgument(Parameter(|frame|), frame + [v], s);
  }

  /** One update for each item, and no others. */
  ghost predicate Marks(u: Updates, f: string, items: seq<Value>) {
    && (forall l :: l in u ==> l.func == f && |l.args| == 1 && l.args[0] in items)
    && (forall v :: v in items ==> Location(f, [v]) in u && u[Location(f, [v])] == v)
  }

  /** Marking different items joins into one update for each. */
  lemma {:induction false} MarkAll(f: string, items: seq<Value>, rs: seq<Outcome>)
    requires |rs| == |items| && Distinct(items)
    requires forall k :: 0 <= k < |items| ==> rs[k] == Ok(map[Location(f, [items[k]]) := items[k]])
    ensures JoinAll(rs).Ok? && Marks(JoinAll(rs).updates, f, items)
  {
    JoinAllMeaning(rs);
    forall k, m | 0 <= k < m < |rs| ensures Disjoint(rs[k].updates, rs[m].updates) {
      assert items[k] != items[m];
    }
    var u := JoinAll(rs).updates;
    forall v | v in items ensures Location(f, [v]) in u && u[Location(f, [v])] == v {
      var k :| 0 <= k < |items| && items[k] == v;
      assert Location(f, [v]) in rs[k].updates;
    }
    forall l | l in u ensures l.func == f && |l.args| == 1 && l.args[0] in items {
      assert SomeUpdates(rs, l);
    }
  }

  /** The numbers from 0 up to n, or down to it, each once. */
  lemma NumbersOnce(n: int)
    ensures Distinct(Numbers(n))
    ensures forall v :: v in Numbers(n) <==> v.Int? && (0 <= v.i < n || n < v.i <= 0)
  {
    forall v: Value | v.Int? && (0 <= v.i < n || n < v.i <= 0) ensures v in Numbers(n) {
      assert Numbers(n)[if n > 0 then v.i else -v.i] == v;
    }
  }

  lemma ForallDenoted(p: Program, n: int, body: Statement, frame: seq<Value>, s: State, fuel: nat, rounds: nat)
    ensures Denote(p, Forall(OverInt(Number(n)), body), frame, s, fuel + 1, rounds)
         == JoinAll(Instances(p, body, Numbers(n), frame, s, fuel, rounds))
  {
    assert Items(OverInt(Number(n)), frame, s) == Success(Numbers(n));
  }

  /** `forall i in n do f(i) := i` updates f at the numbers from 0 up to n, or down to it, each with itself. */
  lemma ForallLaws(p: Program, f: string, n: int, frame: seq<Value>, s: State, fuel: nat, rounds: nat)
    requires fuel > 0
    ensures var r := Denote(p, Forall(OverInt(Number(n)), Mark(f, |frame|)), frame, s, fuel + 1, rounds);
      r.Ok? && Marks(r.updates, f, Numbers(n))
  {
    var rs := Instances(p, Mark(f, |frame|), Numbers(n), frame, s, fuel, rounds);
    forall k | 0 <= k < |rs| ensures rs[k] == Ok(map[Location(f, [Numbers(n)[k]]) := Numbers(n)[k]]) {
      MarkOnce(p, f, Numbers(n)[k], frame, s, fuel, rounds);
    }
    NumbersOnce(n);
    MarkAll(f, Numbers(n), rs);
    ForallDenoted(p, n, Mark(f, |frame|), frame, s, fuel, rounds);
  }

  /** `if f < n then f := f + 1` */
  function CountTo(f: string, n: int): Statement {
    IfThenElse(Binary(Lesser, Read(f), Number(n)), Assign(f, Binary(Add, Read(f), Number(1))), Skip)
  }

  lemma CountOnce(p: Program, f: string, n: int, i: int, frame: seq<Value>, s: State, fuel: nat, rounds: nat)
    requires fuel > 0 && Lookup(s, Nullary(f)) == Int(i)
    ensures Denote(p, CountTo(f, n), frame, s, fuel + 1, rounds)
         == Ok(if i < n then map[Nullary(f) := Int(i + 1)] else map[])
  {
    var sum := Binary(Add, Read(f), Number(1));
    ReadLaws(f, frame, s);
    Applied(Lesser, Read(f), Number(n), frame, s);
    Applied(Add, Read(f), Number(1), frame, s);
    ConditionalLaws(p, Binary(Lesser, Read(f), Number(n)), Assign(f, sum), Skip, frame, s, fuel, rounds);
    AssignLaws(p, f, sum, frame, s, fuel, rounds);
  }

  lemma AddedOnce(f: string, n: int, i: int, s: State, u: Updates)
    ensures var v: Updates := map[Nullary(f) := Int(i + 1)];
      Lookup(Fire(s, u + v), Nullary(f)) == Int(i + 1) && (u + v)[Nullary(f) := Int(n)] == u[Nullary(f) := Int(n)]
    ensures i + 1 == n ==> u + map[Nullary(f) := Int(i + 1)] == u[Nullary(f) := Int(n)]
  {
    LookupFire(s, u + map[Nullary(f) := Int(i + 1)], Nullary(f));
  }

  /** Iterating it from a number i counts up to n, and not beyond, in n - i rounds and an empty one. */
  lemma {:induction false} IterateLaws(p: Program, f: string, n: int, i: int, frame: seq<Value>, s: State, u: Updates,
                                        fuel: nat, rounds: nat, left: nat)
    requires fuel > 0 && Lookup(Fire(s, u), Nullary(f)) == Int(i)
    ensures DenoteIterate(p, CountTo(f, n), frame, s, u, fuel + 1, rounds, left)
         == if left == 0 || left <= n - i then Semantics.Failed(OutOfFuel)
            else if i < n then Ok(u[Nullary(f) := Int(n)]) else Ok(u)
    decreases left
  {
    if left > 0 {
      var next: nat := left - 1;
      CountOnce(p, f, n, i, frame, Fire(s, u), fuel, rounds);
      RoundDenoted(p, CountTo(f, n), frame, s, u, fuel + 1, rounds, left, next);
      if i < n {
        var v: Updates := map[Nullary(f) := Int(i + 1)];
        AddedOnce(f, n, i, s, u);
        IterateLaws(p, f, n, i + 1, frame, s, u + v, fuel, rounds, next);
      }
    }
  }

  // ---- Runs ----

  /** `if f < n then f := f + 1 else program(self) := undef` */
  function CountThenStop(f: string, n: int): Statement {
    IfThenElse(Binary(Lesser, Read(f), Number(n)), Assign(f, Binary(Add, Read(f), Number(1))),
               Update("program", [Constant(Self)], Constant(Undef)))
  }

  lemma CountStep(p: Program, r: string, f: string, n: int, i: int, s: State, fuel: nat, rounds: nat)
    requires r in p && p[r].body == CountThenStop(f, n) && Lookup(s, PROGRAM) == RuleRef(r)
    requires Lookup(s, Nullary(f)) == Int(i) && fuel > 0
    ensures Step(p, s, fuel + 1, rounds)
         == Running(Fire(s, if i < n then map[Nullary(f) := Int(i + 1)] else map[PROGRAM := Undef]))
  {
    var sum, stop := Binary(Add, Read(f), Number(1)), Update("program", [Constant(Self)], Constant(Undef));
    ReadLaws(f, [], s);
    Applied(Lesser, Read(f), Number(n), [], s);
    Applied(Add, Read(f), Number(1), [], s);
    AssignLaws(p, f, sum, [], s, fuel, rounds);
    OneArgument(Constant(Self), [], s);
    assert Denote(p, stop, [], s, fuel, rounds) == Ok(map[PROGRAM := Undef]);
    ConditionalLaws(p, Binary(Lesser, Read(f), Number(n)), Assign(f, sum), stop, [], s, fuel, rounds);
  }

  /** The updates that such a run has made after some steps. */
  function Counted(f: string, n: int, i: int, steps: nat): Updates {
    if steps <= n - i then map[Nullary(f) := Int(i + steps)] else map[Nullary(f) := Int(n), PROGRAM := Undef]
  }

  lemma CountedNext(f: string, n: int, i: int, s: State, steps: nat, left: nat)
    requires i < n && steps == left + 1
    ensures var t := Fire(s, map[Nullary(f) := Int(i + 1)]);
      && Lookup(t, Nullary(f)) == Int(i + 1) && Lookup(t, PROGRAM) == Lookup(s, PROGRAM)
      && Fire(t, Counted(f, n, i + 1, left)) == Fire(s, Counted(f, n, i, steps))
  {
    var u: Updates := map[Nullary(f) := Int(i + 1)];
    assert Nullary(f) != PROGRAM;
    LookupFire(s, u, Nullary(f));
    LookupFire(s, u, PROGRAM);
    FireTwice(s, u, Counted(f, n, i + 1, left));
    assert u + Counted(f, n, i + 1, left) == Counted(f, n, i, steps);
  }

  /** What such a run has come to after some steps. */
  function CountedRun(f: string, n: int, i: int, s: State, steps: nat): Progress {
    var s' := Fire(s, Counted(f, n, i, steps));
    if steps <= n - i + 1 then Running(s') else Halted(s')
  }

  /** A run of a rule that counts and then stops: it counts in each step, stops behind the last number, and halts. */
  lemma {:induction false} CountingRun(p: Program, r: string, f: string, n: int, i: int, s: State, steps: nat,
                                       fuel: nat, rounds: nat)
    requires r in p && p[r].body == CountThenStop(f, n) && Lookup(s, PROGRAM) == RuleRef(r)
    requires Lookup(s, Nullary(f)) == Int(i) && i <= n && fuel > 0
    ensures Run(p, s, steps, fuel + 1, rounds) == CountedRun(f, n, i, s, steps)
    decreases steps
  {
    if steps == 0 {
      StatesEqual(Fire(s, Counted(f, n, i, 0)), s);
      return;
    }
    var left: nat := steps - 1;
    CountStep(p, r, f, n, i, s, fuel, rounds);
    RunAfterStep(p, s, steps, left, fuel + 1, rounds);
    if i < n {
      var t := Fire(s, map[Nullary(f) := Int(i + 1)]);
      CountedNext(f, n, i, s, steps, left);
      CountingRun(p, r, f, n, i + 1, t, left, fuel, rounds);
      assert CountedRun(f, n, i + 1, t, left) == CountedRun(f, n, i, s, steps);
    } else {
      StoppedRun(p, f, n, s, left, fuel, rounds);
    }
  }

  lemma StoppedRun(p: Program, f: string, n: int, s: State, steps: nat, fuel: nat, rounds: nat)
    requires Lookup(s, Nullary(f)) == Int(n)
    ensures var s' := Fire(s, map[PROGRAM := Undef]);
      && s' == Fire(s, map[Nullary(f) := Int(n), PROGRAM := Undef])
      && Run(p, s', steps, fuel + 1, rounds) == if steps == 0 then Running(s') else Halted(s')
  {
    var s' := Fire(s, map[PROGRAM := Undef]);
    LookupFire(s, map[PROGRAM := Undef], PROGRAM);
    StatesEqual(s', Fire(s, map[Nullary(f) := Int(n), PROGRAM := Undef]));
    if steps > 0 {
      var left: nat := steps - 1;
      RunAfterStep(p, s', steps, left, fuel + 1, rounds);
    }
  }
}
