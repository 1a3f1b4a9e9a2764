/**
  Whole runs of a program as it is written: the type checker resolves it, the walker runs what the
  checker has made of it, and the run is that of the abstract machine under lexical scoping.
 */
module NamedInterpreter {
  import opened Values
  import opened Syntax
  import opened Semantics
  import opened UpdateSet
  import opened ExecutionContext
  import opened Refinement
  import opened ExecutionVisitor
  import opened Interpreter
  import opened NamedSyntax
  import opened Resolution
  import opened TypecheckVisitor
  import opened Scoping

  /** One step of the abstract machine on the program as it is written; the machine passes no arguments. */
  function StepNamed(p: NamedProgram, s: State, fuel: nat, rounds: nat): Progress {
    match Lookup(s, PROGRAM)
    case Undef => Halted(s)
    case RuleRef(name) =>
      if name !in p.rules then Broken(Stopped(IllTyped))
      else
        var r := DenoteNamed(p, p.rules[name].body, map[], s, fuel, rounds);
        if r.Ok? then Running(Fire(s, r.updates)) else Broken(Stop(r))
    case _ => Broken(Stopped(IllTyped))
  }

  function RunNamed(p: NamedProgram, s: State, steps: nat, fuel: nat, rounds: nat): Progress
    decreases steps
  {
    if steps == 0 then Running(s)
    else
      match StepNamed(p, s, fuel, rounds)
      case Running(s') => RunNamed(p, s', steps - 1, fuel, rounds)
      case end => end
  }

  /** In the rule that comes next, if any, all reads are placed; without parameters they always are. */
  ghost predicate StartsBare(p: NamedProgram, s: State) {
    var next := Lookup(s, PROGRAM);
    next.RuleRef? && next.rule in p.rules ==> RunsBare(p.symbols, p.rules[next.rule])
  }

  /** So it is for every rule that the machine itself starts. */
  ghost predicate BareRun(p: NamedProgram, s: State, steps: nat, fuel: nat, rounds: nat)
    decreases steps
  {
    steps == 0 ||
    (StartsBare(p, s) &&
     (StepNamed(p, s, fuel, rounds).Running? ==>
        BareRun(p, StepNamed(p, s, fuel, rounds).state, steps - 1, fuel, rounds)))
  }

  lemma StepPreserved(p: NamedProgram, q: Program, s: State, fuel: nat, rounds: nat)
    requires Resolves(p, q) && ProgramReadsRight(p) && StartsBare(p, s)
    ensures Step(q, s, fuel, rounds) == StepNamed(p, s, fuel, rounds)
  {
    match Lookup(s, PROGRAM)
    case RuleRef(name) => if name in p.rules { BarePreserved(p, q, name, s, fuel, rounds); }
    case _ =>
  }

  lemma NamedAfterStep(p: NamedProgram, s: State, steps: nat, left: nat, fuel: nat, rounds: nat)
    requires steps == left + 1
    ensures var next := StepNamed(p, s, fuel, rounds);
      RunNamed(p, s, steps, fuel, rounds) == if next.Running? then RunNamed(p, next.state, left, fuel, rounds) else next
  {
  }

  lemma BareAfterStep(p: NamedProgram, s: State, steps: nat, left: nat, fuel: nat, rounds: nat)
    requires steps == left + 1 && BareRun(p, s, steps, fuel, rounds)
    ensures StartsBare(p, s)
    ensures var next := StepNamed(p, s, fuel, rounds);
      next.Running? ==> BareRun(p, next.state, left, fuel, rounds)
  {
  }

  /** The resolved program and the program as it is written run alike. */
  lemma {:induction false} RunPreserved(p: NamedProgram, q: Program, s: State, steps: nat, fuel: nat, rounds: nat)
    requires Resolves(p, q) && ProgramReadsRight(p) && BareRun(p, s, steps, fuel, rounds)
    ensures Run(q, s, steps, fuel, rounds) == RunNamed(p, s, steps, fuel, rounds)
    decreases steps
  {
    if steps == 0 { return; }
    var left: nat := steps - 1;
    BareAfterStep(p, s, steps, left, fuel, rounds);
    StepPreserved(p, q, s, fuel, rounds);
    RunAfterStep(q, s, steps, left, fuel, rounds);
    NamedAfterStep(p, s, steps, left, fuel, rounds);
    if Step(q, s, fuel, rounds).Running? {
      RunPreserved(p, q, Step(q, s, fuel, rounds).state, left, fuel, rounds);
    }
  }

  // ---- A rule with a parameter in `program` ----

  /** `let x = 1 in f := x` */
  const LET_BODY: NamedStatement := LetS("x", Literal(Int(1)), UpdateS("f", [], Atom("x", [])))

  /** The same behind a parameter: the value of x is expected at position 1 of the frame. */
  const DISPLACED_BODY: Statement := Let(Constant(Int(1)), Statement.Update("f", [], Parameter(1)))

  lemma DisplacedAccepted(p: NamedProgram, q: Program)
    requires p == NamedProgram(ONE_FUNCTION, map["r" := NamedRule(["a"], LET_BODY)])
    requires q == map["r" := Rule(1, DISPLACED_BODY)]
    ensures Resolves(p, q) && ProgramReadsRight(p)
  {
    var g := SignatureOf(p);
    var update, resolved := UpdateS("f", [], Atom("x", [])), Statement.Update("f", [], Parameter(1));
    var nothing: Offsets, parameters: Offsets, offsets: Offsets := map[], map["a" := 0], map["a" := 0, "x" := 1];
    assert ["a"][..0] == [] && nothing["a" := 0] == parameters;
    assert ParameterOffsets(["a"]) == parameters;
    assert Bind(parameters, "x", 1) == offsets;
    assert Resolve(g, update, 2, offsets) == Resolved(resolved, offsets);
    assert Resolve(g, LET_BODY, 1, parameters) == Resolved(DISPLACED_BODY, offsets - {"x"});
    assert ResolveRule(g, p.rules["r"]) == Some(q["r"]);
    UnshadowedProgram(p, q);
  }

  lemma DisplacedNotBare()
    ensures !RunsBare(ONE_FUNCTION, NamedRule(["a"], LET_BODY))
  {
    var scope := Scope(["a"], 1).Bind("x");
    assert scope.names[1] == "x";
    assert "x" in ReadsOf(ONE_FUNCTION, LET_BODY.body) && !scope.Placed("x");
    assert !ReadsPlaced(ONE_FUNCTION, LET_BODY.body, scope);
  }

  lemma DisplacedStep(q: Program, s: State)
    requires q == map["r" := Rule(1, DISPLACED_BODY)] && Lookup(s, PROGRAM) == RuleRef("r")
    ensures Step(q, s, 2, 1) == Broken(Stopped(NoSuchBinding))
  {
    assert [] + [Int(1)] == [Int(1)];
    assert Eval(Parameter(1), [Int(1)], s) == Failure(NoSuchBinding);
    assert Denote(q, DISPLACED_BODY, [], s, 2, 1) == Semantics.Failed(NoSuchBinding);
  }

  lemma LetBodyStep(p: NamedProgram, s: State)
    requires p == NamedProgram(ONE_FUNCTION, map["r" := NamedRule(["a"], LET_BODY)])
    requires Lookup(s, PROGRAM) == RuleRef("r")
    ensures StepNamed(p, s, 2, 1) == Running(Fire(s, map[Location("f", []) := Int(1)]))
  {
    var nothing: Environment := map[];
    var env := nothing["x" := Int(1)];
    assert EvalNamed(p.symbols, Atom("x", []), env, s) == Success(Int(1));
    assert DenoteNamed(p, LET_BODY.body, env, s, 1, 1) == Ok(map[Location("f", []) := Int(1)]);
    assert DenoteNamed(p, LET_BODY, nothing, s, 2, 1) == Ok(map[Location("f", []) := Int(1)]);
  }

  /**
    A rule with a parameter that is put into `program` is started without a frame for the parameter:
    in `rule r(a) = let x = 1 in f := x` the walker then looks for x behind it and finds nothing.
   */
  lemma ParameterDisplaces(p: NamedProgram, q: Program, s: State)
    requires p == NamedProgram(ONE_FUNCTION, map["r" := NamedRule(["a"], LET_BODY)])
    requires q == map["r" := Rule(1, DISPLACED_BODY)]
    requires Lookup(s, PROGRAM) == RuleRef("r")
    ensures Resolves(p, q) && ProgramReadsRight(p) && !RunsBare(p.symbols, p.rules["r"])
    ensures Step(q, s, 2, 1) == Broken(Stopped(NoSuchBinding))
    ensures StepNamed(p, s, 2, 1) == Running(Fire(s, map[Location("f", []) := Int(1)]))
  {
    DisplacedAccepted(p, q);
    DisplacedNotBare();
    DisplacedStep(q, s);
    LetBodyStep(p, s);
  }

  /** Resolves all rules of a program, or rejects it. */
  method CheckProgram(p: NamedProgram) returns (q: Option<Program>)
    ensures q.Some? ==> Resolves(p, q.value)
    ensures q.Some? <==> AllAcceptable(p)
    ensures q.Some? ==> ScopedProgram(p)
    ensures ScopedProgram(p) && NothingShadowed(p) ==> q.Some? && ProgramReadsRight(p)
  {
    ScopedAccepted(p);
    var visitor := new TypecheckVisitor(SignatureOf(p));
    var done: Program := map[];
    var todo := p.rules.Keys;
    while todo != {}
      invariant todo <= p.rules.Keys && done.Keys == p.rules.Keys - todo
      invariant forall r :: r in done ==>
        Acceptable(p, p.rules[r]) && ResolveRule(SignatureOf(p), p.rules[r]) == Some(done[r])
      decreases |todo|
    {
      var name :| name in todo;
      var rule := visitor.WalkRule(p.rules[name]);
      RuleAccepted(p, p.rules[name]);
      if rule.None? { return None; }
      done := done[name := rule.value];
      todo := todo - {name};
    }
    if NothingShadowed(p) { UnshadowedProgram(p, done); }
    return Some(done);
  }

  /** From source to run: an accepted program whose reads are right runs as it is written, for any number of steps. */
  method WalkNamedRun(walker: ExecutionWalker, ghost p: NamedProgram, steps: nat, fuel: nat, rounds: nat)
    returns (report: Report)
    requires Resolves(p, walker.visitor.program) && ProgramReadsRight(p)
    requires walker.Idle() && walker.visitor.context.pseudostate <= 1
    requires BareRun(p, walker.visitor.context.Committed(), steps, fuel, rounds)
    modifies walker.visitor, walker.visitor.context, walker.visitor.context.updateset
    ensures report != Failed(TooDeep) ==>
      Shows(report, walker.visitor.context.Committed(),
            RunNamed(p, old(walker.visitor.context.Committed()), steps, fuel, rounds))
    ensures report == Failed(TooDeep) ==> 2 * fuel + 1 >= LAYER_RANGE
  {
    RunPreserved(p, walker.visitor.program, walker.visitor.context.Committed(), steps, fuel, rounds);
    report := walker.WalkRun(steps, fuel, rounds);
  }
}
