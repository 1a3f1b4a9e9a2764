/** The main loop: one step walks the rule that `program` holds and commits its update set. */
module Interpreter {
  import opened Values
  import opened Syntax
  import opened Semantics
  import opened UpdateSet
  import opened ExecutionContext
  import opened Refinement
  import opened ExecutionVisitor

  const PROGRAM: Location := Location("program", [Self])

  /** Where a run stands: more steps to go, ended because program is undef, or stopped by a failure. */
  datatype Progress = Running(state: State) | Halted(state: State) | Broken(status: Status)

  /** What the machine itself reports; the state is in its function tables. */
  datatype Report = MoreToDo | ProgramUndef | Failed(status: Status)

  /** The machine has made the progress: it reports it and, unless it failed, has the state committed. */
  ghost predicate Shows(report: Report, committed: State, progress: Progress) {
    match progress
    case Running(s) => report.MoreToDo? && committed == s
    case Halted(s) => report.ProgramUndef? && committed == s
    case Broken(status) => report == Failed(status)
  }

  function Stop(r: Outcome): Status
    requires !r.Ok?
  {
    if r.Clash? then Conflict else Stopped(r.fault)
  }

  /** One step of the machine: fire the update set that the rule denotes, or break. */
  function Step(p: Program, s: State, fuel: nat, rounds: nat): Progress {
    match Lookup(s, PROGRAM)
    case Undef => Halted(s)
    case RuleRef(name) =>
      if name !in p then Broken(Stopped(IllTyped))
      else
        var r := Denote(p, p[name].body, [], s, fuel, rounds);
        if r.Ok? then Running(Fire(s, r.updates)) else Broken(Stop(r))
    case _ => Broken(Stopped(IllTyped))
  }

  function Run(p: Program, s: State, steps: nat, fuel: nat, rounds: nat): Progress
    decreases steps
  {
    if steps == 0 then Running(s)
    else
      match Step(p, s, fuel, rounds)
      case Running(s') => Run(p, s', steps - 1, fuel, rounds)
      case end => end
  }

  lemma RunAfterStep(p: Program, s: State, steps: nat, left: nat, fuel: nat, rounds: nat)
    requires steps == left + 1
    ensures var next := Step(p, s, fuel, rounds);
            Run(p, s, steps, fuel, rounds) == if next.Running? then Run(p, next.state, left, fuel, rounds) else next
  {
  }

  class ExecutionWalker {
    const visitor: ExecutionVisitor

    constructor (visitor: ExecutionVisitor)
      ensures this.visitor == visitor
    {
      this.visitor := visitor;
    }

    /** Between steps nothing is pending and only the frame of the main rule is there. */
    ghost predicate Idle()
      reads visitor, visitor.context, visitor.context.updateset
    {
      visitor.Valid() && AllEmpty(visitor.context.Layers()) && visitor.ruleBindings == [[]]
    }

    /** At base layer p, what a walk adds to empty layers is exactly its denotation. */
    lemma AtRest(layers: seq<Updates>, after: seq<Updates>, c: State, status: Status, r: Outcome)
      requires layers != [] && |layers| <= 2 && AllEmpty(layers) && Agrees(status, layers, after, r)
      ensures Visible(c, layers) == c
      ensures status.Done? ==> r.Ok? && OnlyTop(after) && Top(after) == r.updates
      ensures !status.Done? && !status.TooDeep? ==> !r.Ok? && status == Stop(r)
    {
      JoinNothing(r);
      FireNothing(c);
      assert |layers| == 2 ==> layers[1] == map[] && VisibleFrom(c, layers, -1) == c;
      if r.Ok? { assert map[] + r.updates == r.updates; }
    }

    /** Walks a rule and commits what it has done, unless it has failed. */
    method FireRule(rule: Statement, fuel: nat, rounds: nat) returns (status: Status)
      requires Idle() && visitor.context.pseudostate <= 1
      modifies visitor, visitor.context, visitor.context.updateset
      ensures var c := old(visitor.context.Committed());
        var r := Denote(visitor.program, rule, [], c, fuel, rounds);
        && (status.Done? ==> r.Ok? && visitor.context.Committed() == Fire(c, r.updates))
        && (!status.Done? && !status.TooDeep? ==> !r.Ok? && status == Stop(r))
      ensures status.TooDeep? ==> 2 * fuel + 1 >= LAYER_RANGE
      ensures status.Done? ==> Idle() && visitor.context.pseudostate <= 1
    {
      ghost var before, c := visitor.context.Layers(), visitor.context.Committed();
      AtRest(before, before, c, TooDeep, Clash);
      status := visitor.WalkStatement(rule, fuel, rounds);
      AtRest(before, visitor.context.Layers(), c, status, Denote(visitor.program, rule, [], c, fuel, rounds));
      if status.Done? {
        visitor.context.ApplyUpdates();
      }
    }

    method WalkStep(fuel: nat, rounds: nat) returns (report: Report)
      requires Idle() && visitor.context.pseudostate <= 1
      modifies visitor, visitor.context, visitor.context.updateset
      ensures report != Failed(TooDeep) ==>
        Shows(report, visitor.context.Committed(),
              Step(visitor.program, old(visitor.context.Committed()), fuel, rounds))
      ensures report == Failed(TooDeep) ==> 2 * fuel + 1 >= LAYER_RANGE
      ensures !report.Failed? ==> Idle() && visitor.context.pseudostate <= 1
    {
      ghost var before, c := visitor.context.Layers(), visitor.context.Committed();
      AtRest(before, before, c, TooDeep, Clash);
      var v := visitor.context.GetFunctionValue(PROGRAM);
      if v.Undef? { return ProgramUndef; }
      if !v.RuleRef? || v.rule !in visitor.program { return Failed(Stopped(IllTyped)); }
      var status := FireRule(visitor.program[v.rule].body, fuel, rounds);
      report := if status.Done? then MoreToDo else Failed(status);
    }

    /** Runs the machine for a number of steps, or until it ends. */
    method WalkRun(steps: nat, fuel: nat, rounds: nat) returns (report: Report)
      requires Idle() && visitor.context.pseudostate <= 1
      modifies visitor, visitor.context, visitor.context.updateset
      ensures report != Failed(TooDeep) ==>
        Shows(report, visitor.context.Committed(),
              Run(visitor.program, old(visitor.context.Committed()), steps, fuel, rounds))
      ensures report == Failed(TooDeep) ==> 2 * fuel + 1 >= LAYER_RANGE
    {
      ghost var goal := Run(visitor.program, visitor.context.Committed(), steps, fuel, rounds);
      report := MoreToDo;
      var left := steps;
      while left > 0
        invariant Idle() && visitor.context.pseudostate <= 1 && report.MoreToDo?
        invariant Run(visitor.program, visitor.context.Committed(), left, fuel, rounds) == goal
        decreases left
      {
        var next: nat := left - 1;
        RunAfterStep(visitor.program, visitor.context.Committed(), left, next, fuel, rounds);
        report := WalkStep(fuel, rounds);
        if !report.MoreToDo? { return; }
        left := next;
      }
    }
  }
}
