/**
  The walkers that execute a rule. They fork and merge layers of the one update set as they enter
  and leave blocks; each is proved to change the current layer exactly as the denotation says.
 */
module ExecutionVisitor {
  import opened Values
  import opened Syntax
  import opened Semantics
  import opened UpdateSet
  import opened ExecutionContext
  import opened Refinement

  class ExecutionVisitor {
    const program: Program
    const context: ExecutionContext
    /** One frame of bindings per active call; the last one is current. */
    var ruleBindings: seq<seq<Value>>

    ghost predicate Valid()
      reads this, context, context.updateset
    {
      ruleBindings != [] && context.Valid()
    }

    function Frame(): seq<Value>
      requires ruleBindings != []
      reads this`ruleBindings
    {
      ruleBindings[|ruleBindings| - 1]
    }

    /** The state that expressions read at this point. */
    ghost function Seen(): State
      reads context`functionStates, context`pseudostate, context`addresses, context.updateset`contents
    {
      Visible(context.Committed(), context.Layers())
    }

    /** What every walk keeps when it ends normally. */
    twostate predicate Kept()
      reads this, context, context.updateset
    {
      && Valid()
      && ruleBindings == old(ruleBindings)
      && context.Committed() == old(context.Committed())
    }

    constructor (program: Program, context: ExecutionContext)
      requires context.Valid()
      ensures Valid() && this.program == program && this.context == context && ruleBindings == [[]]
    {
      this.program := program;
      this.context := context;
      ruleBindings := [[]];
    }

    method PushBinding(v: Value)
      requires ruleBindings != []
      modifies this`ruleBindings
      ensures |ruleBindings| == |old(ruleBindings)| && Frame() == old(Frame()) + [v]
      ensures ruleBindings[..|ruleBindings| - 1] == old(ruleBindings)[..|ruleBindings| - 1]
    {
      ruleBindings := ruleBindings[|ruleBindings| - 1 := Frame() + [v]];
    }

    method PopBinding()
      requires ruleBindings != [] && Frame() != []
      modifies this`ruleBindings
      ensures |ruleBindings| == |old(ruleBindings)| && Frame() == old(Frame()[..|Frame()| - 1])
      ensures ruleBindings[..|ruleBindings| - 1] == old(ruleBindings)[..|ruleBindings| - 1]
    {
      ruleBindings := ruleBindings[|ruleBindings| - 1 := Frame()[..|Frame()| - 1]];
    }

    // ---- Expressions ----

    method WalkExpression(e: Expression) returns (r: Result<Value>)
      requires Valid()
      ensures r == Eval(e, Frame(), Seen())
      decreases e, 0
    {
      match e
      case Constant(v) =>
        r := Success(v);
      case Parameter(offset) =>
        r := if offset < |Frame()| then Success(Frame()[offset]) else Failure(NoSuchBinding);
      case FunctionAtom(func, args) =>
        var vs := WalkArguments(args);
        if vs.Failure? { return Failure(vs.fault); }
        var v := context.GetFunctionValue(Location(func, vs.value));
        r := Success(v);
      case Binary(op, left, right) =>
        var l := WalkExpression(left);
        if l.Failure? { return l; }
        var v := WalkExpression(right);
        if v.Failure? { return v; }
        r := Operate(op, l.value, v.value);
      case Not(operand) =>
        var v := WalkExpression(operand);
        if v.Failure? { return v; }
        r := Negate(v.value);
    }

    /** Evaluates the arguments of an atom, an update or a call from the left. */
    method WalkArguments(es: seq<Expression>) returns (r: Result<seq<Value>>)
      requires Valid()
      ensures r == EvalAll(es, Frame(), Seen())
      decreases es, 1
    {
      var vs := [];
      for i := 0 to |es|
        invariant EvalAll(es[..i], Frame(), Seen()) == Success(vs)
      {
        var v := WalkExpression(es[i]);
        assert es[..i + 1][..i] == es[..i];
        if v.Failure? {
          EvalAllPrefix(es, i + 1, Frame(), Seen());
          return Failure(v.fault);
        }
        vs := vs + [v.value];
      }
      assert es[..|es|] == es;
      r := Success(vs);
    }

    // ---- Statements ----

    method WalkStatement(stmt: Statement, fuel: nat, rounds: nat) returns (status: Status)
      requires Valid()
      modifies this`ruleBindings, context, context.updateset
      ensures Agrees(status, old(context.Layers()), context.Layers(),
                     Denote(program, stmt, old(Frame()), old(Seen()), fuel, rounds))
      ensures status.Done? ==> Kept()
      ensures status.TooDeep? ==> old(context.pseudostate) + 2 * fuel >= LAYER_RANGE
      decreases fuel, 0
    {
      if fuel == 0 { return Stopped(OutOfFuel); }
      match stmt
      case Skip =>
        AgreesNothing(context.Layers());
        status := Done;
      case Update(func, args, expr) =>
        status := WalkUpdate(func, args, expr);
      case IfThenElse(cond, then_, else_) =>
        status := WalkIfThenElse(cond, then_, else_, fuel, rounds);
      case Let(expr, body) =>
        status := WalkLet(expr, body, fuel, rounds);
      case Call(target, args) =>
        status := WalkCall(target, args, fuel, rounds);
      case ParBlock(stmts) =>
        status := WalkParBlock(stmts, fuel - 1, rounds);
      case SeqBlock(stmts) =>
        status := WalkSeqBlock(stmts, fuel - 1, rounds);
      case Forall(range, body) =>
        status := WalkForall(range, body, fuel - 1, rounds);
      case Iterate(body) =>
        status := WalkIterate(body, fuel - 1, rounds);
      case Assert(cond) =>
        status := WalkAssert(cond);
      case Diedie =>
        status := Stopped(DiedieExecuted);
    }

    method WalkIfThenElse(cond: Expression, then_: Statement, else_: Statement, fuel: nat, rounds: nat)
      returns (status: Status)
      requires Valid() && fuel > 0
      modifies this`ruleBindings, context, context.updateset
      ensures Agrees(status, old(context.Layers()), context.Layers(),
                     Denote(program, IfThenElse(cond, then_, else_), old(Frame()), old(Seen()), fuel, rounds))
      ensures status.Done? ==> Kept()
      ensures status.TooDeep? ==> old(context.pseudostate) + 2 * fuel >= LAYER_RANGE
      decreases fuel - 1, 4
    {
      var c := WalkExpression(cond);
      if c.Failure? { return Stopped(c.fault); }
      if c.value.Undef? { return Stopped(ConditionUndef); }
      if !c.value.Boolean? { return Stopped(IllTyped); }
      if c.value.b {
        status := WalkStatement(then_, fuel - 1, rounds);
      } else {
        status := WalkStatement(else_, fuel - 1, rounds);
      }
    }

    method WalkAssert(cond: Expression) returns (status: Status)
      requires Valid()
      ensures Agrees(status, context.Layers(), context.Layers(), DenoteAssert(cond, Frame(), Seen()))
      ensures !status.TooDeep?
    {
      AgreesNothing(context.Layers());
      var c := WalkExpression(cond);
      if c.Failure? { return Stopped(c.fault); }
      status := if c.value == Boolean(true) then Done else Stopped(AssertionFailed);
    }

    method WalkUpdate(func: string, args: seq<Expression>, expr: Expression) returns (status: Status)
      requires Valid()
      modifies context, context.updateset
      ensures Agrees(status, old(context.Layers()), context.Layers(),
                     DenoteUpdate(func, args, expr, Frame(), old(Seen())))
      ensures status.Done? ==> Kept()
      ensures !status.TooDeep?
    {
      var v := WalkExpression(expr);
      if v.Failure? { return Stopped(v.fault); }
      var vs := WalkArguments(args);
      if vs.Failure? { return Stopped(vs.fault); }
      status := MakeUpdate(Location(func, vs.value), v.value);
    }

    /** Adds an update to the current layer. */
    method MakeUpdate(l: Location, v: Value) returns (status: Status)
      requires Valid()
      modifies context, context.updateset
      ensures Agrees(status, old(context.Layers()), context.Layers(), Ok(map[l := v]))
      ensures status.Done? ==> Kept()
      ensures !status.TooDeep?
    {
      var conflict := context.AddUpdate(l, v);
      AgreesOne(old(context.Layers()), context.Layers(), l, v, conflict);
      status := if conflict then Conflict else Done;
    }

    method WalkLet(expr: Expression, body: Statement, fuel: nat, rounds: nat) returns (status: Status)
      requires Valid() && fuel > 0
      modifies this`ruleBindings, context, context.updateset
      ensures Agrees(status, old(context.Layers()), context.Layers(),
                     Denote(program, Let(expr, body), old(Frame()), old(Seen()), fuel, rounds))
      ensures status.Done? ==> Kept()
      ensures status.TooDeep? ==> old(context.pseudostate) + 2 * fuel >= LAYER_RANGE
      decreases fuel - 1, 3
    {
      var v := WalkExpression(expr);
      if v.Failure? { return Stopped(v.fault); }
      status := WalkWithBinding(v.value, body, fuel - 1, rounds);
    }

    /** Walks a statement between the push and the pop of a binding, as let and forall do. */
    method WalkWithBinding(v: Value, body: Statement, fuel: nat, rounds: nat) returns (status: Status)
      requires Valid()
      modifies this`ruleBindings, context, context.updateset
      ensures Agrees(status, old(context.Layers()), context.Layers(),
                     Denote(program, body, old(Frame()) + [v], old(Seen()), fuel, rounds))
      ensures status.Done? ==> Kept()
      ensures status.TooDeep? ==> old(context.pseudostate) + 2 * fuel >= LAYER_RANGE
      decreases fuel, 1
    {
      PushBinding(v);
      status := WalkStatement(body, fuel, rounds);
      if status.Done? {
        PopBinding();
      }
    }

    /** Finds the rule to call; none means that a direct call names no rule, and does nothing. */
    method FindCallee(target: Target) returns (r: Result<Option<Rule>>)
      requires Valid()
      ensures r == Callee(program, target, Frame(), Seen())
    {
      match target
      case Direct(name) =>
        r := Success(if name in program then Some(program[name]) else None);
      case Indirect(e) =>
        var v := WalkExpression(e);
        if v.Failure? { return Failure(v.fault); }
        if v.value.Undef? { return Failure(CallUndef); }
        if !v.value.RuleRef? { return Failure(IllTyped); }
        r := Success(if v.value.rule in program then Some(program[v.value.rule]) else None);
    }

    method WalkCall(target: Target, args: seq<Expression>, fuel: nat, rounds: nat) returns (status: Status)
      requires Valid() && fuel > 0
      modifies this`ruleBindings, context, context.updateset
      ensures Agrees(status, old(context.Layers()), context.Layers(),
                     Denote(program, Call(target, args), old(Frame()), old(Seen()), fuel, rounds))
      ensures status.Done? ==> Kept()
      ensures status.TooDeep? ==> old(context.pseudostate) + 2 * fuel >= LAYER_RANGE
      decreases fuel - 1, 3
    {
      var rule := FindCallee(target);
      if rule.Failure? { return Stopped(rule.fault); }
      var vs := WalkArguments(args);
      if vs.Failure? { return Stopped(vs.fault); }
      if rule.value.None? {
        AgreesNothing(context.Layers());
        return Done;
      }
      if target.Indirect? && |vs.value| != rule.value.value.arity { return Stopped(InvalidIndirectCall); }
      ruleBindings := ruleBindings + [vs.value];
      status := WalkStatement(rule.value.value.body, fuel - 1, rounds);
      if status.Done? {
        ruleBindings := ruleBindings[..|ruleBindings| - 1];
      }
    }

    /** Forking, as blocks do that find themselves in the other mode: the same state is seen from the new layer. */
    method ForkLayer()
      requires Valid() && context.pseudostate + 1 < LAYER_RANGE
      modifies context`pseudostate
      ensures Kept() && context.pseudostate == old(context.pseudostate) + 1
      ensures context.Layers() == old(context.Layers()) + [map[]] && Seen() == old(Seen())
    {
      VisibleFork(context.Committed(), context.Layers());
      context.Fork();
    }

    /** Leaves the layer of a parallel block that forked, unless the walk has failed. */
    method MergeParBlock(status: Status, ghost before: seq<Updates>, ghost r: Outcome)
      requires before != [] && !Parallel(before) && Agrees(status, before + [map[]], context.Layers(), r)
      requires status.Done? ==> Valid()
      modifies context, context.updateset
      ensures Agrees(status, before, context.Layers(), r)
      ensures status.Done? ==> Valid() && context.Committed() == old(context.Committed())
    {
      LeavePar(before, context.Layers(), status, r);
      if status.Done? {
        context.MergePar();
      }
    }

    /** Leaves the layer of a sequential block that forked, which may overlap the parallel layer below. */
    method MergeSeqBlock(walked: Status, ghost before: seq<Updates>, ghost r: Outcome) returns (status: Status)
      requires before != [] && Parallel(before) && Agrees(walked, before + [map[]], context.Layers(), r)
      requires r.Abort? ==> r.written == {}
      requires walked.Done? ==> Valid()
      modifies context, context.updateset
      ensures Agrees(status, before, context.Layers(), r) && (status.TooDeep? <==> walked.TooDeep?)
      ensures status.Done? ==> Valid() && context.Committed() == old(context.Committed())
    {
      LeaveSeq(before, context.Layers(), walked, r);
      status := walked;
      if walked.Done? {
        var conflict := context.MergeSeq();
        status := if conflict then Conflict else Done;
      }
    }

    /** walk_statements in a parallel layer. */
    method WalkBranches(stmts: seq<Statement>, fuel: nat, rounds: nat) returns (status: Status)
      requires Valid() && Parallel(context.Layers())
      modifies this`ruleBindings, context, context.updateset
      ensures Agrees(status, old(context.Layers()), context.Layers(),
                     JoinAll(Branches(program, stmts, old(Frame()), old(Seen()), fuel, rounds)))
      ensures status.Done? ==> Kept()
      ensures status.TooDeep? ==> old(context.pseudostate) + 2 * fuel >= LAYER_RANGE
      decreases fuel, 2
    {
      ghost var before, s := context.Layers(), Seen();
      ghost var rs := Branches(program, stmts, Frame(), s, fuel, rounds);
      AgreesNothing(before);
      for i := 0 to |stmts|
        invariant Kept() && Agrees(Done, before, context.Layers(), JoinAll(rs[..i]))
      {
        ghost var middle := context.Layers();
        VisibleParallel(context.Committed(), before, Top(middle));
        status := WalkStatement(stmts[i], fuel, rounds);
        ParStep(before, middle, context.Layers(), rs, i, status);
        if !status.Done? { return; }
      }
      assert rs[..|stmts|] == rs;
      status := Done;
    }

    /** walk_statements in a sequential layer. */
    method WalkSteps(stmts: seq<Statement>, fuel: nat, rounds: nat) returns (status: Status)
      requires Valid() && !Parallel(context.Layers())
      modifies this`ruleBindings, context, context.updateset
      ensures Agrees(status, old(context.Layers()), context.Layers(),
                     DenoteSeq(program, stmts, old(Frame()), old(Seen()), fuel, rounds))
      ensures status.Done? ==> Kept()
      ensures status.TooDeep? ==> old(context.pseudostate) + 2 * fuel >= LAYER_RANGE
      decreases fuel, 2
    {
      ghost var before, c, s, frame := context.Layers(), context.Committed(), Seen(), Frame();
      AgreesNothing(before);
      for i := 0 to |stmts|
        invariant Kept()
        invariant Agrees(Done, before, context.Layers(), DenoteSeq(program, stmts[..i], frame, s, fuel, rounds))
      {
        ghost var middle := context.Layers();
        status := WalkStatement(stmts[i], fuel, rounds);
        SeqStep(program, stmts, i, frame, c, fuel, rounds, before, middle, context.Layers(), status);
        if !status.Done? { return; }
      }
      assert stmts[..|stmts|] == stmts;
      status := Done;
    }

    method WalkParBlock(stmts: seq<Statement>, fuel: nat, rounds: nat) returns (status: Status)
      requires Valid()
      modifies this`ruleBindings, context, context.updateset
      ensures Agrees(status, old(context.Layers()), context.Layers(),
                     JoinAll(Branches(program, stmts, old(Frame()), old(Seen()), fuel, rounds)))
      ensures status.Done? ==> Kept()
      ensures status.TooDeep? ==> old(context.pseudostate) + 2 * fuel + 1 >= LAYER_RANGE
      decreases fuel, 3
    {
      if context.pseudostate % 2 == 0 {
        status := WalkBranches(stmts, fuel, rounds);
      } else {
        if context.pseudostate + 1 >= LAYER_RANGE { return TooDeep; }
        ForkLayer();
        status := WalkBranches(stmts, fuel, rounds);
        MergeParBlock(status, old(context.Layers()),
                      JoinAll(Branches(program, stmts, old(Frame()), old(Seen()), fuel, rounds)));
      }
    }

    method WalkSeqBlock(stmts: seq<Statement>, fuel: nat, rounds: nat) returns (status: Status)
      requires Valid()
      modifies this`ruleBindings, context, context.updateset
      ensures Agrees(status, old(context.Layers()), context.Layers(),
                     DenoteSeq(program, stmts, old(Frame()), old(Seen()), fuel, rounds))
      ensures status.Done? ==> Kept()
      ensures status.TooDeep? ==> old(context.pseudostate) + 2 * fuel + 1 >= LAYER_RANGE
      decreases fuel, 3
    {
      if context.pseudostate % 2 == 1 {
        status := WalkSteps(stmts, fuel, rounds);
      } else {
        if context.pseudostate + 1 >= LAYER_RANGE { return TooDeep; }
        ForkLayer();
        status := WalkSteps(stmts, fuel, rounds);
        SeqSealed(program, stmts, old(Frame()), old(Seen()), fuel, rounds);
        status := MergeSeqBlock(status, old(context.Layers()),
                                DenoteSeq(program, stmts, old(Frame()), old(Seen()), fuel, rounds));
      }
    }

    // ---- Forall ----

    /** The body of every loop of a forall: instance k, after the ones before it. */
    method WalkInstance(item: Value, body: Statement, fuel: nat, rounds: nat,
                        ghost before: seq<Updates>, ghost rs: seq<Outcome>, ghost k: nat) returns (status: Status)
      requires Valid() && before != [] && Parallel(before) && k < |rs|
      requires rs[k] == Denote(program, body, Frame() + [item], Visible(context.Committed(), before), fuel, rounds)
      requires Agrees(Done, before, context.Layers(), JoinAll(rs[..k]))
      modifies this`ruleBindings, context, context.updateset
      ensures status.Done? ==> Kept() && Agrees(Done, before, context.Layers(), JoinAll(rs[..k + 1]))
      ensures !status.Done? ==> Agrees(status, before, context.Layers(), JoinAll(rs))
      ensures status.TooDeep? ==> old(context.pseudostate) + 2 * fuel >= LAYER_RANGE
      decreases fuel, 2
    {
      ghost var middle := context.Layers();
      VisibleParallel(context.Committed(), before, Top(middle));
      status := WalkWithBinding(item, body, fuel, rounds);
      ParStep(before, middle, context.Layers(), rs, k, status);
    }

    /** The loop of a forall over a list. */
    method WalkItems(items: seq<Value>, body: Statement, fuel: nat, rounds: nat) returns (status: Status)
      requires Valid() && Parallel(context.Layers())
      modifies this`ruleBindings, context, context.updateset
      ensures Agrees(status, old(context.Layers()), context.Layers(),
                     JoinAll(Instances(program, body, items, old(Frame()), old(Seen()), fuel, rounds)))
      ensures status.Done? ==> Kept()
      ensures status.TooDeep? ==> old(context.pseudostate) + 2 * fuel >= LAYER_RANGE
      decreases fuel, 3
    {
      ghost var before := context.Layers();
      ghost var rs := Instances(program, body, items, Frame(), Seen(), fuel, rounds);
      AgreesNothing(before);
      for i := 0 to |items|
        invariant Kept() && Agrees(Done, before, context.Layers(), JoinAll(rs[..i]))
      {
        status := WalkInstance(items[i], body, fuel, rounds, before, rs, i);
        if !status.Done? { return; }
      }
      assert rs[..|items|] == rs;
      status := Done;
    }

    /** The loop of a forall over a positive integer. */
    method WalkUpwards(end: int, body: Statement, fuel: nat, rounds: nat) returns (status: Status)
      requires Valid() && Parallel(context.Layers()) && end > 0
      modifies this`ruleBindings, context, context.updateset
      ensures Agrees(status, old(context.Layers()), context.Layers(),
                     JoinAll(Instances(program, body, Numbers(end), old(Frame()), old(Seen()), fuel, rounds)))
      ensures status.Done? ==> Kept()
      ensures status.TooDeep? ==> old(context.pseudostate) + 2 * fuel >= LAYER_RANGE
      decreases fuel, 3
    {
      ghost var before := context.Layers();
      ghost var rs := Instances(program, body, Numbers(end), Frame(), Seen(), fuel, rounds);
      AgreesNothing(before);
      var i := 0;
      ghost var k := 0;
      while i < end
        invariant 0 <= i <= end && k == i
        invariant Kept() && Agrees(Done, before, context.Layers(), JoinAll(rs[..k]))
      {
        NumbersAt(end, k);
        status := WalkInstance(Int(i), body, fuel, rounds, before, rs, k);
        if !status.Done? { return; }
        i, k := i + 1, k + 1;
      }
      assert rs[..|rs|] == rs;
      status := Done;
    }

    /** The loop of a forall over an integer that is not positive. */
    method WalkDownwards(end: int, body: Statement, fuel: nat, rounds: nat) returns (status: Status)
      requires Valid() && Parallel(context.Layers()) && end <= 0
      modifies this`ruleBindings, context, context.updateset
      ensures Agrees(status, old(context.Layers()), context.Layers(),
                     JoinAll(Instances(program, body, Numbers(end), old(Frame()), old(Seen()), fuel, rounds)))
      ensures status.Done? ==> Kept()
      ensures status.TooDeep? ==> old(context.pseudostate) + 2 * fuel >= LAYER_RANGE
      decreases fuel, 3
    {
      ghost var before := context.Layers();
      ghost var rs := Instances(program, body, Numbers(end), Frame(), Seen(), fuel, rounds);
      AgreesNothing(before);
      var i := 0;
      ghost var k := 0;
      while end < i
        invariant end <= i <= 0 && k == -i
        invariant Kept() && Agrees(Done, before, context.Layers(), JoinAll(rs[..k]))
      {
        NumbersAt(end, k);
        status := WalkInstance(Int(i), body, fuel, rounds, before, rs, k);
        if !status.Done? { return; }
        i, k := i - 1, k + 1;
      }
      assert rs[..|rs|] == rs;
      status := Done;
    }

    /** The loop of a forall over an enum, which skips the entry under the name of the enum. */
    method WalkMembers(name: string, mapping: seq<(string, Value)>, body: Statement, fuel: nat, rounds: nat)
      returns (status: Status)
      requires Valid() && Parallel(context.Layers())
      modifies this`ruleBindings, context, context.updateset
      ensures Agrees(status, old(context.Layers()), context.Layers(),
                     JoinAll(Instances(program, body, Members(name, mapping), old(Frame()), old(Seen()), fuel, rounds)))
      ensures status.Done? ==> Kept()
      ensures status.TooDeep? ==> old(context.pseudostate) + 2 * fuel >= LAYER_RANGE
      decreases fuel, 3
    {
      ghost var before := context.Layers();
      ghost var items := Members(name, mapping);
      ghost var rs := Instances(program, body, items, Frame(), Seen(), fuel, rounds);
      ghost var k: nat := 0;
      AgreesNothing(before);
      for i := 0 to |mapping|
        invariant Kept() && k <= |items| && Members(name, mapping[..i]) == items[..k]
        invariant Agrees(Done, before, context.Layers(), JoinAll(rs[..k]))
      {
        MembersNext(name, mapping, i, k);
        if mapping[i].0 != name {
          status := WalkInstance(mapping[i].1, body, fuel, rounds, before, rs, k);
          if !status.Done? { return; }
          k := k + 1;
        }
      }
      assert mapping[..|mapping|] == mapping;
      assert items[..k] == items && rs[..|rs|] == rs;
      status := Done;
    }

    /** Evaluates what a forall ranges over; an enum has nothing to evaluate. */
    method WalkRange(range: Range) returns (v: Result<Value>)
      requires Valid()
      ensures v.Failure? ==> Items(range, Frame(), Seen()) == Failure(v.fault)
      ensures v.Success? ==>
        Items(range, Frame(), Seen()) == ItemsOf(range, v.value) && ItemsOf(range, v.value).Success?
    {
      if range.OverEnum? { return Success(Undef); }
      v := WalkExpression(if range.OverList? then range.list else range.bound);
      if v.Success? && ItemsOf(range, v.value).Failure? {
        v := Failure(IllTyped);
      }
    }

    method WalkForall(range: Range, body: Statement, fuel: nat, rounds: nat) returns (status: Status)
      requires Valid()
      modifies this`ruleBindings, context, context.updateset
      ensures Agrees(status, old(context.Layers()), context.Layers(),
                     DenoteForall(program, range, body, old(Frame()), old(Seen()), fuel, rounds))
      ensures status.Done? ==> Kept()
      ensures status.TooDeep? ==> old(context.pseudostate) + 2 * fuel + 1 >= LAYER_RANGE
      decreases fuel, 5
    {
      var v := WalkRange(range);
      if v.Failure? { return Stopped(v.fault); }
      ghost var r := DenoteForall(program, range, body, Frame(), Seen(), fuel, rounds);
      if context.pseudostate % 2 == 0 {
        status := WalkOver(range, v.value, body, fuel, rounds);
      } else {
        if context.pseudostate + 1 >= LAYER_RANGE { return TooDeep; }
        ForkLayer();
        status := WalkOver(range, v.value, body, fuel, rounds);
        MergeParBlock(status, old(context.Layers()), r);
      }
    }

    /** The loop that fits the range, whose expression has the value v. */
    method WalkOver(range: Range, v: Value, body: Statement, fuel: nat, rounds: nat) returns (status: Status)
      requires Valid() && Parallel(context.Layers())
      requires Items(range, Frame(), Seen()) == ItemsOf(range, v) && ItemsOf(range, v).Success?
      modifies this`ruleBindings, context, context.updateset
      ensures Agrees(status, old(context.Layers()), context.Layers(),
                     DenoteForall(program, range, body, old(Frame()), old(Seen()), fuel, rounds))
      ensures status.Done? ==> Kept()
      ensures status.TooDeep? ==> old(context.pseudostate) + 2 * fuel >= LAYER_RANGE
      decreases fuel, 4
    {
      match range
      case OverList(_) =>
        status := WalkItems(v.items, body, fuel, rounds);
      case OverInt(_) =>
        if v.i > 0 {
          status := WalkUpwards(v.i, body, fuel, rounds);
        } else {
          status := WalkDownwards(v.i, body, fuel, rounds);
        }
      case OverEnum(name, mapping) =>
        status := WalkMembers(name, mapping, body, fuel, rounds);
    }

    // ---- Iterate ----

    /** The loop of an iterate, in a sequential layer. */
    method WalkRounds(body: Statement, fuel: nat, rounds: nat) returns (status: Status)
      requires Valid() && !Parallel(context.Layers())
      modifies this`ruleBindings, context, context.updateset
      ensures Agrees(status, old(context.Layers()), context.Layers(),
                     DenoteIterate(program, body, old(Frame()), old(Seen()), map[], fuel, rounds, rounds))
      ensures status.Done? ==> Kept()
      ensures status.TooDeep? ==> old(context.pseudostate) + 2 * fuel + 1 >= LAYER_RANGE
      decreases fuel, 2
    {
      ghost var before, c, frame := context.Layers(), context.Committed(), Frame();
      ghost var total := DenoteIterate(program, body, frame, Visible(c, before), map[], fuel, rounds, rounds);
      ghost var u: Updates := map[];
      var left := rounds;
      AgreesNothing(before);
      while true
        invariant Kept() && Agrees(Done, before, context.Layers(), Ok(u))
        invariant DenoteIterate(program, body, frame, Visible(c, before), u, fuel, rounds, left) == total
        decreases left
      {
        if left == 0 { return Stopped(OutOfFuel); }
        if context.pseudostate + 1 >= LAYER_RANGE { return TooDeep; }
        var next: nat := left - 1;
        var empty;
        status, empty, u := WalkRound(body, fuel, rounds, left, next, before, u);
        if !status.Done? || empty { return; }
        left := next;
      }
    }

    /** One round of an iterate: u is what the rounds before have done, and done what has been done after it. */
    method WalkRound(body: Statement, fuel: nat, rounds: nat, ghost left: nat, ghost next: nat,
                     ghost before: seq<Updates>, ghost u: Updates)
      returns (status: Status, empty: bool, ghost done: Updates)
      requires Valid() && context.pseudostate + 1 < LAYER_RANGE && left == next + 1
      requires before != [] && !Parallel(before) && Agrees(Done, before, context.Layers(), Ok(u))
      modifies this`ruleBindings, context, context.updateset
      ensures var s, frame := Visible(old(context.Committed()), before), old(Frame());
        var d := DenoteIterate(program, body, frame, s, u, fuel, rounds, left);
        && (!status.Done? ==> Agrees(status, before, context.Layers(), d))
        && (status.Done? ==> Agrees(Done, before, context.Layers(), Ok(done)))
        && (status.Done? ==>
              d == if empty then Ok(done) else DenoteIterate(program, body, frame, s, done, fuel, rounds, next))
      ensures status.Done? ==> Kept()
      ensures status.TooDeep? ==> old(context.pseudostate) + 2 * fuel + 1 >= LAYER_RANGE
      decreases fuel, 1
    {
      ghost var c, frame, middle := context.Committed(), Frame(), context.Layers();
      ForkLayer();
      status := WalkStatement(body, fuel, rounds);
      ghost var inner := context.Layers();
      RoundStep(program, body, frame, c, fuel, rounds, left, next, before, middle, inner, u, status);
      empty, done := false, u;
      if status.Done? {
        empty := context.IsEmpty();
        context.MergePar();
        done := u + Top(inner);
      }
    }

    method WalkIterate(body: Statement, fuel: nat, rounds: nat) returns (status: Status)
      requires Valid()
      modifies this`ruleBindings, context, context.updateset
      ensures Agrees(status, old(context.Layers()), context.Layers(),
                     DenoteIterate(program, body, old(Frame()), old(Seen()), map[], fuel, rounds, rounds))
      ensures status.Done? ==> Kept()
      ensures status.TooDeep? ==> old(context.pseudostate) + 2 * fuel + 2 >= LAYER_RANGE
      decreases fuel, 3
    {
      if context.pseudostate % 2 == 1 {
        status := WalkRounds(body, fuel, rounds);
      } else {
        if context.pseudostate + 1 >= LAYER_RANGE { return TooDeep; }
        ForkLayer();
        status := WalkRounds(body, fuel, rounds);
        ghost var r := DenoteIterate(program, body, old(Frame()), old(Seen()), map[], fuel, rounds, rounds);
        IterateSealed(program, body, old(Frame()), old(Seen()), map[], fuel, rounds, rounds);
        status := MergeSeqBlock(status, old(context.Layers()), r);
      }
    }
  }
}
