/**
  The denotational semantics of rules: the update set that a statement yields in a state. It knows
  neither layers nor the mode of the enclosing block. Parallel composition is disjoint union,
  sequential composition is override in the state that the first part leads to.
 */
module Semantics {
  import opened Values
  import opened Syntax

  /**
    The outcome of a statement. An error remembers the locations that had been written in parallel
    before it, because a conflict with those is reported first.
   */
  datatype Outcome =
    | Ok(updates: Updates)
    | Clash
    | Abort(fault: Fault, written: set<Location>)
  {
    function Written(): set<Location> {
      if Ok? then updates.Keys else if Abort? then written else {}
    }
  }

  predicate Avoids(u: Updates, ls: set<Location>) {
    forall l :: l in ls ==> l !in u
  }

  /** Adds an outcome to the updates that were made in parallel so far. */
  function Join(u: Updates, r: Outcome): Outcome {
    if r.Clash? || !Avoids(u, r.Written()) then Clash
    else if r.Ok? then Ok(u + r.updates)
    else Abort(r.fault, u.Keys + r.written)
  }

  /** Adds an outcome to the updates that were made in sequence so far. */
  function Override(u: Updates, r: Outcome): Outcome {
    match r
    case Ok(v) => Ok(u + v)
    case Clash => Clash
    case Abort(e, _) => Abort(e, {})
  }

  function JoinAll(rs: seq<Outcome>): Outcome {
    if rs == [] then Ok(map[])
    else
      var r := JoinAll(rs[..|rs| - 1]);
      if r.Ok? then Join(r.updates, rs[|rs| - 1]) else r
  }

  /** The rule that a call leads to; none means that the call does nothing. */
  function Callee(p: Program, target: Target, frame: seq<Value>, s: State): Result<Option<Rule>> {
    match target
    case Direct(name) => Success(if name in p then Some(p[name]) else None)
    case Indirect(e) =>
      var v :- Eval(e, frame, s);
      if v.Undef? then Failure(CallUndef)
      else if !v.RuleRef? then Failure(IllTyped)
      else Success(if v.rule in p then Some(p[v.rule]) else None)
  }

  function Failed(e: Fault): Outcome {
    Abort(e, {})
  }

  /** The new value is evaluated before the arguments. */
  function DenoteUpdate(func: string, args: seq<Expression>, expr: Expression, frame: seq<Value>, s: State): Outcome {
    var v := Eval(expr, frame, s);
    if v.Failure? then Failed(v.fault) else
    var vs := EvalAll(args, frame, s);
    if vs.Failure? then Failed(vs.fault) else
    Ok(map[Location(func, vs.value) := v.value])
  }

  function DenoteAssert(cond: Expression, frame: seq<Value>, s: State): Outcome {
    var c := Eval(cond, frame, s);
    if c.Failure? then Failed(c.fault)
    else if c.value == Boolean(true) then Ok(map[]) else Failed(AssertionFailed)
  }

  /**
    The meaning of a statement. Fuel bounds the nesting of statements and calls, rounds bounds the
    rounds of each iterate; running out of either is the error OutOfFuel.
   */
  function Denote(p: Program, stmt: Statement, frame: seq<Value>, s: State, fuel: nat, rounds: nat): Outcome
    decreases fuel, 0
  {
    if fuel == 0 then Failed(OutOfFuel) else
    match stmt
    case Skip => Ok(map[])
    case Update(func, args, expr) => DenoteUpdate(func, args, expr, frame, s)
    case IfThenElse(cond, then_, else_) =>
      var c := Eval(cond, frame, s);
      if c.Failure? then Failed(c.fault)
      else if c.value.Undef? then Failed(ConditionUndef)
      else if !c.value.Boolean? then Failed(IllTyped)
      else Denote(p, if c.value.b then then_ else else_, frame, s, fuel - 1, rounds)
    case Let(expr, body) =>
      var v := Eval(expr, frame, s);
      if v.Failure? then Failed(v.fault) else
      Denote(p, body, frame + [v.value], s, fuel - 1, rounds)
    case Call(target, args) =>
      var rule := Callee(p, target, frame, s);
      if rule.Failure? then Failed(rule.fault) else
      var vs := EvalAll(args, frame, s);
      if vs.Failure? then Failed(vs.fault)
      else if rule.value.None? then Ok(map[])
      else if target.Indirect? && |vs.value| != rule.value.value.arity then Failed(InvalidIndirectCall)
      else Denote(p, rule.value.value.body, vs.value, s, fuel - 1, rounds)
    case ParBlock(stmts) =>
      JoinAll(Branches(p, stmts, frame, s, fuel - 1, rounds))
    case SeqBlock(stmts) =>
      DenoteSeq(p, stmts, frame, s, fuel - 1, rounds)
    case Forall(range, body) =>
      DenoteForall(p, range, body, frame, s, fuel - 1, rounds)
    case Iterate(body) =>
      DenoteIterate(p, body, frame, s, map[], fuel - 1, rounds, rounds)
    case Assert(cond) => DenoteAssert(cond, frame, s)
    case Diedie => Failed(DiedieExecuted)
  }

  /** The outcomes of the statements of a parallel block, all in the same state. */
  function Branches(p: Program, stmts: seq<Statement>, frame: seq<Value>, s: State, fuel: nat, rounds: nat)
    : (rs: seq<Outcome>)
    ensures |rs| == |stmts|
    ensures forall i :: 0 <= i < |stmts| ==> rs[i] == Denote(p, stmts[i], frame, s, fuel, rounds)
    decreases fuel, 1
  {
    seq(|stmts|, i requires 0 <= i < |stmts| => Denote(p, stmts[i], frame, s, fuel, rounds))
  }

  /** The outcomes of the body of a forall, one for each item, all in the same state. */
  function Instances(p: Program, body: Statement, items: seq<Value>, frame: seq<Value>, s: State, fuel: nat,
                     rounds: nat)
    : (rs: seq<Outcome>)
    ensures |rs| == |items|
    ensures forall i :: 0 <= i < |items| ==> rs[i] == Denote(p, body, frame + [items[i]], s, fuel, rounds)
    decreases fuel, 1
  {
    seq(|items|, i requires 0 <= i < |items| => Denote(p, body, frame + [items[i]], s, fuel, rounds))
  }

  function DenoteForall(p: Program, range: Range, body: Statement, frame: seq<Value>, s: State, fuel: nat, rounds: nat)
    : Outcome
    decreases fuel, 2
  {
    var items := Items(range, frame, s);
    if items.Failure? then Failed(items.fault) else
    JoinAll(Instances(p, body, items.value, frame, s, fuel, rounds))
  }

  function DenoteSeq(p: Program, stmts: seq<Statement>, frame: seq<Value>, s: State, fuel: nat, rounds: nat): Outcome
    decreases fuel, 1 + |stmts|
  {
    if stmts == [] then Ok(map[])
    else
      var r := DenoteSeq(p, stmts[..|stmts| - 1], frame, s, fuel, rounds);
      if r.Ok?
      then Override(r.updates, Denote(p, stmts[|stmts| - 1], frame, Fire(s, r.updates), fuel, rounds))
      else r
  }

  /** Repeats the body, each round in the state that the rounds before lead to, until a round is empty. */
  function DenoteIterate(p: Program, body: Statement, frame: seq<Value>, s: State, u: Updates,
                         fuel: nat, rounds: nat, left: nat): Outcome
    decreases fuel, 1 + left
  {
    if left == 0 then Failed(OutOfFuel) else
    match Denote(p, body, frame, Fire(s, u), fuel, rounds)
    case Ok(v) => if v == map[] then Ok(u) else DenoteIterate(p, body, frame, s, u + v, fuel, rounds, left - 1)
    case Clash => Clash
    case Abort(e, _) => Failed(e)
  }

  // ---- Laws of the compositions ----

  lemma JoinNothing(r: Outcome)
    ensures Join(map[], r) == r
  {
    if r.Ok? { assert map[] + r.updates == r.updates; }
    if r.Abort? {
      var nothing: Updates := map[];
      assert nothing.Keys + r.written == r.written;
    }
  }

  lemma JoinAssociative(l: Updates, u: Updates, r: Outcome)
    ensures Join(l, Join(u, r)) == if Avoids(l, u.Keys) then Join(l + u, r) else Clash
  {
    if r.Ok? {
      assert l + (u + r.updates) == (l + u) + r.updates;
    } else if r.Abort? {
      assert l.Keys + (u.Keys + r.written) == (l + u).Keys + r.written;
    }
    if Avoids(l, u.Keys) && Avoids(u, r.Written()) {
      assert Avoids(l + u, r.Written()) <==> Avoids(l, r.Written());
    }
    assert Join(u, r).Clash? || Join(u, r).Written() == u.Keys + r.Written();
  }

  lemma OverrideAssociative(l: Updates, u: Updates, r: Outcome)
    ensures Override(l, Override(u, r)) == Override(l + u, r)
  {
    if r.Ok? {
      assert l + (u + r.updates) == (l + u) + r.updates;
    }
  }

  /** Once a prefix of the branches has failed, or written something, that stays. */
  lemma {:induction false} JoinAllPrefix(rs: seq<Outcome>, n: nat)
    requires n <= |rs|
    ensures !JoinAll(rs[..n]).Ok? ==> JoinAll(rs) == JoinAll(rs[..n])
    ensures JoinAll(rs).Clash? || JoinAll(rs[..n]).Written() <= JoinAll(rs).Written()
  {
    if n == |rs| {
      assert rs[..n] == rs;
    } else {
      assert rs[..|rs| - 1][..n] == rs[..n];
      JoinAllPrefix(rs[..|rs| - 1], n);
    }
  }

  lemma {:induction false} DenoteSeqPrefix(p: Program, stmts: seq<Statement>, n: nat, frame: seq<Value>, s: State,
                                           fuel: nat, rounds: nat)
    requires n <= |stmts| && !DenoteSeq(p, stmts[..n], frame, s, fuel, rounds).Ok?
    ensures DenoteSeq(p, stmts, frame, s, fuel, rounds) == DenoteSeq(p, stmts[..n], frame, s, fuel, rounds)
  {
    if n == |stmts| {
      assert stmts[..n] == stmts;
    } else {
      assert stmts[..|stmts| - 1][..n] == stmts[..n];
      DenoteSeqPrefix(p, stmts[..|stmts| - 1], n, frame, s, fuel, rounds);
    }
  }

  /** How the denotation of an iterate goes on after a round with outcome r. */
  lemma RoundDenoted(p: Program, body: Statement, frame: seq<Value>, s: State, u: Updates, fuel: nat, rounds: nat,
                     left: nat, next: nat)
    requires left == next + 1
    ensures var r := Denote(p, body, frame, Fire(s, u), fuel, rounds);
      DenoteIterate(p, body, frame, s, u, fuel, rounds, left)
        == if !r.Ok? then Override(u, r)
           else if r.updates == map[] then Ok(u)
           else DenoteIterate(p, body, frame, s, u + r.updates, fuel, rounds, next)
  {
  }
}
