/**
  Rules as they are written, with names for parameters and bound variables, and their meaning by
  lexical scoping: a name that is no function denotes the value of its innermost binder.
 */
module NamedSyntax {
  import opened Values
  import opened Syntax
  import opened Semantics

  datatype NamedExpression =
    | Literal(value: Value)
    | Atom(name: string, arguments: seq<NamedExpression>)
    | BinaryOf(op: Operator, left: NamedExpression, right: NamedExpression)
    | NotOf(operand: NamedExpression)

  datatype NamedRange =
    | InList(list: NamedExpression)
    | InInt(bound: NamedExpression)
    | InEnum(name: string, mapping: seq<(string, Value)>)

  datatype NamedTarget = ToRule(rule: string) | ToValue(rule_expr: NamedExpression)

  datatype NamedStatement =
    | SkipS
    | UpdateS(func: string, arguments: seq<NamedExpression>, expr: NamedExpression)
    | IfS(condition: NamedExpression, then_: NamedStatement, else_: NamedStatement)
    | LetS(name: string, expr: NamedExpression, body: NamedStatement)
    | CallS(target: NamedTarget, arguments: seq<NamedExpression>)
    | ParS(statements: seq<NamedStatement>)
    | SeqS(statements: seq<NamedStatement>)
    | ForallS(name: string, range: NamedRange, body: NamedStatement)
    | IterateS(body: NamedStatement)
    | AssertS(condition: NamedExpression)
    | DiedieS

  datatype NamedRule = NamedRule(parameters: seq<string>, body: NamedStatement)

  /** Function symbols with the numbers of their arguments. */
  type Symbols = map<string, nat>

  /** The function symbols and the rules of a program. */
  datatype NamedProgram = NamedProgram(symbols: Symbols, rules: map<string, NamedRule>)

  /** The values of the names that can be read at some point. */
  type Environment = map<string, Value>

  /** Names and values in pairs; of several values for one name, the last one counts. */
  function Bindings(names: seq<string>, vs: seq<Value>): Environment
    requires |names| == |vs|
  {
    if names == [] then map[]
    else Bindings(names[..|names| - 1], vs[..|vs| - 1])[names[|names| - 1] := vs[|vs| - 1]]
  }

  function ReadName(env: Environment, x: string): Result<Value> {
    if x in env then Success(env[x]) else Failure(NoSuchBinding)
  }

  function EvalNamed(symbols: Symbols, e: NamedExpression, env: Environment, s: State): Result<Value> {
    match e
    case Literal(v) => Success(v)
    case Atom(x, args) =>
      if x in symbols then
        var vs :- EvalAllNamed(symbols, args, env, s);
        Success(Lookup(s, Location(x, vs)))
      else ReadName(env, x)
    case BinaryOf(op, left, right) =>
      var l :- EvalNamed(symbols, left, env, s);
      var r :- EvalNamed(symbols, right, env, s);
      Operate(op, l, r)
    case NotOf(operand) =>
      var v :- EvalNamed(symbols, operand, env, s);
      Negate(v)
  }

  function EvalAllNamed(symbols: Symbols, es: seq<NamedExpression>, env: Environment, s: State)
    : (r: Result<seq<Value>>)
    ensures r.Success? ==> |r.value| == |es|
  {
    if es == [] then Success([])
    else
      var vs :- EvalAllNamed(symbols, es[..|es| - 1], env, s);
      var v :- EvalNamed(symbols, es[|es| - 1], env, s);
      Success(vs + [v])
  }

  function ItemsNamed(symbols: Symbols, range: NamedRange, env: Environment, s: State): Result<seq<Value>> {
    match range
    case InList(e) =>
      var v :- EvalNamed(symbols, e, env, s);
      if v.ListOf? then Success(v.items) else Failure(IllTyped)
    case InInt(e) =>
      var v :- EvalNamed(symbols, e, env, s);
      if v.Int? then Success(Numbers(v.i)) else Failure(IllTyped)
    case InEnum(name, mapping) => Success(Members(name, mapping))
  }

  function CalleeNamed(p: NamedProgram, target: NamedTarget, env: Environment, s: State)
    : Result<Option<NamedRule>>
  {
    match target
    case ToRule(name) => Success(if name in p.rules then Some(p.rules[name]) else None)
    case ToValue(e) =>
      var v :- EvalNamed(p.symbols, e, env, s);
      if v.Undef? then Failure(CallUndef)
      else if !v.RuleRef? then Failure(IllTyped)
      else Success(if v.rule in p.rules then Some(p.rules[v.rule]) else None)
  }

  /** The update set of a statement under lexical scoping: a binder gives a name its value for its body. */
  function DenoteNamed(p: NamedProgram, stmt: NamedStatement, env: Environment, s: State,
                       fuel: nat, rounds: nat): Outcome
    decreases fuel, 0
  {
    if fuel == 0 then Failed(OutOfFuel) else
    match stmt
    case SkipS => Ok(map[])
    case UpdateS(func, args, expr) =>
      var v := EvalNamed(p.symbols, expr, env, s);
      if v.Failure? then Failed(v.fault) else
      var vs := EvalAllNamed(p.symbols, args, env, s);
      if vs.Failure? then Failed(vs.fault) else Ok(map[Location(func, vs.value) := v.value])
    case IfS(cond, then_, else_) =>
      var c := EvalNamed(p.symbols, cond, env, s);
      if c.Failure? then Failed(c.fault)
      else if c.value.Undef? then Failed(ConditionUndef)
      else if !c.value.Boolean? then Failed(IllTyped)
      else DenoteNamed(p, if c.value.b then then_ else else_, env, s, fuel - 1, rounds)
    case LetS(x, expr, body) =>
      var v := EvalNamed(p.symbols, expr, env, s);
      if v.Failure? then Failed(v.fault)
      else DenoteNamed(p, body, env[x := v.value], s, fuel - 1, rounds)
    case CallS(target, args) =>
      var rule := CalleeNamed(p, target, env, s);
      if rule.Failure? then Failed(rule.fault) else
      var vs := EvalAllNamed(p.symbols, args, env, s);
      if vs.Failure? then Failed(vs.fault)
      else if rule.value.None? then Ok(map[])
      else if |vs.value| != |rule.value.value.parameters| then Failed(InvalidIndirectCall)
      else DenoteNamed(p, rule.value.value.body, Bindings(rule.value.value.parameters, vs.value), s, fuel - 1, rounds)
    case ParS(stmts) => JoinAll(BranchesNamed(p, stmts, env, s, fuel - 1, rounds))
    case SeqS(stmts) => DenoteSeqNamed(p, stmts, env, s, fuel - 1, rounds)
    case ForallS(x, range, body) =>
      var items := ItemsNamed(p.symbols, range, env, s);
      if items.Failure? then Failed(items.fault)
      else JoinAll(InstancesNamed(p, x, body, items.value, env, s, fuel - 1, rounds))
    case IterateS(body) => DenoteIterateNamed(p, body, env, s, map[], fuel - 1, rounds, rounds)
    case AssertS(cond) =>
      var c := EvalNamed(p.symbols, cond, env, s);
      if c.Failure? then Failed(c.fault)
      else if c.value == Boolean(true) then Ok(map[]) else Failed(AssertionFailed)
    case DiedieS => Failed(DiedieExecuted)
  }

  function BranchesNamed(p: NamedProgram, stmts: seq<NamedStatement>, env: Environment, s: State,
                         fuel: nat, rounds: nat): (rs: seq<Outcome>)
    ensures |rs| == |stmts|
    ensures forall i :: 0 <= i < |stmts| ==> rs[i] == DenoteNamed(p, stmts[i], env, s, fuel, rounds)
    decreases fuel, 1
  {
    seq(|stmts|, i requires 0 <= i < |stmts| => DenoteNamed(p, stmts[i], env, s, fuel, rounds))
  }

  /** In every instance of a forall the name is bound to one of the items. */
  function InstancesNamed(p: NamedProgram, x: string, body: NamedStatement, items: seq<Value>, env: Environment,
                          s: State, fuel: nat, rounds: nat): (rs: seq<Outcome>)
    ensures |rs| == |items|
    ensures forall i :: 0 <= i < |items| ==>
      rs[i] == DenoteNamed(p, body, env[x := items[i]], s, fuel, rounds)
    decreases fuel, 1
  {
    seq(|items|, i requires 0 <= i < |items| => DenoteNamed(p, body, env[x := items[i]], s, fuel, rounds))
  }

  function DenoteSeqNamed(p: NamedProgram, stmts: seq<NamedStatement>, env: Environment, s: State,
                          fuel: nat, rounds: nat): Outcome
    decreases fuel, 1 + |stmts|
  {
    if stmts == [] then Ok(map[])
    else
      var r := DenoteSeqNamed(p, stmts[..|stmts| - 1], env, s, fuel, rounds);
      if r.Ok?
      then Override(r.updates, DenoteNamed(p, stmts[|stmts| - 1], env, Fire(s, r.updates), fuel, rounds))
      else r
  }

  function DenoteIterateNamed(p: NamedProgram, body: NamedStatement, env: Environment, s: State,
                              u: Updates, fuel: nat, rounds: nat, left: nat): Outcome
    decreases fuel, 1 + left
  {
    if left == 0 then Failed(OutOfFuel) else
    match DenoteNamed(p, body, env, Fire(s, u), fuel, rounds)
    case Ok(v) =>
      if v == map[] then Ok(u) else DenoteIterateNamed(p, body, env, s, u + v, fuel, rounds, left - 1)
    case Clash => Clash
    case Abort(e, _) => Failed(e)
  }
}
