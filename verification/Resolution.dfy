/**
  Replacing names by offsets in the frame of a rule. Resolution by lexical scoping takes the
  position of the innermost binder for each name, and preserves the meaning of every rule.
 */
module Resolution {
  import opened Values
  import opened Syntax
  import opened Semantics
  import opened NamedSyntax

  type Offsets = map<string, nat>

  /** What is known about the program: its function symbols and the arity of each rule. */
  datatype Signature = Signature(symbols: Symbols, arities: map<string, nat>)

  function SignatureOf(p: NamedProgram): Signature {
    Signature(p.symbols, map r | r in p.rules :: |p.rules[r].parameters|)
  }

  /** A function with this number of arguments. */
  predicate Takes(symbols: Symbols, func: string, arguments: nat) {
    func in symbols && symbols[func] == arguments
  }

  function ResolveExpression(symbols: Symbols, e: NamedExpression, offsets: Offsets): Option<Expression> {
    match e
    case Literal(v) => Some(Constant(v))
    case Atom(x, args) =>
      if x in symbols then
        var es := ResolveExpressions(symbols, args, offsets);
        if es.None? || symbols[x] != |args| then None else Some(FunctionAtom(x, es.value))
      else if x in offsets && args == [] then Some(Parameter(offsets[x]))
      else None
    case BinaryOf(op, left, right) =>
      var l := ResolveExpression(symbols, left, offsets);
      var r := ResolveExpression(symbols, right, offsets);
      if l.None? || r.None? then None else Some(Binary(op, l.value, r.value))
    case NotOf(operand) =>
      var v := ResolveExpression(symbols, operand, offsets);
      if v.None? then None else Some(Not(v.value))
  }

  function ResolveExpressions(symbols: Symbols, es: seq<NamedExpression>, offsets: Offsets)
    : (r: Option<seq<Expression>>)
    ensures r.Some? ==> |r.value| == |es|
  {
    if es == [] then Some([])
    else
      var front := ResolveExpressions(symbols, es[..|es| - 1], offsets);
      var last := ResolveExpression(symbols, es[|es| - 1], offsets);
      if front.None? || last.None? then None else Some(front.value + [last.value])
  }

  function ResolveRange(symbols: Symbols, range: NamedRange, offsets: Offsets): Option<Range> {
    match range
    case InList(e) =>
      var r := ResolveExpression(symbols, e, offsets);
      if r.None? then None else Some(OverList(r.value))
    case InInt(e) =>
      var r := ResolveExpression(symbols, e, offsets);
      if r.None? then None else Some(OverInt(r.value))
    case InEnum(name, mapping) => Some(OverEnum(name, mapping))
  }

  /** A direct call names a rule and provides as many arguments as it has parameters. */
  function ResolveTarget(g: Signature, target: NamedTarget, arguments: nat, offsets: Offsets): Option<Target> {
    match target
    case ToRule(name) => if name in g.arities && g.arities[name] == arguments then Some(Direct(name)) else None
    case ToValue(e) =>
      var r := ResolveExpression(g.symbols, e, offsets);
      if r.None? then None else Some(Indirect(r.value))
  }

  // ---- Lexical scoping ----

  /** The position of the innermost binder of a name. */
  function Innermost(names: seq<string>, x: string): (r: Option<nat>)
    ensures r.Some? ==> r.value < |names| && names[r.value] == x
    ensures r.Some? ==> forall i :: r.value < i < |names| ==> names[i] != x
    ensures r.None? ==> x !in names
  {
    if names == [] then None
    else if names[|names| - 1] == x then Some(|names| - 1)
    else Innermost(names[..|names| - 1], x)
  }

  /** The position of the innermost binder of each name in scope. */
  function Innermosts(names: seq<string>): Offsets {
    map x | x in names :: Innermost(names, x).value
  }

  /** The statement with every name replaced by the position of its innermost binder. */
  function Lexical(g: Signature, stmt: NamedStatement, names: seq<string>): Option<Statement> {
    var offsets := Innermosts(names);
    match stmt
    case SkipS => Some(Skip)
    case UpdateS(func, args, expr) =>
      var e := ResolveExpression(g.symbols, expr, offsets);
      var es := ResolveExpressions(g.symbols, args, offsets);
      if e.None? || es.None? || !Takes(g.symbols, func, |args|) then None else Some(Update(func, es.value, e.value))
    case IfS(cond, then_, else_) =>
      var c := ResolveExpression(g.symbols, cond, offsets);
      var t := Lexical(g, then_, names);
      var e := Lexical(g, else_, names);
      if c.None? || t.None? || e.None? then None else Some(IfThenElse(c.value, t.value, e.value))
    case LetS(x, expr, body) =>
      var e := ResolveExpression(g.symbols, expr, offsets);
      var b := Lexical(g, body, names + [x]);
      if e.None? || b.None? then None else Some(Let(e.value, b.value))
    case CallS(target, args) =>
      var t := ResolveTarget(g, target, |args|, offsets);
      var es := ResolveExpressions(g.symbols, args, offsets);
      if t.None? || es.None? then None else Some(Call(t.value, es.value))
    case ParS(stmts) =>
      var ss := LexicalAll(g, stmts, names);
      if ss.None? then None else Some(ParBlock(ss.value))
    case SeqS(stmts) =>
      var ss := LexicalAll(g, stmts, names);
      if ss.None? then None else Some(SeqBlock(ss.value))
    case ForallS(x, range, body) =>
      var r := ResolveRange(g.symbols, range, offsets);
      var b := Lexical(g, body, names + [x]);
      if r.None? || b.None? then None else Some(Forall(r.value, b.value))
    case IterateS(body) =>
      var b := Lexical(g, body, names);
      if b.None? then None else Some(Iterate(b.value))
    case AssertS(cond) =>
      var c := ResolveExpression(g.symbols, cond, offsets);
      if c.None? then None else Some(Assert(c.value))
    case DiedieS => Some(Diedie)
  }

  function LexicalAll(g: Signature, stmts: seq<NamedStatement>, names: seq<string>): (r: Option<seq<Statement>>)
    ensures r.Some? ==> |r.value| == |stmts|
  {
    if stmts == [] then Some([])
    else
      var front := LexicalAll(g, stmts[..|stmts| - 1], names);
      var last := Lexical(g, stmts[|stmts| - 1], names);
      if front.None? || last.None? then None else Some(front.value + [last.value])
  }

  function LexicalRule(g: Signature, rule: NamedRule): Option<Rule> {
    var b := Lexical(g, rule.body, rule.parameters);
    if b.None? then None else Some(Rule(|rule.parameters|, b.value))
  }

  /** The program q is what lexical scoping makes of p. */
  ghost predicate LexicalProgram(p: NamedProgram, q: Program) {
    q.Keys == p.rules.Keys && forall r :: r in q ==> LexicalRule(SignatureOf(p), p.rules[r]) == Some(q[r])
  }

  lemma {:induction false} LexicalAllAt(g: Signature, stmts: seq<NamedStatement>, names: seq<string>, i: nat)
    requires LexicalAll(g, stmts, names).Some? && i < |stmts|
    ensures Lexical(g, stmts[i], names) == Some(LexicalAll(g, stmts, names).value[i])
  {
    if i < |stmts| - 1 {
      LexicalAllAt(g, stmts[..|stmts| - 1], names, i);
    }
  }

  // ---- Reads ----

  /** The names that an expression reads as parameters or bound variables. */
  function Reads(symbols: Symbols, e: NamedExpression): set<string> {
    match e
    case Literal(_) => {}
    case Atom(x, args) => if x in symbols then ReadsAll(symbols, args) else {x}
    case BinaryOf(_, left, right) => Reads(symbols, left) + Reads(symbols, right)
    case NotOf(operand) => Reads(symbols, operand)
  }

  function ReadsAll(symbols: Symbols, es: seq<NamedExpression>): set<string> {
    if es == [] then {} else ReadsAll(symbols, es[..|es| - 1]) + Reads(symbols, es[|es| - 1])
  }

  /** The names that a statement itself reads, not the statements inside it. */
  function ReadsOf(symbols: Symbols, stmt: NamedStatement): set<string> {
    match stmt
    case UpdateS(_, args, expr) => Reads(symbols, expr) + ReadsAll(symbols, args)
    case IfS(cond, _, _) => Reads(symbols, cond)
    case LetS(_, expr, _) => Reads(symbols, expr)
    case CallS(target, args) =>
      ReadsAll(symbols, args) + if target.ToValue? then Reads(symbols, target.rule_expr) else {}
    case ForallS(_, range, _) => ReadsOfRange(symbols, range)
    case AssertS(cond) => Reads(symbols, cond)
    case _ => {}
  }

  function ReadsOfRange(symbols: Symbols, range: NamedRange): set<string> {
    match range
    case InList(e) => Reads(symbols, e)
    case InInt(e) => Reads(symbols, e)
    case InEnum(_, _) => {}
  }

  // ---- Frames and environments ----

  /** The frame has the value of a name at the position of its innermost binder. */
  lemma {:induction false} BindingAt(names: seq<string>, frame: seq<Value>, x: string)
    requires |names| == |frame|
    ensures x in Bindings(names, frame) <==> x in names
    ensures x in names ==> Bindings(names, frame)[x] == frame[Innermost(names, x).value]
  {
    if names != [] {
      BindingAt(names[..|names| - 1], frame[..|frame| - 1], x);
    }
  }

  /** Pushing a value on the frame binds the name. */
  lemma BindingNext(names: seq<string>, frame: seq<Value>, x: string, v: Value)
    requires |names| == |frame|
    ensures |names + [x]| == |frame + [v]|
    ensures Bindings(names + [x], frame + [v]) == Bindings(names, frame)[x := v]
  {
    assert (names + [x])[..|names|] == names && (frame + [v])[..|frame|] == frame;
  }

  // ---- Names without values ----

  /** The names in scope; the values of the first ones may be missing from the frame. */
  datatype Scope = Scope(names: seq<string>, missing: nat) {
    function Bind(x: string): Scope {
      Scope(names + [x], missing)
    }

    /** The frame and the environment have the values of all names that are not missing. */
    ghost predicate Matches(frame: seq<Value>, env: Environment) {
      && |names| == missing + |frame|
      && env == Bindings(names[missing..], frame)
    }

    /** Nothing is missing, or the name is a missing one whose position the frame does not reach. */
    ghost predicate Placed(x: string) {
      missing == 0 || (x in names ==> |names| - missing <= Innermost(names, x).value < missing)
    }

    /** At the position of the innermost binder the frame has what the environment has for the name. */
    ghost predicate Delivers(frame: seq<Value>, env: Environment, x: string)
      requires x in names
    {
      var i := Innermost(names, x).value;
      (if i < |frame| then Success(frame[i]) else Failure(NoSuchBinding)) == ReadName(env, x)
    }
  }

  lemma {:induction false} MatchesNext(scope: Scope, frame: seq<Value>, env: Environment, x: string, v: Value)
    requires scope.Matches(frame, env)
    ensures scope.Bind(x).Matches(frame + [v], env[x := v])
  {
    var bound := scope.names[scope.missing..];
    BindingNext(bound, frame, x, v);
    assert (scope.names + [x])[scope.missing..] == bound + [x];
  }

  /** The innermost binder among the names that are not missing, if there is one. */
  lemma BoundAt(scope: Scope, x: string)
    requires scope.missing <= |scope.names| && x in scope.names
    ensures var i, bound := Innermost(scope.names, x).value, scope.names[scope.missing..];
      && (x in bound <==> scope.missing <= i)
      && (x in bound ==> Innermost(bound, x) == Some(i - scope.missing))
  {
    var i, bound := Innermost(scope.names, x).value, scope.names[scope.missing..];
    if scope.missing <= i {
      assert bound[i - scope.missing] == x;
    } else {
      assert forall k :: 0 <= k < |bound| ==> bound[k] == scope.names[scope.missing + k];
    }
  }

  lemma PlacedDelivers(scope: Scope, frame: seq<Value>, env: Environment, x: string)
    requires scope.Matches(frame, env) && x in scope.names && scope.Placed(x)
    ensures scope.Delivers(frame, env, x)
  {
    BoundAt(scope, x);
    BindingAt(scope.names[scope.missing..], frame, x);
  }

  /** Reading the frame is right for all values in it exactly when the name is placed. */
  lemma PlacedExact(scope: Scope, x: string)
    requires scope.missing <= |scope.names| && x in scope.names
    ensures scope.Placed(x) <==> forall frame, env :: scope.Matches(frame, env) ==> scope.Delivers(frame, env, x)
  {
    if scope.Placed(x) {
      forall frame, env | scope.Matches(frame, env) ensures scope.Delivers(frame, env, x) {
        PlacedDelivers(scope, frame, env, x);
      }
    } else {
      BoundAt(scope, x);
      var bound := scope.names[scope.missing..];
      var frame := seq(|bound|, i => Int(0));
      if x in bound { frame := frame[Innermost(bound, x).value := Int(1)]; }
      BindingAt(bound, frame, x);
      assert scope.Matches(frame, Bindings(bound, frame)) && !scope.Delivers(frame, Bindings(bound, frame), x);
    }
  }

  ghost predicate AllPlaced(scope: Scope, xs: set<string>) {
    forall x :: x in xs ==> scope.Placed(x)
  }

  /** Every read of a statement is placed where it stands. */
  ghost predicate ReadsPlaced(symbols: Symbols, stmt: NamedStatement, scope: Scope)
    decreases stmt
  {
    && AllPlaced(scope, ReadsOf(symbols, stmt))
    && (scope.missing == 0 ||
        match stmt
        case IfS(_, t, e) => ReadsPlaced(symbols, t, scope) && ReadsPlaced(symbols, e, scope)
        case LetS(x, _, b) => ReadsPlaced(symbols, b, scope.Bind(x))
        case ForallS(x, _, b) => ReadsPlaced(symbols, b, scope.Bind(x))
        case ParS(ss) => forall t :: t in ss ==> ReadsPlaced(symbols, t, scope)
        case SeqS(ss) => forall t :: t in ss ==> ReadsPlaced(symbols, t, scope)
        case IterateS(b) => ReadsPlaced(symbols, b, scope)
        case _ => true)
  }

  ghost predicate AllReadsPlaced(symbols: Symbols, stmts: seq<NamedStatement>, scope: Scope) {
    forall t :: t in stmts ==> ReadsPlaced(symbols, t, scope)
  }

  /** A rule is started without arguments: all its parameters are missing. */
  ghost predicate RunsBare(symbols: Symbols, rule: NamedRule) {
    ReadsPlaced(symbols, rule.body, Scope(rule.parameters, |rule.parameters|))
  }

  lemma NothingMissing(symbols: Symbols, rule: NamedRule)
    requires rule.parameters == []
    ensures RunsBare(symbols, rule)
  {
  }

  // ---- Lexical resolution preserves meaning ----

  lemma {:induction false} ExpressionPreserved(symbols: Symbols, e: NamedExpression, scope: Scope,
                                               frame: seq<Value>, env: Environment, s: State)
    requires scope.Matches(frame, env) && AllPlaced(scope, Reads(symbols, e))
    requires ResolveExpression(symbols, e, Innermosts(scope.names)).Some?
    ensures Eval(ResolveExpression(symbols, e, Innermosts(scope.names)).value, frame, s)
         == EvalNamed(symbols, e, env, s)
    decreases e
  {
    match e
    case Literal(_) =>
    case Atom(x, args) =>
      if x in symbols {
        ExpressionsPreserved(symbols, args, scope, frame, env, s);
      } else {
        PlacedDelivers(scope, frame, env, x);
      }
    case BinaryOf(_, left, right) =>
      ExpressionPreserved(symbols, left, scope, frame, env, s);
      ExpressionPreserved(symbols, right, scope, frame, env, s);
    case NotOf(operand) => ExpressionPreserved(symbols, operand, scope, frame, env, s);
  }

  lemma {:induction false} ExpressionsPreserved(symbols: Symbols, es: seq<NamedExpression>, scope: Scope,
                                                frame: seq<Value>, env: Environment, s: State)
    requires scope.Matches(frame, env) && AllPlaced(scope, ReadsAll(symbols, es))
    requires ResolveExpressions(symbols, es, Innermosts(scope.names)).Some?
    ensures EvalAll(ResolveExpressions(symbols, es, Innermosts(scope.names)).value, frame, s)
         == EvalAllNamed(symbols, es, env, s)
    decreases es
  {
    if es != [] {
      var front, offsets := es[..|es| - 1], Innermosts(scope.names);
      ExpressionsPreserved(symbols, front, scope, frame, env, s);
      ExpressionPreserved(symbols, es[|es| - 1], scope, frame, env, s);
      var rs, fs := ResolveExpressions(symbols, es, offsets).value, ResolveExpressions(symbols, front, offsets).value;
      assert rs[..|rs| - 1] == fs;
    }
  }

  lemma ItemsPreserved(symbols: Symbols, range: NamedRange, scope: Scope, frame: seq<Value>, env: Environment,
                       s: State)
    requires scope.Matches(frame, env) && AllPlaced(scope, ReadsOfRange(symbols, range))
    requires ResolveRange(symbols, range, Innermosts(scope.names)).Some?
    ensures Items(ResolveRange(symbols, range, Innermosts(scope.names)).value, frame, s)
         == ItemsNamed(symbols, range, env, s)
  {
    match range
    case InList(e) => ExpressionPreserved(symbols, e, scope, frame, env, s);
    case InInt(e) => ExpressionPreserved(symbols, e, scope, frame, env, s);
    case InEnum(_, _) =>
  }

  /** The program is resolved, so is the statement for the names in scope, and its reads are placed. */
  ghost predicate Fits(p: NamedProgram, q: Program, stmt: NamedStatement, scope: Scope) {
    && LexicalProgram(p, q) && Lexical(SignatureOf(p), stmt, scope.names).Some?
    && ReadsPlaced(p.symbols, stmt, scope)
  }

  /** The resolved statement denotes what the statement denotes. */
  ghost predicate Same(p: NamedProgram, q: Program, stmt: NamedStatement, scope: Scope, frame: seq<Value>,
                       env: Environment, s: State, fuel: nat, rounds: nat)
    requires Lexical(SignatureOf(p), stmt, scope.names).Some?
  {
    Denote(q, Lexical(SignatureOf(p), stmt, scope.names).value, frame, s, fuel, rounds)
      == DenoteNamed(p, stmt, env, s, fuel, rounds)
  }

  /** Reading the frame at the positions of the innermost binders gives every statement its lexically scoped meaning. */
  lemma {:induction false} LexicalPreserved(p: NamedProgram, q: Program, stmt: NamedStatement, scope: Scope,
                                            frame: seq<Value>, env: Environment, s: State, fuel: nat, rounds: nat)
    requires scope.Matches(frame, env)
    requires Fits(p, q, stmt, scope)
    ensures Same(p, q, stmt, scope, frame, env, s, fuel, rounds)
    decreases fuel, 0
  {
    if fuel == 0 { return; }
    var left: nat := fuel - 1;
    if stmt.IfS? {
      IfPreserved(p, q, stmt, scope, frame, env, s, fuel, left, rounds);
    } else if stmt.LetS? {
      LetPreserved(p, q, stmt, scope, frame, env, s, fuel, left, rounds);
    } else if stmt.CallS? {
      CallPreserved(p, q, stmt, scope, frame, env, s, fuel, left, rounds);
    } else if stmt.ParS? {
      ParPreserved(p, q, stmt, scope, frame, env, s, fuel, left, rounds);
    } else if stmt.SeqS? {
      SeqPreserved(p, q, stmt, scope, frame, env, s, fuel, left, rounds);
    } else if stmt.IterateS? {
      RepeatPreserved(p, q, stmt, scope, frame, env, s, fuel, left, rounds);
    } else if stmt.ForallS? {
      ForallPreserved(p, q, stmt, scope, frame, env, s, fuel, left, rounds);
    } else {
      SimplePreserved(p, q, stmt, scope, frame, env, s, fuel, rounds);
    }
  }

  lemma SimplePreserved(p: NamedProgram, q: Program, stmt: NamedStatement, scope: Scope, frame: seq<Value>,
                        env: Environment, s: State, fuel: nat, rounds: nat)
    requires scope.Matches(frame, env)
    requires Fits(p, q, stmt, scope) && (stmt.SkipS? || stmt.UpdateS? || stmt.AssertS? || stmt.DiedieS?)
    ensures Same(p, q, stmt, scope, frame, env, s, fuel, rounds)
  {
    if stmt.UpdateS? {
      ExpressionPreserved(p.symbols, stmt.expr, scope, frame, env, s);
      ExpressionsPreserved(p.symbols, stmt.arguments, scope, frame, env, s);
    } else if stmt.AssertS? {
      ExpressionPreserved(p.symbols, stmt.condition, scope, frame, env, s);
    }
  }

  /** The parts of a conditional that fits, and what it becomes. */
  lemma IfFits(p: NamedProgram, q: Program, stmt: NamedStatement, scope: Scope)
    requires Fits(p, q, stmt, scope) && stmt.IfS?
    ensures Fits(p, q, stmt.then_, scope) && Fits(p, q, stmt.else_, scope)
    ensures AllPlaced(scope, Reads(p.symbols, stmt.condition))
    ensures var g, c := SignatureOf(p), ResolveExpression(p.symbols, stmt.condition, Innermosts(scope.names));
      && c.Some?
      && Lexical(g, stmt, scope.names).value
         == IfThenElse(c.value, Lexical(g, stmt.then_, scope.names).value, Lexical(g, stmt.else_, scope.names).value)
  {
    if scope.missing == 0 {
      assert forall x :: scope.Placed(x);
      assert ReadsPlaced(p.symbols, stmt.then_, scope) && ReadsPlaced(p.symbols, stmt.else_, scope);
    }
  }

  lemma {:induction false} IfPreserved(p: NamedProgram, q: Program, stmt: NamedStatement, scope: Scope,
                                       frame: seq<Value>, env: Environment, s: State, fuel: nat, left: nat, rounds: nat)
    requires scope.Matches(frame, env)
    requires Fits(p, q, stmt, scope) && stmt.IfS? && fuel == left + 1
    ensures Same(p, q, stmt, scope, frame, env, s, fuel, rounds)
    decreases left, 1
  {
    IfFits(p, q, stmt, scope);
    ExpressionPreserved(p.symbols, stmt.condition, scope, frame, env, s);
    LexicalPreserved(p, q, stmt.then_, scope, frame, env, s, left, rounds);
    LexicalPreserved(p, q, stmt.else_, scope, frame, env, s, left, rounds);
  }

  /** The parts of a let that fits, and what it becomes. */
  lemma LetFits(p: NamedProgram, q: Program, stmt: NamedStatement, scope: Scope)
    requires Fits(p, q, stmt, scope) && stmt.LetS?
    ensures Fits(p, q, stmt.body, scope.Bind(stmt.name)) && AllPlaced(scope, Reads(p.symbols, stmt.expr))
    ensures var e := ResolveExpression(p.symbols, stmt.expr, Innermosts(scope.names));
      && e.Some?
      && Lexical(SignatureOf(p), stmt, scope.names).value
         == Let(e.value, Lexical(SignatureOf(p), stmt.body, scope.Bind(stmt.name).names).value)
  {
    if scope.missing == 0 {
      assert forall x :: scope.Bind(stmt.name).Placed(x);
      assert ReadsPlaced(p.symbols, stmt.body, scope.Bind(stmt.name));
    }
  }

  lemma EnteredLet(q: Program, e: Expression, body: Statement, frame: seq<Value>, s: State, fuel: nat, left: nat,
                   rounds: nat)
    requires fuel == left + 1
    ensures var v := Eval(e, frame, s);
      Denote(q, Let(e, body), frame, s, fuel, rounds)
        == if v.Failure? then Failed(v.fault) else Denote(q, body, frame + [v.value], s, left, rounds)
  {
  }

  lemma EnteredNamedLet(p: NamedProgram, x: string, e: NamedExpression, body: NamedStatement, env: Environment,
                        s: State, fuel: nat, left: nat, rounds: nat)
    requires fuel == left + 1
    ensures var v := EvalNamed(p.symbols, e, env, s);
      DenoteNamed(p, LetS(x, e, body), env, s, fuel, rounds)
        == if v.Failure? then Failed(v.fault) else DenoteNamed(p, body, env[x := v.value], s, left, rounds)
  {
  }

  lemma {:induction false} LetPreserved(p: NamedProgram, q: Program, stmt: NamedStatement, scope: Scope,
                                        frame: seq<Value>, env: Environment, s: State, fuel: nat, left: nat,
                                        rounds: nat)
    requires scope.Matches(frame, env)
    requires Fits(p, q, stmt, scope) && stmt.LetS? && fuel == left + 1
    ensures Same(p, q, stmt, scope, frame, env, s, fuel, rounds)
    decreases left, 1
  {
    LetFits(p, q, stmt, scope);
    ExpressionPreserved(p.symbols, stmt.expr, scope, frame, env, s);
    var e := ResolveExpression(p.symbols, stmt.expr, Innermosts(scope.names)).value;
    var body := Lexical(SignatureOf(p), stmt.body, scope.Bind(stmt.name).names).value;
    EnteredLet(q, e, body, frame, s, fuel, left, rounds);
    EnteredNamedLet(p, stmt.name, stmt.expr, stmt.body, env, s, fuel, left, rounds);
    var v := EvalNamed(p.symbols, stmt.expr, env, s);
    if v.Success? {
      MatchesNext(scope, frame, env, stmt.name, v.value);
      var inner := env[stmt.name := v.value];
      LexicalPreserved(p, q, stmt.body, scope.Bind(stmt.name), frame + [v.value], inner, s, left, rounds);
    }
  }

  /** The resolved target leads to the resolved rule. */
  ghost predicate SameCallee(p: NamedProgram, target: Result<Option<Rule>>, named: Result<Option<NamedRule>>) {
    match named
    case Failure(e) => target == Failure(e)
    case Success(None) => target == Success(None)
    case Success(Some(r)) =>
      target.Success? && target.value.Some? && LexicalRule(SignatureOf(p), r) == Some(target.value.value)
  }

  lemma CalleePreserved(p: NamedProgram, q: Program, target: NamedTarget, n: nat, scope: Scope, frame: seq<Value>,
                        env: Environment, s: State)
    requires scope.Matches(frame, env)
    requires target.ToValue? ==> AllPlaced(scope, Reads(p.symbols, target.rule_expr))
    requires LexicalProgram(p, q) && ResolveTarget(SignatureOf(p), target, n, Innermosts(scope.names)).Some?
    ensures SameCallee(p, Callee(q, ResolveTarget(SignatureOf(p), target, n, Innermosts(scope.names)).value, frame, s),
                       CalleeNamed(p, target, env, s))
  {
    if target.ToValue? {
      ExpressionPreserved(p.symbols, target.rule_expr, scope, frame, env, s);
    }
  }

  lemma EnteredCall(q: Program, target: Target, args: seq<Expression>, frame: seq<Value>, s: State, fuel: nat,
                    left: nat, rounds: nat, rule: Rule, vs: seq<Value>)
    requires Callee(q, target, frame, s) == Success(Some(rule)) && EvalAll(args, frame, s) == Success(vs)
    requires target.Direct? || |vs| == rule.arity
    requires fuel == left + 1
    ensures Denote(q, Call(target, args), frame, s, fuel, rounds) == Denote(q, rule.body, vs, s, left, rounds)
  {
  }

  lemma EnteredNamedCall(p: NamedProgram, target: NamedTarget, args: seq<NamedExpression>, env: Environment, s: State,
                         fuel: nat, left: nat, rounds: nat, rule: NamedRule, vs: seq<Value>)
    requires CalleeNamed(p, target, env, s) == Success(Some(rule))
    requires EvalAllNamed(p.symbols, args, env, s) == Success(vs)
    requires |vs| == |rule.parameters| && fuel == left + 1
    ensures DenoteNamed(p, CallS(target, args), env, s, fuel, rounds)
         == DenoteNamed(p, rule.body, Bindings(rule.parameters, vs), s, left, rounds)
  {
  }

  lemma {:induction false} CallPreserved(p: NamedProgram, q: Program, stmt: NamedStatement, scope: Scope,
                                         frame: seq<Value>, env: Environment, s: State, fuel: nat, left: nat,
                                         rounds: nat)
    requires scope.Matches(frame, env)
    requires Fits(p, q, stmt, scope) && stmt.CallS? && fuel == left + 1
    ensures Same(p, q, stmt, scope, frame, env, s, fuel, rounds)
    decreases left, 1
  {
    var g, offsets := SignatureOf(p), Innermosts(scope.names);
    ExpressionsPreserved(p.symbols, stmt.arguments, scope, frame, env, s);
    CalleePreserved(p, q, stmt.target, |stmt.arguments|, scope, frame, env, s);
    var target := ResolveTarget(g, stmt.target, |stmt.arguments|, offsets).value;
    var args := ResolveExpressions(p.symbols, stmt.arguments, offsets).value;
    assert Lexical(g, stmt, scope.names).value == Call(target, args);
    var rule := CalleeNamed(p, stmt.target, env, s);
    var vs := EvalAllNamed(p.symbols, stmt.arguments, env, s);
    if rule.Success? && rule.value.Some? && vs.Success? {
      var r, resolved := rule.value.value, Callee(q, target, frame, s).value.value;
      if |vs.value| == |r.parameters| {
        var callee := Bindings(r.parameters, vs.value);
        LexicalPreserved(p, q, r.body, Scope(r.parameters, 0), vs.value, callee, s, left, rounds);
        EnteredCall(q, target, args, frame, s, fuel, left, rounds, resolved, vs.value);
        EnteredNamedCall(p, stmt.target, stmt.arguments, env, s, fuel, left, rounds, r, vs.value);
      }
    }
  }

  /** The statements of a block that fits, and what it becomes. */
  lemma BlockFits(p: NamedProgram, q: Program, stmt: NamedStatement, scope: Scope)
    requires Fits(p, q, stmt, scope) && (stmt.ParS? || stmt.SeqS?)
    ensures AllReadsPlaced(p.symbols, stmt.statements, scope)
    ensures var ss := LexicalAll(SignatureOf(p), stmt.statements, scope.names);
      && ss.Some?
      && Lexical(SignatureOf(p), stmt, scope.names).value
         == if stmt.ParS? then ParBlock(ss.value) else SeqBlock(ss.value)
  {
    if scope.missing == 0 {
      assert forall x :: scope.Placed(x);
      forall t | t in stmt.statements ensures ReadsPlaced(p.symbols, t, scope) {
      }
    }
  }

  lemma {:induction false} ParPreserved(p: NamedProgram, q: Program, stmt: NamedStatement, scope: Scope,
                                        frame: seq<Value>, env: Environment, s: State, fuel: nat, left: nat,
                                        rounds: nat)
    requires scope.Matches(frame, env)
    requires Fits(p, q, stmt, scope) && stmt.ParS? && fuel == left + 1
    ensures Same(p, q, stmt, scope, frame, env, s, fuel, rounds)
    decreases left, 2
  {
    BlockFits(p, q, stmt, scope);
    BranchesPreserved(p, q, stmt, stmt.statements, scope, frame, env, s, left, rounds);
  }

  lemma {:induction false} SeqPreserved(p: NamedProgram, q: Program, stmt: NamedStatement, scope: Scope,
                                        frame: seq<Value>, env: Environment, s: State, fuel: nat, left: nat,
                                        rounds: nat)
    requires scope.Matches(frame, env)
    requires Fits(p, q, stmt, scope) && stmt.SeqS? && fuel == left + 1
    ensures Same(p, q, stmt, scope, frame, env, s, fuel, rounds)
    decreases left, 2 + |stmt.statements|
  {
    BlockFits(p, q, stmt, scope);
    SequencePreserved(p, q, stmt.statements, scope, frame, env, s, left, rounds);
  }

  lemma {:induction false} RepeatPreserved(p: NamedProgram, q: Program, stmt: NamedStatement, scope: Scope,
                                           frame: seq<Value>, env: Environment, s: State, fuel: nat, left: nat,
                                           rounds: nat)
    requires scope.Matches(frame, env)
    requires Fits(p, q, stmt, scope) && stmt.IterateS? && fuel == left + 1
    ensures Same(p, q, stmt, scope, frame, env, s, fuel, rounds)
    decreases left, 2 + rounds
  {
    IteratePreserved(p, q, stmt.body, scope, frame, env, s, map[], left, rounds, rounds);
  }

  lemma {:induction false} ForallPreserved(p: NamedProgram, q: Program, stmt: NamedStatement, scope: Scope,
                                           frame: seq<Value>, env: Environment, s: State, fuel: nat, left: nat,
                                           rounds: nat)
    requires scope.Matches(frame, env)
    requires Fits(p, q, stmt, scope) && stmt.ForallS? && fuel == left + 1
    ensures Same(p, q, stmt, scope, frame, env, s, fuel, rounds)
    decreases left, 2
  {
    ItemsPreserved(p.symbols, stmt.range, scope, frame, env, s);
    InstancesPreserved(p, q, stmt, scope, frame, env, s, left, rounds);
  }

  lemma {:induction false} BranchesPreserved(p: NamedProgram, q: Program, stmt: NamedStatement, ss: seq<NamedStatement>,
                                             scope: Scope, frame: seq<Value>, env: Environment, s: State, fuel: nat,
                                             rounds: nat)
    requires scope.Matches(frame, env)
    requires stmt == ParS(ss) && Fits(p, q, stmt, scope)
    ensures Branches(q, LexicalAll(SignatureOf(p), ss, scope.names).value, frame, s, fuel, rounds)
         == BranchesNamed(p, ss, env, s, fuel, rounds)
    decreases fuel, 1
  {
    var resolved := LexicalAll(SignatureOf(p), ss, scope.names).value;
    forall i | 0 <= i < |ss|
      ensures Denote(q, resolved[i], frame, s, fuel, rounds) == DenoteNamed(p, ss[i], env, s, fuel, rounds)
    {
      LexicalAllAt(SignatureOf(p), ss, scope.names, i);
      LexicalPreserved(p, q, ss[i], scope, frame, env, s, fuel, rounds);
    }
  }

  lemma {:induction false} SequencePreserved(p: NamedProgram, q: Program, ss: seq<NamedStatement>, scope: Scope,
                                             frame: seq<Value>, env: Environment, s: State, fuel: nat, rounds: nat)
    requires scope.Matches(frame, env)
    requires LexicalProgram(p, q) && AllReadsPlaced(p.symbols, ss, scope)
    requires LexicalAll(SignatureOf(p), ss, scope.names).Some?
    ensures DenoteSeq(q, LexicalAll(SignatureOf(p), ss, scope.names).value, frame, s, fuel, rounds)
         == DenoteSeqNamed(p, ss, env, s, fuel, rounds)
    decreases fuel, 1 + |ss|
  {
    if ss != [] {
      var g, front := SignatureOf(p), ss[..|ss| - 1];
      SequencePreserved(p, q, front, scope, frame, env, s, fuel, rounds);
      var all, some := LexicalAll(g, ss, scope.names).value, LexicalAll(g, front, scope.names).value;
      assert all[..|all| - 1] == some;
      var r := DenoteSeqNamed(p, front, env, s, fuel, rounds);
      if r.Ok? {
        LexicalPreserved(p, q, ss[|ss| - 1], scope, frame, env, Fire(s, r.updates), fuel, rounds);
      }
    }
  }

  lemma {:induction false} InstancesPreserved(p: NamedProgram, q: Program, stmt: NamedStatement, scope: Scope,
                                              frame: seq<Value>, env: Environment, s: State, fuel: nat, rounds: nat)
    requires scope.Matches(frame, env)
    requires stmt.ForallS? && Fits(p, q, stmt, scope)
    ensures var body := Lexical(SignatureOf(p), stmt.body, scope.Bind(stmt.name).names).value;
      forall items :: Instances(q, body, items, frame, s, fuel, rounds)
                   == InstancesNamed(p, stmt.name, stmt.body, items, env, s, fuel, rounds)
    decreases fuel, 1
  {
    var body := Lexical(SignatureOf(p), stmt.body, scope.Bind(stmt.name).names).value;
    forall v: Value
      ensures Denote(q, body, frame + [v], s, fuel, rounds)
           == DenoteNamed(p, stmt.body, env[stmt.name := v], s, fuel, rounds)
    {
      MatchesNext(scope, frame, env, stmt.name, v);
      LexicalPreserved(p, q, stmt.body, scope.Bind(stmt.name), frame + [v], env[stmt.name := v], s, fuel, rounds);
    }
  }

  lemma RoundNamed(p: NamedProgram, body: NamedStatement, env: Environment, s: State, u: Updates, fuel: nat,
                   rounds: nat, left: nat, next: nat)
    requires left == next + 1
    ensures var r := DenoteNamed(p, body, env, Fire(s, u), fuel, rounds);
      DenoteIterateNamed(p, body, env, s, u, fuel, rounds, left)
        == if !r.Ok? then Override(u, r)
           else if r.updates == map[] then Ok(u)
           else DenoteIterateNamed(p, body, env, s, u + r.updates, fuel, rounds, next)
  {
  }

  /** When a round and what comes after it denote the same, so does the iterate from that round on. */
  lemma RoundPreserved(p: NamedProgram, q: Program, body: NamedStatement, resolved: Statement, frame: seq<Value>,
                       env: Environment, s: State, u: Updates, fuel: nat, rounds: nat, left: nat, next: nat, r: Outcome)
    requires left == next + 1
    requires Denote(q, resolved, frame, Fire(s, u), fuel, rounds) == r
    requires DenoteNamed(p, body, env, Fire(s, u), fuel, rounds) == r
    requires r.Ok? && r.updates != map[] ==>
      DenoteIterate(q, resolved, frame, s, u + r.updates, fuel, rounds, next)
        == DenoteIterateNamed(p, body, env, s, u + r.updates, fuel, rounds, next)
    ensures DenoteIterate(q, resolved, frame, s, u, fuel, rounds, left)
         == DenoteIterateNamed(p, body, env, s, u, fuel, rounds, left)
  {
    RoundDenoted(q, resolved, frame, s, u, fuel, rounds, left, next);
    RoundNamed(p, body, env, s, u, fuel, rounds, left, next);
  }

  lemma {:induction false} IteratePreserved(p: NamedProgram, q: Program, body: NamedStatement, scope: Scope,
                                            frame: seq<Value>, env: Environment, s: State, u: Updates, fuel: nat,
                                            rounds: nat, left: nat)
    requires scope.Matches(frame, env)
    requires Fits(p, q, body, scope)
    ensures DenoteIterate(q, Lexical(SignatureOf(p), body, scope.names).value, frame, s, u, fuel, rounds, left)
         == DenoteIterateNamed(p, body, env, s, u, fuel, rounds, left)
    decreases fuel, 1 + left
  {
    if left == 0 { return; }
    var resolved, next: nat := Lexical(SignatureOf(p), body, scope.names).value, left - 1;
    var r := DenoteNamed(p, body, env, Fire(s, u), fuel, rounds);
    LexicalPreserved(p, q, body, scope, frame, env, Fire(s, u), fuel, rounds);
    if r.Ok? && r.updates != map[] {
      IteratePreserved(p, q, body, scope, frame, env, s, u + r.updates, fuel, rounds, next);
    }
    RoundPreserved(p, q, body, resolved, frame, env, s, u, fuel, rounds, left, next, r);
  }
}
