/**
  Which programs the type checker accepts. Being well scoped is a property of the program as it is
  written; the checker accepts exactly the well scoped programs whose reads have kept their offsets.
 */
module Scoping {
  import opened Values
  import opened Sequences
  import opened NamedSyntax
  import opened Resolution
  import opened TypecheckVisitor

  /** Every atom is a function with as many arguments as it takes, or a name in scope without arguments. */
  predicate ScopedExpression(symbols: Symbols, e: NamedExpression, names: set<string>) {
    match e
    case Literal(_) => true
    case Atom(x, args) =>
      if x in symbols then symbols[x] == |args| && forall a :: a in args ==> ScopedExpression(symbols, a, names)
      else x in names && args == []
    case BinaryOf(_, left, right) => ScopedExpression(symbols, left, names) && ScopedExpression(symbols, right, names)
    case NotOf(operand) => ScopedExpression(symbols, operand, names)
  }

  predicate AllScoped(symbols: Symbols, es: seq<NamedExpression>, names: set<string>) {
    forall a :: a in es ==> ScopedExpression(symbols, a, names)
  }

  predicate ScopedRange(symbols: Symbols, range: NamedRange, names: set<string>) {
    match range
    case InList(e) => ScopedExpression(symbols, e, names)
    case InInt(e) => ScopedExpression(symbols, e, names)
    case InEnum(_, _) => true
  }

  /** A direct call names a rule with as many parameters as there are arguments. */
  predicate ScopedTarget(p: NamedProgram, target: NamedTarget, arguments: nat, names: set<string>) {
    match target
    case ToRule(name) => name in p.rules && |p.rules[name].parameters| == arguments
    case ToValue(e) => ScopedExpression(p.symbols, e, names)
  }

  /** All expressions are scoped, all updated functions and all directly called rules exist. */
  predicate WellScoped(p: NamedProgram, stmt: NamedStatement, names: set<string>)
    decreases stmt
  {
    match stmt
    case SkipS => true
    case UpdateS(func, args, expr) =>
      && func in p.symbols && p.symbols[func] == |args|
      && AllScoped(p.symbols, args, names) && ScopedExpression(p.symbols, expr, names)
    case IfS(c, t, e) => ScopedExpression(p.symbols, c, names) && WellScoped(p, t, names) && WellScoped(p, e, names)
    case LetS(x, e, b) => ScopedExpression(p.symbols, e, names) && WellScoped(p, b, names + {x})
    case CallS(target, args) => ScopedTarget(p, target, |args|, names) && AllScoped(p.symbols, args, names)
    case ParS(ss) => forall s :: s in ss ==> WellScoped(p, s, names)
    case SeqS(ss) => forall s :: s in ss ==> WellScoped(p, s, names)
    case ForallS(x, r, b) => ScopedRange(p.symbols, r, names) && WellScoped(p, b, names + {x})
    case IterateS(b) => WellScoped(p, b, names)
    case AssertS(c) => ScopedExpression(p.symbols, c, names)
    case DiedieS => true
  }

  predicate AllWellScoped(p: NamedProgram, stmts: seq<NamedStatement>, names: set<string>) {
    forall s :: s in stmts ==> WellScoped(p, s, names)
  }

  /** In every rule of the program the parameters are the names in scope. */
  predicate ScopedProgram(p: NamedProgram) {
    forall r :: r in p.rules ==> WellScoped(p, p.rules[r].body, Set(p.rules[r].parameters))
  }

  // ---- Expressions ----

  /** An expression is resolved exactly when it is scoped by the names in the table. */
  lemma {:induction false} ExpressionResolved(symbols: Symbols, e: NamedExpression, offsets: Offsets)
    ensures ResolveExpression(symbols, e, offsets).Some? <==> ScopedExpression(symbols, e, offsets.Keys)
    decreases e
  {
    match e
    case Literal(_) =>
    case Atom(x, args) => if x in symbols { ExpressionsResolved(symbols, args, offsets); }
    case BinaryOf(_, left, right) =>
      ExpressionResolved(symbols, left, offsets);
      ExpressionResolved(symbols, right, offsets);
    case NotOf(operand) => ExpressionResolved(symbols, operand, offsets);
  }

  lemma {:induction false} ExpressionsResolved(symbols: Symbols, es: seq<NamedExpression>, offsets: Offsets)
    ensures ResolveExpressions(symbols, es, offsets).Some? <==> AllScoped(symbols, es, offsets.Keys)
    decreases es
  {
    if es != [] {
      var front, last := es[..|es| - 1], es[|es| - 1];
      ExpressionsResolved(symbols, front, offsets);
      ExpressionResolved(symbols, last, offsets);
      assert forall a :: a in es <==> a in front || a == last;
    }
  }

  /** With fewer names, an expression is scoped exactly when it reads only those. */
  lemma {:induction false} ExpressionNarrowed(symbols: Symbols, e: NamedExpression, few: set<string>,
                                              names: set<string>)
    requires few <= names
    ensures ScopedExpression(symbols, e, few) <==> ScopedExpression(symbols, e, names) && Reads(symbols, e) <= few
    decreases e
  {
    match e
    case Literal(_) =>
    case Atom(x, args) => if x in symbols { ExpressionsNarrowed(symbols, args, few, names); }
    case BinaryOf(_, left, right) =>
      ExpressionNarrowed(symbols, left, few, names);
      ExpressionNarrowed(symbols, right, few, names);
    case NotOf(operand) => ExpressionNarrowed(symbols, operand, few, names);
  }

  lemma {:induction false} ExpressionsNarrowed(symbols: Symbols, es: seq<NamedExpression>, few: set<string>,
                                               names: set<string>)
    requires few <= names
    ensures AllScoped(symbols, es, few) <==> AllScoped(symbols, es, names) && ReadsAll(symbols, es) <= few
    decreases es
  {
    if es != [] {
      var front, last := es[..|es| - 1], es[|es| - 1];
      ExpressionsNarrowed(symbols, front, few, names);
      ExpressionNarrowed(symbols, last, few, names);
      assert forall a :: a in es <==> a in front || a == last;
    }
  }

  // ---- Lexical scoping ----

  /** Lexical scoping resolves exactly the well scoped statements. */
  lemma {:induction false} LexicalScoped(p: NamedProgram, stmt: NamedStatement, names: seq<string>)
    ensures Lexical(SignatureOf(p), stmt, names).Some? <==> WellScoped(p, stmt, Set(names))
    decreases stmt
  {
    var offsets := Innermosts(names);
    assert offsets.Keys == Set(names);
    match stmt
    case UpdateS(_, args, expr) =>
      ExpressionsResolved(p.symbols, args, offsets);
      ExpressionResolved(p.symbols, expr, offsets);
    case IfS(c, t, e) =>
      ExpressionResolved(p.symbols, c, offsets);
      LexicalScoped(p, t, names);
      LexicalScoped(p, e, names);
    case LetS(x, e, b) =>
      ExpressionResolved(p.symbols, e, offsets);
      LexicalScoped(p, b, names + [x]);
      assert Set(names + [x]) == Set(names) + {x};
    case CallS(target, args) =>
      ExpressionsResolved(p.symbols, args, offsets);
      if target.ToValue? { ExpressionResolved(p.symbols, target.rule_expr, offsets); }
    case ParS(ss) => AllLexicalScoped(p, ss, names);
    case SeqS(ss) => AllLexicalScoped(p, ss, names);
    case ForallS(x, r, b) =>
      if r.InList? { ExpressionResolved(p.symbols, r.list, offsets); }
      if r.InInt? { ExpressionResolved(p.symbols, r.bound, offsets); }
      LexicalScoped(p, b, names + [x]);
      assert Set(names + [x]) == Set(names) + {x};
    case IterateS(b) => LexicalScoped(p, b, names);
    case AssertS(c) => ExpressionResolved(p.symbols, c, offsets);
    case _ =>
  }

  lemma {:induction false} AllLexicalScoped(p: NamedProgram, stmts: seq<NamedStatement>, names: seq<string>)
    ensures LexicalAll(SignatureOf(p), stmts, names).Some? <==> AllWellScoped(p, stmts, Set(names))
    decreases stmts
  {
    if stmts != [] {
      var front, last := stmts[..|stmts| - 1], stmts[|stmts| - 1];
      AllLexicalScoped(p, front, names);
      LexicalScoped(p, last, names);
      assert forall s :: s in stmts <==> s in front || s == last;
    }
  }

  // ---- The checker ----

  /** The checker still has an offset for every name that is read, where it is read. */
  ghost predicate ReadsKept(symbols: Symbols, stmt: NamedStatement, c: Context)
    decreases stmt
  {
    && AllKept(c, ReadsOf(symbols, stmt))
    && match stmt
       case IfS(_, t, e) => ReadsKept(symbols, t, c) && ReadsKept(symbols, e, c.Close(Binders(t)))
       case LetS(x, _, b) => ReadsKept(symbols, b, InBinder(c, x, {}))
       case ForallS(x, _, b) => ReadsKept(symbols, b, InBinder(c, x, {}))
       case ParS(ss) => AllReadsKept(symbols, ss, c)
       case SeqS(ss) => AllReadsKept(symbols, ss, c)
       case IterateS(b) => ReadsKept(symbols, b, c)
       case _ => true
  }

  ghost predicate AllReadsKept(symbols: Symbols, stmts: seq<NamedStatement>, c: Context)
    decreases stmts
  {
    stmts != [] ==>
      var front, last := stmts[..|stmts| - 1], stmts[|stmts| - 1];
      AllReadsKept(symbols, front, c) && ReadsKept(symbols, last, c.Close(BindersAll(front)))
  }

  ghost predicate AllKept(c: Context, xs: set<string>) {
    forall x :: x in xs ==> c.Kept(x)
  }

  /** The names in the table are those that are kept, and they are in scope. */
  lemma KeptInTable(c: Context)
    requires c.Nested()
    ensures forall x :: x in c.Table().Keys <==> c.Kept(x)
    ensures c.Table().Keys <= Set(c.Names())
  {
    TableBounded(c);
    forall x ensures x in c.Table().Keys <==> c.Kept(x) { TableKeeps(c, x); }
  }

  /** One expression at a point of a rule. */
  lemma ExpressionAccepted(symbols: Symbols, e: NamedExpression, c: Context)
    requires c.Nested()
    ensures ResolveExpression(symbols, e, c.Table()).Some? <==>
      ScopedExpression(symbols, e, Set(c.Names())) && AllKept(c, Reads(symbols, e))
  {
    KeptInTable(c);
    ExpressionResolved(symbols, e, c.Table());
    ExpressionNarrowed(symbols, e, c.Table().Keys, Set(c.Names()));
  }

  lemma ExpressionsAccepted(symbols: Symbols, es: seq<NamedExpression>, c: Context)
    requires c.Nested()
    ensures ResolveExpressions(symbols, es, c.Table()).Some? <==>
      AllScoped(symbols, es, Set(c.Names())) && AllKept(c, ReadsAll(symbols, es))
  {
    KeptInTable(c);
    ExpressionsResolved(symbols, es, c.Table());
    ExpressionsNarrowed(symbols, es, c.Table().Keys, Set(c.Names()));
  }

  /** The checker accepts a statement. */
  ghost predicate Accepted(p: NamedProgram, stmt: NamedStatement, c: Context) {
    Resolve(SignatureOf(p), stmt, |c.Names()|, c.Table()).Resolved?
  }

  ghost predicate AllAccepted(p: NamedProgram, stmts: seq<NamedStatement>, c: Context) {
    ResolveAll(SignatureOf(p), stmts, |c.Names()|, c.Table()).Resolved?
  }

  ghost predicate Accepting(p: NamedProgram, stmt: NamedStatement, c: Context) {
    Accepted(p, stmt, c) <==> WellScoped(p, stmt, Set(c.Names())) && ReadsKept(p.symbols, stmt, c)
  }

  lemma SimpleAccepted(p: NamedProgram, stmt: NamedStatement, c: Context)
    requires c.Nested() && (stmt.UpdateS? || stmt.CallS? || stmt.AssertS? || stmt.SkipS? || stmt.DiedieS?)
    ensures Accepting(p, stmt, c)
  {
    match stmt
    case UpdateS(_, args, expr) =>
      ExpressionsAccepted(p.symbols, args, c);
      ExpressionAccepted(p.symbols, expr, c);
    case CallS(target, args) =>
      ExpressionsAccepted(p.symbols, args, c);
      if target.ToValue? { ExpressionAccepted(p.symbols, target.rule_expr, c); }
    case AssertS(cond) => ExpressionAccepted(p.symbols, cond, c);
    case _ =>
  }

  lemma IfAccepted(p: NamedProgram, stmt: NamedStatement, c: Context)
    requires c.Nested() && stmt.IfS?
    requires Accepting(p, stmt.then_, c) && Accepting(p, stmt.else_, c.Close(Binders(stmt.then_)))
    ensures Accepting(p, stmt, c)
  {
    ExpressionAccepted(p.symbols, stmt.condition, c);
    OffsetsAfter(SignatureOf(p), stmt.then_, |c.Names()|, c.Table());
    CloseFacts(c, Binders(stmt.then_));
  }

  lemma LetAccepted(p: NamedProgram, stmt: NamedStatement, c: Context)
    requires c.Nested() && stmt.LetS? && Accepting(p, stmt.body, InBinder(c, stmt.name, {}))
    ensures Accepting(p, stmt, c)
  {
    ExpressionAccepted(p.symbols, stmt.expr, c);
    BinderOpened(c, stmt.name);
    assert Set(c.Names() + [stmt.name]) == Set(c.Names()) + {stmt.name};
  }

  lemma ForallAccepted(p: NamedProgram, stmt: NamedStatement, c: Context)
    requires c.Nested() && stmt.ForallS? && Accepting(p, stmt.body, InBinder(c, stmt.name, {}))
    ensures Accepting(p, stmt, c)
  {
    if stmt.range.InList? { ExpressionAccepted(p.symbols, stmt.range.list, c); }
    if stmt.range.InInt? { ExpressionAccepted(p.symbols, stmt.range.bound, c); }
    BinderOpened(c, stmt.name);
    assert Set(c.Names() + [stmt.name]) == Set(c.Names()) + {stmt.name};
  }

  /**
    At any point of a rule, with or without shadowing, the checker accepts exactly the well scoped
    statements all of whose reads are kept.
   */
  lemma {:induction false} AcceptedExact(p: NamedProgram, stmt: NamedStatement, c: Context)
    requires c.Nested()
    ensures Accepting(p, stmt, c)
    decreases stmt
  {
    match stmt
    case IfS(_, t, e) =>
      CloseFacts(c, Binders(t));
      AcceptedExact(p, t, c);
      AcceptedExact(p, e, c.Close(Binders(t)));
      IfAccepted(p, stmt, c);
    case LetS(x, _, b) =>
      BinderOpened(c, x);
      AcceptedExact(p, b, InBinder(c, x, {}));
      LetAccepted(p, stmt, c);
    case ForallS(x, _, b) =>
      BinderOpened(c, x);
      AcceptedExact(p, b, InBinder(c, x, {}));
      ForallAccepted(p, stmt, c);
    case ParS(ss) => AllAcceptedExact(p, ss, c);
    case SeqS(ss) => AllAcceptedExact(p, ss, c);
    case IterateS(b) => AcceptedExact(p, b, c);
    case _ => SimpleAccepted(p, stmt, c);
  }

  lemma {:induction false} AllAcceptedExact(p: NamedProgram, stmts: seq<NamedStatement>, c: Context)
    requires c.Nested()
    ensures AllAccepted(p, stmts, c) <==>
      AllWellScoped(p, stmts, Set(c.Names())) && AllReadsKept(p.symbols, stmts, c)
    decreases stmts
  {
    if stmts != [] {
      var front, last := stmts[..|stmts| - 1], stmts[|stmts| - 1];
      AllAcceptedExact(p, front, c);
      OffsetsAfterAll(SignatureOf(p), front, |c.Names()|, c.Table());
      CloseFacts(c, BindersAll(front));
      AcceptedExact(p, last, c.Close(BindersAll(front)));
      assert forall s :: s in stmts <==> s in front || s == last;
    }
  }

  /** The rule is well scoped, and no read in it has lost its offset. */
  ghost predicate Acceptable(p: NamedProgram, rule: NamedRule) {
    && WellScoped(p, rule.body, Set(rule.parameters))
    && ReadsKept(p.symbols, rule.body, InRule(rule.parameters, {}))
  }

  /** The checker accepts exactly such rules. */
  lemma RuleAccepted(p: NamedProgram, rule: NamedRule)
    ensures ResolveRule(SignatureOf(p), rule).Some? <==> Acceptable(p, rule)
  {
    assert ParameterOffsets(rule.parameters) - {} == ParameterOffsets(rule.parameters);
    AcceptedExact(p, rule.body, InRule(rule.parameters, {}));
  }

  // ---- Without shadowing ----

  /** Parameters are distinct and no binder reuses a name in scope. */
  ghost predicate Unshadowed(rule: NamedRule) {
    Distinct(rule.parameters) && NoShadowing(rule.body, rule.parameters)
  }

  /** Every well scoped rule without shadowing is accepted. */
  lemma UnshadowedAccepted(p: NamedProgram, name: string)
    requires name in p.rules && Unshadowed(p.rules[name])
    requires WellScoped(p, p.rules[name].body, Set(p.rules[name].parameters))
    ensures Acceptable(p, p.rules[name])
  {
    var g, rule := SignatureOf(p), p.rules[name];
    LexicalScoped(p, rule.body, rule.parameters);
    UnshadowedReadsRight(g, rule.body, InRule(rule.parameters, {}));
    RuleExact(p, name);
    RuleAccepted(p, rule);
  }

  ghost predicate AllAcceptable(p: NamedProgram) {
    forall r :: r in p.rules ==> Acceptable(p, p.rules[r])
  }

  ghost predicate NothingShadowed(p: NamedProgram) {
    forall r :: r in p.rules ==> Unshadowed(p.rules[r])
  }

  /** So is every well scoped program without shadowing, and only well scoped programs are. */
  lemma ScopedAccepted(p: NamedProgram)
    ensures AllAcceptable(p) ==> ScopedProgram(p)
    ensures ScopedProgram(p) && NothingShadowed(p) ==> AllAcceptable(p)
  {
    if ScopedProgram(p) && NothingShadowed(p) {
      forall r | r in p.rules ensures Acceptable(p, p.rules[r]) {
        UnshadowedAccepted(p, r);
      }
    }
    if AllAcceptable(p) {
      forall r | r in p.rules ensures WellScoped(p, p.rules[r].body, Set(p.rules[r].parameters)) {
        assert Acceptable(p, p.rules[r]);
      }
    }
  }
}
