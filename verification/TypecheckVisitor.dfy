/**
  The static resolution of names by the type checker, which keeps one table from names to offsets.
  Binders insert into it without replacing and erase on the way out. It resolves a read as lexical
  scoping does exactly under a condition on the binders around it and before it.
 */
module TypecheckVisitor {
  import opened Values
  import opened Sequences
  import opened Syntax
  import opened Semantics
  import opened NamedSyntax
  import opened Resolution

  datatype Resolved<+T> = Resolved(node: T, offsets: Offsets) | Rejected

  /** std::map::insert does not replace an entry. */
  function Bind(offsets: Offsets, x: string, depth: nat): Offsets {
    if x in offsets then offsets else offsets[x := depth]
  }

  /** The offsets of rule parameters: the parser gives each one the number of names so far. */
  function ParameterOffsets(ps: seq<string>): Offsets {
    if ps == [] then map[]
    else
      var offsets := ParameterOffsets(ps[..|ps| - 1]);
      offsets[ps[|ps| - 1] := |offsets|]
  }

  /** The checker's walk over a statement at a depth of the frame; the offsets are passed through. */
  function Resolve(g: Signature, stmt: NamedStatement, depth: nat, offsets: Offsets): Resolved<Statement> {
    match stmt
    case SkipS => Resolved(Skip, offsets)
    case UpdateS(func, args, expr) =>
      var e := ResolveExpression(g.symbols, expr, offsets);
      var es := ResolveExpressions(g.symbols, args, offsets);
      if e.None? || es.None? || !Takes(g.symbols, func, |args|) then Rejected
      else Resolved(Update(func, es.value, e.value), offsets)
    case IfS(cond, then_, else_) =>
      var c := ResolveExpression(g.symbols, cond, offsets);
      if c.None? then Rejected else
      var t := Resolve(g, then_, depth, offsets);
      if t.Rejected? then Rejected else
      var e := Resolve(g, else_, depth, t.offsets);
      if e.Rejected? then Rejected else Resolved(IfThenElse(c.value, t.node, e.node), e.offsets)
    case LetS(x, expr, body) =>
      var e := ResolveExpression(g.symbols, expr, offsets);
      if e.None? then Rejected else
      var b := Resolve(g, body, depth + 1, Bind(offsets, x, depth));
      if b.Rejected? then Rejected else Resolved(Let(e.value, b.node), b.offsets - {x})
    case CallS(target, args) =>
      var t := ResolveTarget(g, target, |args|, offsets);
      var es := ResolveExpressions(g.symbols, args, offsets);
      if t.None? || es.None? then Rejected else Resolved(Call(t.value, es.value), offsets)
    case ParS(stmts) =>
      var ss := ResolveAll(g, stmts, depth, offsets);
      if ss.Rejected? then Rejected else Resolved(ParBlock(ss.node), ss.offsets)
    case SeqS(stmts) =>
      var ss := ResolveAll(g, stmts, depth, offsets);
      if ss.Rejected? then Rejected else Resolved(SeqBlock(ss.node), ss.offsets)
    case ForallS(x, range, body) =>
      var r := ResolveRange(g.symbols, range, offsets);
      if r.None? then Rejected else
      var b := Resolve(g, body, depth + 1, Bind(offsets, x, depth));
      if b.Rejected? then Rejected else Resolved(Forall(r.value, b.node), b.offsets - {x})
    case IterateS(body) =>
      var b := Resolve(g, body, depth, offsets);
      if b.Rejected? then Rejected else Resolved(Iterate(b.node), b.offsets)
    case AssertS(cond) =>
      var c := ResolveExpression(g.symbols, cond, offsets);
      if c.None? then Rejected else Resolved(Assert(c.value), offsets)
    case DiedieS => Resolved(Diedie, offsets)
  }

  function ResolveAll(g: Signature, stmts: seq<NamedStatement>, depth: nat, offsets: Offsets)
    : (r: Resolved<seq<Statement>>)
    ensures r.Resolved? ==> |r.node| == |stmts|
  {
    if stmts == [] then Resolved([], offsets)
    else
      var front := ResolveAll(g, stmts[..|stmts| - 1], depth, offsets);
      if front.Rejected? then Rejected else
      var last := Resolve(g, stmts[|stmts| - 1], depth, front.offsets);
      if last.Rejected? then Rejected else Resolved(front.node + [last.node], last.offsets)
  }

  function ResolveRule(g: Signature, rule: NamedRule): Option<Rule> {
    var b := Resolve(g, rule.body, |rule.parameters|, ParameterOffsets(rule.parameters));
    if b.Rejected? then None else Some(Rule(|rule.parameters|, b.node))
  }

  /** The program q is what the checker makes of p. */
  ghost predicate Resolves(p: NamedProgram, q: Program) {
    q.Keys == p.rules.Keys && forall r :: r in q ==> ResolveRule(SignatureOf(p), p.rules[r]) == Some(q[r])
  }

  // ---- What a statement does to the table ----

  /** All names that the binders inside a statement bind. */
  function Binders(stmt: NamedStatement): set<string> {
    match stmt
    case IfS(_, t, e) => Binders(t) + Binders(e)
    case LetS(x, _, b) => Binders(b) + {x}
    case ForallS(x, _, b) => Binders(b) + {x}
    case ParS(ss) => BindersAll(ss)
    case SeqS(ss) => BindersAll(ss)
    case IterateS(b) => Binders(b)
    case _ => {}
  }

  function BindersAll(stmts: seq<NamedStatement>): set<string> {
    if stmts == [] then {} else BindersAll(stmts[..|stmts| - 1]) + Binders(stmts[|stmts| - 1])
  }

  /** A statement takes from the table exactly the names that it binds, also those that were there before. */
  lemma {:induction false} OffsetsAfter(g: Signature, stmt: NamedStatement, depth: nat, offsets: Offsets)
    ensures var r := Resolve(g, stmt, depth, offsets); r.Resolved? ==>
      && r.offsets == offsets - Binders(stmt)
      && (r.offsets == offsets <==> Binders(stmt) !! offsets.Keys)
    decreases stmt
  {
    var r := Resolve(g, stmt, depth, offsets);
    if r.Rejected? { return; }
    match stmt
    case IfS(_, t, e) =>
      OffsetsAfter(g, t, depth, offsets);
      OffsetsAfter(g, e, depth, offsets - Binders(t));
    case LetS(x, _, b) => OffsetsAfter(g, b, depth + 1, Bind(offsets, x, depth));
    case ForallS(x, _, b) => OffsetsAfter(g, b, depth + 1, Bind(offsets, x, depth));
    case ParS(ss) => OffsetsAfterAll(g, ss, depth, offsets);
    case SeqS(ss) => OffsetsAfterAll(g, ss, depth, offsets);
    case IterateS(b) => OffsetsAfter(g, b, depth, offsets);
    case _ =>
    assert r.offsets == offsets - Binders(stmt);
  }

  lemma {:induction false} OffsetsAfterAll(g: Signature, stmts: seq<NamedStatement>, depth: nat, offsets: Offsets)
    ensures var r := ResolveAll(g, stmts, depth, offsets); r.Resolved? ==> r.offsets == offsets - BindersAll(stmts)
    decreases stmts
  {
    if stmts != [] {
      var front := stmts[..|stmts| - 1];
      OffsetsAfterAll(g, front, depth, offsets);
      OffsetsAfter(g, stmts[|stmts| - 1], depth, offsets - BindersAll(front));
    }
  }

  // ---- The table at a point of a rule ----

  /**
    The surroundings of a point of a rule: its parameters, and the binders that are open there, each
    with the names of the binders that were opened and closed again since.
   */
  datatype Context =
    | InRule(parameters: seq<string>, closed: set<string>)
    | InBinder(outer: Context, name: string, closed: set<string>)
  {
    function Names(): seq<string> {
      if InRule? then parameters else outer.Names() + [name]
    }

    /** What is closed since an inner binder was opened is also closed since an outer one was. */
    predicate Nested() {
      InBinder? ==> closed <= outer.closed && outer.Nested()
    }

    /** The surroundings after some more binders have been closed. */
    function Close(xs: set<string>): Context {
      match this
      case InRule(ps, cs) => InRule(ps, cs + xs)
      case InBinder(o, x, cs) => InBinder(o.Close(xs), x, cs + xs)
    }

    /** The checker's table. */
    function Table(): Offsets {
      match this
      case InRule(ps, cs) => ParameterOffsets(ps) - cs
      case InBinder(o, x, cs) => Bind(o.Table(), x, |o.Names()|) - cs
    }

    /** The name is bound here, and no binder of it has been closed since the innermost one was opened. */
    predicate Kept(x: string) {
      match this
      case InRule(ps, cs) => x in ps && x !in cs
      case InBinder(o, y, cs) => if x == y then x !in cs else o.Kept(x)
    }

    /**
      A read of the name is right here: no binder of it has been closed since the innermost one was
      opened, and when that one was opened, the name was not kept from further out. Among parameters,
      no name may be repeated before the last one of that name.
     */
    ghost predicate Right(x: string) {
      match this
      case InRule(ps, cs) => x in ps && x !in cs && Distinct(ps[..Innermost(ps, x).value])
      case InBinder(o, y, cs) => if x == y then x !in cs && !o.Kept(x) else o.Right(x)
    }
  }

  lemma {:induction false} CloseFacts(c: Context, xs: set<string>)
    requires c.Nested()
    ensures c.Close(xs).Nested() && c.Close(xs).Names() == c.Names() && c.Close(xs).closed == c.closed + xs
    ensures c.Close(xs).Table() == c.Table() - xs
    decreases c
  {
    if c.InBinder? {
      CloseFacts(c.outer, xs);
    }
  }

  lemma {:induction false} ParameterOffsetsBounded(ps: seq<string>)
    ensures forall x :: x in ParameterOffsets(ps) <==> x in ps
    ensures |ParameterOffsets(ps)| <= |ps|
    ensures |ParameterOffsets(ps)| == |ps| <==> Distinct(ps)
    ensures forall x :: x in ps ==> ParameterOffsets(ps)[x] < |ps|
  {
    if ps != [] {
      var front, last := ps[..|ps| - 1], ps[|ps| - 1];
      ParameterOffsetsBounded(front);
      if Distinct(ps) {
        assert last !in front;
      } else if Distinct(front) {
        assert last in front;
      }
    }
  }

  /** A parameter has its last position as offset exactly when no name is repeated before that one. */
  lemma {:induction false} ParameterOffsetExact(ps: seq<string>, x: string)
    requires x in ps
    ensures x in ParameterOffsets(ps)
    ensures Some(ParameterOffsets(ps)[x]) == Innermost(ps, x) <==> Distinct(ps[..Innermost(ps, x).value])
  {
    var front, last := ps[..|ps| - 1], ps[|ps| - 1];
    ParameterOffsetsBounded(ps);
    if x == last {
      ParameterOffsetsBounded(front);
    } else {
      ParameterOffsetExact(front, x);
      assert front[..Innermost(front, x).value] == ps[..Innermost(ps, x).value];
    }
  }

  lemma {:induction false} TableBounded(c: Context)
    ensures forall x :: x in c.Table() ==> x in c.Names() && c.Table()[x] < |c.Names()|
    decreases c
  {
    match c
    case InRule(ps, _) => ParameterOffsetsBounded(ps);
    case InBinder(o, _, _) => TableBounded(o);
  }

  lemma {:induction false} TableKeeps(c: Context, x: string)
    requires c.Nested()
    ensures x in c.Table() <==> c.Kept(x)
    ensures c.Kept(x) ==> x !in c.closed
    decreases c
  {
    match c
    case InRule(ps, _) => ParameterOffsetsBounded(ps);
    case InBinder(o, _, _) => TableKeeps(o, x);
  }

  /** The table has the position of the innermost binder of a name exactly where a read of it is right. */
  lemma {:induction false} LookupExact(c: Context, x: string)
    requires c.Nested()
    ensures x in c.Table() && Some(c.Table()[x]) == Innermost(c.Names(), x) <==> c.Right(x)
    decreases c
  {
    TableKeeps(c, x);
    match c
    case InRule(ps, _) => if x in ps { ParameterOffsetExact(ps, x); }
    case InBinder(o, y, _) =>
      LookupExact(o, x);
      TableKeeps(o, x);
      TableBounded(o);
      assert (o.Names() + [y])[..|o.Names()|] == o.Names();
  }

  // ---- Reads that are right ----

  ghost predicate AllRight(c: Context, xs: set<string>) {
    forall x :: x in xs ==> c.Right(x)
  }

  lemma AllRightBoth(c: Context, xs: set<string>, ys: set<string>)
    ensures AllRight(c, xs + ys) <==> AllRight(c, xs) && AllRight(c, ys)
  {
  }

  /** Every read of a statement is right where it stands. */
  ghost predicate ReadsRight(symbols: Symbols, stmt: NamedStatement, c: Context)
    decreases stmt
  {
    && AllRight(c, ReadsOf(symbols, stmt))
    && match stmt
       case IfS(_, t, e) => ReadsRight(symbols, t, c) && ReadsRight(symbols, e, c.Close(Binders(t)))
       case LetS(x, _, b) => ReadsRight(symbols, b, InBinder(c, x, {}))
       case ForallS(x, _, b) => ReadsRight(symbols, b, InBinder(c, x, {}))
       case ParS(ss) => AllReadsRight(symbols, ss, c)
       case SeqS(ss) => AllReadsRight(symbols, ss, c)
       case IterateS(b) => ReadsRight(symbols, b, c)
       case _ => true
  }

  ghost predicate AllReadsRight(symbols: Symbols, stmts: seq<NamedStatement>, c: Context)
    decreases stmts
  {
    stmts != [] ==>
      var front, last := stmts[..|stmts| - 1], stmts[|stmts| - 1];
      AllReadsRight(symbols, front, c) && ReadsRight(symbols, last, c.Close(BindersAll(front)))
  }

  ghost predicate ProgramReadsRight(p: NamedProgram) {
    forall r :: r in p.rules ==> ReadsRight(p.symbols, p.rules[r].body, InRule(p.rules[r].parameters, {}))
  }

  lemma AppendInjective<T>(s: seq<T>, x: T, t: seq<T>, y: T)
    ensures s + [x] == t + [y] <==> s == t && x == y
  {
    assert (s + [x])[..|s + [x]| - 1] == s && (t + [y])[..|t + [y]| - 1] == t;
    assert (s + [x])[|s + [x]| - 1] == x && (t + [y])[|t + [y]| - 1] == y;
  }

  /** Two tables resolve an expression alike exactly when they agree on the names that it reads. */
  lemma {:induction false} ExpressionExact(symbols: Symbols, e: NamedExpression, offsets: Offsets, inner: Offsets)
    requires offsets.Keys <= inner.Keys
    ensures ResolveExpression(symbols, e, inner).None? ==> ResolveExpression(symbols, e, offsets).None?
    ensures ResolveExpression(symbols, e, inner).Some? ==>
      (ResolveExpression(symbols, e, offsets) == ResolveExpression(symbols, e, inner) <==>
       forall x :: x in Reads(symbols, e) ==> x in offsets && offsets[x] == inner[x])
    decreases e
  {
    match e
    case Literal(_) =>
    case Atom(x, args) => if x in symbols { ExpressionsExact(symbols, args, offsets, inner); }
    case BinaryOf(_, left, right) =>
      ExpressionExact(symbols, left, offsets, inner);
      ExpressionExact(symbols, right, offsets, inner);
    case NotOf(operand) => ExpressionExact(symbols, operand, offsets, inner);
  }

  lemma {:induction false} ExpressionsExact(symbols: Symbols, es: seq<NamedExpression>, offsets: Offsets,
                                            inner: Offsets)
    requires offsets.Keys <= inner.Keys
    ensures ResolveExpressions(symbols, es, inner).None? ==> ResolveExpressions(symbols, es, offsets).None?
    ensures ResolveExpressions(symbols, es, inner).Some? ==>
      (ResolveExpressions(symbols, es, offsets) == ResolveExpressions(symbols, es, inner) <==>
       forall x :: x in ReadsAll(symbols, es) ==> x in offsets && offsets[x] == inner[x])
    decreases es
  {
    if es != [] {
      var front, last := es[..|es| - 1], es[|es| - 1];
      ExpressionsExact(symbols, front, offsets, inner);
      ExpressionExact(symbols, last, offsets, inner);
      var rs, r := ResolveExpressions(symbols, front, offsets), ResolveExpression(symbols, last, offsets);
      var rs', r' := ResolveExpressions(symbols, front, inner), ResolveExpression(symbols, last, inner);
      if rs.Some? && r.Some? && rs'.Some? && r'.Some? {
        AppendInjective(rs.value, r.value, rs'.value, r'.value);
      }
    }
  }

  /** The reads of a statement itself are right exactly when the table agrees with lexical scoping on them. */
  lemma ReadsExact(c: Context, xs: set<string>)
    requires c.Nested()
    ensures c.Table().Keys <= Innermosts(c.Names()).Keys
    ensures xs <= Innermosts(c.Names()).Keys ==>
      (AllRight(c, xs) <==>
       (forall x :: x in xs ==> x in c.Table() && c.Table()[x] == Innermosts(c.Names())[x]))
  {
    TableBounded(c);
    forall x | x in xs ensures x in Innermosts(c.Names()) ==>
        (c.Right(x) <==> x in c.Table() && c.Table()[x] == Innermosts(c.Names())[x]) {
      LookupExact(c, x);
    }
  }

  /** An expression that resolves reads only names in the table. */
  lemma {:induction false} ReadsInScope(symbols: Symbols, e: NamedExpression, offsets: Offsets)
    ensures ResolveExpression(symbols, e, offsets).Some? ==> Reads(symbols, e) <= offsets.Keys
    decreases e
  {
    match e
    case Literal(_) =>
    case Atom(x, args) => if x in symbols { AllReadsInScope(symbols, args, offsets); }
    case BinaryOf(_, left, right) =>
      ReadsInScope(symbols, left, offsets);
      ReadsInScope(symbols, right, offsets);
    case NotOf(operand) => ReadsInScope(symbols, operand, offsets);
  }

  lemma {:induction false} AllReadsInScope(symbols: Symbols, es: seq<NamedExpression>, offsets: Offsets)
    ensures ResolveExpressions(symbols, es, offsets).Some? ==> ReadsAll(symbols, es) <= offsets.Keys
    decreases es
  {
    if es != [] {
      AllReadsInScope(symbols, es[..|es| - 1], offsets);
      ReadsInScope(symbols, es[|es| - 1], offsets);
    }
  }

  /** One expression at a point of a rule: the checker agrees with lexical scoping exactly when its reads are right. */
  lemma ExpressionAt(symbols: Symbols, e: NamedExpression, c: Context)
    requires c.Nested()
    ensures var lexical, checked :=
        ResolveExpression(symbols, e, Innermosts(c.Names())), ResolveExpression(symbols, e, c.Table());
      && (lexical.None? ==> checked.None?)
      && (lexical.Some? ==> (checked == lexical <==> AllRight(c, Reads(symbols, e))))
  {
    ReadsInScope(symbols, e, Innermosts(c.Names()));
    ReadsExact(c, Reads(symbols, e));
    ExpressionExact(symbols, e, c.Table(), Innermosts(c.Names()));
  }

  lemma ExpressionsAt(symbols: Symbols, es: seq<NamedExpression>, c: Context)
    requires c.Nested()
    ensures var lexical, checked :=
        ResolveExpressions(symbols, es, Innermosts(c.Names())), ResolveExpressions(symbols, es, c.Table());
      && (lexical.None? ==> checked.None?)
      && (lexical.Some? ==> (checked == lexical <==> AllRight(c, ReadsAll(symbols, es))))
  {
    AllReadsInScope(symbols, es, Innermosts(c.Names()));
    ReadsExact(c, ReadsAll(symbols, es));
    ExpressionsExact(symbols, es, c.Table(), Innermosts(c.Names()));
  }

  /** The checker yields what lexical scoping yields. */
  ghost predicate AgreesAt(g: Signature, stmt: NamedStatement, c: Context) {
    var r := Resolve(g, stmt, |c.Names()|, c.Table());
    r.Resolved? && Lexical(g, stmt, c.Names()) == Some(r.node)
  }

  ghost predicate AllAgreeAt(g: Signature, stmts: seq<NamedStatement>, c: Context) {
    var r := ResolveAll(g, stmts, |c.Names()|, c.Table());
    r.Resolved? && LexicalAll(g, stmts, c.Names()) == Some(r.node)
  }

  lemma BinderOpened(c: Context, x: string)
    requires c.Nested()
    ensures InBinder(c, x, {}).Nested() && InBinder(c, x, {}).Table() == Bind(c.Table(), x, |c.Names()|)
    ensures InBinder(c, x, {}).Names() == c.Names() + [x] && |InBinder(c, x, {}).Names()| == |c.Names()| + 1
  {
    assert Bind(c.Table(), x, |c.Names()|) - {} == Bind(c.Table(), x, |c.Names()|);
  }

  /**
    What has to hold of one statement: accepted by the checker only if by lexical scoping, and alike iff
    its reads are right.
   */
  ghost predicate Exact(g: Signature, stmt: NamedStatement, c: Context) {
    && (Lexical(g, stmt, c.Names()).None? ==> Resolve(g, stmt, |c.Names()|, c.Table()).Rejected?)
    && (Lexical(g, stmt, c.Names()).Some? ==> (AgreesAt(g, stmt, c) <==> ReadsRight(g.symbols, stmt, c)))
  }

  lemma UpdateExact(g: Signature, stmt: NamedStatement, c: Context)
    requires stmt.UpdateS? && c.Nested()
    ensures Exact(g, stmt, c)
  {
    var xs, ys := Reads(g.symbols, stmt.expr), ReadsAll(g.symbols, stmt.arguments);
    ExpressionAt(g.symbols, stmt.expr, c);
    ExpressionsAt(g.symbols, stmt.arguments, c);
    AllRightBoth(c, xs, ys);
  }

  lemma CallExact(g: Signature, stmt: NamedStatement, c: Context)
    requires stmt.CallS? && c.Nested()
    ensures Exact(g, stmt, c)
  {
    var ys := ReadsAll(g.symbols, stmt.arguments);
    ExpressionsAt(g.symbols, stmt.arguments, c);
    if stmt.target.ToValue? {
      ExpressionAt(g.symbols, stmt.target.rule_expr, c);
      AllRightBoth(c, ys, Reads(g.symbols, stmt.target.rule_expr));
    } else {
      AllRightBoth(c, ys, {});
    }
  }

  lemma LetExact(g: Signature, stmt: NamedStatement, c: Context)
    requires stmt.LetS? && c.Nested() && Exact(g, stmt.body, InBinder(c, stmt.name, {}))
    ensures Exact(g, stmt, c)
  {
    ExpressionAt(g.symbols, stmt.expr, c);
    BinderOpened(c, stmt.name);
  }

  lemma ForallExact(g: Signature, stmt: NamedStatement, c: Context)
    requires stmt.ForallS? && c.Nested() && Exact(g, stmt.body, InBinder(c, stmt.name, {}))
    ensures Exact(g, stmt, c)
  {
    RangeAt(g.symbols, stmt.range, c);
    BinderOpened(c, stmt.name);
  }

  lemma RangeAt(symbols: Symbols, range: NamedRange, c: Context)
    requires c.Nested()
    ensures var lexical, checked :=
        ResolveRange(symbols, range, Innermosts(c.Names())), ResolveRange(symbols, range, c.Table());
      && (lexical.None? ==> checked.None?)
      && (lexical.Some? ==> (checked == lexical <==> AllRight(c, ReadsOfRange(symbols, range))))
  {
    match range
    case InList(e) => ExpressionAt(symbols, e, c);
    case InInt(e) => ExpressionAt(symbols, e, c);
    case InEnum(_, _) =>
  }

  /** The second branch is resolved with the table that the first one leaves. */
  lemma IfExact(g: Signature, stmt: NamedStatement, c: Context)
    requires stmt.IfS? && c.Nested()
    requires Exact(g, stmt.then_, c) && Exact(g, stmt.else_, c.Close(Binders(stmt.then_)))
    ensures Exact(g, stmt, c)
  {
    ExpressionAt(g.symbols, stmt.condition, c);
    OffsetsAfter(g, stmt.then_, |c.Names()|, c.Table());
    CloseFacts(c, Binders(stmt.then_));
  }

  /** So is the last statement of a block, with the table that the others leave. */
  lemma LastExact(g: Signature, stmts: seq<NamedStatement>, c: Context)
    requires stmts != [] && c.Nested()
    requires var front := stmts[..|stmts| - 1];
      var r := ResolveAll(g, front, |c.Names()|, c.Table());
      && (r.Resolved? ==> r.offsets == c.Close(BindersAll(front)).Table())
      && c.Close(BindersAll(front)).Names() == c.Names()
    ensures LexicalAll(g, stmts, c.Names()).Some? ==>
      var front, last := stmts[..|stmts| - 1], stmts[|stmts| - 1];
      (AllAgreeAt(g, stmts, c) <==> AllAgreeAt(g, front, c) && AgreesAt(g, last, c.Close(BindersAll(front))))
  {
    var front, last := stmts[..|stmts| - 1], stmts[|stmts| - 1];
    var rs, ls := ResolveAll(g, front, |c.Names()|, c.Table()), LexicalAll(g, front, c.Names());
    if rs.Resolved? && ls.Some? {
      var r, l := Resolve(g, last, |c.Names()|, rs.offsets), Lexical(g, last, c.Names());
      if r.Resolved? && l.Some? {
        AppendInjective(rs.node, r.node, ls.value, l.value);
      }
    }
  }

  /**
    The main result about offsets: at any point of a rule, with or without shadowing, the checker
    resolves a statement as lexical scoping does exactly when every read in it is right; and it never
    accepts a statement that lexical scoping does not.
   */
  lemma {:induction false} ResolveExact(g: Signature, stmt: NamedStatement, c: Context)
    requires c.Nested()
    ensures Exact(g, stmt, c)
    decreases stmt
  {
    match stmt
    case UpdateS(_, _, _) => UpdateExact(g, stmt, c);
    case IfS(_, t, e) =>
      CloseFacts(c, Binders(t));
      ResolveExact(g, t, c);
      ResolveExact(g, e, c.Close(Binders(t)));
      IfExact(g, stmt, c);
    case LetS(x, _, b) =>
      BinderOpened(c, x);
      ResolveExact(g, b, InBinder(c, x, {}));
      LetExact(g, stmt, c);
    case CallS(_, _) => CallExact(g, stmt, c);
    case ParS(ss) => ResolveAllExact(g, ss, c);
    case SeqS(ss) => ResolveAllExact(g, ss, c);
    case ForallS(x, _, b) =>
      BinderOpened(c, x);
      ResolveExact(g, b, InBinder(c, x, {}));
      ForallExact(g, stmt, c);
    case IterateS(b) => ResolveExact(g, b, c);
    case AssertS(cond) => ExpressionAt(g.symbols, cond, c);
    case _ =>
  }

  lemma {:induction false} ResolveAllExact(g: Signature, stmts: seq<NamedStatement>, c: Context)
    requires c.Nested()
    ensures LexicalAll(g, stmts, c.Names()).None? ==> ResolveAll(g, stmts, |c.Names()|, c.Table()).Rejected?
    ensures LexicalAll(g, stmts, c.Names()).Some? ==> (AllAgreeAt(g, stmts, c) <==> AllReadsRight(g.symbols, stmts, c))
    decreases stmts
  {
    if stmts != [] {
      var front, last := stmts[..|stmts| - 1], stmts[|stmts| - 1];
      ResolveAllExact(g, front, c);
      OffsetsAfterAll(g, front, |c.Names()|, c.Table());
      CloseFacts(c, BindersAll(front));
      ResolveExact(g, last, c.Close(BindersAll(front)));
      LastExact(g, stmts, c);
    }
  }

  /** The checker accepts a rule and gives it its lexical meaning exactly when all its reads are right. */
  lemma RuleExact(p: NamedProgram, name: string)
    requires name in p.rules
    ensures var rule, g := p.rules[name], SignatureOf(p);
      && (LexicalRule(g, rule).None? ==> ResolveRule(g, rule).None?)
      && (LexicalRule(g, rule).Some? ==>
          (ResolveRule(g, rule) == LexicalRule(g, rule) <==>
             ReadsRight(p.symbols, rule.body, InRule(rule.parameters, {}))))
  {
    var rule := p.rules[name];
    assert ParameterOffsets(rule.parameters) - {} == ParameterOffsets(rule.parameters);
    ResolveExact(SignatureOf(p), rule.body, InRule(rule.parameters, {}));
  }

  /** What the checker makes of an accepted program is what lexical scoping makes of it iff all reads are right. */
  lemma ProgramExact(p: NamedProgram, q: Program)
    requires Resolves(p, q)
    ensures LexicalProgram(p, q) <==> ProgramReadsRight(p)
  {
    forall r | r in p.rules
      ensures LexicalRule(SignatureOf(p), p.rules[r]) == Some(q[r]) <==>
              ReadsRight(p.symbols, p.rules[r].body, InRule(p.rules[r].parameters, {}))
    {
      RuleExact(p, r);
      assert ResolveRule(SignatureOf(p), p.rules[r]) == Some(q[r]);
    }
  }

  /** An accepted program whose reads are right means what it says: all rules, called with any values. */
  lemma {:induction false} MeaningPreserved(p: NamedProgram, q: Program, name: string, vs: seq<Value>, s: State,
                                            fuel: nat, rounds: nat)
    requires Resolves(p, q) && ProgramReadsRight(p)
    ensures name in p.rules && |vs| == |p.rules[name].parameters| ==>
      Denote(q, q[name].body, vs, s, fuel, rounds)
        == DenoteNamed(p, p.rules[name].body, Bindings(p.rules[name].parameters, vs), s, fuel, rounds)
  {
    ProgramExact(p, q);
    if name in p.rules && |vs| == |p.rules[name].parameters| {
      assert LexicalRule(SignatureOf(p), p.rules[name]) == Some(q[name]);
      var names := p.rules[name].parameters;
      LexicalPreserved(p, q, p.rules[name].body, Scope(names, 0), vs, Bindings(names, vs), s, fuel, rounds);
    }
  }

  /** The same for a rule that is started without values for its parameters, if all reads are placed. */
  lemma {:induction false} BarePreserved(p: NamedProgram, q: Program, name: string, s: State, fuel: nat, rounds: nat)
    requires Resolves(p, q) && ProgramReadsRight(p)
    ensures name in p.rules && RunsBare(p.symbols, p.rules[name]) ==>
      Denote(q, q[name].body, [], s, fuel, rounds) == DenoteNamed(p, p.rules[name].body, map[], s, fuel, rounds)
  {
    ProgramExact(p, q);
    if name in p.rules && RunsBare(p.symbols, p.rules[name]) {
      assert LexicalRule(SignatureOf(p), p.rules[name]) == Some(q[name]);
      var names := p.rules[name].parameters;
      assert names[|names|..] == [];
      LexicalPreserved(p, q, p.rules[name].body, Scope(names, |names|), [], map[], s, fuel, rounds);
    }
  }

  // ---- Without shadowing ----

  /** No binder reuses a name that is in scope. */
  ghost predicate NoShadowing(stmt: NamedStatement, names: seq<string>) {
    match stmt
    case IfS(_, t, e) => NoShadowing(t, names) && NoShadowing(e, names)
    case LetS(x, _, b) => x !in names && NoShadowing(b, names + [x])
    case ForallS(x, _, b) => x !in names && NoShadowing(b, names + [x])
    case ParS(ss) => NoneShadows(ss, names)
    case SeqS(ss) => NoneShadows(ss, names)
    case IterateS(b) => NoShadowing(b, names)
    case _ => true
  }

  ghost predicate NoneShadows(stmts: seq<NamedStatement>, names: seq<string>) {
    stmts != [] ==> NoneShadows(stmts[..|stmts| - 1], names) && NoShadowing(stmts[|stmts| - 1], names)
  }

  /** Names in scope are distinct, and none of them has been closed. */
  ghost predicate Clean(c: Context) {
    match c
    case InRule(ps, cs) => Distinct(ps) && forall y :: y in ps ==> y !in cs
    case InBinder(o, x, cs) => Clean(o) && x !in o.Names() && forall y :: y in c.Names() ==> y !in cs
  }

  lemma {:induction false} CleanRight(c: Context, x: string)
    requires Clean(c) && c.Nested() && x in c.Names()
    ensures c.Right(x)
    decreases c
  {
    if c.InBinder? {
      TableKeeps(c.outer, x);
      TableBounded(c.outer);
      if x != c.name { CleanRight(c.outer, x); }
    }
  }

  lemma {:induction false} CleanClose(c: Context, xs: set<string>)
    requires Clean(c) && c.Nested() && forall y :: y in xs ==> y !in c.Names()
    ensures Clean(c.Close(xs))
    decreases c
  {
    CloseFacts(c, xs);
    if c.InBinder? {
      CloseFacts(c.outer, xs);
      CleanClose(c.outer, xs);
    }
  }

  lemma {:induction false} BindersFresh(stmt: NamedStatement, names: seq<string>)
    requires NoShadowing(stmt, names)
    ensures forall y :: y in Binders(stmt) ==> y !in names
    decreases stmt
  {
    match stmt
    case IfS(_, t, e) =>
      BindersFresh(t, names);
      BindersFresh(e, names);
    case LetS(x, _, b) => BindersFresh(b, names + [x]);
    case ForallS(x, _, b) => BindersFresh(b, names + [x]);
    case ParS(ss) => AllBindersFresh(ss, names);
    case SeqS(ss) => AllBindersFresh(ss, names);
    case IterateS(b) => BindersFresh(b, names);
    case _ =>
  }

  lemma {:induction false} AllBindersFresh(stmts: seq<NamedStatement>, names: seq<string>)
    requires NoneShadows(stmts, names)
    ensures forall y :: y in BindersAll(stmts) ==> y !in names
    decreases stmts
  {
    if stmts != [] {
      AllBindersFresh(stmts[..|stmts| - 1], names);
      BindersFresh(stmts[|stmts| - 1], names);
    }
  }

  lemma ReadsOfInScope(g: Signature, stmt: NamedStatement, names: seq<string>)
    requires Lexical(g, stmt, names).Some?
    ensures forall x :: x in ReadsOf(g.symbols, stmt) ==> x in names
  {
    var offsets := Innermosts(names);
    match stmt
    case UpdateS(_, args, expr) =>
      ReadsInScope(g.symbols, expr, offsets);
      AllReadsInScope(g.symbols, args, offsets);
    case IfS(cond, _, _) => ReadsInScope(g.symbols, cond, offsets);
    case LetS(_, expr, _) => ReadsInScope(g.symbols, expr, offsets);
    case CallS(target, args) =>
      AllReadsInScope(g.symbols, args, offsets);
      if target.ToValue? { ReadsInScope(g.symbols, target.rule_expr, offsets); }
    case ForallS(_, range, _) =>
      if range.InList? { ReadsInScope(g.symbols, range.list, offsets); }
      if range.InInt? { ReadsInScope(g.symbols, range.bound, offsets); }
    case AssertS(cond) => ReadsInScope(g.symbols, cond, offsets);
    case _ =>
  }

  /** Where no binder reuses a name in scope, every read is right. */
  lemma {:induction false} UnshadowedReadsRight(g: Signature, stmt: NamedStatement, c: Context)
    requires Clean(c) && c.Nested() && NoShadowing(stmt, c.Names()) && Lexical(g, stmt, c.Names()).Some?
    ensures ReadsRight(g.symbols, stmt, c)
    decreases stmt
  {
    ReadsOfInScope(g, stmt, c.Names());
    forall x | x in ReadsOf(g.symbols, stmt) ensures c.Right(x) { CleanRight(c, x); }
    assert AllRight(c, ReadsOf(g.symbols, stmt));
    match stmt
    case IfS(_, t, e) =>
      UnshadowedReadsRight(g, t, c);
      BindersFresh(t, c.Names());
      CloseFacts(c, Binders(t));
      CleanClose(c, Binders(t));
      UnshadowedReadsRight(g, e, c.Close(Binders(t)));
    case LetS(x, _, b) => UnshadowedReadsRight(g, b, InBinder(c, x, {}));
    case ForallS(x, _, b) => UnshadowedReadsRight(g, b, InBinder(c, x, {}));
    case ParS(ss) => AllUnshadowedReadsRight(g, ss, c);
    case SeqS(ss) => AllUnshadowedReadsRight(g, ss, c);
    case IterateS(b) => UnshadowedReadsRight(g, b, c);
    case _ =>
  }

  lemma {:induction false} AllUnshadowedReadsRight(g: Signature, stmts: seq<NamedStatement>, c: Context)
    requires Clean(c) && c.Nested() && NoneShadows(stmts, c.Names()) && LexicalAll(g, stmts, c.Names()).Some?
    ensures AllReadsRight(g.symbols, stmts, c)
    decreases stmts
  {
    if stmts != [] {
      var front, last := stmts[..|stmts| - 1], stmts[|stmts| - 1];
      AllUnshadowedReadsRight(g, front, c);
      AllBindersFresh(front, c.Names());
      CloseFacts(c, BindersAll(front));
      CleanClose(c, BindersAll(front));
      UnshadowedReadsRight(g, last, c.Close(BindersAll(front)));
    }
  }

  /** So the condition covers every rule with distinct parameters and no shadowing that the checker accepts. */
  lemma UnshadowedRule(p: NamedProgram, name: string)
    requires name in p.rules && ResolveRule(SignatureOf(p), p.rules[name]).Some?
    requires Distinct(p.rules[name].parameters) && NoShadowing(p.rules[name].body, p.rules[name].parameters)
    ensures ReadsRight(p.symbols, p.rules[name].body, InRule(p.rules[name].parameters, {}))
  {
    RuleExact(p, name);
    UnshadowedReadsRight(SignatureOf(p), p.rules[name].body, InRule(p.rules[name].parameters, {}));
  }

  /** An accepted program whose parameters are distinct and that never shadows means what it says. */
  lemma UnshadowedProgram(p: NamedProgram, q: Program)
    requires Resolves(p, q)
    requires forall r :: r in p.rules ==> Distinct(p.rules[r].parameters)
    requires forall r :: r in p.rules ==> NoShadowing(p.rules[r].body, p.rules[r].parameters)
    ensures ProgramReadsRight(p) && LexicalProgram(p, q)
  {
    forall r | r in p.rules
      ensures ReadsRight(p.symbols, p.rules[r].body, InRule(p.rules[r].parameters, {}))
    {
      assert r in q;
      UnshadowedRule(p, r);
    }
    ProgramExact(p, q);
  }

  // ---- Two rules with shadowing ----

  /** A function without arguments. */
  const ONE_FUNCTION: Symbols := map["f" := 0]

  /** In `let x = 1 in let x = 2 in f := x` the checker lets f become 1. */
  lemma InnerLetIsIgnored(s: State)
    ensures var stmt := LetS("x", Literal(Int(1)), LetS("x", Literal(Int(2)), UpdateS("f", [], Atom("x", []))));
      var p := NamedProgram(ONE_FUNCTION, map[]);
      var r := Resolve(SignatureOf(p), stmt, 0, map[]);
      && r.Resolved?
      && Denote(map[], r.node, [], s, 3, 1) == Ok(map[Location("f", []) := Int(1)])
      && DenoteNamed(p, stmt, map[], s, 3, 1) == Ok(map[Location("f", []) := Int(2)])
  {
    var update := UpdateS("f", [], Atom("x", []));
    var inner := LetS("x", Literal(Int(2)), update);
    var p := NamedProgram(ONE_FUNCTION, map[]);
    var g := SignatureOf(p);
    var nothing: Offsets := map[];
    var offsets: Offsets := map["x" := 0];
    assert Bind(nothing, "x", 0) == offsets && Bind(offsets, "x", 1) == offsets;
    var resolved := Update("f", [], Parameter(0));
    assert Resolve(g, update, 2, offsets) == Resolved(resolved, offsets);
    assert Resolve(g, inner, 1, offsets) == Resolved(Let(Constant(Int(2)), resolved), offsets - {"x"});
    assert Denote(map[], resolved, [Int(1), Int(2)], s, 1, 1) == Ok(map[Location("f", []) := Int(1)]);
    assert [] + [Int(1)] == [Int(1)] && [Int(1)] + [Int(2)] == [Int(1), Int(2)];
    assert Denote(map[], Let(Constant(Int(2)), resolved), [Int(1)], s, 2, 1) == Ok(map[Location("f", []) := Int(1)]);
    var outer: Environment := map["x" := Int(1)];
    assert outer["x" := Int(2)] == map["x" := Int(2)];
    assert DenoteNamed(p, update, map["x" := Int(2)], s, 1, 1) == Ok(map[Location("f", []) := Int(2)]);
    assert DenoteNamed(p, inner, outer, s, 2, 1) == Ok(map[Location("f", []) := Int(2)]);
  }

  /**
    After an inner let of the same name, the outer variable is gone:
    `let x = 1 in { let x = 2 in skip; f := x }` is rejected.
   */
  lemma OuterLetIsLost()
    ensures var block := SeqS([LetS("x", Literal(Int(2)), SkipS), UpdateS("f", [], Atom("x", []))]);
      Resolve(Signature(ONE_FUNCTION, map[]), LetS("x", Literal(Int(1)), block), 0, map[]) == Rejected
  {
    var g := Signature(ONE_FUNCTION, map[]);
    var nothing: Offsets := map[];
    var offsets: Offsets := map["x" := 0];
    assert Bind(nothing, "x", 0) == offsets && Bind(offsets, "x", 1) == offsets && offsets - {"x"} == nothing;
    var inner, update := LetS("x", Literal(Int(2)), SkipS), UpdateS("f", [], Atom("x", []));
    assert [inner, update][..1] == [inner] && [inner][..0] == [];
    var none: seq<Statement> := [];
    assert Resolve(g, inner, 1, offsets) == Resolved(Let(Constant(Int(2)), Skip), nothing);
    assert ResolveAll(g, [], 1, offsets) == Resolved(none, offsets);
    assert none + [Let(Constant(Int(2)), Skip)] == [Let(Constant(Int(2)), Skip)];
    assert ResolveAll(g, [inner], 1, offsets) == Resolved([Let(Constant(Int(2)), Skip)], nothing);
    assert ResolveAll(g, [inner, update], 1, offsets) == Rejected;
  }

  /** A statement of a block that is rejected makes the block rejected. */
  lemma {:induction false} RejectedPrefix(g: Signature, stmts: seq<NamedStatement>, n: nat, depth: nat,
                                          offsets: Offsets)
    requires n <= |stmts| && ResolveAll(g, stmts[..n], depth, offsets).Rejected?
    ensures ResolveAll(g, stmts, depth, offsets).Rejected?
  {
    if n == |stmts| {
      assert stmts[..n] == stmts;
    } else {
      assert stmts[..|stmts| - 1][..n] == stmts[..n];
      RejectedPrefix(g, stmts[..|stmts| - 1], n, depth, offsets);
    }
  }

  class TypecheckVisitor {
    const signature: Signature
    /** The number of bindings of the current rule, and where the names are. */
    var depth: nat
    var offsets: Offsets

    constructor (signature: Signature)
      ensures this.signature == signature
    {
      this.signature := signature;
      depth, offsets := 0, map[];
    }

    /** What a walk leaves behind: the resolved node and the offsets, at the depth where it began. */
    ghost predicate Yields<T>(r: Option<T>, expected: Resolved<T>, before: nat)
      reads this
    {
      (r.Some? <==> expected.Resolved?) && (r.Some? ==> expected == Resolved(r.value, offsets) && depth == before)
    }

    /** visit_let, and the same lines of walk_forall. */
    method PushBinding(x: string)
      modifies this
      ensures offsets == Bind(old(offsets), x, old(depth)) && depth == old(depth) + 1
    {
      if x !in offsets {
        offsets := offsets[x := depth];
      }
      depth := depth + 1;
    }

    /** visit_let_post, and the same lines of walk_forall. */
    method PopBinding(x: string)
      requires depth > 0
      modifies this
      ensures offsets == old(offsets) - {x} && depth == old(depth) - 1
    {
      depth := depth - 1;
      offsets := offsets - {x};
    }

    method WalkBound(x: string, body: NamedStatement) returns (r: Option<Statement>)
      modifies this
      ensures var b := Resolve(signature, body, old(depth) + 1, Bind(old(offsets), x, old(depth)));
        Yields(r, if b.Rejected? then Rejected else Resolved(b.node, b.offsets - {x}), old(depth))
      decreases body, 1
    {
      PushBinding(x);
      r := WalkStatement(body);
      if r.Some? {
        PopBinding(x);
      }
    }

    method WalkStatements(stmts: seq<NamedStatement>) returns (r: Option<seq<Statement>>)
      modifies this
      ensures Yields(r, ResolveAll(signature, stmts, old(depth), old(offsets)), old(depth))
      decreases stmts, 0
    {
      var done: seq<Statement> := [];
      for i := 0 to |stmts|
        invariant depth == old(depth)
        invariant ResolveAll(signature, stmts[..i], old(depth), old(offsets)) == Resolved(done, offsets)
      {
        assert stmts[..i + 1][..i] == stmts[..i];
        var one := WalkStatement(stmts[i]);
        if one.None? {
          RejectedPrefix(signature, stmts, i + 1, old(depth), old(offsets));
          return None;
        }
        done := done + [one.value];
      }
      assert stmts[..|stmts|] == stmts;
      return Some(done);
    }

    /** The walk computes what Resolve describes, also where names are shadowed. */
    method WalkStatement(stmt: NamedStatement) returns (r: Option<Statement>)
      modifies this
      ensures Yields(r, Resolve(signature, stmt, old(depth), old(offsets)), old(depth))
      decreases stmt, 0
    {
      r := None;
      match stmt
      case SkipS => r := Some(Skip);
      case UpdateS(func, args, expr) =>
        var e := ResolveExpression(signature.symbols, expr, offsets);
        var es := ResolveExpressions(signature.symbols, args, offsets);
        if e.Some? && es.Some? && Takes(signature.symbols, func, |args|) { r := Some(Update(func, es.value, e.value)); }
      case IfS(cond, then_, else_) =>
        var c := ResolveExpression(signature.symbols, cond, offsets);
        if c.None? { return; }
        var t := WalkStatement(then_);
        if t.None? { return; }
        var e := WalkStatement(else_);
        if e.Some? { r := Some(IfThenElse(c.value, t.value, e.value)); }
      case LetS(x, expr, body) =>
        var e := ResolveExpression(signature.symbols, expr, offsets);
        if e.None? { return; }
        var b := WalkBound(x, body);
        if b.Some? { r := Some(Let(e.value, b.value)); }
      case CallS(target, args) =>
        var t := ResolveTarget(signature, target, |args|, offsets);
        var es := ResolveExpressions(signature.symbols, args, offsets);
        if t.Some? && es.Some? { r := Some(Call(t.value, es.value)); }
      case ParS(stmts) =>
        var ss := WalkStatements(stmts);
        if ss.Some? { r := Some(ParBlock(ss.value)); }
      case SeqS(stmts) =>
        var ss := WalkStatements(stmts);
        if ss.Some? { r := Some(SeqBlock(ss.value)); }
      case ForallS(x, range, body) =>
        var h := ResolveRange(signature.symbols, range, offsets);
        if h.None? { return; }
        var b := WalkBound(x, body);
        if b.Some? { r := Some(Forall(h.value, b.value)); }
      case IterateS(body) =>
        var b := WalkStatement(body);
        if b.Some? { r := Some(Iterate(b.value)); }
      case AssertS(cond) =>
        var c := ResolveExpression(signature.symbols, cond, offsets);
        if c.Some? { r := Some(Assert(c.value)); }
      case DiedieS => r := Some(Diedie);
    }

    /** visit_rule and the walk over the body: the parameters are the first bindings of a rule. */
    method WalkRule(rule: NamedRule) returns (r: Option<Rule>)
      modifies this
      ensures r == ResolveRule(signature, rule)
    {
      offsets := map[];
      for i := 0 to |rule.parameters|
        invariant offsets == ParameterOffsets(rule.parameters[..i])
      {
        assert rule.parameters[..i + 1][..i] == rule.parameters[..i];
        offsets := offsets[rule.parameters[i] := |offsets|];
      }
      assert rule.parameters[..|rule.parameters|] == rule.parameters;
      depth := |rule.parameters|;
      var body := WalkStatement(rule.body);
      r := if body.Some? then Some(Rule(|rule.parameters|, body.value)) else None;
    }
  }
}
