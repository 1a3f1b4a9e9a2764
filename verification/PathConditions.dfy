/**
  Path conditions of symbolic mode: the lookup that decides an if-test from the conditions already
  known on the path, and the tree of paths that a run of if-tests explores. An undecided test
  forks, and each side adds the condition or its inverse to its path.
 */
module PathConditions {
  import opened Values

  datatype Relation = EQ | NEQ | LESSEREQ | LESSER | GREATER | GREATEREQ

  datatype Condition = Condition(lhs: Value, rhs: Value, op: Relation)

  datatype Status = NotFound | Holding | Failing

  /** The result of a lookup; a condition without a symbol on either side is rejected. */
  datatype Answer = Answer(status: Status) | InvalidCondition

  /** A value for every symbol. */
  type Valuation = nat -> Value

  function Instance(v: Value, val: Valuation): Value {
    if v.Symbol? then val(v.id) else v
  }

  predicate Related(op: Relation, l: Value, r: Value) {
    match op
    case EQ => l == r
    case NEQ => l != r
    case LESSEREQ => l.Int? && r.Int? && l.i <= r.i
    case LESSER => l.Int? && r.Int? && l.i < r.i
    case GREATER => l.Int? && r.Int? && l.i > r.i
    case GREATEREQ => l.Int? && r.Int? && l.i >= r.i
  }

  predicate Holds(c: Condition, val: Valuation) {
    Related(c.op, Instance(c.lhs, val), Instance(c.rhs, val))
  }

  predicate AllHold(cs: seq<Condition>, val: Valuation) {
    forall k :: 0 <= k < |cs| ==> Holds(cs[k], val)
  }

  predicate Equational(op: Relation) {
    op.EQ? || op.NEQ?
  }

  function Invert(op: Relation): Relation {
    match op
    case EQ => NEQ
    case NEQ => EQ
    case LESSEREQ => GREATER
    case LESSER => GREATEREQ
    case GREATER => LESSEREQ
    case GREATEREQ => LESSER
  }

  /** Inverting twice changes nothing, and the inverse holds of exactly the other pairs, ordered ones for orderings. */
  lemma InvertIsComplement(op: Relation, l: Value, r: Value)
    ensures Invert(Invert(op)) == op
    ensures Equational(Invert(op)) <==> Equational(op)
    ensures (Related(Invert(op), l, r) <==> !Related(op, l, r)) <==> Equational(op) || (l.Int? && r.Int?)
  {
  }

  function Swap(c: Condition): Condition {
    Condition(c.rhs, c.lhs, c.op)
  }

  /** Swapping the sides without mirroring the operator is right for equations, and only for those. */
  lemma SwapExact(c: Condition)
    requires c.lhs.Int? && c.rhs.Symbol?
    ensures (forall val: Valuation :: Holds(Swap(c), val) <==> Holds(c, val)) <==> Equational(c.op)
  {
    if !Equational(c.op) {
      var n := c.lhs.i;
      var above: Valuation := _ => Int(n + 1);
      var below: Valuation := _ => Int(n - 1);
      assert Holds(Swap(c), above) != Holds(c, above) || Holds(Swap(c), below) != Holds(c, below);
    }
  }

  function FromBool(b: bool): Status {
    if b then Holding else Failing
  }

  /** What one known condition says about another one on the same symbol, which is on the left of both. */
  function CheckInclusion(known: Condition, check: Condition): Status {
    match check.op
    case EQ =>
      if known.op.EQ? then FromBool(known.rhs == check.rhs)
      else if known.op.NEQ? && known.rhs == check.rhs then Failing else NotFound
    case NEQ =>
      if known.op.NEQ? then if known.rhs == check.rhs then Holding else NotFound
      else if known.op.EQ? then FromBool(known.rhs != check.rhs) else NotFound
    case LESSEREQ =>
      if known.op.EQ? then FromBool(Related(LESSEREQ, known.rhs, check.rhs))
      else if known.op.LESSEREQ? && Related(LESSEREQ, check.rhs, known.rhs) then Holding
      else if known.op.GREATER? && Related(LESSEREQ, check.rhs, known.rhs) then Failing
      else NotFound
    case GREATER =>
      if known.op.EQ? then FromBool(Related(GREATER, known.rhs, check.rhs))
      else if known.op.LESSEREQ? && Related(LESSEREQ, known.rhs, check.rhs) then Failing
      else if known.op.GREATER? && Related(GREATER, check.rhs, known.rhs) then Holding
      else NotFound
    case _ => NotFound
  }

  /** The answer holds for every valuation that satisfies the known conditions. */
  ghost predicate Sound(status: Status, known: seq<Condition>, check: Condition) {
    forall val: Valuation :: AllHold(known, val) ==>
      (status.Holding? ==> Holds(check, val)) && (status.Failing? ==> !Holds(check, val))
  }

  /** The same ordering on both sides, with the check the stronger one: the lookup compares the wrong way round. */
  predicate Reversed(known: Condition, check: Condition)
    requires known.rhs.Int? && check.rhs.Int?
  {
    && known.op == check.op
    && ((check.op.LESSEREQ? && check.rhs.i < known.rhs.i) || (check.op.GREATER? && check.rhs.i > known.rhs.i))
  }

  /** For integer bounds on one symbol the answer is sound exactly when the two are not reversed. */
  lemma InclusionExact(known: Condition, check: Condition)
    requires known.lhs.Symbol? && check.lhs == known.lhs && known.rhs.Int? && check.rhs.Int?
    ensures Sound(CheckInclusion(known, check), [known], check) <==> !Reversed(known, check)
  {
    var status := CheckInclusion(known, check);
    if Reversed(known, check) {
      var n := if known.op.LESSEREQ? then known.rhs.i else known.rhs.i + 1;
      var val: Valuation := _ => Int(n);
      assert AllHold([known], val) && !Holds(check, val);
    } else {
      forall val: Valuation | AllHold([known], val)
        ensures (status.Holding? ==> Holds(check, val)) && (status.Failing? ==> !Holds(check, val))
      {
        assert Holds([known][0], val);
      }
    }
  }

  /** Every valuation that satisfies the one satisfies the other. */
  ghost predicate Entails(known: Condition, check: Condition) {
    forall val: Valuation :: Holds(known, val) ==> Holds(check, val)
  }

  ghost predicate Refutes(known: Condition, check: Condition) {
    forall val: Valuation :: Holds(known, val) ==> !Holds(check, val)
  }

  /** The answer tells all that follows from the known condition, and nothing else. */
  ghost predicate Complete(status: Status, known: Condition, check: Condition) {
    (status.Holding? <==> Entails(known, check)) && (status.Failing? <==> Refutes(known, check))
  }

  /** The operators that the lookup is prepared for. */
  predicate Expected(op: Relation) {
    Equational(op) || op.LESSEREQ? || op.GREATER?
  }

  /**
    Bounds for which the lookup tells everything: not two lower bounds, not different upper bounds,
    and no equation with a number that a known bound excludes.
   */
  predicate Covered(known: Condition, check: Condition)
    requires known.rhs.Int? && check.rhs.Int?
  {
    Equational(known.op) ||
    (if Equational(check.op) then Related(known.op, check.rhs, known.rhs)
     else if known.op == check.op then known.op.LESSEREQ? && known.rhs == check.rhs
     else true)
  }

  /** What follows for all valuations follows for a number. */
  lemma FollowsAt(known: Condition, check: Condition, n: int)
    requires known.lhs.Symbol? && check.lhs == known.lhs && known.rhs.Int? && check.rhs.Int?
    ensures Related(known.op, Int(n), known.rhs) ==>
      && (Entails(known, check) ==> Related(check.op, Int(n), check.rhs))
      && (Refutes(known, check) ==> !Related(check.op, Int(n), check.rhs))
  {
    var val: Valuation := _ => Int(n);
    assert Holds(known, val) <==> Related(known.op, Int(n), known.rhs);
    assert Holds(check, val) <==> Related(check.op, Int(n), check.rhs);
  }

  /** For integer bounds on one symbol the answer is complete exactly when the two are covered. */
  lemma InclusionComplete(known: Condition, check: Condition)
    requires known.lhs.Symbol? && check.lhs == known.lhs && known.rhs.Int? && check.rhs.Int?
    requires Expected(known.op) && Expected(check.op)
    ensures Complete(CheckInclusion(known, check), known, check) <==> Covered(known, check)
    ensures Reversed(known, check) ==> CheckInclusion(known, check).Holding?
  {
    var m, n := known.rhs.i, check.rhs.i;
    FollowsAt(known, check, m - 1);
    FollowsAt(known, check, m);
    FollowsAt(known, check, m + 1);
    FollowsAt(known, check, n - 1);
    FollowsAt(known, check, n);
    FollowsAt(known, check, n + 1);
  }

  // ---- Looking up all known conditions ----

  /** A symbol on one side and a concrete value on the other. */
  predicate Simple(c: Condition) {
    c.lhs.Symbol? != c.rhs.Symbol?
  }

  predicate AllSimple(cs: seq<Condition>) {
    forall k :: 0 <= k < |cs| ==> Simple(cs[k])
  }

  predicate AllEquational(cs: seq<Condition>) {
    forall k :: 0 <= k < |cs| ==> Equational(cs[k].op)
  }

  /** The condition with its symbol on the left. */
  function Oriented(c: Condition): Condition {
    if c.lhs.Symbol? then c else Swap(c)
  }

  function LookupOne(known: Condition, check: Condition): Status {
    if known.lhs == check.lhs then CheckInclusion(known, check)
    else if known.rhs == check.lhs then CheckInclusion(Swap(known), check)
    else NotFound
  }

  /** The first answer that a known condition gives. */
  function FirstAnswer(known: seq<Condition>, check: Condition): Status {
    if known == [] then NotFound
    else if LookupOne(known[0], check) != NotFound then LookupOne(known[0], check)
    else FirstAnswer(known[1..], check)
  }

  /** check_condition: the conditions are searched from the oldest on. */
  method CheckCondition(known: seq<Condition>, check: Condition) returns (answer: Answer)
    ensures answer.InvalidCondition? <==> !check.lhs.Symbol? && !check.rhs.Symbol?
    ensures answer.Answer? ==> answer.status == FirstAnswer(known, Oriented(check))
  {
    var cond := check;
    if !check.lhs.Symbol? {
      if !check.rhs.Symbol? { return InvalidCondition; }
      cond := Swap(check);
    }
    for k := 0 to |known|
      invariant FirstAnswer(known, cond) == FirstAnswer(known[k..], cond)
    {
      var s := LookupOne(known[k], cond);
      if s != NotFound { return Answer(s); }
    }
    return Answer(NotFound);
  }

  /** An answer on an equation follows from the known conditions, whichever side the symbols are on. */
  lemma {:induction false} LookupSound(known: seq<Condition>, check: Condition)
    requires AllSimple(known) && Simple(check) && Equational(check.op)
    ensures Sound(FirstAnswer(known, Oriented(check)), known, check)
    decreases |known|
  {
    var cond, status := Oriented(check), FirstAnswer(known, Oriented(check));
    if known != [] {
      LookupSound(known[1..], check);
      forall val: Valuation | AllHold(known, val)
        ensures (status.Holding? ==> Holds(check, val)) && (status.Failing? ==> !Holds(check, val))
      {
        assert Holds(known[0], val) && AllHold(known[1..], val);
        assert LookupOne(known[0], cond) != NotFound ==> Equational(known[0].op);
      }
    }
  }

  /** A bound on a symbol, which is on the left. */
  predicate Bound(c: Condition) {
    c.lhs.Symbol? && c.rhs.Int? && Expected(c.op)
  }

  predicate AllBounds(cs: seq<Condition>) {
    forall k :: 0 <= k < |cs| ==> Bound(cs[k])
  }

  /** No known bound on the symbol of the check is the weaker one of the same ordering. */
  predicate NoneReversed(known: seq<Condition>, check: Condition)
    requires AllBounds(known) && Bound(check)
  {
    forall k :: 0 <= k < |known| && known[k].lhs == check.lhs ==> !Reversed(known[k], check)
  }

  /** Among bounds, orderings included, an answer follows from what is known if no known one is reversed. */
  lemma {:induction false} BoundsSound(known: seq<Condition>, check: Condition)
    requires AllBounds(known) && Bound(check) && NoneReversed(known, check)
    ensures Sound(FirstAnswer(known, check), known, check)
    decreases |known|
  {
    var status := FirstAnswer(known, check);
    if known != [] {
      BoundsSound(known[1..], check);
      if known[0].lhs == check.lhs { InclusionExact(known[0], check); }
      forall val: Valuation | AllHold(known, val)
        ensures (status.Holding? ==> Holds(check, val)) && (status.Failing? ==> !Holds(check, val))
      {
        assert AllHold([known[0]], val) && AllHold(known[1..], val);
      }
    }
  }

  /** Whatever a covered one of them entails or refutes is found. */
  lemma {:induction false} BoundsFound(known: seq<Condition>, check: Condition, k: nat)
    requires AllBounds(known) && Bound(check) && k < |known| && known[k].lhs == check.lhs
    requires Covered(known[k], check) && (Entails(known[k], check) || Refutes(known[k], check))
    ensures FirstAnswer(known, check) != NotFound
    decreases |known|
  {
    if k == 0 {
      InclusionComplete(known[0], check);
    } else {
      BoundsFound(known[1..], check, k - 1);
    }
  }

  /** So a run that is possible takes the side that a covered bound decides. */
  lemma BoundsDecide(known: seq<Condition>, check: Condition, k: nat, val: Valuation)
    requires AllBounds(known) && Bound(check) && NoneReversed(known, check)
    requires k < |known| && known[k].lhs == check.lhs && Covered(known[k], check) && AllHold(known, val)
    ensures Entails(known[k], check) ==> FirstAnswer(known, check) == Holding
    ensures Refutes(known[k], check) ==> FirstAnswer(known, check) == Failing
  {
    BoundsSound(known, check);
    assert Holds(known[k], val);
    if Entails(known[k], check) || Refutes(known[k], check) {
      BoundsFound(known, check, k);
    }
  }

  /** The valuation with one symbol changed. */
  function With(val: Valuation, id: nat, v: Value): Valuation {
    (n: nat) => if n == id then v else val(n)
  }

  /** A number above all the numbers that occur in some conditions. */
  function Above(cs: seq<Condition>): (n: int)
    ensures forall k :: 0 <= k < |cs| ==> cs[k].lhs != Int(n) && cs[k].rhs != Int(n)
    ensures forall k, m :: 0 <= k < |cs| && m >= n ==> cs[k].lhs != Int(m) && cs[k].rhs != Int(m)
  {
    if cs == [] then 0
    else
      var n, c := Above(cs[1..]), cs[0];
      var left := if c.lhs.Int? then c.lhs.i + 1 else 0;
      var right := if c.rhs.Int? then c.rhs.i + 1 else 0;
      assert forall k :: 1 <= k < |cs| ==> cs[k] == cs[1..][k - 1];
      if n >= left && n >= right then n else if left >= right then left else right
  }

  /** When no known condition decides an equation on a symbol, none of them fixes the symbol or excludes its value. */
  lemma {:induction false} NothingDecides(known: seq<Condition>, cond: Condition, k: nat)
    requires AllSimple(known) && AllEquational(known) && Simple(cond) && cond.lhs.Symbol? && Equational(cond.op)
    requires FirstAnswer(known, cond) == NotFound && k < |known|
    ensures Oriented(known[k]).lhs == cond.lhs ==> known[k].op.NEQ? && Oriented(known[k]).rhs != cond.rhs
    decreases |known|
  {
    if k > 0 {
      NothingDecides(known[1..], cond, k - 1);
    }
  }

  /** An undecided equation is open: the known conditions allow it to hold and allow it to fail. */
  lemma UndecidedIsOpen(known: seq<Condition>, check: Condition, val: Valuation)
    requires AllSimple(known) && AllEquational(known) && Simple(check) && Equational(check.op)
    requires AllHold(known, val) && FirstAnswer(known, Oriented(check)) == NotFound
    ensures exists v :: AllHold(known, v) && Holds(check, v)
    ensures exists v :: AllHold(known, v) && !Holds(check, v)
  {
    var cond := Oriented(check);
    var equal := With(val, cond.lhs.id, cond.rhs);
    var other := With(val, cond.lhs.id, Int(Above(known + [cond])));
    assert (known + [cond])[|known|] == cond;
    forall k | 0 <= k < |known| ensures Holds(known[k], equal) && Holds(known[k], other) {
      NothingDecides(known, cond, k);
      assert Holds(known[k], val) && (known + [cond])[k] == known[k];
    }
    assert Holds(check, equal) != Holds(check, other);
  }

  // ---- The tree of paths ----

  /** A run of if-tests, on a condition or on a symbol that stands for a truth value. */
  datatype Tree =
    | Leaf(name: nat)
    | IfCondition(cond: Condition, then_: Tree, else_: Tree)
    | IfSymbol(id: nat, then_: Tree, else_: Tree)

  /** A path that a process follows to its end: what it knows by then and the leaf it reaches. */
  datatype Path = Path(conditions: seq<Condition>, leaf: nat)

  /** The condition of a test; a symbol without one is compared with 1. */
  function TestOf(tree: Tree): Condition
    requires !tree.Leaf?
  {
    if tree.IfCondition? then tree.cond else Condition(Symbol(tree.id), Int(1), EQ)
  }

  /** The condition of the other side; a symbol without one is compared with 0. */
  function OtherwiseOf(tree: Tree): Condition
    requires !tree.Leaf?
  {
    if tree.IfCondition? then tree.cond.(op := Invert(tree.cond.op)) else Condition(Symbol(tree.id), Int(0), EQ)
  }

  /** walk_ifthenelse with its fork: a decided test goes one way, an undecided one both. */
  function Explore(tree: Tree, known: seq<Condition>): seq<Path> {
    if tree.Leaf? then [Path(known, tree.name)]
    else
      match FirstAnswer(known, Oriented(TestOf(tree)))
      case Holding => Explore(tree.then_, known)
      case Failing => Explore(tree.else_, known)
      case NotFound => Explore(tree.then_, known + [TestOf(tree)]) + Explore(tree.else_, known + [OtherwiseOf(tree)])
  }

  /** The leaf that the tests lead to when the symbols have concrete values. */
  function Concrete(tree: Tree, val: Valuation): nat {
    match tree
    case Leaf(name) => name
    case IfCondition(c, t, e) => if Holds(c, val) then Concrete(t, val) else Concrete(e, val)
    case IfSymbol(id, t, e) => if val(id) == Int(1) then Concrete(t, val) else Concrete(e, val)
  }

  /** Every test compares a symbol with a concrete value for equality. */
  predicate Tests(tree: Tree) {
    !tree.Leaf? ==> Simple(TestOf(tree)) && Equational(TestOf(tree).op) && Tests(tree.then_) && Tests(tree.else_)
  }

  /** Symbols that are tested for their truth are 0 or 1. */
  predicate Truthful(tree: Tree, val: Valuation) {
    match tree
    case Leaf(_) => true
    case IfCondition(_, t, e) => Truthful(t, val) && Truthful(e, val)
    case IfSymbol(id, t, e) => val(id) in {Int(0), Int(1)} && Truthful(t, val) && Truthful(e, val)
  }

  /** The leaves of the paths whose conditions a valuation satisfies. */
  ghost function Selected(paths: seq<Path>, val: Valuation): seq<nat> {
    if paths == [] then []
    else (if AllHold(paths[0].conditions, val) then [paths[0].leaf] else []) + Selected(paths[1..], val)
  }

  lemma {:induction false} SelectedBoth(ps: seq<Path>, qs: seq<Path>, val: Valuation)
    ensures Selected(ps + qs, val) == Selected(ps, val) + Selected(qs, val)
  {
    if ps == [] {
      assert ps + qs == qs;
    } else {
      assert (ps + qs)[1..] == ps[1..] + qs;
      SelectedBoth(ps[1..], qs, val);
    }
  }

  lemma OneMoreHolds(known: seq<Condition>, c: Condition, val: Valuation)
    ensures AllHold(known + [c], val) <==> AllHold(known, val) && Holds(c, val)
    ensures AllSimple(known + [c]) <==> AllSimple(known) && Simple(c)
    ensures AllEquational(known + [c]) <==> AllEquational(known) && Equational(c.op)
  {
    assert (known + [c])[|known|] == c;
    forall k | 0 <= k < |known| ensures (known + [c])[k] == known[k] {
    }
  }

  /** The condition of the other side holds exactly when that of the test does not. */
  lemma OtherwiseIsComplement(tree: Tree, val: Valuation)
    requires !tree.Leaf? && Tests(tree) && Truthful(tree, val)
    ensures Simple(OtherwiseOf(tree)) && (Holds(OtherwiseOf(tree), val) <==> !Holds(TestOf(tree), val))
  {
    var test := TestOf(tree);
    InvertIsComplement(test.op, Instance(test.lhs, val), Instance(test.rhs, val));
  }

  /**
    The main result about branching: under each valuation that fits what is known, the conditions
    of exactly one explored path hold, and its leaf is the one that the concrete run reaches.
   */
  lemma {:induction false} ExploreExact(tree: Tree, known: seq<Condition>, val: Valuation)
    requires Tests(tree) && Truthful(tree, val) && AllSimple(known)
    ensures Selected(Explore(tree, known), val) == if AllHold(known, val) then [Concrete(tree, val)] else []
    decreases tree
  {
    if !tree.Leaf? {
      var test, otherwise := TestOf(tree), OtherwiseOf(tree);
      LookupSound(known, test);
      match FirstAnswer(known, Oriented(test))
      case Holding => ExploreExact(tree.then_, known, val);
      case Failing => ExploreExact(tree.else_, known, val);
      case NotFound =>
        OtherwiseIsComplement(tree, val);
        OneMoreHolds(known, test, val);
        OneMoreHolds(known, otherwise, val);
        ExploreExact(tree.then_, known + [test], val);
        ExploreExact(tree.else_, known + [otherwise], val);
        SelectedBoth(Explore(tree.then_, known + [test]), Explore(tree.else_, known + [otherwise]), val);
    }
  }

  predicate ConditionsOnly(tree: Tree) {
    !tree.Leaf? ==> tree.IfCondition? && ConditionsOnly(tree.then_) && ConditionsOnly(tree.else_)
  }

  /** Without symbols that stand for truth values, the main result is about all valuations. */
  lemma {:induction false} ConditionsTruthful(tree: Tree, val: Valuation)
    requires ConditionsOnly(tree)
    ensures Truthful(tree, val)
    decreases tree
  {
    if !tree.Leaf? {
      ConditionsTruthful(tree.then_, val);
      ConditionsTruthful(tree.else_, val);
    }
  }

  /** No process is forked in vain: the conditions of every explored path can be satisfied. */
  lemma {:induction false} ExploreFeasible(tree: Tree, known: seq<Condition>, val: Valuation, k: nat)
    requires Tests(tree) && ConditionsOnly(tree) && AllSimple(known) && AllEquational(known)
    requires AllHold(known, val) && k < |Explore(tree, known)|
    ensures exists v :: AllHold(Explore(tree, known)[k].conditions, v)
    decreases tree
  {
    if tree.Leaf? {
      assert AllHold(Explore(tree, known)[k].conditions, val);
    } else {
      var test, otherwise := TestOf(tree), OtherwiseOf(tree);
      match FirstAnswer(known, Oriented(test))
      case Holding => ExploreFeasible(tree.then_, known, val, k);
      case Failing => ExploreFeasible(tree.else_, known, val, k);
      case NotFound =>
        UndecidedIsOpen(known, test, val);
        var thens, elses := Explore(tree.then_, known + [test]), Explore(tree.else_, known + [otherwise]);
        var n := |thens|;
        assert Explore(tree, known)[k] == if k < n then thens[k] else elses[k - n];
        if k < n {
          var v :| AllHold(known, v) && Holds(test, v);
          OneMoreHolds(known, test, v);
          ExploreFeasible(tree.then_, known + [test], v, k);
        } else {
          var v :| AllHold(known, v) && !Holds(test, v);
          OneMoreHolds(known, otherwise, v);
          ExploreFeasible(tree.else_, known + [otherwise], v, k - n);
        }
    }
  }
}
