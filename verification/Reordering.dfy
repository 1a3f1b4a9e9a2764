/**
  Reordering parallel blocks and enum ranges anywhere in a program, also inside other statements and in
  rules that are called, changes no run but for the failure with which it may break; and not even that
  one, unless something that is evaluated fails by itself.
 */
module Reordering {
  import opened Values
  import opened Sequences
  import opened Syntax
  import opened Semantics
  import opened Laws
  import opened Interpreter

  /** The members of an enum are visited in the order of a hash table. */
  predicate RangeReordered(r: Range, r': Range) {
    r' == r || (r.OverEnum? && r'.OverEnum? && r'.name == r.name && multiset(r'.mapping) == multiset(r.mapping))
  }

  /** b is a with the statements of some parallel blocks, and the members of some enums, in another order. */
  ghost predicate Reordered(a: Statement, b: Statement)
    decreases a
  {
    match a
    case IfThenElse(c, t, e) => b.IfThenElse? && b.condition == c && Reordered(t, b.then_) && Reordered(e, b.else_)
    case Let(e, s) => b.Let? && b.expr == e && Reordered(s, b.body)
    case ParBlock(ss) =>
      b.ParBlock? && exists p :: IsOrder(p) && BlockReordered(ss, b.statements, p)
    case SeqBlock(ss) =>
      b.SeqBlock? && |b.statements| == |ss| && forall i :: 0 <= i < |ss| ==> Reordered(ss[i], b.statements[i])
    case Forall(r, s) => b.Forall? && RangeReordered(r, b.range) && Reordered(s, b.body)
    case Iterate(s) => b.Iterate? && Reordered(s, b.body)
    case _ => b == a
  }

  ghost predicate BlockReordered(ss: seq<Statement>, ts: seq<Statement>, p: seq<nat>)
    decreases ss
  {
    |ss| == |ts| == |p| && forall i :: 0 <= i < |p| && p[i] < |ss| ==> Reordered(ss[p[i]], ts[i])
  }

  ghost predicate ProgramReordered(p: Program, q: Program) {
    p.Keys == q.Keys && forall r :: r in p ==> p[r].arity == q[r].arity && Reordered(p[r].body, q[r].body)
  }

  lemma {:induction false} MembersAppend(name: string, m: seq<(string, Value)>, m': seq<(string, Value)>)
    ensures Members(name, m + m') == Members(name, m) + Members(name, m')
  {
    if m' == [] {
      assert m + m' == m;
    } else {
      assert (m + m')[..|m + m'| - 1] == m + m'[..|m'| - 1];
      MembersAppend(name, m, m'[..|m'| - 1]);
    }
  }

  lemma {:induction false} MembersInsert(name: string, m: seq<(string, Value)>, e: (string, Value),
                                         m': seq<(string, Value)>)
    ensures multiset(Members(name, m + [e] + m'))
         == multiset(Members(name, m + m')) + multiset(Members(name, [e]))
  {
    MembersAppend(name, m + [e], m');
    MembersAppend(name, m, [e]);
    MembersAppend(name, m, m');
  }

  lemma MembersWithout(name: string, m: seq<(string, Value)>, k: nat)
    requires k < |m|
    ensures multiset(Members(name, m))
         == multiset(Members(name, m[..k] + m[k + 1..])) + multiset(Members(name, [m[k]]))
  {
    SplitAt(m, k);
    MembersInsert(name, m[..k], m[k], m[k + 1..]);
  }

  lemma MembersLast(name: string, m: seq<(string, Value)>)
    requires m != []
    ensures multiset(Members(name, m))
         == multiset(Members(name, m[..|m| - 1])) + multiset(Members(name, [m[|m| - 1]]))
  {
    assert m == m[..|m| - 1] + [m[|m| - 1]];
    MembersAppend(name, m[..|m| - 1], [m[|m| - 1]]);
  }

  /** Reordering the mapping of an enum reorders its members. */
  lemma {:induction false} MembersReordered(name: string, m: seq<(string, Value)>, m': seq<(string, Value)>)
    requires multiset(m) == multiset(m')
    ensures multiset(Members(name, m)) == multiset(Members(name, m'))
    decreases |m|
  {
    assert |m| == |multiset(m)| == |multiset(m')| == |m'|;
    if m != [] {
      var n := |m| - 1;
      assert m[n] in multiset(m');
      var k :| 0 <= k < |m'| && m'[k] == m[n];
      RemoveSame(m', m, k);
      MembersReordered(name, m[..n], m'[..k] + m'[k + 1..]);
      MembersWithout(name, m', k);
      MembersLast(name, m);
    }
  }

  /** A reordered range has the same items, in some order. */
  lemma ItemsReordered(r: Range, r': Range, frame: seq<Value>, s: State) returns (order: seq<nat>)
    requires RangeReordered(r, r')
    ensures var items, items' := Items(r, frame, s), Items(r', frame, s);
      if items.Success? then items'.Success? && Permuted(items.value, items'.value, order) else items' == items
  {
    order := [];
    var items, items' := Items(r, frame, s), Items(r', frame, s);
    if r' == r {
      if items.Success? { order := Identity(items.value); }
    } else {
      MembersReordered(r.name, r.mapping, r'.mapping);
      order := SameElementsPermuted(items.value, items'.value);
    }
  }

  ghost predicate AllInterchangeable(rs: seq<Outcome>, rs': seq<Outcome>) {
    |rs| == |rs'| && forall i :: 0 <= i < |rs| ==> Interchangeable(rs[i], rs'[i])
  }

  /** Interchangeable branches make interchangeable blocks. */
  lemma JoinInterchangeable(rs: seq<Outcome>, rs': seq<Outcome>)
    requires AllInterchangeable(rs, rs')
    ensures Interchangeable(JoinAll(rs), JoinAll(rs'))
  {
    JoinAllMeaning(rs);
    JoinAllMeaning(rs');
    if AllOk(rs) || AllOk(rs') {
      forall i | 0 <= i < |rs| ensures rs[i] == rs'[i] {
        assert Interchangeable(rs[i], rs'[i]);
      }
      assert rs == rs';
    }
  }

  lemma BlockInterchangeable(rs: seq<Outcome>, rs': seq<Outcome>, p: seq<nat>)
    requires |rs| == |rs'| == |p| && IsOrder(p)
    requires forall i :: 0 <= i < |p| ==> Interchangeable(rs[p[i]], rs'[i])
    ensures Interchangeable(JoinAll(rs), JoinAll(rs'))
  {
    var qs := seq(|p|, i requires 0 <= i < |p| => rs[p[i]]);
    assert Permuted(rs, qs, p);
    JoinAllPermuted(rs, qs, p);
    assert AllInterchangeable(qs, rs');
    JoinInterchangeable(qs, rs');
  }

  /** Reordered statements of reordered programs have the same update set, or both fail. */
  lemma {:induction false} DenoteReordered(p: Program, q: Program, a: Statement, b: Statement, frame: seq<Value>,
                                           s: State, fuel: nat, rounds: nat)
    requires ProgramReordered(p, q) && Reordered(a, b)
    ensures Interchangeable(Denote(p, a, frame, s, fuel, rounds), Denote(q, b, frame, s, fuel, rounds))
    decreases fuel, 0
  {
    if fuel == 0 { return; }
    var left: nat := fuel - 1;
    match a
    case IfThenElse(_, t, e) =>
      DenoteReordered(p, q, t, b.then_, frame, s, left, rounds);
      DenoteReordered(p, q, e, b.else_, frame, s, left, rounds);
    case Let(e, body) =>
      var v := Eval(e, frame, s);
      if v.Success? { DenoteReordered(p, q, body, b.body, frame + [v.value], s, left, rounds); }
    case Call(target, args) =>
      var rule, vs := Callee(p, target, frame, s), EvalAll(args, frame, s);
      if rule.Success? && rule.value.Some? && vs.Success? {
        var rule' := Callee(q, target, frame, s).value.value;
        DenoteReordered(p, q, rule.value.value.body, rule'.body, vs.value, s, left, rounds);
      }
    case ParBlock(ss) => BranchesReordered(p, q, ss, b.statements, frame, s, left, rounds);
    case SeqBlock(ss) => SequenceReordered(p, q, ss, b.statements, frame, s, left, rounds);
    case Forall(range, body) => ForallReordered(p, q, range, b.range, body, b.body, frame, s, left, rounds);
    case Iterate(body) => IterateReordered(p, q, body, b.body, frame, s, map[], left, rounds, rounds);
    case _ =>
  }

  lemma {:induction false} BranchesReordered(p: Program, q: Program, ss: seq<Statement>, ts: seq<Statement>,
                                             frame: seq<Value>, s: State, fuel: nat, rounds: nat)
    requires ProgramReordered(p, q) && Reordered(ParBlock(ss), ParBlock(ts))
    ensures Interchangeable(JoinAll(Branches(p, ss, frame, s, fuel, rounds)),
                            JoinAll(Branches(q, ts, frame, s, fuel, rounds)))
    decreases fuel, 1
  {
    var order :| IsOrder(order) && BlockReordered(ss, ts, order);
    forall i | 0 <= i < |order|
      ensures Interchangeable(Denote(p, ss[order[i]], frame, s, fuel, rounds), Denote(q, ts[i], frame, s, fuel, rounds))
    {
      DenoteReordered(p, q, ss[order[i]], ts[i], frame, s, fuel, rounds);
    }
    BlockInterchangeable(Branches(p, ss, frame, s, fuel, rounds), Branches(q, ts, frame, s, fuel, rounds), order);
  }

  lemma {:induction false} ForallReordered(p: Program, q: Program, range: Range, range': Range, body: Statement,
                                           body': Statement, frame: seq<Value>, s: State, fuel: nat, rounds: nat)
    requires ProgramReordered(p, q) && RangeReordered(range, range') && Reordered(body, body')
    ensures Interchangeable(DenoteForall(p, range, body, frame, s, fuel, rounds),
                            DenoteForall(q, range', body', frame, s, fuel, rounds))
    decreases fuel, 1
  {
    var order := ItemsReordered(range, range', frame, s);
    var items, items' := Items(range, frame, s), Items(range', frame, s);
    if items.Success? {
      var rs := Instances(p, body, items.value, frame, s, fuel, rounds);
      var rs' := Instances(q, body', items'.value, frame, s, fuel, rounds);
      forall i | 0 <= i < |order| ensures Interchangeable(rs[order[i]], rs'[i]) {
        DenoteReordered(p, q, body, body', frame + [items'.value[i]], s, fuel, rounds);
      }
      BlockInterchangeable(rs, rs', order);
    }
  }

  lemma {:induction false} SequenceReordered(p: Program, q: Program, ss: seq<Statement>, ts: seq<Statement>,
                                             frame: seq<Value>, s: State, fuel: nat, rounds: nat)
    requires ProgramReordered(p, q) && |ss| == |ts| && forall i :: 0 <= i < |ss| ==> Reordered(ss[i], ts[i])
    ensures Interchangeable(DenoteSeq(p, ss, frame, s, fuel, rounds), DenoteSeq(q, ts, frame, s, fuel, rounds))
    decreases fuel, 1 + |ss|
  {
    if ss != [] {
      var n := |ss| - 1;
      SequenceReordered(p, q, ss[..n], ts[..n], frame, s, fuel, rounds);
      var r := DenoteSeq(p, ss[..n], frame, s, fuel, rounds);
      if r.Ok? {
        DenoteReordered(p, q, ss[n], ts[n], frame, Fire(s, r.updates), fuel, rounds);
      }
    }
  }

  lemma {:induction false} IterateReordered(p: Program, q: Program, body: Statement, body': Statement,
                                            frame: seq<Value>, s: State, u: Updates, fuel: nat, rounds: nat, left: nat)
    requires ProgramReordered(p, q) && Reordered(body, body')
    ensures Interchangeable(DenoteIterate(p, body, frame, s, u, fuel, rounds, left),
                            DenoteIterate(q, body', frame, s, u, fuel, rounds, left))
    decreases fuel, 1 + left
  {
    if left > 0 {
      var next: nat := left - 1;
      DenoteReordered(p, q, body, body', frame, Fire(s, u), fuel, rounds);
      RoundDenoted(p, body, frame, s, u, fuel, rounds, left, next);
      RoundDenoted(q, body', frame, s, u, fuel, rounds, left, next);
      var r := Denote(p, body, frame, Fire(s, u), fuel, rounds);
      if r.Ok? && r.updates != map[] {
        IterateReordered(p, q, body, body', frame, s, u + r.updates, fuel, rounds, next);
      }
    }
  }

  // ---- Where nothing fails by itself ----

  /** Nothing that is evaluated on the way fails for another reason than a conflict. */
  ghost predicate Faultless(p: Program, stmt: Statement, frame: seq<Value>, s: State, fuel: nat, rounds: nat)
    decreases fuel, 0
  {
    !Denote(p, stmt, frame, s, fuel, rounds).Abort? && fuel > 0 &&
    match stmt
    case IfThenElse(c, t, e) =>
      Faultless(p, if Eval(c, frame, s) == Success(Boolean(true)) then t else e, frame, s, fuel - 1, rounds)
    case Let(e, body) =>
      var v := Eval(e, frame, s);
      v.Success? ==> Faultless(p, body, frame + [v.value], s, fuel - 1, rounds)
    case Call(target, args) =>
      var rule, vs := Callee(p, target, frame, s), EvalAll(args, frame, s);
      rule.Success? && rule.value.Some? && vs.Success? ==>
        Faultless(p, rule.value.value.body, vs.value, s, fuel - 1, rounds)
    case ParBlock(ss) => forall i :: 0 <= i < |ss| ==> Faultless(p, ss[i], frame, s, fuel - 1, rounds)
    case SeqBlock(ss) => FaultlessSeq(p, ss, frame, s, fuel - 1, rounds)
    case Forall(range, body) =>
      var items := Items(range, frame, s);
      items.Success? ==> FaultlessItems(p, items.value, body, frame, s, fuel - 1, rounds)
    case Iterate(body) => FaultlessRounds(p, body, frame, s, map[], fuel - 1, rounds, rounds)
    case _ => true
  }

  ghost predicate FaultlessItems(p: Program, items: seq<Value>, body: Statement, frame: seq<Value>, s: State,
                                 fuel: nat, rounds: nat)
    decreases fuel, 1
  {
    forall i :: 0 <= i < |items| ==> Faultless(p, body, frame + [items[i]], s, fuel, rounds)
  }

  ghost predicate FaultlessSeq(p: Program, ss: seq<Statement>, frame: seq<Value>, s: State, fuel: nat, rounds: nat)
    decreases fuel, 1 + |ss|
  {
    ss != [] ==>
      var r := DenoteSeq(p, ss[..|ss| - 1], frame, s, fuel, rounds);
      FaultlessSeq(p, ss[..|ss| - 1], frame, s, fuel, rounds) &&
      (r.Ok? ==> Faultless(p, ss[|ss| - 1], frame, Fire(s, r.updates), fuel, rounds))
  }

  ghost predicate FaultlessRounds(p: Program, body: Statement, frame: seq<Value>, s: State, u: Updates, fuel: nat,
                                  rounds: nat, left: nat)
    decreases fuel, 1 + left
  {
    left > 0 ==>
      var r := Denote(p, body, frame, Fire(s, u), fuel, rounds);
      Faultless(p, body, frame, Fire(s, u), fuel, rounds) &&
      (r.Ok? && r.updates != map[] ==> FaultlessRounds(p, body, frame, s, u + r.updates, fuel, rounds, left - 1))
  }

  /** Reordering a statement on whose way nothing fails by itself changes nothing, not even a conflict. */
  lemma {:induction false} FaultlessReordered(p: Program, q: Program, a: Statement, b: Statement, frame: seq<Value>,
                                              s: State, fuel: nat, rounds: nat)
    requires ProgramReordered(p, q) && Reordered(a, b) && Faultless(p, a, frame, s, fuel, rounds)
    ensures Denote(p, a, frame, s, fuel, rounds) == Denote(q, b, frame, s, fuel, rounds)
    decreases fuel, 0
  {
    var left: nat := fuel - 1;
    match a
    case IfThenElse(c, t, e) =>
      if Eval(c, frame, s) == Success(Boolean(true)) {
        FaultlessReordered(p, q, t, b.then_, frame, s, left, rounds);
      } else {
        FaultlessReordered(p, q, e, b.else_, frame, s, left, rounds);
      }
    case Let(e, body) =>
      var v := Eval(e, frame, s);
      if v.Success? { FaultlessReordered(p, q, body, b.body, frame + [v.value], s, left, rounds); }
    case Call(target, args) =>
      var rule, vs := Callee(p, target, frame, s), EvalAll(args, frame, s);
      if rule.Success? && rule.value.Some? && vs.Success? {
        var rule' := Callee(q, target, frame, s).value.value;
        FaultlessReordered(p, q, rule.value.value.body, rule'.body, vs.value, s, left, rounds);
      }
    case ParBlock(ss) => FaultlessBranches(p, q, ss, b.statements, frame, s, left, rounds);
    case SeqBlock(ss) => FaultlessSequence(p, q, ss, b.statements, frame, s, left, rounds);
    case Forall(range, body) => FaultlessForall(p, q, range, b.range, body, b.body, frame, s, left, rounds);
    case Iterate(body) => FaultlessIterate(p, q, body, b.body, frame, s, map[], left, rounds, rounds);
    case _ =>
  }

  /** Branches of which none fails by itself, in two orders. */
  lemma BlockSame(rs: seq<Outcome>, rs': seq<Outcome>, order: seq<nat>)
    requires |rs| == |rs'| == |order| && IsOrder(order) && NoAbort(rs)
    requires forall i :: 0 <= i < |order| ==> rs[order[i]] == rs'[i]
    ensures JoinAll(rs) == JoinAll(rs')
  {
    SameOutcome(rs, rs', order);
  }

  lemma {:induction false} FaultlessBranches(p: Program, q: Program, ss: seq<Statement>, ts: seq<Statement>,
                                             frame: seq<Value>, s: State, fuel: nat, rounds: nat)
    requires ProgramReordered(p, q) && Reordered(ParBlock(ss), ParBlock(ts))
    requires forall i :: 0 <= i < |ss| ==> Faultless(p, ss[i], frame, s, fuel, rounds)
    ensures JoinAll(Branches(p, ss, frame, s, fuel, rounds)) == JoinAll(Branches(q, ts, frame, s, fuel, rounds))
    decreases fuel, 1
  {
    var order :| IsOrder(order) && BlockReordered(ss, ts, order);
    var rs, rs' := Branches(p, ss, frame, s, fuel, rounds), Branches(q, ts, frame, s, fuel, rounds);
    forall i | 0 <= i < |order| ensures rs[order[i]] == rs'[i] {
      FaultlessReordered(p, q, ss[order[i]], ts[i], frame, s, fuel, rounds);
    }
    forall i | 0 <= i < |ss| ensures !rs[i].Abort? {
      assert Faultless(p, ss[i], frame, s, fuel, rounds);
    }
    BlockSame(rs, rs', order);
  }

  lemma {:induction false} FaultlessForall(p: Program, q: Program, range: Range, range': Range, body: Statement,
                                           body': Statement, frame: seq<Value>, s: State, fuel: nat, rounds: nat)
    requires ProgramReordered(p, q) && RangeReordered(range, range') && Reordered(body, body')
    requires var items := Items(range, frame, s);
      items.Success? ==> FaultlessItems(p, items.value, body, frame, s, fuel, rounds)
    ensures DenoteForall(p, range, body, frame, s, fuel, rounds)
         == DenoteForall(q, range', body', frame, s, fuel, rounds)
    decreases fuel, 2
  {
    var order := ItemsReordered(range, range', frame, s);
    var items, items' := Items(range, frame, s), Items(range', frame, s);
    if items.Success? {
      FaultlessInstances(p, q, items.value, items'.value, order, body, body', frame, s, fuel, rounds);
    }
  }

  lemma {:induction false} FaultlessInstances(p: Program, q: Program, items: seq<Value>, items': seq<Value>,
                                              order: seq<nat>, body: Statement, body': Statement, frame: seq<Value>,
                                              s: State, fuel: nat, rounds: nat)
    requires ProgramReordered(p, q) && Reordered(body, body') && Permuted(items, items', order)
    requires FaultlessItems(p, items, body, frame, s, fuel, rounds)
    ensures JoinAll(Instances(p, body, items, frame, s, fuel, rounds))
         == JoinAll(Instances(q, body', items', frame, s, fuel, rounds))
    decreases fuel, 1
  {
    var rs := Instances(p, body, items, frame, s, fuel, rounds);
    var rs' := Instances(q, body', items', frame, s, fuel, rounds);
    forall i | 0 <= i < |items| ensures !rs[i].Abort? {
      assert Faultless(p, body, frame + [items[i]], s, fuel, rounds);
    }
    forall i | 0 <= i < |order| ensures rs[order[i]] == rs'[i] {
      assert Faultless(p, body, frame + [items[order[i]]], s, fuel, rounds);
      FaultlessReordered(p, q, body, body', frame + [items'[i]], s, fuel, rounds);
    }
    BlockSame(rs, rs', order);
  }

  lemma {:induction false} FaultlessSequence(p: Program, q: Program, ss: seq<Statement>, ts: seq<Statement>,
                                             frame: seq<Value>, s: State, fuel: nat, rounds: nat)
    requires ProgramReordered(p, q) && |ss| == |ts| && forall i :: 0 <= i < |ss| ==> Reordered(ss[i], ts[i])
    requires FaultlessSeq(p, ss, frame, s, fuel, rounds)
    ensures DenoteSeq(p, ss, frame, s, fuel, rounds) == DenoteSeq(q, ts, frame, s, fuel, rounds)
    decreases fuel, 1 + |ss|
  {
    if ss != [] {
      var n := |ss| - 1;
      FaultlessSequence(p, q, ss[..n], ts[..n], frame, s, fuel, rounds);
      var r := DenoteSeq(p, ss[..n], frame, s, fuel, rounds);
      if r.Ok? {
        FaultlessReordered(p, q, ss[n], ts[n], frame, Fire(s, r.updates), fuel, rounds);
      }
    }
  }

  lemma {:induction false} FaultlessIterate(p: Program, q: Program, body: Statement, body': Statement,
                                            frame: seq<Value>, s: State, u: Updates, fuel: nat, rounds: nat, left: nat)
    requires ProgramReordered(p, q) && Reordered(body, body')
    requires FaultlessRounds(p, body, frame, s, u, fuel, rounds, left)
    ensures DenoteIterate(p, body, frame, s, u, fuel, rounds, left)
         == DenoteIterate(q, body', frame, s, u, fuel, rounds, left)
    decreases fuel, 1 + left
  {
    if left > 0 {
      var next: nat := left - 1;
      FaultlessReordered(p, q, body, body', frame, Fire(s, u), fuel, rounds);
      RoundDenoted(p, body, frame, s, u, fuel, rounds, left, next);
      RoundDenoted(q, body', frame, s, u, fuel, rounds, left, next);
      var r := Denote(p, body, frame, Fire(s, u), fuel, rounds);
      if r.Ok? && r.updates != map[] {
        FaultlessIterate(p, q, body, body', frame, s, u + r.updates, fuel, rounds, next);
      }
    }
  }

  // ---- Runs ----

  /** The same committed state, or a failure in both. */
  predicate Alike(x: Progress, y: Progress) {
    if x.Broken? then y.Broken? else x == y
  }

  lemma StepReordered(p: Program, q: Program, s: State, fuel: nat, rounds: nat)
    requires ProgramReordered(p, q)
    ensures Alike(Step(p, s, fuel, rounds), Step(q, s, fuel, rounds))
  {
    match Lookup(s, PROGRAM)
    case RuleRef(name) => if name in p { DenoteReordered(p, q, p[name].body, q[name].body, [], s, fuel, rounds); }
    case _ =>
  }

  /** Any number of steps commit the same states, or both runs break in the same step. */
  lemma {:induction false} RunReordered(p: Program, q: Program, s: State, steps: nat, fuel: nat, rounds: nat)
    requires ProgramReordered(p, q)
    ensures Alike(Run(p, s, steps, fuel, rounds), Run(q, s, steps, fuel, rounds))
    decreases steps
  {
    if steps == 0 { return; }
    var left: nat := steps - 1;
    StepReordered(p, q, s, fuel, rounds);
    RunAfterStep(p, s, steps, left, fuel, rounds);
    RunAfterStep(q, s, steps, left, fuel, rounds);
    if Step(p, s, fuel, rounds).Running? {
      RunReordered(p, q, Step(p, s, fuel, rounds).state, left, fuel, rounds);
    }
  }

  /** Nothing that is evaluated in a step fails by itself. */
  ghost predicate FaultlessStep(p: Program, s: State, fuel: nat, rounds: nat) {
    var next := Lookup(s, PROGRAM);
    next.RuleRef? && next.rule in p ==> Faultless(p, p[next.rule].body, [], s, fuel, rounds)
  }

  ghost predicate FaultlessRun(p: Program, s: State, steps: nat, fuel: nat, rounds: nat)
    decreases steps
  {
    steps == 0 ||
    (FaultlessStep(p, s, fuel, rounds) &&
     (Step(p, s, fuel, rounds).Running? ==>
        FaultlessRun(p, Step(p, s, fuel, rounds).state, steps - 1, fuel, rounds)))
  }

  lemma FaultlessStepReordered(p: Program, q: Program, s: State, fuel: nat, rounds: nat)
    requires ProgramReordered(p, q) && FaultlessStep(p, s, fuel, rounds)
    ensures Step(p, s, fuel, rounds) == Step(q, s, fuel, rounds)
  {
    match Lookup(s, PROGRAM)
    case RuleRef(name) => if name in p { FaultlessReordered(p, q, p[name].body, q[name].body, [], s, fuel, rounds); }
    case _ =>
  }

  lemma FaultlessAfterStep(p: Program, s: State, steps: nat, left: nat, fuel: nat, rounds: nat)
    requires steps == left + 1 && FaultlessRun(p, s, steps, fuel, rounds)
    ensures FaultlessStep(p, s, fuel, rounds)
    ensures var next := Step(p, s, fuel, rounds);
      next.Running? ==> FaultlessRun(p, next.state, left, fuel, rounds)
  {
  }

  /** Where nothing fails by itself, both runs are the same: also the conflict with which they may break. */
  lemma {:induction false} FaultlessRunReordered(p: Program, q: Program, s: State, steps: nat, fuel: nat, rounds: nat)
    requires ProgramReordered(p, q) && FaultlessRun(p, s, steps, fuel, rounds)
    ensures Run(p, s, steps, fuel, rounds) == Run(q, s, steps, fuel, rounds)
    decreases steps
  {
    if steps == 0 { return; }
    var left: nat := steps - 1;
    FaultlessAfterStep(p, s, steps, left, fuel, rounds);
    FaultlessStepReordered(p, q, s, fuel, rounds);
    RunAfterStep(p, s, steps, left, fuel, rounds);
    RunAfterStep(q, s, steps, left, fuel, rounds);
    if Step(p, s, fuel, rounds).Running? {
      FaultlessRunReordered(p, q, Step(p, s, fuel, rounds).state, left, fuel, rounds);
    }
  }

  /** Two machines that report such runs either report the same with the same state committed, or have both failed. */
  lemma ReportsAlike(report: Report, committed: State, x: Progress, report': Report, committed': State, y: Progress)
    requires Shows(report, committed, x) && Shows(report', committed', y) && Alike(x, y)
    ensures report.Failed? <==> report'.Failed?
    ensures !report.Failed? ==> report == report' && committed == committed'
    ensures x == y ==> report == report'
  {
  }
}
