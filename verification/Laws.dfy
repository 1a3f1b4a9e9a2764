/** What the denotations, and with them the walkers, promise about whole programs. */
module Laws {
  import opened Values
  import opened Sequences
  import opened Syntax
  import opened Semantics
  import opened ExecutionContext
  import opened Refinement

  // ---- Parallel composition is consistent union, in any order ----

  ghost predicate AllOk(rs: seq<Outcome>) {
    forall i :: 0 <= i < |rs| ==> rs[i].Ok?
  }

  /** No location is updated by two different branches, not even with equal values. */
  ghost predicate PairwiseDisjoint(rs: seq<Outcome>)
    requires AllOk(rs)
  {
    forall i, j :: 0 <= i < j < |rs| ==> Disjoint(rs[i].updates, rs[j].updates)
  }

  ghost predicate IsUnion(u: Updates, rs: seq<Outcome>)
    requires AllOk(rs)
  {
    && (forall i, l :: 0 <= i < |rs| && l in rs[i].updates ==> l in u && u[l] == rs[i].updates[l])
    && (forall l :: l in u ==> SomeUpdates(rs, l))
  }

  ghost predicate SomeUpdates(rs: seq<Outcome>, l: Location)
    requires AllOk(rs)
  {
    exists i :: 0 <= i < |rs| && l in rs[i].updates
  }

  /** A parallel composition succeeds iff every branch does and no two overlap; it then is their union. */
  lemma {:induction false} JoinAllMeaning(rs: seq<Outcome>)
    ensures JoinAll(rs).Ok? <==> AllOk(rs) && PairwiseDisjoint(rs)
    ensures JoinAll(rs).Ok? ==> IsUnion(JoinAll(rs).updates, rs)
    ensures AllOk(rs) && !PairwiseDisjoint(rs) ==> JoinAll(rs).Clash?
  {
    if rs != [] {
      var n := |rs| - 1;
      JoinAllMeaning(rs[..n]);
      if JoinAll(rs[..n]).Ok? && rs[n].Ok? {
        JoinAllLast(rs);
      }
    }
  }

  lemma AvoidsUnion(u: Updates, rs: seq<Outcome>, v: Updates)
    requires AllOk(rs) && IsUnion(u, rs)
    ensures Avoids(u, v.Keys) <==> forall i :: 0 <= i < |rs| ==> Disjoint(rs[i].updates, v)
  {
    if !Avoids(u, v.Keys) {
      var l :| l in v && l in u;
      assert SomeUpdates(rs, l);
    }
  }

  lemma UnionExtends(u: Updates, rs: seq<Outcome>, v: Updates)
    requires AllOk(rs) && IsUnion(u, rs) && Avoids(u, v.Keys)
    ensures IsUnion(u + v, rs + [Ok(v)])
  {
    var qs := rs + [Ok(v)];
    assert qs[|rs|] == Ok(v);
    forall l | l in u + v ensures SomeUpdates(qs, l) {
      if l in v {
        assert l in qs[|rs|].updates;
      } else {
        var i :| 0 <= i < |rs| && l in rs[i].updates;
        assert l in qs[i].updates;
      }
    }
  }

  lemma PairwiseLast(rs: seq<Outcome>)
    requires rs != [] && AllOk(rs) && PairwiseDisjoint(rs[..|rs| - 1])
    ensures PairwiseDisjoint(rs) <==>
            forall i :: 0 <= i < |rs| - 1 ==> Disjoint(rs[i].updates, rs[|rs| - 1].updates)
  {
    var n := |rs| - 1;
    forall i, j | 0 <= i < j < n ensures Disjoint(rs[i].updates, rs[j].updates) {
      assert Disjoint(rs[..n][i].updates, rs[..n][j].updates);
    }
  }

  lemma JoinAllLast(rs: seq<Outcome>)
    requires rs != [] && AllOk(rs)
    requires PairwiseDisjoint(rs[..|rs| - 1])
    requires JoinAll(rs[..|rs| - 1]).Ok? && IsUnion(JoinAll(rs[..|rs| - 1]).updates, rs[..|rs| - 1])
    ensures JoinAll(rs).Ok? <==> PairwiseDisjoint(rs)
    ensures JoinAll(rs).Ok? ==> IsUnion(JoinAll(rs).updates, rs)
    ensures JoinAll(rs).Ok? || JoinAll(rs).Clash?
  {
    var n := |rs| - 1;
    var u, v := JoinAll(rs[..n]).updates, rs[n].updates;
    AvoidsUnion(u, rs[..n], v);
    assert forall i :: 0 <= i < n ==> rs[..n][i] == rs[i];
    PairwiseLast(rs);
    if Avoids(u, v.Keys) {
      UnionExtends(u, rs[..n], v);
      assert rs[..n] + [Ok(v)] == rs;
    }
  }

  /** The same update set, or a failure for both. */
  predicate Interchangeable(r: Outcome, r': Outcome) {
    if r.Ok? then r' == r else !r'.Ok?
  }

  lemma PermutedDisjoint(rs: seq<Outcome>, rs': seq<Outcome>, p: seq<nat>)
    requires Permuted(rs, rs', p)
    ensures AllOk(rs) <==> AllOk(rs')
    ensures AllOk(rs) ==> (PairwiseDisjoint(rs) <==> PairwiseDisjoint(rs'))
  {
    if AllOk(rs') {
      forall k | 0 <= k < |rs| ensures rs[k].Ok? {
        assert k in p;
        var i :| 0 <= i < |p| && p[i] == k;
        assert rs'[i].Ok?;
      }
      if !PairwiseDisjoint(rs) {
        var k, m :| 0 <= k < m < |rs| && !Disjoint(rs[k].updates, rs[m].updates);
        assert k in p;
        var i :| 0 <= i < |p| && p[i] == k;
        assert m in p;
        var j :| 0 <= j < |p| && p[j] == m;
        assert !Disjoint(rs'[i].updates, rs'[j].updates) && !Disjoint(rs'[j].updates, rs'[i].updates);
      }
      if !PairwiseDisjoint(rs') {
        var i, j :| 0 <= i < j < |rs'| && !Disjoint(rs'[i].updates, rs'[j].updates);
        assert !Disjoint(rs[p[i]].updates, rs[p[j]].updates) && !Disjoint(rs[p[j]].updates, rs[p[i]].updates);
        assert p[i] != p[j];
      }
    }
  }

  lemma UnionUnique(rs: seq<Outcome>, rs': seq<Outcome>, p: seq<nat>, u: Updates, u': Updates)
    requires Permuted(rs, rs', p) && AllOk(rs) && AllOk(rs')
    requires IsUnion(u, rs) && IsUnion(u', rs')
    ensures u == u'
  {
    forall l ensures l in u ==> l in u' && u[l] == u'[l] {
      if l in u {
        var k :| 0 <= k < |rs| && l in rs[k].updates;
        assert k in p;
        var i :| 0 <= i < |p| && p[i] == k;
        assert l in rs'[i].updates;
      }
    }
    forall l | l in u' ensures l in u {
      var i :| 0 <= i < |rs'| && l in rs'[i].updates;
      assert l in rs[p[i]].updates;
    }
  }

  lemma JoinAllPermuted(rs: seq<Outcome>, rs': seq<Outcome>, p: seq<nat>)
    requires Permuted(rs, rs', p)
    ensures Interchangeable(JoinAll(rs), JoinAll(rs'))
    ensures AllOk(rs) && !JoinAll(rs).Ok? ==> JoinAll(rs).Clash? && JoinAll(rs').Clash?
  {
    JoinAllMeaning(rs);
    JoinAllMeaning(rs');
    PermutedDisjoint(rs, rs', p);
    if JoinAll(rs).Ok? {
      UnionUnique(rs, rs', p, JoinAll(rs).updates, JoinAll(rs').updates);
    }
  }

  /** No branch fails for another reason than a conflict. */
  ghost predicate NoAbort(rs: seq<Outcome>) {
    forall i :: 0 <= i < |rs| ==> !rs[i].Abort?
  }

  lemma {:induction false} NoAbortDecides(rs: seq<Outcome>)
    requires NoAbort(rs)
    ensures !JoinAll(rs).Abort?
    ensures !AllOk(rs) ==> JoinAll(rs).Clash?
  {
    if rs != [] {
      var n := |rs| - 1;
      NoAbortDecides(rs[..n]);
      if AllOk(rs[..n]) && rs[n].Ok? {
        forall i | 0 <= i < |rs| ensures rs[i].Ok? {
          assert i < n ==> rs[..n][i] == rs[i];
        }
      }
    }
  }

  /** A branch that comes first and aborts decides the outcome. */
  lemma {:induction false} FirstAborts(rs: seq<Outcome>)
    requires rs != [] && rs[0].Abort?
    ensures JoinAll(rs) == rs[0]
  {
    assert JoinAll([]) == Ok(map[]);
    JoinNothing(rs[0]);
    assert rs[..1][..0] == [];
    assert JoinAll(rs[..1]) == rs[0];
    JoinAllPrefix(rs, 1);
  }

  /** Without aborting branches every order has the same outcome, conflicts included. */
  lemma SameOutcome(rs: seq<Outcome>, rs': seq<Outcome>, p: seq<nat>)
    requires Permuted(rs, rs', p) && NoAbort(rs)
    ensures NoAbort(rs') && JoinAll(rs) == JoinAll(rs')
  {
    JoinAllPermuted(rs, rs', p);
    NoAbortDecides(rs);
    NoAbortDecides(rs');
  }

  /** The order that takes position k to the front. */
  function ToFront(n: nat, k: nat): (p: seq<nat>)
    requires k < n
    ensures |p| == n && forall i :: 0 <= i < n ==> p[i] == if i == 0 then k else if i <= k then i - 1 else i
  {
    seq(n, i requires 0 <= i < n => if i == 0 then k else if i <= k then i - 1 else i)
  }

  lemma FrontPermutes<T>(rs: seq<T>, k: nat) returns (rs': seq<T>, p: seq<nat>)
    requires k < |rs|
    ensures Permuted(rs, rs', p) && rs'[0] == rs[k]
  {
    p := ToFront(|rs|, k);
    rs' := seq(|rs|, i requires 0 <= i < |rs| => rs[p[i]]);
    forall j | 0 <= j < |p| ensures j in p {
      assert p[if j == k then 0 else if j < k then j + 1 else j] == j;
    }
  }

  ghost predicate ClashesInEveryOrder(rs: seq<Outcome>) {
    forall rs', p :: Permuted(rs, rs', p) ==> JoinAll(rs').Clash?
  }

  /** A conflict does not depend on the order exactly when no branch fails for another reason. */
  lemma ClashExact(rs: seq<Outcome>)
    ensures ClashesInEveryOrder(rs) <==> NoAbort(rs) && JoinAll(rs).Clash?
  {
    if NoAbort(rs) && JoinAll(rs).Clash? {
      forall rs', p | Permuted(rs, rs', p) ensures JoinAll(rs').Clash? {
        SameOutcome(rs, rs', p);
      }
    }
    if ClashesInEveryOrder(rs) {
      var q := Identity(rs);
      assert JoinAll(rs).Clash?;
      if k :| 0 <= k < |rs| && rs[k].Abort? {
        var rs', p := FrontPermutes(rs, k);
        FirstAborts(rs');
      }
    }
  }

  lemma TwoWritesClash(rs: seq<Outcome>, f: Location)
    requires |rs| == 3 && rs[0].Ok? && rs[1].Ok? && f in rs[0].updates && f in rs[1].updates
    ensures JoinAll(rs) == Clash
  {
    assert !Disjoint(rs[0].updates, rs[1].updates);
    JoinAllMeaning(rs[..2]);
    JoinAllPrefix(rs, 2);
  }

  lemma DenotesWrite(p: Program, v: Value, s: State)
    ensures Denote(p, Update("f", [], Constant(v)), [], s, 1, 0) == Ok(map[Location("f", []) := v])
  {
  }

  /** `par f := 1; f := 2; diedie` conflicts, and the same with `diedie` first does not. */
  lemma OrderOfFailures(p: Program, s: State)
    ensures var one, two := Update("f", [], Constant(Int(1))), Update("f", [], Constant(Int(2)));
      && Permuted([one, two, Diedie], [Diedie, one, two], [2, 0, 1])
      && Denote(p, ParBlock([one, two, Diedie]), [], s, 2, 0) == Clash
      && Denote(p, ParBlock([Diedie, one, two]), [], s, 2, 0) == Failed(DiedieExecuted)
  {
    var one, two := Update("f", [], Constant(Int(1))), Update("f", [], Constant(Int(2)));
    assert 0 in [2, 0, 1] && 1 in [2, 0, 1] && 2 in [2, 0, 1];
    DenotesWrite(p, Int(1), s);
    DenotesWrite(p, Int(2), s);
    TwoWritesClash(Branches(p, [one, two, Diedie], [], s, 1, 0), Location("f", []));
    FirstAborts(Branches(p, [Diedie, one, two], [], s, 1, 0));
  }

  /**
    Permuting the statements of a parallel block does not change its update set, nor whether it
    fails; nor which failure it is, as long as no statement fails by itself for another reason.
   */
  lemma ParBlockAnyOrder(p: Program, stmts: seq<Statement>, stmts': seq<Statement>, order: seq<nat>,
                         frame: seq<Value>, s: State, fuel: nat, rounds: nat)
    requires Permuted(stmts, stmts', order)
    ensures Interchangeable(Denote(p, ParBlock(stmts), frame, s, fuel, rounds),
                            Denote(p, ParBlock(stmts'), frame, s, fuel, rounds))
    ensures fuel > 0 && NoAbort(Branches(p, stmts, frame, s, fuel - 1, rounds)) ==>
      Denote(p, ParBlock(stmts), frame, s, fuel, rounds) == Denote(p, ParBlock(stmts'), frame, s, fuel, rounds)
  {
    if fuel > 0 {
      var rs := Branches(p, stmts, frame, s, fuel - 1, rounds);
      var rs' := Branches(p, stmts', frame, s, fuel - 1, rounds);
      JoinAllPermuted(rs, rs', order);
      if NoAbort(rs) { SameOutcome(rs, rs', order); }
    }
  }

  /**
    A parallel block conflicts in every order of its statements exactly when it does in one and none of
    them aborts.
   */
  lemma ParBlockConflictExact(p: Program, stmts: seq<Statement>, frame: seq<Value>, s: State, fuel: nat, left: nat,
                              rounds: nat)
    requires fuel == left + 1
    ensures (forall stmts', order :: Permuted(stmts, stmts', order) ==>
               Denote(p, ParBlock(stmts'), frame, s, fuel, rounds).Clash?)
       <==> (NoAbort(Branches(p, stmts, frame, s, left, rounds)) &&
             Denote(p, ParBlock(stmts), frame, s, fuel, rounds).Clash?)
  {
    var rs := Branches(p, stmts, frame, s, left, rounds);
    if NoAbort(rs) && Denote(p, ParBlock(stmts), frame, s, fuel, rounds).Clash? {
      forall stmts', order | Permuted(stmts, stmts', order)
        ensures Denote(p, ParBlock(stmts'), frame, s, fuel, rounds).Clash?
      {
        ParBlockAnyOrder(p, stmts, stmts', order, frame, s, fuel, rounds);
      }
    }
    if !NoAbort(rs) {
      var k :| 0 <= k < |rs| && rs[k].Abort?;
      var stmts', order := FrontPermutes(stmts, k);
      FirstAborts(Branches(p, stmts', frame, s, left, rounds));
      assert !Denote(p, ParBlock(stmts'), frame, s, fuel, rounds).Clash?;
    } else {
      var order := Identity(stmts);
      assert Permuted(stmts, stmts, order);
    }
  }

  /** The same for the items that a forall visits. */
  lemma ForallAnyOrder(p: Program, body: Statement, items: seq<Value>, items': seq<Value>, order: seq<nat>,
                       frame: seq<Value>, s: State, fuel: nat, rounds: nat)
    requires Permuted(items, items', order)
    ensures Interchangeable(JoinAll(Instances(p, body, items, frame, s, fuel, rounds)),
                            JoinAll(Instances(p, body, items', frame, s, fuel, rounds)))
    ensures NoAbort(Instances(p, body, items, frame, s, fuel, rounds)) ==>
      JoinAll(Instances(p, body, items, frame, s, fuel, rounds))
        == JoinAll(Instances(p, body, items', frame, s, fuel, rounds))
    ensures var rs := Instances(p, body, items, frame, s, fuel, rounds);
      (ClashesInEveryOrder(rs) <==> NoAbort(rs) && JoinAll(rs).Clash?)
  {
    var rs := Instances(p, body, items, frame, s, fuel, rounds);
    var rs' := Instances(p, body, items', frame, s, fuel, rounds);
    JoinAllPermuted(rs, rs', order);
    if NoAbort(rs) { SameOutcome(rs, rs', order); }
    ClashExact(rs);
  }

  /** Two walks whose denotations are interchangeable leave the same layers, or both fail. */
  lemma WalksInterchangeable(before: seq<Updates>, status: Status, after: seq<Updates>, r: Outcome,
                             status': Status, after': seq<Updates>, r': Outcome)
    requires before != [] && !status.TooDeep? && !status'.TooDeep?
    requires Agrees(status, before, after, r) && Agrees(status', before, after', r')
    requires Interchangeable(r, r')
    ensures status.Done? <==> status'.Done?
    ensures status.Done? ==> after == after'
  {
  }

  // ---- Fuel ----

  predicate OutOf(r: Outcome) {
    r.Abort? && r.fault == OutOfFuel
  }

  /** r' is what r may become with more fuel: only running out of fuel is not final. */
  predicate Refines(r: Outcome, r': Outcome) {
    r' == r || (OutOf(r) && (r'.Clash? || r.written <= r'.Written()))
  }

  lemma {:induction false} JoinAllRefines(rs: seq<Outcome>, rs': seq<Outcome>)
    requires |rs| == |rs'| && forall i :: 0 <= i < |rs| ==> Refines(rs[i], rs'[i])
    ensures Refines(JoinAll(rs), JoinAll(rs'))
  {
    if rs != [] {
      JoinAllRefines(rs[..|rs| - 1], rs'[..|rs| - 1]);
    }
  }

  /** More fuel and more rounds never change an outcome, except for running out of them. */
  lemma {:induction false} DenoteMonotone(p: Program, stmt: Statement, frame: seq<Value>, s: State,
                                          fuel: nat, rounds: nat, fuel': nat, rounds': nat)
    requires fuel <= fuel' && rounds <= rounds'
    ensures Refines(Denote(p, stmt, frame, s, fuel, rounds), Denote(p, stmt, frame, s, fuel', rounds'))
    decreases fuel, 0
  {
    if fuel > 0 {
      match stmt
      case IfThenElse(cond, then_, else_) =>
        DenoteMonotone(p, then_, frame, s, fuel - 1, rounds, fuel' - 1, rounds');
        DenoteMonotone(p, else_, frame, s, fuel - 1, rounds, fuel' - 1, rounds');
      case Let(expr, body) =>
        var v := Eval(expr, frame, s);
        if v.Success? {
          DenoteMonotone(p, body, frame + [v.value], s, fuel - 1, rounds, fuel' - 1, rounds');
        }
      case Call(target, args) =>
        var rule, vs := Callee(p, target, frame, s), EvalAll(args, frame, s);
        if rule.Success? && vs.Success? && rule.value.Some? {
          DenoteMonotone(p, rule.value.value.body, vs.value, s, fuel - 1, rounds, fuel' - 1, rounds');
        }
      case ParBlock(stmts) =>
        forall i | 0 <= i < |stmts| {
          DenoteMonotone(p, stmts[i], frame, s, fuel - 1, rounds, fuel' - 1, rounds');
        }
        JoinAllRefines(Branches(p, stmts, frame, s, fuel - 1, rounds),
                       Branches(p, stmts, frame, s, fuel' - 1, rounds'));
      case Forall(range, body) =>
        var items := Items(range, frame, s);
        if items.Success? {
          forall i | 0 <= i < |items.value| {
            DenoteMonotone(p, body, frame + [items.value[i]], s, fuel - 1, rounds, fuel' - 1, rounds');
          }
          JoinAllRefines(Instances(p, body, items.value, frame, s, fuel - 1, rounds),
                         Instances(p, body, items.value, frame, s, fuel' - 1, rounds'));
        }
      case SeqBlock(stmts) =>
        SeqMonotone(p, stmts, frame, s, fuel - 1, rounds, fuel' - 1, rounds');
      case Iterate(body) =>
        IterateMonotone(p, body, frame, s, map[], fuel - 1, rounds, rounds, fuel' - 1, rounds', rounds');
      case _ =>
    }
  }

  lemma {:induction false} SeqMonotone(p: Program, stmts: seq<Statement>, frame: seq<Value>, s: State,
                                       fuel: nat, rounds: nat, fuel': nat, rounds': nat)
    requires fuel <= fuel' && rounds <= rounds'
    ensures Refines(DenoteSeq(p, stmts, frame, s, fuel, rounds), DenoteSeq(p, stmts, frame, s, fuel', rounds'))
    decreases fuel, 1 + |stmts|
  {
    SeqSealed(p, stmts, frame, s, fuel, rounds);
    if stmts != [] {
      var n := |stmts| - 1;
      SeqMonotone(p, stmts[..n], frame, s, fuel, rounds, fuel', rounds');
      var r := DenoteSeq(p, stmts[..n], frame, s, fuel, rounds);
      if r.Ok? {
        DenoteMonotone(p, stmts[n], frame, Fire(s, r.updates), fuel, rounds, fuel', rounds');
      }
    }
  }

  lemma {:induction false} IterateMonotone(p: Program, body: Statement, frame: seq<Value>, s: State, u: Updates,
                                           fuel: nat, rounds: nat, left: nat, fuel': nat, rounds': nat, left': nat)
    requires fuel <= fuel' && rounds <= rounds' && left <= left'
    ensures Refines(DenoteIterate(p, body, frame, s, u, fuel, rounds, left),
                    DenoteIterate(p, body, frame, s, u, fuel', rounds', left'))
    decreases fuel, 1 + left
  {
    IterateSealed(p, body, frame, s, u, fuel, rounds, left);
    if left > 0 {
      DenoteMonotone(p, body, frame, Fire(s, u), fuel, rounds, fuel', rounds');
      var r := Denote(p, body, frame, Fire(s, u), fuel, rounds);
      if r.Ok? && r.updates != map[] {
        IterateMonotone(p, body, frame, s, u + r.updates, fuel, rounds, left - 1, fuel', rounds', left' - 1);
      }
    }
  }

  /** Any two runs of a statement that do not run out of fuel have the same outcome. */
  lemma Deterministic(p: Program, stmt: Statement, frame: seq<Value>, s: State,
                      fuel: nat, rounds: nat, fuel': nat, rounds': nat)
    requires !OutOf(Denote(p, stmt, frame, s, fuel, rounds)) && !OutOf(Denote(p, stmt, frame, s, fuel', rounds'))
    ensures Denote(p, stmt, frame, s, fuel, rounds) == Denote(p, stmt, frame, s, fuel', rounds')
  {
    var f, n := if fuel < fuel' then fuel' else fuel, if rounds < rounds' then rounds' else rounds;
    DenoteMonotone(p, stmt, frame, s, fuel, rounds, f, n);
    DenoteMonotone(p, stmt, frame, s, fuel', rounds', f, n);
  }

  // ---- Iterate ----

  /** An iterate that ends does so in a state where its body has nothing left to do. */
  lemma {:induction false} IterateReachesFixpoint(p: Program, body: Statement, frame: seq<Value>, s: State, u: Updates,
                                                  fuel: nat, rounds: nat, left: nat)
    requires DenoteIterate(p, body, frame, s, u, fuel, rounds, left).Ok?
    ensures var w := DenoteIterate(p, body, frame, s, u, fuel, rounds, left).updates;
            Denote(p, body, frame, Fire(s, w), fuel, rounds) == Ok(map[])
    decreases left
  {
    var r := Denote(p, body, frame, Fire(s, u), fuel, rounds);
    if r.updates != map[] {
      IterateReachesFixpoint(p, body, frame, s, u + r.updates, fuel, rounds, left - 1);
    }
  }
}
