/** How the effect of a walk on the stack of layers is to agree with the denotation of what is walked. */
module Refinement {
  import opened Values
  import opened Syntax
  import opened Semantics
  import opened ExecutionContext

  /** How a walk ends; TooDeep stands for a fork beyond the 16 bits that a key has for the layer. */
  datatype Status = Done | Conflict | Stopped(fault: Fault) | TooDeep

  /** The outcome of adding r to the top layer: a disjoint union if it is parallel, an override if not. */
  ghost function Enter(layers: seq<Updates>, r: Outcome): Outcome
    requires layers != []
  {
    if Parallel(layers) then Join(Top(layers), r) else Override(Top(layers), r)
  }

  /** The walk ended as the denotation r says, and changed only the top layer, by exactly r. */
  ghost predicate Agrees(status: Status, before: seq<Updates>, after: seq<Updates>, r: Outcome)
    requires before != []
  {
    match status
    case Done => Enter(before, r).Ok? && after == WithTop(before, Enter(before, r).updates)
    case Conflict => Enter(before, r).Clash?
    case Stopped(fault) => Enter(before, r).Abort? && Enter(before, r).fault == fault
    case TooDeep => true
  }

  // ---- What stays visible ----

  lemma VisibleFork(c: State, layers: seq<Updates>)
    requires layers != []
    ensures Visible(c, layers + [map[]]) == Visible(c, layers)
  {
    var n: nat := |layers| - 1;
    var forked: seq<Updates> := layers + [map[]];
    if n % 2 == 0 {
      VisibleEmptyTop(c, layers, n + 1);
      calc {
        Visible(c, forked);
        VisibleFrom(c, forked, n + 1);
        VisibleFrom(c, layers, n - 1);
        Visible(c, layers);
      }
    } else {
      VisibleFromPrefix(c, forked, layers, n);
      calc {
        Visible(c, forked);
        VisibleFrom(c, forked, n);
        VisibleFrom(c, layers, n);
        Visible(c, layers);
      }
    }
  }

  lemma VisibleEmptyTop(c: State, layers: seq<Updates>, n: nat)
    requires n == |layers| && n > 0
    ensures VisibleFrom(c, layers + [map[]], n) == VisibleFrom(c, layers, n - 2)
  {
    VisibleFromPrefix(c, layers + [map[]], layers, n - 2);
    FireNothing(VisibleFrom(c, layers, n - 2));
  }

  lemma VisibleParallel(c: State, layers: seq<Updates>, u: Updates)
    requires layers != [] && Parallel(layers)
    ensures Visible(c, WithTop(layers, u)) == Visible(c, layers)
  {
    VisibleFromPrefix(c, layers[|layers| - 1 := u], layers, |layers| - 2);
  }

  lemma VisibleSequential(c: State, layers: seq<Updates>, u: Updates)
    requires layers != [] && !Parallel(layers)
    ensures Visible(c, WithTop(layers, Top(layers) + u)) == Fire(Visible(c, layers), u)
  {
    var n := |layers| - 1;
    var changed := layers[n := Top(layers) + u];
    var below := VisibleFrom(c, layers, n - 2);
    VisibleFromPrefix(c, changed, layers, n - 2);
    FireTwice(below, layers[n], u);
    calc {
      Visible(c, changed);
      VisibleFrom(c, changed, n);
      Fire(below, layers[n] + u);
      Fire(Fire(below, layers[n]), u);
      Fire(VisibleFrom(c, layers, n), u);
    }
  }

  // ---- Composing walks ----

  /** A branch that fails, or overlaps what was there, decides the outcome of the whole. */
  lemma JoinAllDecided(l: Updates, rs: seq<Outcome>, n: nat)
    requires n <= |rs| && !Join(l, JoinAll(rs[..n])).Ok?
    ensures var r, whole := Join(l, JoinAll(rs[..n])), Join(l, JoinAll(rs));
            (r.Clash? ==> whole.Clash?) && (r.Abort? ==> whole == r)
  {
    JoinAllPrefix(rs, n);
  }

  /** A walk from an intermediate stack, seen from the first one, when both ways lead to the same outcome. */
  lemma AgreesFrom(status: Status, before: seq<Updates>, middle: seq<Updates>, after: seq<Updates>, u: Updates,
                   r: Outcome, whole: Outcome)
    requires before != [] && middle == WithTop(before, u) && Enter(middle, r) == Enter(before, whole)
    requires Agrees(status, middle, after, r)
    ensures Agrees(status, before, after, whole)
  {
    assert status.Done? ==> WithTop(middle, Enter(middle, r).updates) == WithTop(before, Enter(middle, r).updates);
  }

  /** The outcome of one more branch is that of all branches so far. */
  lemma ParOutcome(before: seq<Updates>, middle: seq<Updates>, rs: seq<Outcome>, i: nat)
    requires before != [] && Parallel(before) && i < |rs|
    requires Agrees(Done, before, middle, JoinAll(rs[..i]))
    ensures middle == WithTop(before, Enter(before, JoinAll(rs[..i])).updates)
    ensures Enter(middle, rs[i]) == Enter(before, JoinAll(rs[..i + 1]))
  {
    assert rs[..i + 1][..i] == rs[..i];
    JoinAssociative(Top(before), JoinAll(rs[..i]).updates, rs[i]);
  }

  /** Walking one more branch in a parallel layer. */
  lemma ParStep(before: seq<Updates>, middle: seq<Updates>, after: seq<Updates>, rs: seq<Outcome>, i: nat,
                status: Status)
    requires before != [] && Parallel(before) && i < |rs|
    requires Agrees(Done, before, middle, JoinAll(rs[..i]))
    requires Agrees(status, middle, after, rs[i])
    ensures status.Done? ==> Agrees(Done, before, after, JoinAll(rs[..i + 1]))
    ensures !status.Done? ==> Agrees(status, before, after, JoinAll(rs))
  {
    var r := JoinAll(rs[..i + 1]);
    ParOutcome(before, middle, rs, i);
    AgreesFrom(status, before, middle, after, Enter(before, JoinAll(rs[..i])).updates, rs[i], r);
    if status.Conflict? || status.Stopped? {
      JoinAllDecided(Top(before), rs, i + 1);
    }
  }

  /** The outcome of one more statement is that of all statements so far. */
  lemma SeqOutcome(p: Program, stmts: seq<Statement>, i: nat, frame: seq<Value>, c: State, fuel: nat, rounds: nat,
                   before: seq<Updates>, middle: seq<Updates>)
    requires before != [] && !Parallel(before) && i < |stmts|
    requires Agrees(Done, before, middle, DenoteSeq(p, stmts[..i], frame, Visible(c, before), fuel, rounds))
    ensures middle == WithTop(before, Top(middle))
    ensures Enter(middle, Denote(p, stmts[i], frame, Visible(c, middle), fuel, rounds))
         == Enter(before, DenoteSeq(p, stmts[..i + 1], frame, Visible(c, before), fuel, rounds))
  {
    var s := Visible(c, before);
    var u := DenoteSeq(p, stmts[..i], frame, s, fuel, rounds).updates;
    VisibleSequential(c, before, u);
    assert stmts[..i + 1][..i] == stmts[..i];
    OverrideAssociative(Top(before), u, Denote(p, stmts[i], frame, Fire(s, u), fuel, rounds));
  }

  /** Walking one more statement in a sequential layer. */
  lemma SeqStep(p: Program, stmts: seq<Statement>, i: nat, frame: seq<Value>, c: State, fuel: nat, rounds: nat,
                before: seq<Updates>, middle: seq<Updates>, after: seq<Updates>, status: Status)
    requires before != [] && !Parallel(before) && i < |stmts|
    requires var s := Visible(c, before);
      && Agrees(Done, before, middle, DenoteSeq(p, stmts[..i], frame, s, fuel, rounds))
      && Agrees(status, middle, after, Denote(p, stmts[i], frame, Visible(c, middle), fuel, rounds))
    ensures var s := Visible(c, before);
      && (status.Done? ==> Agrees(Done, before, after, DenoteSeq(p, stmts[..i + 1], frame, s, fuel, rounds)))
      && (!status.Done? ==> Agrees(status, before, after, DenoteSeq(p, stmts, frame, s, fuel, rounds)))
  {
    var s := Visible(c, before);
    var r := DenoteSeq(p, stmts[..i + 1], frame, s, fuel, rounds);
    SeqOutcome(p, stmts, i, frame, c, fuel, rounds, before, middle);
    AgreesFrom(status, before, middle, after, Top(middle),
               Denote(p, stmts[i], frame, Visible(c, middle), fuel, rounds), r);
    if !r.Ok? {
      DenoteSeqPrefix(p, stmts, i + 1, frame, s, fuel, rounds);
    }
  }

  /** Adding one update to the top layer. */
  lemma AgreesOne(before: seq<Updates>, after: seq<Updates>, l: Location, v: Value, conflict: bool)
    requires before != []
    requires conflict <==> Parallel(before) && l in Top(before)
    requires !conflict ==> after == WithTop(before, Top(before)[l := v])
    ensures Agrees(if conflict then Conflict else Done, before, after, Ok(map[l := v]))
  {
    assert Top(before) + map[l := v] == Top(before)[l := v];
    var one: Updates := map[l := v];
    assert l in one.Keys;
  }

  lemma AgreesNothing(before: seq<Updates>)
    requires before != []
    ensures Agrees(Done, before, before, Ok(map[]))
  {
    assert Top(before) + map[] == Top(before);
    assert WithTop(before, Top(before)) == before;
  }

  /** Leaving a parallel block that forked: its layer overrides the sequential layer below. */
  lemma LeavePar(before: seq<Updates>, inner: seq<Updates>, status: Status, r: Outcome)
    requires before != [] && !Parallel(before)
    requires Agrees(status, before + [map[]], inner, r)
    ensures status.Done? ==> Agrees(Done, before, MergeTop(inner), r)
    ensures !status.Done? ==> Agrees(status, before, inner, r)
  {
    JoinNothing(r);
    if status.Done? {
      assert inner == before + [r.updates];
      assert MergeTop(inner) == WithTop(before, Top(before) + r.updates);
    }
  }

  /** Leaving a sequential block that forked: its layer must be disjoint from the parallel layer below. */
  lemma LeaveSeq(before: seq<Updates>, inner: seq<Updates>, status: Status, r: Outcome)
    requires before != [] && Parallel(before)
    requires r.Abort? ==> r.written == {}
    requires Agrees(status, before + [map[]], inner, r)
    ensures status.Done? ==> inner != [] && |inner| == |before| + 1
    ensures status.Done? && !TopOverlaps(inner) ==> Agrees(Done, before, MergeTop(inner), r)
    ensures status.Done? && TopOverlaps(inner) ==> Agrees(Conflict, before, inner, r)
    ensures !status.Done? ==> Agrees(status, before, inner, r)
  {
    if status.Done? {
      assert map[] + r.updates == r.updates;
      assert inner == before + [r.updates];
      assert MergeTop(inner) == WithTop(before, Top(before) + r.updates);
    }
  }

  /** One round of an iterate, merged: u is what the rounds before did, v what this round did. */
  lemma RoundMerged(before: seq<Updates>, middle: seq<Updates>, inner: seq<Updates>, u: Updates, r: Outcome,
                    status: Status)
    requires before != [] && !Parallel(before)
    requires Agrees(Done, before, middle, Ok(u))
    requires Agrees(status, middle + [map[]], inner, r)
    ensures !status.Done? ==> Agrees(status, before, inner, Override(u, r))
    ensures status.Done? ==> r.Ok? && |inner| == |before| + 1 && Top(inner) == r.updates
    ensures status.Done? ==> Agrees(Done, before, MergeTop(inner), Ok(u + Top(inner)))
  {
    LeavePar(middle, inner, status, r);
    JoinNothing(r);
    OverrideAssociative(Top(before), u, r);
    if status.Done? {
      assert inner == middle + [r.updates];
    }
  }

  /** One round of an iterate, from the stack before the round forks to the one before it merges. */
  lemma RoundStep(p: Program, body: Statement, frame: seq<Value>, c: State, fuel: nat, rounds: nat, left: nat,
                  next: nat, before: seq<Updates>, middle: seq<Updates>, inner: seq<Updates>, u: Updates,
                  status: Status)
    requires before != [] && !Parallel(before) && left == next + 1
    requires Agrees(Done, before, middle, Ok(u))
    requires Agrees(status, middle + [map[]], inner, Denote(p, body, frame, Visible(c, middle), fuel, rounds))
    ensures status.Done? ==> |inner| == |before| + 1
    ensures var d := DenoteIterate(p, body, frame, Visible(c, before), u, fuel, rounds, left);
      && (!status.Done? ==> Agrees(status, before, inner, d))
      && (status.Done? ==> Agrees(Done, before, MergeTop(inner), Ok(u + Top(inner))))
      && (status.Done? && Top(inner) == map[] ==> d == Ok(u + Top(inner)))
      && (status.Done? && Top(inner) != map[] ==>
            d == DenoteIterate(p, body, frame, Visible(c, before), u + Top(inner), fuel, rounds, next))
  {
    VisibleSequential(c, before, u);
    var r := Denote(p, body, frame, Visible(c, middle), fuel, rounds);
    RoundMerged(before, middle, inner, u, r, status);
    RoundDenoted(p, body, frame, Visible(c, before), u, fuel, rounds, left, next);
    assert u + map[] == u;
  }

  /** Sequential composition never reports writes of a failed part. */
  lemma {:induction false} SeqSealed(p: Program, stmts: seq<Statement>, frame: seq<Value>, s: State, fuel: nat,
                                     rounds: nat)
    ensures var r := DenoteSeq(p, stmts, frame, s, fuel, rounds); r.Abort? ==> r.written == {}
  {
    if stmts != [] {
      SeqSealed(p, stmts[..|stmts| - 1], frame, s, fuel, rounds);
    }
  }

  lemma {:induction false} IterateSealed(p: Program, body: Statement, frame: seq<Value>, s: State, u: Updates,
                                         fuel: nat, rounds: nat, left: nat)
    ensures var r := DenoteIterate(p, body, frame, s, u, fuel, rounds, left); r.Abort? ==> r.written == {}
    decreases left
  {
    if left > 0 {
      var r := Denote(p, body, frame, Fire(s, u), fuel, rounds);
      if r.Ok? && r.updates != map[] {
        IterateSealed(p, body, frame, s, u + r.updates, fuel, rounds, left - 1);
      }
    }
  }
}
