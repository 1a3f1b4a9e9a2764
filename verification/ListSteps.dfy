/**
  Whole steps on lists. The rules of a step build new lists from the committed ones with cons, tail
  and app, and assign them to locations; the commit folds them. Steps refine assignments of plain
  sequences.
 */
module ListSteps {
  import opened Values
  import opened Sequences
  import opened Lists
  import opened ListFold
  import WriteOrder
  import UpdateSet

  /** What a rule computes from the list of one location. */
  datatype ListExpression =
    | Committed(loc: Location)
    | Consed(value: Value, list: ListExpression)
    | Tailed(list: ListExpression)
    | Appended(list: ListExpression, value: Value)
  {
    function Base(): Location {
      if Committed? then loc else list.Base()
    }

    /** The values that evaluation appends to the chain of the base, in order. */
    function Appends(): seq<Value> {
      match this
      case Committed(_) => []
      case Consed(_, e) => e.Appends()
      case Tailed(e) => e.Appends()
      case Appended(e, v) => e.Appends() + [v]
    }

    /** The list node that evaluation returns, when the base holds the given list. */
    function Shape(l: List): List {
      match this
      case Committed(_) => l
      case Consed(v, e) => Head(e.Shape(l), v)
      case Tailed(e) => Tail(Some(e.Shape(l))).value
      case Appended(e, _) => e.Shape(l)
    }

    /** The sequence that the expression means, when the base has the sequence s. */
    function Meaning(s: seq<Value>): seq<Value> {
      match this
      case Committed(_) => s
      case Consed(v, e) => [v] + e.Meaning(s)
      case Tailed(e) => Drop(e.Meaning(s), 1)
      case Appended(e, v) => e.Meaning(s) + [v]
    }

    /** How many heads the returned node has. */
    function Heads(): nat {
      match this
      case Committed(_) => 0
      case Consed(_, e) => e.Heads() + 1
      case Tailed(e) => if e.Heads() > 0 then e.Heads() - 1 else 0
      case Appended(e, _) => e.Heads()
    }

    /** How many elements of the bottom the returned node skips. */
    function Skips(): nat {
      match this
      case Committed(_) => 0
      case Consed(_, e) => e.Skips()
      case Tailed(e) => if e.Heads() > 0 then e.Skips() else e.Skips() + 1
      case Appended(e, _) => e.Skips()
    }

    /** The tail is only taken of lists that have one. */
    predicate InBounds(s: seq<Value>) {
      match this
      case Committed(_) => true
      case Tailed(e) => e.InBounds(s) && e.Meaning(s) != []
      case Consed(_, e) => e.InBounds(s)
      case Appended(e, _) => e.InBounds(s)
    }
  }

  /** The returned node is a view with the meaning of the expression, once all values have been appended. */
  lemma {:induction false} ShapeMeans(e: ListExpression, b: BottomList, s: seq<Value>)
    requires e.InBounds(s)
    ensures var l := e.Shape(Bottom(b));
      l.BottomOf() == b && l.Within(|s + e.Appends()|) && l.View(s + e.Appends()) == e.Meaning(s)
    decreases e
  {
    match e
    case Committed(_) =>
      assert s + [] == s;
    case Consed(_, e') => ShapeMeans(e', b, s);
    case Tailed(e') =>
      ShapeMeans(e', b, s);
      TailDropsFirst(e'.Shape(Bottom(b)), s + e'.Appends());
    case Appended(e', v) =>
      ShapeMeans(e', b, s);
      ViewExtends(e'.Shape(Bottom(b)), s + e'.Appends(), [v]);
      assert s + e.Appends() == (s + e'.Appends()) + [v];
      WithinMore(e'.Shape(Bottom(b)), |s + e'.Appends()|, |s + e.Appends()|);
  }

  function HeadsOf(l: List): nat {
    if l.Head? then HeadsOf(l.right) + 1 else 0
  }

  lemma {:induction false} ShapeSkips(e: ListExpression, b: BottomList, n: nat)
    ensures HeadsOf(e.Shape(Bottom(b))) == e.Heads()
    ensures e.Shape(Bottom(b)).Within(n) <==> e.Skips() <= n
    decreases e
  {
    if !e.Committed? { ShapeSkips(e.list, b, n); }
    if e.Tailed? {
      var l := e.list.Shape(Bottom(b));
      assert l.Head? <==> e.list.Heads() > 0;
      if !l.Head? { SkipsOf(e.list, b); }
    }
  }

  /** Without heads the node is a skip, or the bottom itself. */
  lemma {:induction false} SkipsOf(e: ListExpression, b: BottomList)
    ensures Unheaded(e.Shape(Bottom(b))) == if e.Skips() == 0 then Bottom(b) else Skip(e.Skips(), b)
    ensures HeadsOf(e.Shape(Bottom(b))) == e.Heads()
    decreases e
  {
    if !e.Committed? { SkipsOf(e.list, b); }
  }

  function Unheaded(l: List): List {
    if l.Head? then Unheaded(l.right) else l
  }

  lemma WithinMore(l: List, m: nat, n: nat)
    requires l.Within(m) && m <= n
    ensures l.Within(n)
  {
  }

  /** No node is behind two bottoms. */
  ghost predicate ChainsApart(bottoms: set<BottomList>)
    reads bottoms
  {
    forall b, c, t :: b in bottoms && c in bottoms && b != c && t in b.chain ==> t !in c.chain
  }

  /** Everything that app leaves alone in a bottom. */
  twostate predicate Kept(b: BottomList)
    reads b
  {
    b.values == old(b.values) && b.usageCount == old(b.usageCount) && b.chain == old(b.chain) && b.tail == old(b.tail)
  }

  /** app on a list of the store: its bottom grows, and every other bottom stays as it is, and valid. */
  method AppTo(store: ListStore, list: List, v: Value)
    requires store.AllValid() && ChainsApart(store.bottoms) && list.BottomOf() in store.bottoms
    modifies list.BottomOf(), list.BottomOf().chain
    ensures store.AllValid() && ChainsApart(store.bottoms)
    ensures var b := list.BottomOf();
      && b.values == old(b.values) && b.usageCount == old(b.usageCount)
      && b.Items() == old(b.Items()) + [v] && TailValues(b.chain) == old(TailValues(b.chain)) + [v]
      && |b.chain| == |old(b.chain)| + 1 && b.chain[..|old(b.chain)|] == old(b.chain) && fresh(b.chain[|old(b.chain)|])
    ensures forall c :: c in store.bottoms && c != list.BottomOf() ==> Kept(c)
  {
    ghost var b := list.BottomOf();
    var _, node := App(Some(list), v);
    assert b.chain == old(b.chain) + [node];
    forall c | c in store.bottoms && c != b ensures c.Valid() {
      assert forall i :: 0 <= i < |c.chain| ==> c.chain[i] in c.chain && c.chain[i] !in old(b.chain);
    }
  }

  /** The bottom has grown by some values at the end, and nothing else of it has changed. */
  twostate predicate Grew(b: BottomList, vs: seq<Value>)
    reads b
  {
    && b.values == old(b.values) && b.usageCount == old(b.usageCount)
    && TailValues(b.chain) == old(TailValues(b.chain)) + vs
  }

  /** What evaluating over a bottom may do to the lists of a store. */
  twostate predicate OnlyGrew(store: ListStore, b: BottomList, vs: seq<Value>)
    reads store, store.bottoms, store.Nodes(), b
  {
    && store.cells == old(store.cells) && store.bottoms == old(store.bottoms)
    && store.AllValid() && ChainsApart(store.bottoms)
    && Grew(b, vs)
    && (forall c :: c in store.bottoms && c != b ==> Kept(c))
    && fresh(store.Nodes() - old(store.Nodes()))
  }

  /** Evaluates an expression over a bottom: the base in its new shape, with the values behind the bottom. */
  method EvaluateOver(store: ListStore, e: ListExpression, b: BottomList) returns (r: List)
    requires store.AllValid() && ChainsApart(store.bottoms) && b in store.bottoms
    requires e.Base() in store.cells && store.cells[e.Base()] == Some(Bottom(b))
    modifies store.bottoms, store.Nodes()
    ensures r == e.Shape(Bottom(b)) && r.BottomOf() == b
    ensures OnlyGrew(store, b, e.Appends())
    decreases e
  {
    match e
    case Committed(l) =>
      assert TailValues(b.chain) + [] == TailValues(b.chain);
      r := Bottom(b);
    case Consed(v, e') =>
      r := EvaluateOver(store, e', b);
      r := Head(r, v);
    case Tailed(e') =>
      r := EvaluateOver(store, e', b);
      TailDropsFirst(r, []);
      r := Tail(Some(r)).value;
    case Appended(e', v) =>
      r := EvaluateOver(store, e', b);
      AppTo(store, r, v);
  }

  // ---- The assignments of a step ----

  datatype Assignment = Assignment(loc: Location, expr: ListExpression)

  /** The sequence of every location; None is undef. */
  type Contents = map<Location, Option<seq<Value>>>

  /** The expression that is assigned to a location. */
  function Assigned(assigns: seq<Assignment>, l: Location): (e: Option<ListExpression>)
    ensures e.Some? ==> Assignment(l, e.value) in assigns
    ensures e.None? ==> forall a :: a in assigns ==> a.loc != l
  {
    if assigns == [] then None
    else if assigns[0].loc == l then Some(assigns[0].expr) else Assigned(assigns[1..], l)
  }

  /** What a step means for plain sequences: all expressions are evaluated before anything is assigned. */
  function After(c: Contents, assigns: seq<Assignment>): Contents {
    map l | l in c ::
      match Assigned(assigns, l)
      case None => c[l]
      case Some(e) => if e.Base() in c && c[e.Base()].Some? then Some(e.Meaning(c[e.Base()].value)) else None
  }

  /**
    The assignments of a step, in the order in which they are walked and in the one in which the commit
    folds them.
   */
  datatype Step = Step(walked: seq<Assignment>, folded: seq<Assignment>) {
    ghost predicate Valid() {
      exists order: seq<nat> :: Permuted(walked, folded, order)
    }
  }

  /** Each location is assigned once, by an expression over a location that takes tails only of lists that have one. */
  ghost predicate Proper(c: Contents, assigns: seq<Assignment>) {
    && (forall i :: 0 <= i < |assigns| ==>
          var a := assigns[i];
          && a.loc in c && a.expr.Base() in c
          && (c[a.expr.Base()].Some? ==> a.expr.InBounds(c[a.expr.Base()].value)))
    && (forall i, j :: 0 <= i < j < |assigns| ==> assigns[i].loc != assigns[j].loc)
  }

  /** An assignment before this one has an expression over the same base. */
  ghost predicate Later(assigns: seq<Assignment>, k: nat)
    requires k < |assigns|
  {
    exists i :: 0 <= i < k && assigns[i].expr.Base() == assigns[k].expr.Base()
  }

  /** Of the expressions over one base that is defined, at most the first one appends to it. */
  ghost predicate AppendsFirst(c: Contents, assigns: seq<Assignment>) {
    forall k :: 0 <= k < |assigns| && Later(assigns, k) ==>
      assigns[k].expr.Base() in c && c[assigns[k].expr.Base()].Some? ==> assigns[k].expr.Appends() == []
  }

  /** The later expressions over a base skip no more elements than the base had when the step began. */
  ghost predicate InReach(c: Contents, assigns: seq<Assignment>) {
    forall k :: 0 <= k < |assigns| && Later(assigns, k) ==>
      assigns[k].expr.Base() in c && c[assigns[k].expr.Base()].Some? ==>
        assigns[k].expr.Skips() <= |c[assigns[k].expr.Base()].value|
  }

  /** The values that some assignments append to the list of a location. */
  function Gained(assigns: seq<Assignment>, l: Location): seq<Value> {
    if assigns == [] then []
    else
      var last := assigns[|assigns| - 1];
      Gained(assigns[..|assigns| - 1], l) + if last.expr.Base() == l then last.expr.Appends() else []
  }

  lemma {:induction false} GainedNothing(assigns: seq<Assignment>, l: Location)
    requires forall i :: 0 <= i < |assigns| && assigns[i].expr.Base() == l ==> assigns[i].expr.Appends() == []
    ensures Gained(assigns, l) == []
  {
    if assigns != [] {
      GainedNothing(assigns[..|assigns| - 1], l);
    }
  }

  /** The two orders of a step hold the same assignments, each once. */
  lemma StepFacts(c: Contents, step: Step)
    requires step.Valid() && Proper(c, step.walked)
    ensures Proper(c, step.folded) && SameAssignments(step.walked, step.folded)
  {
    var order: seq<nat> :| Permuted(step.walked, step.folded, order);
    forall a | a in step.walked ensures a in step.folded {
      var i :| 0 <= i < |step.walked| && step.walked[i] == a;
      assert i in order;
      var k :| 0 <= k < |order| && order[k] == i;
      assert step.folded[k] == a;
    }
    forall i, j | 0 <= i < j < |step.folded| ensures step.folded[i].loc != step.folded[j].loc {
      assert order[i] != order[j] && step.folded[i] == step.walked[order[i]];
      assert step.folded[j] == step.walked[order[j]];
    }
  }

  /** No other assignment appends to the base of the one at position j. */
  ghost predicate OnlyAppends(assigns: seq<Assignment>, j: nat)
    requires j < |assigns|
  {
    forall i :: 0 <= i < |assigns| && i != j && assigns[i].expr.Base() == assigns[j].expr.Base() ==>
      assigns[i].expr.Appends() == []
  }

  /** An assignment appends to its base at least its own values, and these are all if no other one appends. */
  lemma {:induction false} GainedBy(assigns: seq<Assignment>, j: nat)
    requires j < |assigns|
    ensures |assigns[j].expr.Appends()| <= |Gained(assigns, assigns[j].expr.Base())|
    ensures OnlyAppends(assigns, j) ==> Gained(assigns, assigns[j].expr.Base()) == assigns[j].expr.Appends()
  {
    var n, l := |assigns| - 1, assigns[j].expr.Base();
    var front := assigns[..n];
    if j < n {
      GainedBy(front, j);
      if OnlyAppends(assigns, j) {
        assert OnlyAppends(front, j) by {
          forall i | 0 <= i < n && i != j && front[i].expr.Base() == l ensures front[i].expr.Appends() == [] {
            assert assigns[i] == front[i];
          }
        }
        assert assigns[n].expr.Base() == l ==> assigns[n].expr.Appends() == [];
      }
    } else if OnlyAppends(assigns, j) {
      forall i | 0 <= i < n && front[i].expr.Base() == l ensures front[i].expr.Appends() == [] {
        assert assigns[i] == front[i];
      }
      GainedNothing(front, l);
    }
  }

  ghost predicate SameAssignments(walked: seq<Assignment>, folded: seq<Assignment>) {
    |walked| == |folded| && forall a :: a in walked <==> a in folded
  }

  /** If only the assignments that are folded first append, each of them is the only one for its base. */
  lemma FirstOnlyAppends(c: Contents, walked: seq<Assignment>, folded: seq<Assignment>, j: nat, k: nat)
    requires Proper(c, walked) && SameAssignments(walked, folded) && AppendsFirst(c, folded)
    requires j < |walked| && k < |folded| && walked[j] == folded[k] && !Later(folded, k)
    requires c[folded[k].expr.Base()].Some?
    ensures OnlyAppends(walked, j)
  {
    forall i | 0 <= i < |walked| && i != j && walked[i].expr.Base() == walked[j].expr.Base()
      ensures walked[i].expr.Appends() == []
    {
      assert walked[i] in folded;
      var h :| 0 <= h < |folded| && folded[h] == walked[i];
      assert k < h;
      assert Later(folded, h);
    }
  }

  /** What the first fold over a base finds in the chain. */
  lemma GainedFirst(c: Contents, walked: seq<Assignment>, folded: seq<Assignment>, k: nat)
    requires Proper(c, walked) && SameAssignments(walked, folded) && k < |folded| && !Later(folded, k)
    requires folded[k].expr.Base() in c && c[folded[k].expr.Base()].Some?
    ensures |folded[k].expr.Appends()| <= |Gained(walked, folded[k].expr.Base())|
    ensures AppendsFirst(c, folded) ==> Gained(walked, folded[k].expr.Base()) == folded[k].expr.Appends()
  {
    assert folded[k] in walked;
    var j :| 0 <= j < |walked| && walked[j] == folded[k];
    GainedBy(walked, j);
    if AppendsFirst(c, folded) { FirstOnlyAppends(c, walked, folded, j, k); }
  }

  lemma {:induction false} GainedFrom(assigns: seq<Assignment>, l: Location) returns (k: nat)
    requires Gained(assigns, l) != []
    ensures k < |assigns| && assigns[k].expr.Base() == l && assigns[k].expr.Appends() != []
  {
    var n := |assigns| - 1;
    if assigns[n].expr.Base() == l && assigns[n].expr.Appends() != [] {
      k := n;
    } else {
      k := GainedFrom(assigns[..n], l);
    }
  }

  /** The update of an assignment: the base in its new shape. */
  ghost function UpdateOf(cells: Cells, a: Assignment): ListUpdate
    requires a.expr.Base() in cells
  {
    var l := cells[a.expr.Base()];
    ListUpdate(a.loc, if l.None? then None else Some(a.expr.Shape(l.value)))
  }

  /** A moment after some assignments have been evaluated, on contents c: chains are what was appended. */
  ghost predicate Evaluated(c: Contents, was: Snapshot, assigns: seq<Assignment>) {
    && Apart(was) && was.cells.Keys == c.Keys
    && (forall l :: l in c ==> (c[l].Some? <==> was.cells[l].Some?))
    && (forall l :: l in c && c[l].Some? ==> var b := was.cells[l].value.BottomOf();
          && Reverse(was.values[b]) == c[l].value
          && TailValues(was.chains[b]) == Gained(assigns, l))
  }

  /** The updates of a step, in the order of the assignments. */
  ghost predicate UpdatesOf(cells: Cells, assigns: seq<Assignment>, updates: seq<ListUpdate>) {
    && |updates| == |assigns|
    && forall i :: 0 <= i < |assigns| ==>
      assigns[i].expr.Base() in cells && updates[i] == UpdateOf(cells, assigns[i])
  }

  // ---- Positions among the updates that are folded ----

  lemma {:induction false} DefiningPrefix(updates: seq<ListUpdate>, n: nat)
    requires n <= |updates|
    ensures Defining(updates[..n]) <= Defining(updates)
  {
    if n == |updates| {
      assert updates[..n] == updates;
    } else {
      assert updates[..|updates| - 1][..n] == updates[..n];
      DefiningPrefix(updates[..|updates| - 1], n);
    }
  }

  /** An update that has to be folded comes after those among the updates before it that have to. */
  lemma {:induction false} IndexOf(updates: seq<ListUpdate>, k: nat)
    requires k < |updates| && updates[k].list.Some?
    ensures |Defining(updates[..k])| < |Defining(updates)|
    ensures Defining(updates)[|Defining(updates[..k])|] == updates[k]
  {
    assert updates[..k + 1][..k] == updates[..k];
    DefiningPrefix(updates, k + 1);
  }

  lemma {:induction false} IndexLess(updates: seq<ListUpdate>, h: nat, k: nat)
    requires h < k < |updates| && updates[h].list.Some?
    ensures |Defining(updates[..h])| < |Defining(updates[..k])|
  {
    assert updates[..k][..h] == updates[..h];
    IndexOf(updates[..k], h);
  }

  lemma {:induction false} DefinedAt(updates: seq<ListUpdate>, i: nat) returns (k: nat)
    requires i < |Defining(updates)|
    ensures k < |updates| && updates[k].list.Some? && Defining(updates)[i] == updates[k]
    ensures |Defining(updates[..k])| == i
  {
    var n := |updates| - 1;
    if i < |Defining(updates[..n])| {
      k := DefinedAt(updates[..n], i);
      assert updates[..n][..k] == updates[..k];
    } else {
      k := n;
    }
  }

  // ---- What folding the lists of a step yields ----

  /**
    A step that has been evaluated in the order in which it was walked, with its updates in the order
    in which they are folded.
   */
  ghost predicate Ready(c: Contents, was: Snapshot, step: Step, updates: seq<ListUpdate>) {
    && Proper(c, step.walked) && Proper(c, step.folded) && SameAssignments(step.walked, step.folded)
    && Evaluated(c, was, step.walked) && UpdatesOf(was.cells, step.folded, updates)
  }

  /** The list of an assignment is a view of the bottom of its base. */
  lemma {:induction false} ListOf(c: Contents, was: Snapshot, step: Step, updates: seq<ListUpdate>,
                                  k: nat)
    requires Ready(c, was, step, updates) && k < |step.folded|
    ensures var e := step.folded[k].expr;
      && updates[k].loc == step.folded[k].loc && (updates[k].list.Some? <==> c[e.Base()].Some?)
      && (updates[k].list.Some? ==> var l, b := updates[k].list.value, was.cells[e.Base()].value.bottom;
            was.cells[e.Base()].value == Bottom(b) && l == e.Shape(Bottom(b)) && l.BottomOf() == b && Known(l, was))
  {
    var e := step.folded[k].expr;
    if c[e.Base()].Some? {
      ShapeMeans(e, was.cells[e.Base()].value.bottom, c[e.Base()].value);
    }
  }

  /** An earlier list is a view of the same bottom exactly when it has been built over the same base. */
  lemma {:induction false} ClaimedLater(c: Contents, was: Snapshot, step: Step,
                                        updates: seq<ListUpdate>, k: nat)
    requires Ready(c, was, step, updates) && k < |step.folded| && updates[k].list.Some?
    ensures |Defining(updates[..k])| < |Defining(updates)| && updates[k].list.Some?
    ensures updates[k].list.value.BottomOf() in Claimed(ListsOf(Defining(updates)), |Defining(updates[..k])|)
       <==> Later(step.folded, k)
  {
    var lists, n := ListsOf(Defining(updates)), |Defining(updates[..k])|;
    IndexOf(updates, k);
    ListOf(c, was, step, updates, k);
    var b := updates[k].list.value.BottomOf();
    if Later(step.folded, k) {
      var h :| 0 <= h < k && step.folded[h].expr.Base() == step.folded[k].expr.Base();
      ListOf(c, was, step, updates, h);
      IndexLess(updates, h, k);
      IndexOf(updates, h);
      assert lists[|Defining(updates[..h])|].BottomOf() == b;
    }
    if b in Claimed(lists, n) {
      var i :| 0 <= i < n && lists[i].BottomOf() == b;
      var h := DefinedAt(updates, i);
      if k < h { IndexLess(updates, k, h); }
      ListOf(c, was, step, updates, h);
      assert step.folded[h].expr.Base() == step.folded[k].expr.Base();
    }
  }

  /** What the fold of an assignment finds: the stored values, and all that was appended if it is the first. */
  lemma {:induction false} SourceAt(c: Contents, was: Snapshot, step: Step, updates: seq<ListUpdate>,
                                    k: nat)
    requires Ready(c, was, step, updates) && k < |step.folded| && updates[k].list.Some?
    ensures |Defining(updates[..k])| < |Defining(updates)|
    ensures var lists, n, l := ListsOf(Defining(updates)), |Defining(updates[..k])|, step.folded[k].expr.Base();
      && c[l].Some? && Known(lists[n], was)
      && SourceOf(lists[n], was, Claimed(lists, n))
           == c[l].value + if Later(step.folded, k) then [] else Gained(step.walked, l)
  {
    IndexOf(updates, k);
    ListOf(c, was, step, updates, k);
    ClaimedLater(c, was, step, updates, k);
    assert TailValues([]) == [];
  }

  /** What an assignment means for its location, and what the fold makes of it. */
  ghost predicate FoldsRight(c: Contents, was: Snapshot, step: Step, updates: seq<ListUpdate>, k: nat)
    requires Ready(c, was, step, updates) && k < |step.folded| && FoldableAll(updates, was)
  {
    updates[k].list.Some? ==>
      (IndexOf(updates, k); ListOf(c, was, step, updates, k);
       var n := |Defining(updates[..k])|;
       FoldResult(ListsOf(Defining(updates)), was, n) ==
           step.folded[k].expr.Meaning(c[step.folded[k].expr.Base()].value))
  }

  /** The skips stay within what the fold finds, at least when the later expressions stay within reach. */
  lemma {:induction false} FoldableAt(c: Contents, was: Snapshot, step: Step, updates: seq<ListUpdate>,
                                      k: nat)
    requires Ready(c, was, step, updates) && k < |step.folded| && updates[k].list.Some?
    requires AppendsFirst(c, step.folded) || InReach(c, step.folded)
    ensures |Defining(updates[..k])| < |Defining(updates)|
    ensures Foldable(ListsOf(Defining(updates)), was, |Defining(updates[..k])|)
  {
    var e := step.folded[k].expr;
    var s := c[e.Base()].value;
    var b := was.cells[e.Base()].value.bottom;
    IndexOf(updates, k);
    ListOf(c, was, step, updates, k);
    SourceAt(c, was, step, updates, k);
    ShapeMeans(e, b, s);
    if Later(step.folded, k) {
      ShapeSkips(e, b, |s|);
      assert s + [] == s;
    } else {
      GainedFirst(c, step.walked, step.folded, k);
      WithinMore(e.Shape(Bottom(b)), |s + e.Appends()|, |s + Gained(step.walked, e.Base())|);
    }
  }

  lemma {:induction false} FoldableStep(c: Contents, was: Snapshot, step: Step, updates: seq<ListUpdate>)
    requires Ready(c, was, step, updates) && (AppendsFirst(c, step.folded) || InReach(c, step.folded))
    ensures FoldableAll(updates, was)
  {
    var lists := ListsOf(Defining(updates));
    forall i | 0 <= i < |lists| ensures Known(lists[i], was) && Foldable(lists, was, i) {
      var k := DefinedAt(updates, i);
      FoldableAt(c, was, step, updates, k);
    }
  }

  /** A first expression that is the only one to append, or a later one that does not, is folded to its meaning. */
  lemma {:induction false} FoldsToMeaning(c: Contents, was: Snapshot, step: Step,
                                          updates: seq<ListUpdate>, k: nat)
    requires Ready(c, was, step, updates) && k < |step.folded| && FoldableAll(updates, was)
    requires AppendsFirst(c, step.folded)
    ensures FoldsRight(c, was, step, updates, k)
  {
    if updates[k].list.Some? {
      var e := step.folded[k].expr;
      IndexOf(updates, k);
      ListOf(c, was, step, updates, k);
      SourceAt(c, was, step, updates, k);
      ShapeMeans(e, was.cells[e.Base()].value.bottom, c[e.Base()].value);
      if !Later(step.folded, k) { GainedFirst(c, step.walked, step.folded, k); }
    }
  }

  /** A later expression that appends is not: what it has appended was folded into the list of the first one. */
  lemma {:induction false} LaterAppendsWrong(c: Contents, was: Snapshot, step: Step,
                                             updates: seq<ListUpdate>, k: nat)
    requires Ready(c, was, step, updates) && k < |step.folded| && FoldableAll(updates, was)
    requires Later(step.folded, k) && c[step.folded[k].expr.Base()].Some? && step.folded[k].expr.Appends() != []
    ensures !FoldsRight(c, was, step, updates, k)
  {
    var e := step.folded[k].expr;
    var s := c[e.Base()].value;
    IndexOf(updates, k);
    ListOf(c, was, step, updates, k);
    SourceAt(c, was, step, updates, k);
    ShapeMeans(e, was.cells[e.Base()].value.bottom, s);
    assert s + [] == s;
    ViewExtends(updates[k].list.value, s, e.Appends());
  }

  /** All folds of a step yield what its expressions mean exactly when only first expressions append. */
  lemma {:induction false} StepExact(c: Contents, was: Snapshot, step: Step, updates: seq<ListUpdate>)
    requires Ready(c, was, step, updates) && FoldableAll(updates, was)
    ensures (forall k :: 0 <= k < |step.folded| ==> FoldsRight(c, was, step, updates, k))
       <==> AppendsFirst(c, step.folded)
  {
    if AppendsFirst(c, step.folded) {
      forall k | 0 <= k < |step.folded| ensures FoldsRight(c, was, step, updates, k) {
        FoldsToMeaning(c, was, step, updates, k);
      }
    } else {
      var k :| 0 <= k < |step.folded| && Later(step.folded, k) && step.folded[k].expr.Base() in c
        && c[step.folded[k].expr.Base()].Some? && step.folded[k].expr.Appends() != [];
      LaterAppendsWrong(c, was, step, updates, k);
    }
  }

  /** A chain behind the bottom of a committed list is taken by a fold. */
  lemma TakenChain(c: Contents, was: Snapshot, step: Step, updates: seq<ListUpdate>, l: Location)
    requires Ready(c, was, step, updates) && l in c && was.cells[l].Some?
    ensures ChainTaken(was.cells[l].value, ListsOf(Defining(updates)), was)
  {
    var b := was.cells[l].value.BottomOf();
    if was.chains[b] != [] {
      assert |TailValues(was.chains[b])| == |was.chains[b]|;
      var j := GainedFrom(step.walked, l);
      assert step.walked[j] in step.folded;
      var k :| 0 <= k < |step.folded| && step.folded[k] == step.walked[j];
      ListOf(c, was, step, updates, k);
      IndexOf(updates, k);
      assert ListsOf(Defining(updates))[|Defining(updates[..k])|].BottomOf() == b;
    }
  }

  // ---- Steps of a store ----

  /** The bottoms that some location holds. */
  ghost function Held(cells: Cells): set<BottomList> {
    set l | l in cells && cells[l].Some? :: cells[l].value.BottomOf()
  }

  /** Between steps: every list is a bottom that one location holds, and no bottom has a chain. */
  ghost predicate Rested(store: ListStore)
    reads store, store.bottoms, store.Nodes()
  {
    && Counted(store.cells, store.bottoms)
    && (forall l :: l in store.cells && store.cells[l].Some? ==> store.cells[l].value.Bottom?)
    && (forall b :: b in store.bottoms ==> b.Valid() && b.chain == [] && b.usageCount == 1)
  }

  lemma RestedFacts(store: ListStore)
    requires Rested(store)
    ensures Intact(store) && store.NoTails() && store.Nodes() == {}
  {
  }

  /** The sequences in the function tables between steps. */
  ghost function ContentsOf(store: ListStore): Contents
    reads store, store.bottoms
  {
    Stores(store.cells, store.bottoms)
  }

  ghost function Stores(cells: Cells, bottoms: set<BottomList>): Contents
    reads bottoms
  {
    map l | l in cells ::
      if cells[l].Some? && cells[l].value.BottomOf() in bottoms then Some(cells[l].value.BottomOf().Stored()) else None
  }

  /** Between steps what the tables store is what the lists mean. */
  lemma StoredItems(store: ListStore, l: Location)
    requires Rested(store) && l in store.cells
    ensures ContentsOf(store)[l] == if store.cells[l].None? then None else Some(store.cells[l].value.Items())
  {
    if store.cells[l].Some? { store.OwnedItems(l, store.cells[l].value.bottom.Stored()); }
  }

  /** The store in the middle of a step, which began with contents c: nothing but chains has changed. */
  ghost predicate InStep(store: ListStore, c: Contents, done: seq<Assignment>)
    reads store, store.bottoms, store.Nodes()
  {
    Intact(store) && Evaluated(c, store.Now(), done)
  }

  lemma StepBegins(store: ListStore)
    requires Rested(store)
    ensures InStep(store, ContentsOf(store), [])
  {
    RestedFacts(store);
    store.ApartNow();
    assert TailValues([]) == [];
  }

  lemma GainedNext(assigns: seq<Assignment>, k: nat, l: Location)
    requires k < |assigns|
    ensures Gained(assigns[..k + 1], l)
         == Gained(assigns[..k], l) + if assigns[k].expr.Base() == l then assigns[k].expr.Appends() else []
  {
    assert assigns[..k + 1][..k] == assigns[..k];
  }

  /** Between the two moments, the chain of one bottom has grown by some values, and nothing else has changed. */
  ghost predicate ChainGrew(was: Snapshot, now: Snapshot, b: BottomList, vs: seq<Value>) {
    && now.cells == was.cells && now.values == was.values && now.chains.Keys == was.chains.Keys
    && b in was.chains && TailValues(now.chains[b]) == TailValues(was.chains[b]) + vs
    && forall d :: d in was.chains && d != b ==> now.chains[d] == was.chains[d]
  }

  lemma EvaluatedNext(c: Contents, was: Snapshot, now: Snapshot, assigns: seq<Assignment>, k: nat)
    requires k < |assigns| && assigns[k].expr.Base() in c
    requires Evaluated(c, was, assigns[..k])
    requires var l := assigns[k].expr.Base(); c[l].Some? ==>
      ChainGrew(was, now, was.cells[l].value.BottomOf(), assigns[k].expr.Appends())
    requires c[assigns[k].expr.Base()].None? ==> now == was
    ensures Evaluated(c, now, assigns[..k + 1])
  {
    forall l | l in c && c[l].Some?
      ensures TailValues(now.chains[was.cells[l].value.BottomOf()]) == Gained(assigns[..k + 1], l)
    {
      GainedNext(assigns, k, l);
    }
  }

  /** Everything that holds of the store while a step is evaluated, except for what the chains are. */
  ghost predicate Intact(store: ListStore)
    reads store, store.bottoms, store.Nodes()
  {
    store.AllValid() && ChainsApart(store.bottoms) && Counted(store.cells, store.bottoms) && store.Separate()
  }

  /** Evaluation over a bottom, in terms of moments. */
  method EvaluateGrowing(store: ListStore, e: ListExpression, b: BottomList) returns (r: List)
    requires Intact(store) && b in store.bottoms
    requires e.Base() in store.cells && store.cells[e.Base()] == Some(Bottom(b))
    modifies store.bottoms, store.Nodes()
    ensures r == e.Shape(Bottom(b)) && Intact(store)
    ensures ChainGrew(old(store.Now()), store.Now(), b, e.Appends())
    ensures fresh(store.Nodes() - old(store.Nodes()))
  {
    r := EvaluateOver(store, e, b);
    forall d | d in store.bottoms ensures d.values == old(d.values) && d.usageCount == old(d.usageCount) {
      assert d != b ==> Kept(d);
    }
  }

  /** Evaluates one assignment. */
  method EvaluateNext(store: ListStore, a: Assignment, ghost c: Contents, ghost assigns: seq<Assignment>, ghost k: nat)
    returns (u: ListUpdate)
    requires k < |assigns| && InStep(store, c, assigns[..k]) && Proper(c, assigns) && a == assigns[k]
    modifies store.bottoms, store.Nodes()
    ensures InStep(store, c, assigns[..k + 1]) && u == UpdateOf(store.cells, a)
    ensures fresh(store.Nodes() - old(store.Nodes()))
  {
    ghost var was := store.Now();
    match store.cells[a.expr.Base()]
    case None =>
      u := ListUpdate(a.loc, None);
      EvaluatedNext(c, was, was, assigns, k);
    case Some(list) =>
      var r := EvaluateGrowing(store, a.expr, list.bottom);
      u := ListUpdate(a.loc, Some(r));
      EvaluatedNext(c, was, store.Now(), assigns, k);
  }

  /** Evaluates all assignments of a step; each sees the committed lists. */
  method EvaluateAll(store: ListStore, assigns: seq<Assignment>, ghost c: Contents) returns (updates: seq<ListUpdate>)
    requires InStep(store, c, []) && Proper(c, assigns)
    modifies store.bottoms, store.Nodes()
    ensures InStep(store, c, assigns) && UpdatesOf(store.cells, assigns, updates)
    ensures store.cells == old(store.cells) && store.bottoms == old(store.bottoms)
  {
    updates := [];
    assert assigns[..0] == [];
    ghost var nodes := store.Nodes();
    for k := 0 to |assigns|
      invariant InStep(store, c, assigns[..k]) && fresh(store.Nodes() - nodes)
      invariant |updates| == k && forall i :: 0 <= i < k ==> updates[i] == UpdateOf(store.cells, assigns[i])
    {
      var u := EvaluateNext(store, assigns[k], c, assigns, k);
      updates := updates + [u];
    }
    assert assigns[..|assigns|] == assigns;
  }

  /** What the commit of a step leaves in one location. */
  ghost predicate Holding(store: ListStore, l: Location, s: Option<seq<Value>>)
    reads store, store.bottoms
  {
    && l in store.cells
    && (if s.None? then store.cells[l].None?
        else
          && store.cells[l].Some? && store.cells[l].value.BottomOf() in store.bottoms
          && store.cells[l].value.Items() == s.value)
  }

  /** An update of a location is that of its assignment. */
  lemma AssignedAt(c: Contents, assigns: seq<Assignment>, k: nat)
    requires Proper(c, assigns) && k < |assigns|
    ensures Assigned(assigns, assigns[k].loc) == Some(assigns[k].expr)
  {
    var e := Assigned(assigns, assigns[k].loc);
    var j :| 0 <= j < |assigns| && assigns[j] == Assignment(assigns[k].loc, e.value);
  }

  lemma NotUpdated(cells: Cells, assigns: seq<Assignment>, updates: seq<ListUpdate>, l: Location)
    requires UpdatesOf(cells, assigns, updates) && Assigned(assigns, l).None?
    ensures !Updated(updates, l)
  {
    forall u | u in updates ensures u.loc != l {
      var k :| 0 <= k < |updates| && updates[k] == u;
      assert assigns[k] in assigns;
    }
  }

  lemma UpdatesKnown(c: Contents, was: Snapshot, step: Step, updates: seq<ListUpdate>)
    requires Ready(c, was, step, updates)
    ensures DistinctLocations(updates)
    ensures forall u :: u in updates ==> u.loc in was.cells && (u.list.Some? ==> Known(u.list.value, was))
  {
    forall u | u in updates ensures u.loc in was.cells && (u.list.Some? ==> Known(u.list.value, was)) {
      var k :| 0 <= k < |updates| && updates[k] == u;
      ListOf(c, was, step, updates, k);
    }
  }

  /** What the commit leaves in the location of an assignment. */
  ghost function ResultAt(was: Snapshot, updates: seq<ListUpdate>, k: nat): Option<seq<Value>>
    requires k < |updates| && FoldableAll(updates, was)
  {
    if updates[k].list.None? then None
    else
      IndexOf(updates, k);
      Some(FoldResult(ListsOf(Defining(updates)), was, |Defining(updates[..k])|))
  }

  /** The contents after a step, as folded. */
  ghost predicate Results(c: Contents, was: Snapshot, step: Step, updates: seq<ListUpdate>, c': Contents)
    requires |updates| == |step.folded| && FoldableAll(updates, was)
  {
    && c'.Keys == c.Keys
    && (forall k :: 0 <= k < |step.folded| ==>
          step.folded[k].loc in c && c'[step.folded[k].loc] == ResultAt(was, updates, k))
    && (forall l :: l in c && Assigned(step.folded, l).None? ==> c'[l] == c[l])
  }

  /** What a step means does not depend on the order. */
  lemma AfterSame(c: Contents, walked: seq<Assignment>, folded: seq<Assignment>)
    requires Proper(c, walked) && Proper(c, folded) && SameAssignments(walked, folded)
    ensures After(c, walked) == After(c, folded)
  {
    forall l | l in c ensures Assigned(walked, l) == Assigned(folded, l) {
      if Assigned(walked, l).Some? {
        var a := Assignment(l, Assigned(walked, l).value);
        var k :| 0 <= k < |folded| && folded[k] == a;
        AssignedAt(c, folded, k);
      } else {
        assert forall a :: a in folded ==> a in walked;
      }
    }
  }

  lemma {:induction false} ResultRight(c: Contents, was: Snapshot, step: Step, updates: seq<ListUpdate>, k: nat)
    requires Ready(c, was, step, updates) && FoldableAll(updates, was) && k < |step.folded|
    ensures ResultAt(was, updates, k) == After(c, step.folded)[step.folded[k].loc]
       <==> FoldsRight(c, was, step, updates, k)
  {
    AssignedAt(c, step.folded, k);
    ListOf(c, was, step, updates, k);
  }

  /** Where only first expressions append, the results are what the step means. */
  lemma {:induction false} ResultsMean(c: Contents, was: Snapshot, step: Step, updates: seq<ListUpdate>, c': Contents)
    requires Ready(c, was, step, updates) && FoldableAll(updates, was) && Results(c, was, step, updates, c')
    requires AppendsFirst(c, step.folded)
    ensures c' == After(c, step.folded)
  {
    StepExact(c, was, step, updates);
    forall l | l in c ensures c'[l] == After(c, step.folded)[l] {
      if Assigned(step.folded, l).Some? {
        var k :| 0 <= k < |step.folded| && step.folded[k] == Assignment(l, Assigned(step.folded, l).value);
        assert FoldsRight(c, was, step, updates, k);
        ResultRight(c, was, step, updates, k);
      }
    }
  }

  /** They are what the step means exactly when only first expressions append. */
  lemma {:induction false} ResultsExact(c: Contents, was: Snapshot, step: Step,
                                        updates: seq<ListUpdate>, c': Contents)
    requires Ready(c, was, step, updates) && FoldableAll(updates, was) && Results(c, was, step, updates, c')
    ensures c' == After(c, step.walked) <==> AppendsFirst(c, step.folded)
  {
    AfterSame(c, step.walked, step.folded);
    if AppendsFirst(c, step.folded) {
      ResultsMean(c, was, step, updates, c');
    } else {
      StepExact(c, was, step, updates);
      var k :| 0 <= k < |step.folded| && !FoldsRight(c, was, step, updates, k);
      ResultRight(c, was, step, updates, k);
      assert c'[step.folded[k].loc] == ResultAt(was, updates, k);
    }
  }

  /** What the commit left in a location. */
  lemma HeldAfter(store: ListStore, c: Contents, was: Snapshot, step: Step, updates: seq<ListUpdate>)
    requires Ready(c, was, step, updates) && FoldableAll(updates, was) && store.FoldedFrom(updates, was)
    ensures forall k :: 0 <= k < |step.folded| ==> Holding(store, step.folded[k].loc, ResultAt(was, updates, k))
    ensures forall l :: l in c && Assigned(step.folded, l).None? ==> Holding(store, l, c[l])
  {
    UpdatesKnown(c, was, step, updates);
    forall k | 0 <= k < |step.folded| ensures Holding(store, step.folded[k].loc, ResultAt(was, updates, k)) {
      UpdatedHolds(store, c, was, step, updates, k);
    }
    forall l | l in c && Assigned(step.folded, l).None? ensures Holding(store, l, c[l]) {
      NotUpdated(was.cells, step.folded, updates, l);
      if was.cells[l].Some? { TakenChain(c, was, step, updates, l); }
      store.KeptLocation(updates, was, l);
    }
  }

  lemma {:induction false} UpdatedHolds(store: ListStore, c: Contents, was: Snapshot, step: Step,
                                        updates: seq<ListUpdate>, k: nat)
    requires Ready(c, was, step, updates) && FoldableAll(updates, was) && store.FoldedFrom(updates, was)
    requires k < |step.folded| && DistinctLocations(updates) && forall u :: u in updates ==> u.loc in was.cells
    ensures Holding(store, step.folded[k].loc, ResultAt(was, updates, k))
  {
    ListOf(c, was, step, updates, k);
    assert updates[k] in updates;
    if updates[k].list.Some? {
      IndexOf(updates, k);
      store.OwnedItems(updates[k].loc, ResultAt(was, updates, k).value);
    } else {
      OneUpdate(updates, updates[k]);
      store.GotNoList(updates, was, updates[k].loc);
    }
  }

  /** Commits the updates of a step. */
  method Commit(store: ListStore, ghost c: Contents, ghost step: Step, updates: seq<ListUpdate>)
    requires Intact(store) && Ready(c, store.Now(), step, updates) && FoldableAll(updates, store.Now())
    modifies store, store.bottoms
    ensures store.AllValid() && Counted(store.cells, store.bottoms) && store.Separate() && store.NoTails()
    ensures store.cells.Keys == c.Keys && store.FoldedFrom(updates, old(store.Now()))
    ensures old(store.bottoms) <= store.bottoms && fresh(store.bottoms - old(store.bottoms))
  {
    ghost var was := store.Now();
    UpdatesKnown(c, was, step, updates);
    store.ApplyListUpdates(updates);
    forall l | l in was.cells && was.cells[l].Some?
      ensures ChainTaken(was.cells[l].value, ListsOf(Defining(updates)), was)
    {
      TakenChain(c, was, step, updates, l);
    }
    store.Tidy(updates, was);
  }

  lemma HeldStores(cells: Cells, bottoms: set<BottomList>)
    requires Counted(cells, bottoms)
    ensures Held(cells) <= bottoms && Stores(cells, Held(cells)) == Stores(cells, bottoms)
  {
  }

  /** Forgets the bottoms that no location holds any more. */
  ghost method Forget(store: ListStore)
    requires store.AllValid() && Counted(store.cells, store.bottoms) && store.Separate() && store.NoTails()
    modifies store`bottoms
    ensures Rested(store) && store.bottoms <= old(store.bottoms) && ContentsOf(store) == old(ContentsOf(store))
  {
    HeldStores(store.cells, store.bottoms);
    store.bottoms := Held(store.cells);
  }

  lemma ContentHeld(store: ListStore, l: Location, s: Option<seq<Value>>)
    requires store.Separate() && store.NoTails() && Holding(store, l, s)
    ensures ContentsOf(store)[l] == s
  {
    if s.Some? {
      var b := store.cells[l].value.BottomOf();
      assert TailValues([]) == [] && b.Stored() + [] == b.Stored();
    }
  }

  /** What the tables hold after the commit. */
  lemma ResultsHeld(store: ListStore, c: Contents, was: Snapshot, step: Step, updates: seq<ListUpdate>)
    requires Counted(store.cells, store.bottoms) && store.Separate() && store.NoTails() && store.cells.Keys == c.Keys
    requires Ready(c, was, step, updates) && FoldableAll(updates, was) && store.FoldedFrom(updates, was)
    ensures Results(c, was, step, updates, ContentsOf(store))
  {
    HeldAfter(store, c, was, step, updates);
    forall l, s | Holding(store, l, s) ensures ContentsOf(store)[l] == s {
      ContentHeld(store, l, s);
    }
  }

  /** The commit of a step that began with contents c and has been evaluated. */
  method CommitRight(store: ListStore, ghost c: Contents, ghost step: Step, updates: seq<ListUpdate>)
    requires Intact(store) && Ready(c, store.Now(), step, updates)
    requires AppendsFirst(c, step.folded) || InReach(c, step.folded)
    modifies store, store.bottoms
    ensures Rested(store)
    ensures ContentsOf(store) == After(c, step.walked) <==> AppendsFirst(c, step.folded)
    ensures fresh(store.bottoms - old(store.bottoms))
  {
    ghost var was := store.Now();
    FoldableStep(c, was, step, updates);
    Commit(store, c, step, updates);
    ResultsHeld(store, c, was, step, updates);
    ResultsExact(c, was, step, updates, ContentsOf(store));
    Forget(store);
  }

  /** The updates of the walked assignments, in the order of the fold. */
  method Arrange(ghost cells: Cells, step: Step, updates: seq<ListUpdate>) returns (arranged: seq<ListUpdate>)
    requires UpdatesOf(cells, step.walked, updates) && SameAssignments(step.walked, step.folded)
    ensures UpdatesOf(cells, step.folded, arranged)
  {
    arranged := [];
    for i := 0 to |step.folded|
      invariant |arranged| == i
      invariant forall k :: 0 <= k < i ==>
        step.folded[k].expr.Base() in cells && arranged[k] == UpdateOf(cells, step.folded[k])
    {
      assert step.folded[i] in step.walked;
      var j :| 0 <= j < |step.walked| && step.walked[j] == step.folded[i];
      arranged := arranged + [updates[j]];
    }
  }

  /** Evaluates a step in the order in which it is walked, for the commit in the order of the fold. */
  method EvaluateStep(store: ListStore, step: Step, ghost c: Contents) returns (updates: seq<ListUpdate>)
    requires InStep(store, c, []) && step.Valid() && Proper(c, step.walked)
    modifies store.bottoms, store.Nodes()
    ensures Intact(store) && Ready(c, store.Now(), step, updates)
    ensures store.bottoms == old(store.bottoms)
  {
    StepFacts(c, step);
    var evaluated := EvaluateAll(store, step.walked, c);
    updates := Arrange(store.cells, step, evaluated);
  }

  /**
    A whole step. Its expressions share bottoms with each other and append to them in place, usage
    counts go up and down and lists are folded, and yet the step is an assignment of sequences,
    exactly when of the expressions over one base none but the one that is folded first appends.
   */
  method RunStep(store: ListStore, step: Step)
    requires Rested(store) && step.Valid() && Proper(ContentsOf(store), step.walked)
    requires AppendsFirst(ContentsOf(store), step.folded) || InReach(ContentsOf(store), step.folded)
    modifies store, store.bottoms, store.Nodes()
    ensures Rested(store)
    ensures ContentsOf(store) == After(old(ContentsOf(store)), step.walked)
       <==> AppendsFirst(old(ContentsOf(store)), step.folded)
    ensures fresh(store.bottoms - old(store.bottoms))
  {
    ghost var c := ContentsOf(store);
    StepBegins(store);
    var updates := EvaluateStep(store, step, c);
    CommitRight(store, c, step, updates);
  }

  // ---- Runs ----

  /** Steps that are assignments of sequences. */
  ghost predicate Legal(c: Contents, step: Step) {
    step.Valid() && Proper(c, step.walked) && AppendsFirst(c, step.folded)
  }

  method RunLegal(store: ListStore, step: Step)
    requires Rested(store) && Legal(ContentsOf(store), step)
    modifies store, store.bottoms, store.Nodes()
    ensures Rested(store) && ContentsOf(store) == After(old(ContentsOf(store)), step.walked)
    ensures fresh(store.bottoms - old(store.bottoms)) && store.Nodes() == {}
  {
    RunStep(store, step);
    RestedFacts(store);
  }

  ghost predicate LegalRun(c: Contents, steps: seq<Step>) {
    steps == [] || (Legal(c, steps[0]) && LegalRun(After(c, steps[0].walked), steps[1..]))
  }

  function AfterAll(c: Contents, steps: seq<Step>): Contents {
    if steps == [] then c else AfterAll(After(c, steps[0].walked), steps[1..])
  }

  /** Any number of steps. */
  method RunSteps(store: ListStore, steps: seq<Step>)
    requires Rested(store) && LegalRun(ContentsOf(store), steps)
    modifies store, store.bottoms, store.Nodes()
    ensures Rested(store) && ContentsOf(store) == AfterAll(old(ContentsOf(store)), steps)
    ensures fresh(store.bottoms - old(store.bottoms))
    decreases |steps|
  {
    if steps == [] { return; }
    RunLegal(store, steps[0]);
    RunSteps(store, steps[1..]);
  }

  /**
    The stack of push and pop: what one step pushes, the next one pops, whatever else the two steps
    assign and in whatever order they are folded, and then the location has its sequence back.
   */
  method PushThenPop(store: ListStore, l: Location, v: Value, push: Step, pop: Step) returns (popped: Value)
    requires Rested(store) && l in store.cells && store.cells[l].Some?
    requires Push(l, v) in push.walked && Pop(l) in pop.walked && LegalRun(ContentsOf(store), [push, pop])
    modifies store, store.bottoms, store.Nodes()
    ensures popped == v && Rested(store)
    ensures ContentsOf(store) == AfterAll(old(ContentsOf(store)), [push, pop])
    ensures l in ContentsOf(store) && ContentsOf(store)[l] == old(ContentsOf(store)[l])
  {
    ghost var c := ContentsOf(store);
    PushPopMeans(c, l, v, push, pop);
    RunLegal(store, push);
    popped := PeekThenRun(store, l, pop);
  }

  method PeekThenRun(store: ListStore, l: Location, step: Step) returns (v: Value)
    requires Rested(store) && l in store.cells && Legal(ContentsOf(store), step)
    modifies store, store.bottoms, store.Nodes()
    ensures var s := old(ContentsOf(store)[l]); v == if s.Some? && s.value != [] then s.value[0] else Undef
    ensures Rested(store) && ContentsOf(store) == After(old(ContentsOf(store)), step.walked)
  {
    v := PeekAt(store, l);
    RunLegal(store, step);
  }

  /** peek on the list of a location, between steps. */
  method PeekAt(store: ListStore, l: Location) returns (v: Value)
    requires Rested(store) && l in store.cells
    ensures var s := ContentsOf(store)[l]; v == if s.Some? && s.value != [] then s.value[0] else Undef
  {
    StoredItems(store, l);
    assert store.cells[l].Some? ==> store.cells[l].value.BottomOf() in store.bottoms;
    v := Peek(store.cells[l]);
  }

  function Push(l: Location, v: Value): Assignment {
    Assignment(l, Consed(v, ListExpression.Committed(l)))
  }

  function Pop(l: Location): Assignment {
    Assignment(l, Tailed(ListExpression.Committed(l)))
  }

  lemma PushPopMeans(c: Contents, l: Location, v: Value, push: Step, pop: Step)
    requires l in c && c[l].Some? && LegalRun(c, [push, pop])
    requires Push(l, v) in push.walked && Pop(l) in pop.walked
    ensures var pushed := After(c, push.walked);
      && Legal(c, push) && pushed[l] == Some([v] + c[l].value)
      && Legal(pushed, pop) && After(pushed, pop.walked)[l] == c[l]
      && AfterAll(c, [push, pop]) == After(pushed, pop.walked)
  {
    var pushed := After(c, push.walked);
    assert [push, pop][1..] == [pop];
    assert AfterAll(pushed, [pop]) == After(pushed, pop.walked);
    assert LegalRun(pushed, [pop]);
    AfterAssigned(c, push.walked, Push(l, v));
    AfterAssigned(pushed, pop.walked, Pop(l));
    assert Drop([v] + c[l].value, 1) == c[l].value;
  }

  lemma AfterAssigned(c: Contents, assigns: seq<Assignment>, a: Assignment)
    requires Proper(c, assigns) && a in assigns && c[a.expr.Base()].Some?
    ensures After(c, assigns)[a.loc] == Some(a.expr.Meaning(c[a.expr.Base()].value))
  {
    var k :| 0 <= k < |assigns| && assigns[k] == a;
    AssignedAt(c, assigns, k);
  }

  // ---- Rules that are one parallel block ----

  /**
    The step of a rule that is a parallel block of assignments. At base layer 1 the block forks, and the
    merge reverses the bucket list; at base layer 0 it does not fork. The commit then visits the list from
    its tail.
   */
  function ParBlockStep(assigns: seq<Assignment>, base: nat): Step {
    Step(assigns, if base == 0 then Reverse(assigns) else assigns)
  }

  lemma {:induction false} ReversedLocations(assigns: seq<Assignment>, us: seq<UpdateSet.Update>)
    requires |us| == |assigns| && forall i :: 0 <= i < |us| ==> us[i].loc == assigns[i].loc
    ensures forall i :: 0 <= i < |us| ==> Reverse(WriteOrder.LocationsOf(us))[i] == Reverse(assigns)[i].loc
  {
    forall i: nat | i < |us| ensures Reverse(WriteOrder.LocationsOf(us))[i] == Reverse(assigns)[i].loc {
      ReverseAt(WriteOrder.LocationsOf(us), i);
      ReverseAt(assigns, i);
    }
  }

  lemma ParBlockValid(assigns: seq<Assignment>, base: nat)
    ensures ParBlockStep(assigns, base).Valid()
  {
    if base == 0 {
      var order := ReversePermutes(assigns);
    } else {
      var order := Identity(assigns);
    }
  }

  /** The fold order is the one in which the bucket list of such a rule is committed. */
  lemma {:induction false} ParBlockOrder(c: Contents, assigns: seq<Assignment>, us: seq<UpdateSet.Update>, base: nat)
    requires Proper(c, assigns) && base <= 1
    requires |us| == |assigns| && forall i :: 0 <= i < |us| ==> us[i].loc == assigns[i].loc
    ensures var folded := ParBlockStep(assigns, base).folded;
      var order := WriteOrder.CommitOrder(WriteOrder.Par(WriteOrder.Writes(us)), base);
      |order| == |folded| && forall i :: 0 <= i < |order| ==> order[i] == folded[i].loc
  {
    assert Distinct(WriteOrder.LocationsOf(us));
    WriteOrder.FlatOrder(us, base);
    if base == 0 { ReversedLocations(assigns, us); }
  }

  /** Whether a step goes wrong can depend on the base layer, and so on the form of the first rule. */
  lemma BaseLayerMatters(c: Contents, x: Location, y: Location, v: Value)
    requires x in c && y in c && x != y && c[x].Some?
    ensures var assigns := [Assignment(x, Appended(ListExpression.Committed(x), v)),
                            Assignment(y, ListExpression.Committed(x))];
      && Proper(c, assigns)
      && AppendsFirst(c, ParBlockStep(assigns, 1).folded) && !AppendsFirst(c, ParBlockStep(assigns, 0).folded)
  {
    var assigns := [Assignment(x, Appended(ListExpression.Committed(x), v)),
                    Assignment(y, ListExpression.Committed(x))];
    var reversed := Reverse(assigns);
    ReverseAt(assigns, 0);
    ReverseAt(assigns, 1);
    assert reversed[0].expr.Base() == reversed[1].expr.Base() && Later(reversed, 1);
  }

  /** A step of such a rule: the condition is one on its text, read backwards at base layer 0. */
  method RunParBlock(store: ListStore, assigns: seq<Assignment>, base: nat)
    requires Rested(store) && Proper(ContentsOf(store), assigns) && base <= 1
    requires var folded := ParBlockStep(assigns, base).folded;
      AppendsFirst(ContentsOf(store), folded) || InReach(ContentsOf(store), folded)
    modifies store, store.bottoms, store.Nodes()
    ensures Rested(store)
    ensures ContentsOf(store) == After(old(ContentsOf(store)), assigns)
       <==> AppendsFirst(old(ContentsOf(store)), if base == 0 then Reverse(assigns) else assigns)
    ensures fresh(store.bottoms - old(store.bottoms))
  {
    ParBlockValid(assigns, base);
    RunStep(store, ParBlockStep(assigns, base));
  }

  // ---- A step that is not legal ----

  /** Of two lists over one bottom, the first one is folded with the chain and the second one without it. */
  lemma SharedFold(b: BottomList, was: Snapshot, x: Location, y: Location)
    requires b in was.values && b in was.chains
    ensures var updates := [ListUpdate(y, Some(Bottom(b))), ListUpdate(x, Some(Bottom(b)))];
      var lists := ListsOf(Defining(updates));
      && Defining(updates) == updates && lists == [Bottom(b), Bottom(b)] && FoldableAll(updates, was)
      && FoldResult(lists, was, 0) == Reverse(was.values[b]) + TailValues(was.chains[b])
      && FoldResult(lists, was, 1) == Reverse(was.values[b])
  {
    var updates := [ListUpdate(y, Some(Bottom(b))), ListUpdate(x, Some(Bottom(b)))];
    assert updates[..1] == [updates[0]] && updates[..1][..0] == [];
    assert Defining(updates[..1]) == [updates[0]];
    assert Defining(updates) == updates;
    assert ListsOf(updates) == [Bottom(b), Bottom(b)];
    var lists := ListsOf(updates);
    assert b !in Claimed(lists, 0);
    assert lists[0].BottomOf() in Claimed(lists, 1);
    assert TailValues([]) == [] && Reverse(was.values[b]) + [] == Reverse(was.values[b]);
  }

  /**
    The step `x := app(x, v)` with `y := x`, when the update of y is folded first: y gets the value
    that was appended for x, and x is left without it.
   */
  method AppIsLost(store: ListStore, x: Location, y: Location, v: Value)
    requires Rested(store) && x in store.cells && y in store.cells && x != y && store.cells[x].Some?
    modifies store, store.bottoms, store.Nodes()
    ensures store.Owns(y, old(store.cells[x].value.Items()) + [v])
    ensures store.Owns(x, old(store.cells[x].value.Items()))
  {
    RestedFacts(store);
    StoredItems(store, x);
    ghost var b := store.cells[x].value.bottom;
    var list := store.cells[x];
    AppTo(store, list.value, v);
    var updates := [ListUpdate(y, list), ListUpdate(x, list)];
    SharedFold(b, store.Now(), x, y);
    store.ApplyListUpdates(updates);
    assert Defining(updates)[0].loc == y && Defining(updates)[1].loc == x;
  }
}
