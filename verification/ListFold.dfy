/**
  Committing lists. During a step a location may hold a lazy view of a bottom that others hold too;
  apply_updates turns every updated one back into a bottom of its own, in place when nobody else
  holds it and by copying otherwise.
 */
module ListFold {
  import opened Values
  import opened Sequences
  import opened Lists

  // ---- collect ----

  /** TailList::collect inserts the tail values at the front of the reversed vector, one by one. */
  method CollectTail(t: TailList, into: seq<Value>, ghost chain: seq<TailList>) returns (values: seq<Value>)
    requires chain != [] && t == chain[0]
    requires forall i :: 0 <= i < |chain| - 1 ==> chain[i].right == chain[i + 1]
    requires chain[|chain| - 1].right == null
    ensures Reverse(values) == Reverse(into) + TailValues(chain)
    decreases |chain|
  {
    assert |chain| > 1 ==> chain[0].right == chain[1];
    values := [t.currentTail] + into;
    ReversePrepend(t.currentTail, into);
    assert TailValues(chain) == [t.currentTail] + TailValues(chain[1..]);
    if t.right != null {
      values := CollectTail(t.right, values, chain[1..]);
      assert Reverse(values) == Reverse(into) + ([t.currentTail] + TailValues(chain[1..]));
    }
  }

  /** List::collect on a bottom. */
  method CollectBottom(b: BottomList) returns (r: BottomList)
    requires b.Valid()
    modifies b
    ensures r.Valid() && r.chain == [] && r.usageCount == 1
    ensures r.Stored() == old(b.Items())
    ensures if old(b.usageCount) <= 1 then r == b else
      fresh(r) && b.Valid() && b.chain == [] && b.values == old(b.values) && b.usageCount == old(b.usageCount) - 1
    ensures r.allocatedInCollect == (r != b || old(b.allocatedInCollect))
  {
    if b.usageCount <= 1 {
      b.usageCount := 1;
      if b.tail != null {
        b.values := CollectTail(b.tail, b.values, b.chain);
        b.tail, b.chain := null, [];
      }
      r := b;
    } else {
      r := new BottomList(b.values);
      r.usageCount := 1;
      b.usageCount := b.usageCount - 1;
      r.allocatedInCollect := true;
      if b.tail != null {
        r.values := CollectTail(b.tail, r.values, b.chain);
        b.tail, b.chain := null, [];
      }
    }
  }

  /** List::collect: the sequence of the list, now stored in a bottom without a chain. */
  method Collect(l: List) returns (r: BottomList)
    requires l.BottomOf().Valid() && l.Within(|l.BottomOf().Items()|)
    modifies l.BottomOf()
    ensures r.Valid() && r.chain == [] && r.usageCount == 1
    ensures r.Stored() == old(l.Items())
    ensures var b := l.BottomOf(); if old(b.usageCount) <= 1 then r == b else
      fresh(r) && b.Valid() && b.chain == [] && b.values == old(b.values) && b.usageCount == old(b.usageCount) - 1
    ensures r.allocatedInCollect == (r != l.BottomOf() || old(l.BottomOf().allocatedInCollect))
    decreases l
  {
    ghost var base := l.BottomOf();
    match l
    case Head(right, v) =>
      r := Collect(right);
      ReverseAppend(r.values, v);
      r.values := r.values + [v];
    case Skip(skip, b) =>
      r := CollectBottom(b);
      ghost var vs := r.values;
      DropReversed(vs, skip);
      for i := skip downto 0
        invariant |vs| - skip + i <= |vs| && r.values == vs[..|vs| - skip + i]
        invariant r.Valid() && r.chain == [] && r.usageCount == 1
        modifies r`values
      {
        assert r.values[..|r.values| - 1] == vs[..|vs| - skip + i];
        r.values := r.values[..|r.values| - 1];
      }
    case Bottom(b) =>
      r := CollectBottom(b);
  }

  // ---- Who holds which bottom ----

  /** The lists in the function tables; None is undef. */
  type Cells = map<Location, Option<List>>

  ghost predicate Holds(cells: Cells, l: Location, b: BottomList) {
    l in cells && cells[l].Some? && cells[l].value.BottomOf() == b
  }

  ghost function Holders(cells: Cells, b: BottomList): set<Location> {
    set l | l in cells && Holds(cells, l, b)
  }

  /** The conservation law: usage counts are the numbers of holders. */
  ghost predicate Counted(cells: Cells, bottoms: set<BottomList>)
    reads bottoms
  {
    && (forall l :: l in cells && cells[l].Some? ==> cells[l].value.BottomOf() in bottoms)
    && (forall b {:trigger Holders(cells, b)} :: b in bottoms ==> b.usageCount == |Holders(cells, b)|)
  }

  lemma HoldersAfter(cells: Cells, l: Location, c: Option<List>, b: BottomList)
    requires l in cells
    ensures |Holders(cells[l := c], b)|
         == |Holders(cells, b)| - (if Holds(cells, l, b) then 1 else 0)
            + (if c.Some? && c.value.BottomOf() == b then 1 else 0)
  {
    var others := Holders(cells, b) - {l};
    if Holds(cells, l, b) {
      assert Holders(cells, b) == others + {l};
    } else {
      assert Holders(cells, b) == others;
    }
    if c.Some? && c.value.BottomOf() == b {
      assert Holders(cells[l := c], b) == others + {l};
    } else {
      assert Holders(cells[l := c], b) == others;
    }
  }

  lemma TwoHolders(cells: Cells, l: Location, l': Location, b: BottomList)
    requires l != l' && Holds(cells, l, b) && Holds(cells, l', b)
    ensures |Holders(cells, b)| >= 2
  {
    assert {l, l'} <= Holders(cells, b);
    var rest := Holders(cells, b) - {l, l'};
    assert Holders(cells, b) == rest + {l, l'};
  }

  lemma OneHolder(cells: Cells, l: Location, b: BottomList)
    requires Holds(cells, l, b)
    ensures |Holders(cells, b)| >= 1
  {
    assert Holders(cells, b) == (Holders(cells, b) - {l}) + {l};
  }

  /** bump_usage counts a holder at the bottom of the list. */
  method BumpUsage(l: List)
    modifies l.BottomOf()`usageCount
    ensures l.BottomOf().usageCount == old(l.BottomOf().usageCount) + 1
    decreases l
  {
    match l
    case Bottom(b) => b.usageCount := b.usageCount + 1;
    case Head(right, _) => BumpUsage(right);
    case Skip(_, b) => b.usageCount := b.usageCount + 1;
  }

  /** decrease_usage takes a holder off a bottom; on the lazy nodes the source adds one instead. */
  method DecreaseUsage(l: List)
    modifies l.BottomOf()`usageCount
    ensures l.BottomOf().usageCount == old(l.BottomOf().usageCount) + (if l.Bottom? then -1 else 1)
  {
    match l
    case Bottom(b) => b.usageCount := b.usageCount - 1;
    case Head(right, _) => BumpUsage(right);
    case Skip(_, b) => BumpUsage(Bottom(b));
  }

  // ---- apply_updates on list locations ----

  datatype ListUpdate = ListUpdate(loc: Location, list: Option<List>)

  /** The function tables after the updates have been written, before any list is folded. */
  ghost function Written(cells: Cells, updates: seq<ListUpdate>): Cells {
    if updates == [] then cells
    else
      var u := updates[|updates| - 1];
      Written(cells, updates[..|updates| - 1])[u.loc := u.list]
  }

  /** The updates that have to be folded, in order. */
  ghost function Defining(updates: seq<ListUpdate>): (d: seq<ListUpdate>)
    ensures forall i :: 0 <= i < |d| ==> d[i].list.Some? && d[i] in updates
  {
    if updates == [] then []
    else
      var u := updates[|updates| - 1];
      Defining(updates[..|updates| - 1]) + if u.list.Some? then [u] else []
  }

  ghost predicate DistinctLocations(updates: seq<ListUpdate>) {
    forall i, j :: 0 <= i < j < |updates| ==> updates[i].loc != updates[j].loc
  }

  /** The cells, and what the bottoms store, at some moment. */
  datatype Snapshot = Snapshot(cells: Cells, values: map<BottomList, seq<Value>>,
                               chains: map<BottomList, seq<TailList>>)

  ghost predicate Known(list: List, was: Snapshot) {
    list.BottomOf() in was.values && list.BottomOf() in was.chains
  }

  /**
    The sequence that the bottom of a list stands for when the list is folded: the first list that
    is folded over a bottom takes the tail values with it.
   */
  ghost function SourceOf(list: List, was: Snapshot, claimed: set<BottomList>): seq<Value>
    requires Known(list, was)
  {
    var b := list.BottomOf();
    Reverse(was.values[b]) + TailValues(if b in claimed then [] else was.chains[b])
  }

  /** The bottoms that the first n lists are views of. */
  ghost function Claimed(lists: seq<List>, n: nat): set<BottomList>
    requires n <= |lists|
  {
    set i | 0 <= i < n :: lists[i].BottomOf()
  }

  lemma ClaimedNext(lists: seq<List>, n: nat)
    requires n < |lists|
    ensures Claimed(lists, n + 1) == Claimed(lists, n) + {lists[n].BottomOf()}
  {
  }

  /** The skips of the list at position k do not go beyond what its bottom stands for by then. */
  ghost predicate Foldable(lists: seq<List>, was: Snapshot, k: nat)
    requires k < |lists|
  {
    Known(lists[k], was) && lists[k].Within(|SourceOf(lists[k], was, Claimed(lists, k))|)
  }

  /** The sequence that folding the list at position k, after the ones before it, yields. */
  ghost function FoldResult(lists: seq<List>, was: Snapshot, k: nat): seq<Value>
    requires k < |lists| && Known(lists[k], was)
  {
    lists[k].View(SourceOf(lists[k], was, Claimed(lists, k)))
  }

  ghost predicate Folds(lists: seq<List>, was: Snapshot, results: seq<seq<Value>>, k: nat)
    requires k < |lists| == |results|
  {
    Foldable(lists, was, k) && results[k] == FoldResult(lists, was, k)
  }

  ghost function ResultsOf(lists: seq<List>, was: Snapshot): (results: seq<seq<Value>>)
    requires forall i :: 0 <= i < |lists| ==> Known(lists[i], was)
    ensures |results| == |lists|
    ensures forall i :: 0 <= i < |lists| ==> results[i] == FoldResult(lists, was, i)
  {
    seq(|lists|, i requires 0 <= i < |lists| => FoldResult(lists, was, i))
  }

  /** What the cells hold meanwhile does not matter to the results. */
  lemma FoldsLater(lists: seq<List>, was: Snapshot, now: Snapshot)
    requires forall i :: 0 <= i < |lists| ==> Known(lists[i], was) && Foldable(lists, was, i)
    requires now.values == was.values && now.chains == was.chains
    ensures forall i :: 0 <= i < |lists| ==> Folds(lists, now, ResultsOf(lists, was), i)
  {
    forall i | 0 <= i < |lists| ensures Folds(lists, now, ResultsOf(lists, was), i) {
      assert Known(lists[i], was) && Foldable(lists, was, i);
    }
  }

  ghost function ListsOf(d: seq<ListUpdate>): (lists: seq<List>)
    requires forall i :: 0 <= i < |d| ==> d[i].list.Some?
    ensures |lists| == |d| && forall i :: 0 <= i < |d| ==> lists[i] == d[i].list.value
  {
    seq(|d|, i requires 0 <= i < |d| => d[i].list.value)
  }

  ghost predicate Defines(updates: seq<ListUpdate>, l: Location) {
    exists u :: u in Defining(updates) && u.loc == l
  }

  lemma {:induction false} WrittenFacts(cells: Cells, updates: seq<ListUpdate>)
    requires DistinctLocations(updates) && forall u :: u in updates ==> u.loc in cells
    ensures Written(cells, updates).Keys == cells.Keys
    ensures forall u :: u in updates ==> Written(cells, updates)[u.loc] == u.list
    ensures forall l :: l in cells && (forall u :: u in updates ==> u.loc != l) ==>
      Written(cells, updates)[l] == cells[l]
  {
    if updates != [] {
      var n := |updates| - 1;
      WrittenFacts(cells, updates[..n]);
      forall u | u in updates[..n] ensures u.loc != updates[n].loc {
        var i :| 0 <= i < n && updates[i] == u;
      }
      assert forall u :: u in updates <==> u in updates[..n] || u == updates[n];
    }
  }

  lemma {:induction false} DefiningFacts(updates: seq<ListUpdate>)
    requires DistinctLocations(updates)
    ensures DistinctLocations(Defining(updates))
    ensures forall u :: u in Defining(updates) <==> u in updates && u.list.Some?
  {
    if updates != [] {
      var n := |updates| - 1;
      DefiningFacts(updates[..n]);
      forall u | u in updates[..n] ensures u.loc != updates[n].loc {
        var i :| 0 <= i < n && updates[i] == u;
      }
      assert forall u :: u in updates <==> u in updates[..n] || u == updates[n];
      var d := Defining(updates[..n]);
      forall i | 0 <= i < |d| ensures d[i].loc != updates[n].loc {
        assert d[i] in d;
      }
    }
  }

  /** The sequence that a list denotes, tail values included. */
  ghost function Denoted(list: List, was: Snapshot): seq<Value>
    requires Known(list, was)
  {
    list.View(Reverse(was.values[list.BottomOf()]) + TailValues(was.chains[list.BottomOf()]))
  }

  /** Folding yields the denoted sequence exactly when no earlier fold has taken the chain away. */
  lemma FoldExact(lists: seq<List>, was: Snapshot, k: nat)
    requires k < |lists| && Foldable(lists, was, k)
    ensures FoldResult(lists, was, k) == Denoted(lists[k], was) <==>
            was.chains[lists[k].BottomOf()] == [] || lists[k].BottomOf() !in Claimed(lists, k)
  {
    var b := lists[k].BottomOf();
    var s, t := Reverse(was.values[b]), TailValues(was.chains[b]);
    if b in Claimed(lists, k) {
      assert TailValues([]) == [] && s + [] == s;
      ViewExtends(lists[k], s, t);
    }
  }

  /** No chain is behind two of the lists. */
  ghost predicate EachChainOnce(lists: seq<List>, was: Snapshot) {
    forall i, j :: 0 <= i < j < |lists| && lists[i].BottomOf() == lists[j].BottomOf() && Known(lists[i], was) ==>
      was.chains[lists[i].BottomOf()] == []
  }

  /** If there is a chain behind the list, one of the folded lists takes it away. */
  ghost predicate ChainTaken(list: List, lists: seq<List>, was: Snapshot) {
    Known(list, was) ==> was.chains[list.BottomOf()] == [] || list.BottomOf() in Claimed(lists, |lists|)
  }

  ghost predicate Updated(updates: seq<ListUpdate>, l: Location) {
    exists u :: u in updates && u.loc == l
  }

  ghost predicate FoldableAll(updates: seq<ListUpdate>, was: Snapshot) {
    var lists := ListsOf(Defining(updates));
    forall i :: 0 <= i < |lists| ==> Known(lists[i], was) && Foldable(lists, was, i)
  }

  /** Different locations have different bottoms, and no list is lazy. */
  ghost predicate Apart(was: Snapshot) {
    && (forall l :: l in was.cells && was.cells[l].Some? ==>
          was.cells[l].value.Bottom? && Known(was.cells[l].value, was))
    && (forall l, l' :: l in was.cells && l' in was.cells && l != l' && was.cells[l].Some? && was.cells[l'].Some? ==>
          was.cells[l].value.BottomOf() != was.cells[l'].value.BottomOf())
  }

  lemma OneUpdate(updates: seq<ListUpdate>, u: ListUpdate)
    requires DistinctLocations(updates) && u in updates
    ensures forall v :: v in updates && v.loc == u.loc ==> v == u
  {
  }

  /** The updates are of different locations, whose lists are bottoms, and their lists are known. */
  ghost predicate Writable(was: Snapshot, updates: seq<ListUpdate>) {
    && DistinctLocations(updates)
    && (forall u :: u in updates ==> u.loc in was.cells && (was.cells[u.loc].Some? ==> was.cells[u.loc].value.Bottom?))
    && (forall u :: u in updates && u.list.Some? ==> u.list.value.BottomOf() in was.values)
  }

  /** The locations of the updates that have to be folded, in order. */
  ghost predicate ToFold(toFold: seq<Location>, updates: seq<ListUpdate>) {
    |toFold| == |Defining(updates)| && forall i :: 0 <= i < |toFold| ==> toFold[i] == Defining(updates)[i].loc
  }

  /** One more update: its location has not been written before. */
  lemma WriteNext(was: Snapshot, updates: seq<ListUpdate>, k: nat)
    requires k < |updates| && Writable(was, updates)
    ensures var u := updates[k];
      && Written(was.cells, updates[..k + 1]) == Written(was.cells, updates[..k])[u.loc := u.list]
      && Defining(updates[..k + 1]) == Defining(updates[..k]) + (if u.list.Some? then [u] else [])
      && u.loc in Written(was.cells, updates[..k]) && Written(was.cells, updates[..k])[u.loc] == was.cells[u.loc]
      && (was.cells[u.loc].Some? ==> was.cells[u.loc].value.Bottom?)
      && (u.list.Some? ==> u.list.value.BottomOf() in was.values)
  {
    assert updates[..k + 1][..k] == updates[..k];
    assert updates[k] in updates;
    forall u | u in updates[..k] ensures u.loc != updates[k].loc && u.loc in was.cells {
      var i :| 0 <= i < k && updates[i] == u;
    }
    WrittenFacts(was.cells, updates[..k]);
  }

  /** The locations to fold are distinct and hold the lists that they were given. */
  lemma ReadyToFold(cells: Cells, updates: seq<ListUpdate>, toFold: seq<Location>)
    requires DistinctLocations(updates) && forall u :: u in updates ==> u.loc in cells
    requires ToFold(toFold, updates)
    ensures forall i, j :: 0 <= i < j < |toFold| ==> toFold[i] != toFold[j]
    ensures forall i :: 0 <= i < |toFold| ==>
      toFold[i] in Written(cells, updates) && Written(cells, updates)[toFold[i]] == Some(ListsOf(Defining(updates))[i])
  {
    WrittenFacts(cells, updates);
    DefiningFacts(updates);
    forall i | 0 <= i < |toFold| ensures
      toFold[i] in Written(cells, updates) && Written(cells, updates)[toFold[i]] == Some(ListsOf(Defining(updates))[i])
    {
      assert Defining(updates)[i] in Defining(updates);
    }
  }

  class ListStore {
    var cells: Cells
    /** Every bottom that a cell holds, or that a pending update is a view of. */
    ghost var bottoms: set<BottomList>

    ghost function Nodes(): (nodes: set<TailList>)
      reads this`bottoms, bottoms
      ensures forall b, t :: b in bottoms && t in b.chain ==> t in nodes
    {
      set b, t | b in bottoms && t in b.chain :: t
    }

    ghost predicate AllValid()
      reads this`bottoms, bottoms, Nodes()
    {
      forall b {:trigger b.Valid()} :: b in bottoms ==> b.Valid()
    }

    /** Writes one update; a list that is replaced must be a bottom, as every committed list is. */
    method WriteUpdate(u: ListUpdate)
      requires AllValid() && Counted(cells, bottoms) && u.loc in cells
      requires cells[u.loc].Some? ==> cells[u.loc].value.Bottom?
      requires u.list.Some? ==> u.list.value.BottomOf() in bottoms
      modifies this`cells, bottoms
      ensures AllValid() && Counted(cells, bottoms)
      ensures Now() == old(Now()).(cells := old(cells)[u.loc := u.list])
    {
      Exchange(u);
      forall b | b in bottoms ensures b.Valid() && b.values == old(b.values) && b.chain == old(b.chain) {
        assert old(b.Valid());
      }
    }

    /** The new list comes in the place of the old one, and both bottoms are told. */
    method Exchange(u: ListUpdate)
      requires Counted(cells, bottoms) && u.loc in cells
      requires cells[u.loc].Some? ==> cells[u.loc].value.Bottom?
      requires u.list.Some? ==> u.list.value.BottomOf() in bottoms
      modifies this`cells, bottoms`usageCount
      ensures Counted(cells, bottoms) && cells == old(cells)[u.loc := u.list]
    {
      ghost var before := cells;
      if cells[u.loc].Some? {
        DecreaseUsage(cells[u.loc].value);
      }
      cells := cells[u.loc := u.list];
      if u.list.Some? {
        BumpUsage(u.list.value);
      }
      forall b | b in bottoms ensures b.usageCount == |Holders(cells, b)| {
        HoldersAfter(before, u.loc, u.list, b);
      }
    }

    /** The list part of the first loop of apply_updates. */
    method WriteUpdates(updates: seq<ListUpdate>) returns (toFold: seq<Location>)
      requires AllValid() && Counted(cells, bottoms) && Writable(Now(), updates)
      modifies this`cells, bottoms
      ensures AllValid() && Counted(cells, bottoms)
      ensures Now() == old(Now()).(cells := Written(old(cells), updates)) && ToFold(toFold, updates)
    {
      toFold := [];
      for k := 0 to |updates|
        invariant AllValid() && Counted(cells, bottoms)
        invariant Now() == old(Now()).(cells := Written(old(cells), updates[..k])) && ToFold(toFold, updates[..k])
      {
        WriteNext(old(Now()), updates, k);
        WriteUpdate(updates[k]);
        if updates[k].list.Some? {
          toFold := toFold + [updates[k].loc];
        }
      }
      assert updates[..|updates|] == updates;
    }

    /** Folds one location: its list becomes a bottom that nobody else holds. */
    method FoldOne(l: Location)
      requires AllValid() && Counted(cells, bottoms) && l in cells && cells[l].Some?
      requires var list := cells[l].value; list.Within(|list.BottomOf().Items()|)
      modifies this, cells[l].value.BottomOf()
      ensures AllValid() && Counted(cells, bottoms) && old(bottoms) <= bottoms && fresh(bottoms - old(bottoms))
      ensures cells.Keys == old(cells).Keys && forall l' :: l' in cells && l' != l ==> cells[l'] == old(cells)[l']
      ensures cells[l].Some? && cells[l].value.Bottom?
      ensures var r := cells[l].value.bottom;
        r in bottoms && r.usageCount == 1 && r.chain == [] && r.Stored() == old(cells[l].value.Items())
      ensures var b := old(cells)[l].value.BottomOf();
        (exists l' :: l' != l && Holds(old(cells), l', b)) ==> b.values == old(b.values) && b.chain == []
    {
      ghost var list, before, was := cells[l].value, cells, bottoms;
      ghost var b := list.BottomOf();
      var r := Collect(cells[l].value);
      cells := cells[l := Some(Bottom(r))];
      bottoms := bottoms + {r};
      OneHolder(before, l, b);
      forall c | c in bottoms ensures c.usageCount == |Holders(cells, c)| {
        HoldersAfter(before, l, Some(Bottom(r)), c);
        if c == r && r != b {
          assert Holders(before, c) == {};
        }
      }
      if l' :| l' != l && Holds(before, l', b) {
        TwoHolders(before, l, l', b);
      }
    }

    /** The location still has the list that it had when folding began. */
    ghost predicate Pending(l: Location, was: Snapshot, claimed: set<BottomList>)
      reads this, bottoms
    {
      && l in cells && l in was.cells && cells[l] == was.cells[l]
      && (cells[l].Some? ==> var b := cells[l].value.BottomOf();
            && b in bottoms && b in was.values && b in was.chains
            && b.values == was.values[b]
            && b.chain == if b in claimed then [] else was.chains[b])
    }

    /** The location owns a bottom that stores the sequence s. */
    ghost predicate Owns(l: Location, s: seq<Value>)
      reads this, bottoms
    {
      && l in cells && cells[l].Some? && cells[l].value.Bottom?
      && var r := cells[l].value.bottom;
         r in bottoms && r.usageCount == 1 && r.chain == [] && r.Stored() == s
    }

    ghost function Now(): Snapshot
      reads this, bottoms
    {
      Snapshot(cells, map b | b in bottoms :: b.values, map b | b in bottoms :: b.chain)
    }

    /** Folds the next location on the list; what the others hold or own stays as it was. */
    method FoldNext(l: Location, ghost was: Snapshot, ghost claimed: set<BottomList>, ghost result: seq<Value>)
      requires AllValid() && Counted(cells, bottoms) && Pending(l, was, claimed) && cells[l].Some?
      requires var list := cells[l].value;
        list.Within(|SourceOf(list, was, claimed)|) && result == list.View(SourceOf(list, was, claimed))
      modifies this, bottoms
      ensures AllValid() && Counted(cells, bottoms) && cells.Keys == old(cells).Keys
      ensures old(bottoms) <= bottoms && fresh(bottoms - old(bottoms))
      ensures Owns(l, result)
      ensures forall l' :: l' != l && old(Pending(l', was, claimed)) ==>
        Pending(l', was, claimed + {old(cells)[l].value.BottomOf()})
      ensures forall l', s :: l' != l && old(Owns(l', s)) ==> Owns(l', s)
    {
      ghost var before, b := cells, cells[l].value.BottomOf();
      assert b.Items() == SourceOf(cells[l].value, was, claimed);
      label L:
      FoldOne(l);
      forall l' | l' != l && old(Pending(l', was, claimed)) ensures Pending(l', was, claimed + {b}) {
        assert before[l'].Some? && before[l'].value.BottomOf() == b ==> Holds(before, l', b);
      }
      forall l', s | l' != l && old(Owns(l', s)) ensures Owns(l', s) {
        if before[l'].value.bottom == b {
          TwoHolders(before, l, l', b);
        }
      }
    }

    /** The first k locations of to_fold own their results; all others are as they were. */
    ghost predicate Folding(toFold: seq<Location>, lists: seq<List>, was: Snapshot, results: seq<seq<Value>>, k: nat)
      requires k <= |toFold| == |lists| == |results|
      reads this, bottoms
    {
      && (forall i :: 0 <= i < k ==> Owns(toFold[i], results[i]))
      && (forall i :: k <= i < |toFold| ==> Pending(toFold[i], was, Claimed(lists, k)))
      && (forall l :: l in cells && l !in toFold ==> Pending(l, was, Claimed(lists, k)))
    }

    /** One round of the loop over to_fold. */
    method FoldStep(toFold: seq<Location>, k: nat, ghost lists: seq<List>, ghost was: Snapshot,
                    ghost results: seq<seq<Value>>)
      requires AllValid() && Counted(cells, bottoms) && k < |toFold| == |lists| == |results|
      requires forall i, j :: 0 <= i < j < |toFold| ==> toFold[i] != toFold[j]
      requires toFold[k] in cells && cells[toFold[k]] == Some(lists[k])
      requires Folds(lists, was, results, k)
      requires Folding(toFold, lists, was, results, k)
      modifies this, bottoms
      ensures AllValid() && Counted(cells, bottoms) && cells.Keys == old(cells).Keys
      ensures old(bottoms) <= bottoms && fresh(bottoms - old(bottoms))
      ensures Folding(toFold, lists, was, results, k + 1)
    {
      ClaimedNext(lists, k);
      FoldNext(toFold[k], was, Claimed(lists, k), results[k]);
    }

    /** The loop over to_fold. */
    method FoldAll(toFold: seq<Location>, ghost lists: seq<List>, ghost results: seq<seq<Value>>)
      requires AllValid() && Counted(cells, bottoms) && |toFold| == |lists| == |results|
      requires forall i, j :: 0 <= i < j < |toFold| ==> toFold[i] != toFold[j]
      requires forall i :: 0 <= i < |lists| ==> toFold[i] in cells && cells[toFold[i]] == Some(lists[i])
      requires forall i :: 0 <= i < |lists| ==> Folds(lists, Now(), results, i)
      modifies this, bottoms
      ensures AllValid() && Counted(cells, bottoms) && cells.Keys == old(cells).Keys
      ensures old(bottoms) <= bottoms && fresh(bottoms - old(bottoms))
      ensures Folding(toFold, lists, old(Now()), results, |toFold|)
    {
      ghost var was := Now();
      for k := 0 to |toFold|
        invariant AllValid() && Counted(cells, bottoms) && cells.Keys == old(cells).Keys
        invariant old(bottoms) <= bottoms && fresh(bottoms - old(bottoms))
        invariant Folding(toFold, lists, was, results, k)
      {
        assert Pending(toFold[k], was, Claimed(lists, k));
        FoldStep(toFold, k, lists, was, results);
      }
    }

    /** Every list in the tables is a bottom of its own. */
    ghost predicate Separate()
      reads this, bottoms
    {
      forall l :: l in cells && cells[l].Some? ==>
        cells[l].value.Bottom? && cells[l].value.bottom in bottoms && cells[l].value.bottom.usageCount == 1
    }

    /** No list in the tables has a chain behind it. */
    ghost predicate NoTails()
      reads this, bottoms
    {
      forall l :: l in cells && cells[l].Some? ==>
        cells[l].value.BottomOf() in bottoms && cells[l].value.BottomOf().chain == []
    }

    /**
      apply_updates on list locations. Each updated location ends up owning the sequence of its
      list, as folded in this order; the other locations keep their bottoms, with the values that
      were stored, and lose the chain if a list over the same bottom was folded.
     */
    method ApplyListUpdates(updates: seq<ListUpdate>)
      requires AllValid() && Counted(cells, bottoms) && Separate() && DistinctLocations(updates)
      requires forall u :: u in updates ==> u.loc in cells && (u.list.Some? ==> u.list.value.BottomOf() in bottoms)
      requires FoldableAll(updates, Now())
      modifies this, bottoms
      ensures AllValid() && FoldedFrom(updates, old(Now()))
      ensures old(bottoms) <= bottoms && fresh(bottoms - old(bottoms))
    {
      ghost var lists, was := ListsOf(Defining(updates)), Now();
      var toFold := WriteForFolding(updates);
      FoldAll(toFold, lists, ResultsOf(lists, was));
      FoldingDone(updates, was, toFold);
    }

    /** The first loop, with what the second one needs of it. */
    method WriteForFolding(updates: seq<ListUpdate>) returns (toFold: seq<Location>)
      requires AllValid() && Counted(cells, bottoms) && Separate() && DistinctLocations(updates)
      requires forall u :: u in updates ==> u.loc in cells && (u.list.Some? ==> u.list.value.BottomOf() in bottoms)
      requires FoldableAll(updates, Now())
      modifies this`cells, bottoms
      ensures AllValid() && Counted(cells, bottoms) && cells.Keys == old(cells).Keys
      ensures Now() == old(Now()).(cells := Written(old(cells), updates))
      ensures ToFold(toFold, updates)
      ensures var lists := ListsOf(Defining(updates));
        && (forall i, j :: 0 <= i < j < |toFold| ==> toFold[i] != toFold[j])
        && (forall i :: 0 <= i < |lists| ==> toFold[i] in cells && cells[toFold[i]] == Some(lists[i]))
        && (forall i :: 0 <= i < |lists| ==> Folds(lists, Now(), ResultsOf(lists, old(Now())), i))
    {
      ghost var was := Now();
      WrittenFacts(cells, updates);
      toFold := WriteUpdates(updates);
      ReadyToFold(was.cells, updates, toFold);
      FoldsLater(ListsOf(Defining(updates)), was, Now());
    }

    lemma FoldingDone(updates: seq<ListUpdate>, before: Snapshot, toFold: seq<Location>)
      requires FoldableAll(updates, before) && Counted(cells, bottoms) && cells.Keys == before.cells.Keys
      requires ToFold(toFold, updates)
      requires var lists := ListsOf(Defining(updates));
        Folding(toFold, lists, before.(cells := Written(before.cells, updates)), ResultsOf(lists, before), |toFold|)
      ensures FoldedFrom(updates, before)
    {
      forall i | 0 <= i < |toFold| ensures Defines(updates, toFold[i]) {
        assert Defining(updates)[i] in Defining(updates);
      }
    }

    lemma OwnedItems(l: Location, s: seq<Value>)
      requires Owns(l, s)
      ensures cells[l].value.BottomOf().chain == [] && cells[l].value.Items() == s
    {
      assert TailValues([]) == [] && s + [] == s;
    }

    /**
      A location that was not folded has its stored values back exactly when there was no chain
      behind its bottom, or a folded list took the chain away.
     */
    lemma KeptItems(l: Location, was: Snapshot, claimed: set<BottomList>)
      requires Pending(l, was, claimed) && cells[l].Some? && cells[l].value.Bottom?
      ensures var b := cells[l].value.bottom;
              var taken := b in claimed || was.chains[b] == [];
        && (b.chain == [] <==> taken)
        && (cells[l].value.Items() == Reverse(was.values[b]) <==> taken)
    {
      var b := cells[l].value.bottom;
      assert TailValues([]) == [] && Reverse(was.values[b]) + [] == Reverse(was.values[b]);
      assert |TailValues(b.chain)| == |b.chain|;
    }

    /** What folding leaves behind, in terms of the moment before the updates were written. */
    ghost predicate FoldedFrom(updates: seq<ListUpdate>, before: Snapshot)
      requires FoldableAll(updates, before)
      reads this, bottoms
    {
      && Counted(cells, bottoms) && cells.Keys == before.cells.Keys
      && (forall i :: 0 <= i < |Defining(updates)| ==>
            Owns(Defining(updates)[i].loc, FoldResult(ListsOf(Defining(updates)), before, i)))
      && (forall l :: l in cells && !Defines(updates, l) ==>
            Pending(l, before.(cells := Written(before.cells, updates)),
                    Claimed(ListsOf(Defining(updates)), |Defining(updates)|)))
    }

    /** A location that got a list owns the sequence that the list denoted. */
    lemma GotList(updates: seq<ListUpdate>, before: Snapshot, u: ListUpdate)
      requires FoldableAll(updates, before) && FoldedFrom(updates, before) && DistinctLocations(updates)
      requires EachChainOnce(ListsOf(Defining(updates)), before)
      requires u in updates && u.list.Some?
      ensures Known(u.list.value, before) && Owns(u.loc, Denoted(u.list.value, before))
    {
      DefiningFacts(updates);
      var i :| 0 <= i < |Defining(updates)| && Defining(updates)[i] == u;
      FoldExact(ListsOf(Defining(updates)), before, i);
    }

    /** A location that got a list owns some sequence. */
    lemma GotBottom(updates: seq<ListUpdate>, before: Snapshot, u: ListUpdate) returns (s: seq<Value>)
      requires FoldableAll(updates, before) && FoldedFrom(updates, before) && DistinctLocations(updates)
      requires u in updates && u.list.Some?
      ensures Owns(u.loc, s)
    {
      DefiningFacts(updates);
      var i :| 0 <= i < |Defining(updates)| && Defining(updates)[i] == u;
      s := FoldResult(ListsOf(Defining(updates)), before, i);
    }

    /** A location that got undef, or no update, is as the first loop of apply_updates left it. */
    lemma GotNoList(updates: seq<ListUpdate>, before: Snapshot, l: Location)
      requires FoldableAll(updates, before) && FoldedFrom(updates, before) && DistinctLocations(updates)
      requires forall u :: u in updates ==> u.loc in before.cells
      requires l in cells && forall u :: u in updates && u.loc == l ==> u.list.None?
      ensures cells[l] == if Updated(updates, l) then None else before.cells[l]
      ensures Pending(l, before.(cells := Written(before.cells, updates)),
                      Claimed(ListsOf(Defining(updates)), |Defining(updates)|))
    {
      WrittenFacts(before.cells, updates);
      DefiningFacts(updates);
      if Updated(updates, l) {
        var u :| u in updates && u.loc == l;
      }
    }

    /** After folding, whoever holds a bottom holds it alone. */
    lemma AloneAgain(updates: seq<ListUpdate>, before: Snapshot, l: Location)
      requires FoldableAll(updates, before) && FoldedFrom(updates, before) && DistinctLocations(updates)
      requires Apart(before) && forall u :: u in updates ==> u.loc in before.cells
      requires l in cells && cells[l].Some?
      ensures cells[l].value.Bottom? && cells[l].value.bottom in bottoms && cells[l].value.bottom.usageCount == 1
    {
      if u :| u in updates && u.loc == l && u.list.Some? {
        var _ := GotBottom(updates, before, u);
      } else {
        GotNoList(updates, before, l);
        var b := cells[l].value.BottomOf();
        forall l' | l' in Holders(cells, b) ensures l' == l {
          if l' != l {
            if u :| u in updates && u.loc == l' && u.list.Some? {
              var _ := GotBottom(updates, before, u);
              TwoHolders(cells, l, l', b);
            } else {
              GotNoList(updates, before, l');
            }
          }
        }
        assert Holders(cells, b) == {l};
      }
    }

    /** A location that was not updated keeps its stored sequence, if a fold has taken the chain behind it. */
    lemma KeptLocation(updates: seq<ListUpdate>, before: Snapshot, l: Location)
      requires FoldableAll(updates, before) && FoldedFrom(updates, before) && DistinctLocations(updates)
      requires Apart(before) && forall u :: u in updates ==> u.loc in before.cells
      requires l in cells && !Updated(updates, l)
      requires before.cells[l].Some? ==> ChainTaken(before.cells[l].value, ListsOf(Defining(updates)), before)
      ensures AsCommitted(l, before)
    {
      GotNoList(updates, before, l);
      if cells[l].Some? {
        KeptItems(l, before.(cells := Written(before.cells, updates)),
                  Claimed(ListsOf(Defining(updates)), |Defining(updates)|));
      }
    }

    /** After folding, every list is a bottom of its own and has no chain, if all chains have been taken. */
    lemma Tidy(updates: seq<ListUpdate>, before: Snapshot)
      requires FoldableAll(updates, before) && FoldedFrom(updates, before) && DistinctLocations(updates)
      requires Apart(before) && forall u :: u in updates ==> u.loc in before.cells
      requires forall l :: l in before.cells && !Updated(updates, l) && before.cells[l].Some? ==>
        ChainTaken(before.cells[l].value, ListsOf(Defining(updates)), before)
      ensures Separate() && NoTails()
    {
      forall l | l in cells && cells[l].Some? ensures
        && cells[l].value.Bottom? && cells[l].value.bottom in bottoms && cells[l].value.bottom.usageCount == 1
        && cells[l].value.BottomOf().chain == []
      {
        AloneAgain(updates, before, l);
        if u :| u in updates && u.loc == l && u.list.Some? {
          var _ := GotBottom(updates, before, u);
        } else {
          GotNoList(updates, before, l);
          KeptLocation(updates, before, l);
        }
      }
    }

    /** The location holds the sequence that its update denoted, without a chain. */
    ghost predicate AsDenoted(u: ListUpdate, before: Snapshot)
      requires u.list.Some?
      reads this, bottoms
    {
      && Known(u.list.value, before) && u.loc in cells && cells[u.loc].Some?
      && cells[u.loc].value.BottomOf() in bottoms && cells[u.loc].value.BottomOf().chain == []
      && cells[u.loc].value.Items() == Denoted(u.list.value, before)
    }

    /** The location holds what it was committed with, without a chain. */
    ghost predicate AsCommitted(l: Location, before: Snapshot)
      reads this, bottoms
    {
      && l in cells && l in before.cells && cells[l] == before.cells[l]
      && (cells[l].Some? ==>
            && cells[l].value.BottomOf() in bottoms && cells[l].value.BottomOf().chain == []
            && Known(cells[l].value, before)
            && cells[l].value.Items() == Reverse(before.values[cells[l].value.BottomOf()]))
    }

    /** What a step leaves behind, in terms of the moment before the commit. */
    ghost predicate Committed(updates: seq<ListUpdate>, before: Snapshot)
      reads this, bottoms
    {
      && (forall u :: u in updates && u.list.Some? ==> AsDenoted(u, before))
      && (forall u :: u in updates && u.list.None? ==> u.loc in cells && cells[u.loc].None?)
      && (forall l :: l in cells && !Updated(updates, l) ==> AsCommitted(l, before))
    }

    /** The same facts for all locations at once. */
    lemma AllCommitted(updates: seq<ListUpdate>, before: Snapshot)
      requires FoldableAll(updates, before) && FoldedFrom(updates, before) && DistinctLocations(updates)
      requires forall u :: u in updates ==> u.loc in before.cells
      requires EachChainOnce(ListsOf(Defining(updates)), before) && Apart(before)
      requires forall l :: l in before.cells && !Updated(updates, l) && before.cells[l].Some? ==>
        ChainTaken(before.cells[l].value, ListsOf(Defining(updates)), before)
      ensures Separate() && NoTails() && Committed(updates, before)
    {
      forall u | u in updates && u.list.Some? ensures AsDenoted(u, before) {
        GotList(updates, before, u);
        OwnedItems(u.loc, Denoted(u.list.value, before));
      }
      forall u | u in updates && u.list.None? ensures cells[u.loc].None? {
        OneUpdate(updates, u);
        GotNoList(updates, before, u.loc);
      }
      forall l | l in cells && !Updated(updates, l) ensures AsCommitted(l, before) {
        KeptLocation(updates, before, l);
      }
      Tidy(updates, before);
    }

    lemma ApartNow()
      requires Counted(cells, bottoms) && Separate()
      ensures Apart(Now())
    {
      forall l, l' | l in cells && l' in cells && l != l' && cells[l].Some? && cells[l'].Some?
        ensures cells[l].value.BottomOf() != cells[l'].value.BottomOf()
      {
        if cells[l].value.BottomOf() == cells[l'].value.BottomOf() {
          TwoHolders(cells, l, l', cells[l].value.BottomOf());
        }
      }
    }

    /**
      A step in which every chain is folded exactly once: each updated location ends up with the
      sequence that its update denoted when the step ended, every other location keeps the sequence
      it was committed with, and all lists are again bottoms of their own without chains.
     */
    method CommitStep(updates: seq<ListUpdate>)
      requires AllValid() && Counted(cells, bottoms) && Separate() && DistinctLocations(updates)
      requires forall u :: u in updates ==> u.loc in cells && (u.list.Some? ==> u.list.value.BottomOf() in bottoms)
      requires FoldableAll(updates, Now()) && EachChainOnce(ListsOf(Defining(updates)), Now())
      requires forall l :: l in cells && !Updated(updates, l) && cells[l].Some? ==>
        ChainTaken(cells[l].value, ListsOf(Defining(updates)), Now())
      modifies this, bottoms
      ensures AllValid() && Counted(cells, bottoms) && Separate() && NoTails() && cells.Keys == old(cells).Keys
      ensures old(bottoms) <= bottoms && fresh(bottoms - old(bottoms))
      ensures Committed(updates, old(Now()))
    {
      ghost var before := Now();
      ApartNow();
      ApplyListUpdates(updates);
      AllCommitted(updates, before);
    }
  }
}
