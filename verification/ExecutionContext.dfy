/**
  The execution context: the function tables and the layered update set. The flat hash map is
  shown to represent a stack of update sets, one per layer, on which forking pushes an empty
  layer and merging folds the top layer into the one below.
 */
module ExecutionContext {
  import opened Values
  import opened Sequences
  import opened UpdateSet
  import opened BucketOrder

  // ---- The stack of layers that a map of keys represents ----

  /** The address of the cell that holds the value of each location. */
  type Addresses = map<Location, nat>

  ghost predicate CellsDiffer(a: Addresses, l: Location, l': Location) {
    l in a && l' in a && a[l] != a[l']
  }

  /** Locations keep their cells. */
  ghost predicate Extends(a: Addresses, a': Addresses) {
    forall l :: l in a ==> l in a' && a'[l] == a[l]
  }

  /** No two locations share a cell. */
  ghost predicate Injective(a: Addresses) {
    forall l, l' {:trigger CellsDiffer(a, l, l')} :: l in a && l' in a && l != l' ==> CellsDiffer(a, l, l')
  }

  lemma SameCell(a: Addresses, l: Location, l': Location)
    requires Injective(a) && l in a && l' in a && a[l] == a[l']
    ensures l == l'
  {
    assert l != l' ==> CellsDiffer(a, l, l');
  }

  /** A new location gets an address that no other one has. */
  lemma InjectiveNext(a: Addresses, l: Location, x: nat)
    requires Injective(a) && l !in a && forall l' :: l' in a ==> a[l'] != x
    ensures Injective(a[l := x])
  {
    var a' := a[l := x];
    forall k, k' | k in a' && k' in a' && k != k' ensures CellsDiffer(a', k, k') {
      if k != l && k' != l { assert CellsDiffer(a, k, k'); }
    }
  }

  ghost predicate Placed(m: map<Key, Update>, a: Addresses, k: Key) {
    k in m && m[k].loc in a && k.address == a[m[k].loc]
  }

  /** Every entry sits at the address of the location that it updates. */
  ghost predicate WellPlaced(m: map<Key, Update>, a: Addresses) {
    forall k {:trigger Placed(m, a, k)} :: k in m ==> Placed(m, a, k)
  }

  ghost predicate AtMost(m: map<Key, Update>, n: nat) {
    forall k :: k in m ==> k.layer <= n
  }

  /** The entry of an address in a layer. */
  ghost function At(m: map<Key, Update>, n: nat, address: nat): Option<Update> {
    var k := Key(address, n);
    if k in m then Some(m[k]) else None
  }

  ghost predicate EmptyLayer(m: map<Key, Update>, n: nat) {
    forall x: nat :: At(m, n, x) == None
  }

  ghost function Layer(m: map<Key, Update>, a: Addresses, n: nat): Updates {
    map l | l in a && At(m, n, a[l]).Some? :: At(m, n, a[l]).value.value
  }

  ghost function Stack(m: map<Key, Update>, a: Addresses, top: nat): (layers: seq<Updates>)
    ensures |layers| == top + 1
    ensures forall n :: 0 <= n <= top ==> layers[n] == Layer(m, a, n)
  {
    seq(top + 1, n requires 0 <= n => Layer(m, a, n))
  }

  ghost function Top(layers: seq<Updates>): Updates
    requires layers != []
  {
    layers[|layers| - 1]
  }

  ghost function WithTop(layers: seq<Updates>, u: Updates): (changed: seq<Updates>)
    requires layers != []
    ensures |changed| == |layers|
  {
    layers[|layers| - 1 := u]
  }

  /** Even layers are parallel; the layers count from 0. */
  ghost predicate Parallel(layers: seq<Updates>)
    requires layers != []
  {
    (|layers| - 1) % 2 == 0
  }

  /** The stack after its top layer has been folded into the layer below. */
  ghost function MergeTop(layers: seq<Updates>): (merged: seq<Updates>)
    requires |layers| >= 2
    ensures |merged| == |layers| - 1
  {
    layers[..|layers| - 2] + [layers[|layers| - 2] + layers[|layers| - 1]]
  }

  /** The two top layers update a common location. */
  ghost predicate TopOverlaps(layers: seq<Updates>)
    requires |layers| >= 2
  {
    !Disjoint(layers[|layers| - 2], layers[|layers| - 1])
  }

  // ---- Reading through the layers ----

  /** The state seen from layer n, where only every other layer, down from n, takes part. */
  ghost function VisibleFrom(committed: State, layers: seq<Updates>, n: int): State
    requires n < |layers|
    decreases n
  {
    if n <= 0 then committed else Fire(VisibleFrom(committed, layers, n - 2), layers[n])
  }

  /** The highest odd number that is not above n. */
  function OddBelow(n: nat): int {
    if n % 2 == 0 then n - 1 else n
  }

  /** The state that an expression reads while the top layer is current. */
  ghost function Visible(committed: State, layers: seq<Updates>): State
    requires layers != []
  {
    VisibleFrom(committed, layers, OddBelow(|layers| - 1))
  }

  /** Layers above n do not matter to what is visible from n. */
  lemma {:induction false} VisibleFromPrefix(committed: State, xs: seq<Updates>, ys: seq<Updates>, n: int)
    requires n < |xs| && n < |ys|
    requires forall i :: 0 <= i <= n ==> xs[i] == ys[i]
    ensures VisibleFrom(committed, xs, n) == VisibleFrom(committed, ys, n)
    decreases n
  {
    if n > 0 {
      VisibleFromPrefix(committed, xs, ys, n - 2);
    }
  }

  /** The innermost odd layer, at n or below, that updates a location; 0 when there is none. */
  ghost function Innermost(layers: seq<Updates>, n: int, l: Location): (i: nat)
    requires n < |layers| && (n > 0 ==> n % 2 == 1)
    ensures i < |layers| || i == 0
    ensures i != 0 ==> i % 2 == 1 && i <= n && l in layers[i]
    ensures forall j :: i < j <= n && j % 2 == 1 ==> l !in layers[j]
    decreases n
  {
    if n <= 0 then 0 else if l in layers[n] then n else Innermost(layers, n - 2, l)
  }

  /** A read yields the update in the innermost odd layer that has one, else the committed value. */
  lemma {:induction false} ReadIsInnermost(committed: State, layers: seq<Updates>, n: int, l: Location)
    requires n < |layers| && (n > 0 ==> n % 2 == 1)
    ensures Lookup(VisibleFrom(committed, layers, n), l)
         == var i := Innermost(layers, n, l); if i == 0 then Lookup(committed, l) else layers[i][l]
    decreases n
  {
    if n > 0 {
      LookupFire(VisibleFrom(committed, layers, n - 2), layers[n], l);
      if l !in layers[n] {
        ReadIsInnermost(committed, layers, n - 2, l);
      }
    }
  }

  /** A location that no layer updates reads as committed. */
  lemma UntouchedVisible(committed: State, layers: seq<Updates>, l: Location)
    requires layers != [] && forall i :: 0 <= i < |layers| ==> l !in layers[i]
    ensures Lookup(Visible(committed, layers), l) == Lookup(committed, l)
  {
    ReadIsInnermost(committed, layers, OddBelow(|layers| - 1), l);
  }

  // ---- Moving one layer down ----

  /** Entries have left layer n, and none has come. */
  ghost predicate OnlyLeaves(m0: map<Key, Update>, m: map<Key, Update>, n: nat) {
    forall x: nat :: At(m, n, x) == At(m0, n, x) || At(m, n, x) == None
  }

  /** m is m0 while some entries of layer p + 1, possibly all, have moved to layer p. */
  ghost predicate PartlyMerged(m0: map<Key, Update>, m: map<Key, Update>, p: nat) {
    && (forall n: nat, x: nat :: n < p ==> At(m, n, x) == At(m0, n, x))
    && OnlyLeaves(m0, m, p + 1)
    && (forall x: nat ::
          At(m, p, x) == if At(m0, p + 1, x).Some? && At(m, p + 1, x).None? then At(m0, p + 1, x) else At(m0, p, x))
  }

  /** The map after one entry has moved one layer down. */
  ghost function MoveDown(m: map<Key, Update>, key: Key): map<Key, Update>
    requires key in m && key.layer >= 1
  {
    (m - {key})[Key(key.address, key.layer - 1) := m[key]]
  }

  lemma MoveEntry(m0: map<Key, Update>, m: map<Key, Update>, p: nat, key: Key)
    requires PartlyMerged(m0, m, p) && key in m && key.layer == p + 1
    ensures PartlyMerged(m0, MoveDown(m, key), p)
    ensures At(m, p, key.address) == At(m0, p, key.address)
    ensures At(m0, p + 1, key.address) == Some(m[key])
  {
    assert At(m, p + 1, key.address) == Some(m[key]);
    var m' := MoveDown(m, key);
    forall n: nat, x: nat
      ensures At(m', n, x) == if n == p && x == key.address then Some(m[key])
                              else if n == p + 1 && x == key.address then None else At(m, n, x)
    {
    }
  }

  lemma MergedLayer(m0: map<Key, Update>, m: map<Key, Update>, a: Addresses, p: nat)
    requires PartlyMerged(m0, m, p) && EmptyLayer(m, p + 1)
    ensures Layer(m, a, p) == Layer(m0, a, p) + Layer(m0, a, p + 1)
  {
    forall l | l in a ensures
      At(m, p, a[l]) == if At(m0, p + 1, a[l]).Some? then At(m0, p + 1, a[l]) else At(m0, p, a[l])
    {
      assert At(m, p + 1, a[l]) == None;
    }
  }

  /** Once layer p + 1 is empty, the stack has lost its top layer to the one below. */
  lemma MergedLayers(m0: map<Key, Update>, m: map<Key, Update>, a: Addresses, p: nat)
    requires PartlyMerged(m0, m, p) && EmptyLayer(m, p + 1)
    ensures Stack(m, a, p) == MergeTop(Stack(m0, a, p + 1))
  {
    MergedLayer(m0, m, a, p);
    forall n | 0 <= n < p ensures Layer(m, a, n) == Layer(m0, a, n) {
    }
    assert Stack(m0, a, p + 1)[p] == Layer(m0, a, p) && Stack(m0, a, p + 1)[p + 1] == Layer(m0, a, p + 1);
  }

  /** The entries moved so far met no entry of layer p at the same address. */
  ghost predicate NoClash(m0: map<Key, Update>, m: map<Key, Update>, p: nat) {
    forall n: nat, x: nat :: n == p + 1 && At(m0, n, x).Some? && At(m, n, x).None? ==> At(m0, p, x).None?
  }

  lemma NoClashDisjoint(m0: map<Key, Update>, m: map<Key, Update>, a: Addresses, p: nat)
    requires NoClash(m0, m, p) && EmptyLayer(m, p + 1)
    ensures Disjoint(Layer(m0, a, p), Layer(m0, a, p + 1))
  {
  }

  /** Two entries at one address, in two layers, belong to one location. */
  lemma SameLocation(m: map<Key, Update>, a: Addresses, n: nat, n': nat, x: nat)
    requires WellPlaced(m, a) && Injective(a)
    requires At(m, n, x).Some? && At(m, n', x).Some?
    ensures At(m, n, x).value.loc == At(m, n', x).value.loc
    ensures At(m, n, x).value.loc in a && a[At(m, n, x).value.loc] == x
  {
    assert Placed(m, a, Key(x, n)) && Placed(m, a, Key(x, n'));
    SameCell(a, At(m, n, x).value.loc, At(m, n', x).value.loc);
  }

  lemma ClashOverlaps(m: map<Key, Update>, a: Addresses, p: nat, x: nat)
    requires WellPlaced(m, a) && Injective(a)
    requires At(m, p, x).Some? && At(m, p + 1, x).Some?
    ensures !Disjoint(Layer(m, a, p), Layer(m, a, p + 1))
  {
    SameLocation(m, a, p, p + 1, x);
    var l := At(m, p, x).value.loc;
    assert l in Layer(m, a, p) && l in Layer(m, a, p + 1);
  }

  /**
    The bucket list during a merge: the first j buckets are still to be visited, and everything
    behind them is in layer p by now.
   */
  ghost predicate MergePoint(bs0: seq<Bucket>, bs: seq<Bucket>, p: nat, j: nat) {
    && j <= |bs0| && j <= |bs| && (j < |bs0| ==> bs0[j].key.layer == p + 1 == bs0[|bs0| - 1].key.layer)
    && (forall t :: 0 <= t < j ==> bs[t].key == bs0[t].key)
    && (forall t :: j <= t < |bs| ==> bs[t].key.layer == p)
  }

  /** What both merge loops keep: the map is partly merged and the list is at position j. */
  ghost predicate MergeLoop(bs0: seq<Bucket>, m0: map<Key, Update>, bs: seq<Bucket>, m: map<Key, Update>,
                            a: Addresses, p: nat, j: nat)
  {
    && LayersAscend(bs0)
    && MergePoint(bs0, bs, p, j)
    && SameOrder(bs0, bs, p)
    && Represents(bs, m)
    && PartlyMerged(m0, m, p)
    && WellPlaced(m, a)
    && AtMost(m, p + 1)
  }

  lemma MergeStart(bs: seq<Bucket>, m: map<Key, Update>, a: Addresses, p: nat)
    requires LayersAscend(bs) && Represents(bs, m) && WellPlaced(m, a) && AtMost(m, p + 1)
    ensures MergeLoop(bs, m, bs, m, a, p, |bs|) && NoClash(m, m, p)
  {
  }

  lemma MergePointStep(bs0: seq<Bucket>, bs: seq<Bucket>, bs': seq<Bucket>, p: nat, j: nat)
    requires MergePoint(bs0, bs, p, j) && j > 0 && bs[j - 1].key.layer == p + 1
    requires MovesDown(bs, bs', j - 1, Key(bs[j - 1].key.address, p))
    ensures MergePoint(bs0, bs', p, j - 1)
  {
    forall t | j - 1 <= t < |bs'| ensures bs'[t].key.layer == p {
      if t < |bs| - 1 { assert Shifted(bs, bs', t); }
    }
  }

  lemma KeyListed(bs: seq<Bucket>, m: map<Key, Update>, key: Key)
    requires Represents(bs, m)
    ensures HasKey(bs, key) <==> key in m
  {
  }

  lemma MovePlaced(m: map<Key, Update>, a: Addresses, p: nat, key: Key)
    requires WellPlaced(m, a) && AtMost(m, p + 1) && key in m && key.layer == p + 1
    ensures WellPlaced(MoveDown(m, key), a) && AtMost(MoveDown(m, key), p + 1)
  {
    var m' := MoveDown(m, key);
    assert Placed(m, a, key);
    forall k | k in m' ensures Placed(m', a, k) {
      assert k in m ==> Placed(m, a, k);
    }
  }

  lemma MoveNoClash(m0: map<Key, Update>, m: map<Key, Update>, p: nat, key: Key)
    requires NoClash(m0, m, p) && key in m && key.layer == p + 1 && At(m0, p, key.address).None?
    ensures NoClash(m0, MoveDown(m, key), p)
  {
    forall x: nat | At(m0, p + 1, x).Some? && At(MoveDown(m, key), p + 1, x).None? ensures At(m0, p, x).None? {
      assert x != key.address ==> At(MoveDown(m, key), p + 1, x) == At(m, p + 1, x);
    }
  }

  /** One round of a merge loop: lowering bucket j - 1 keeps what the loop keeps. */
  lemma MergeStep(bs0: seq<Bucket>, m0: map<Key, Update>, bs: seq<Bucket>, m: map<Key, Update>,
                  bs': seq<Bucket>, m': map<Key, Update>, a: Addresses, p: nat, j: nat)
    requires MergeLoop(bs0, m0, bs, m, a, p, j) && j > 0 && bs[j - 1].key.layer == p + 1
    requires MovesDown(bs, bs', j - 1, Key(bs[j - 1].key.address, p)) && Represents(bs', m')
    requires bs[j - 1].key in m && m' == MoveDown(m, bs[j - 1].key)
    ensures MergeLoop(bs0, m0, bs', m', a, p, j - 1)
    ensures NoClash(m0, m, p) && At(m0, p, bs[j - 1].key.address).None? ==> NoClash(m0, m', p)
  {
    var key := bs[j - 1].key;
    MergePointStep(bs0, bs, bs', p, j);
    MergingStep(bs, bs', p, j - 1);
    OrderKept(bs0, bs, bs', p);
    MoveEntry(m0, m, p, key);
    MovePlaced(m, a, p, key);
    if NoClash(m0, m, p) && At(m0, p, key.address).None? {
      MoveNoClash(m0, m, p, key);
    }
  }

  /** Stopping at the first bucket that is not above layer p leaves nothing above it. */
  lemma MergeComplete(bs0: seq<Bucket>, m0: map<Key, Update>, bs: seq<Bucket>, m: map<Key, Update>,
                      a: Addresses, p: nat, j: nat)
    requires MergeLoop(bs0, m0, bs, m, a, p, j)
    requires j == 0 || bs[j - 1].key.layer <= p
    ensures LayersAscend(bs) && AtMost(m, p) && EmptyLayer(m, p + 1) && MergedOrder(bs0, bs, p)
    ensures Stack(m, a, p) == MergeTop(Stack(m0, a, p + 1))
  {
    forall t | 0 <= t < |bs| ensures bs[t].key.layer <= p {
      if t < j - 1 {
        assert NotAbove(bs0, t, j - 1);
      }
    }
    forall s: nat, t: nat | s < t < |bs| ensures NotAbove(bs, s, t) {
      if t < j { assert NotAbove(bs0, s, t); }
    }
    forall k | k in m ensures k.layer <= p {
      assert HasKey(bs, k);
      var t :| 0 <= t < |bs| && bs[t].key == k;
    }
    MergedLayers(m0, m, a, p);
    forall t: nat | j <= t < |bs0| ensures bs0[t].key.layer == p + 1 {
      if j < t { assert NotAbove(bs0, j, t); }
      if t < |bs0| - 1 { assert NotAbove(bs0, t, |bs0| - 1); }
    }
    MergingEnds(bs0, bs, p, j);
  }

  // ---- Adding to the top layer ----

  /** An entry of the top layer fits at the tail of the list. */
  lemma AddAscends(bs: seq<Bucket>, m: map<Key, Update>, bs': seq<Bucket>, n: nat)
    requires LayersAscend(bs) && Represents(bs, m) && AtMost(m, n)
    requires SameKeys(bs', bs) || (|bs'| == |bs| + 1 && bs'[..|bs|] == bs && bs'[|bs|].key.layer == n)
    ensures LayersAscend(bs')
  {
    forall s: nat, t: nat | s < t < |bs'| ensures NotAbove(bs', s, t) {
      if t < |bs| { assert NotAbove(bs, s, t); } else { assert bs[s].key in m && bs'[s] == bs[s]; }
    }
  }

  lemma StackFork(m: map<Key, Update>, a: Addresses, p: nat)
    requires AtMost(m, p)
    ensures Stack(m, a, p + 1) == Stack(m, a, p) + [map[]]
  {
    assert Layer(m, a, p + 1) == map[];
  }

  lemma PlacedNext(m: map<Key, Update>, a: Addresses, l: Location, x: nat)
    requires WellPlaced(m, a) && l !in a
    ensures WellPlaced(m, a[l := x])
  {
    forall k | k in m ensures Placed(m, a[l := x], k) {
      assert Placed(m, a, k);
    }
  }

  lemma PlacedAdd(m: map<Key, Update>, a: Addresses, l: Location, v: Value, n: nat)
    requires WellPlaced(m, a) && l in a
    ensures WellPlaced(m[Key(a[l], n) := Update(l, v)], a)
  {
    var m' := m[Key(a[l], n) := Update(l, v)];
    forall k | k in m' ensures Placed(m', a, k) {
      assert k in m ==> Placed(m, a, k);
    }
  }

  /** A new cell for a location without pending updates changes no layer. */
  lemma FreshCell(m: map<Key, Update>, a: Addresses, l: Location, x: nat, p: nat)
    requires WellPlaced(m, a) && l !in a
    requires forall l' :: l' in a ==> a[l'] != x
    ensures Stack(m, a[l := x], p) == Stack(m, a, p)
  {
    forall n: nat | n <= p ensures Layer(m, a[l := x], n) == Layer(m, a, n) {
      assert Key(x, n) in m ==> Placed(m, a, Key(x, n));
      assert At(m, n, x) == None;
    }
  }

  lemma StackAdd(m: map<Key, Update>, a: Addresses, p: nat, l: Location, v: Value)
    requires Injective(a) && l in a
    ensures Stack(m[Key(a[l], p) := Update(l, v)], a, p) == Stack(m, a, p)[p := Stack(m, a, p)[p][l := v]]
  {
    var m' := m[Key(a[l], p) := Update(l, v)];
    forall n: nat | n < p ensures Layer(m', a, n) == Layer(m, a, n) {
    }
    forall l' | l' in a && a[l'] == a[l] ensures l' == l {
      SameCell(a, l', l);
    }
    assert Layer(m', a, p) == Layer(m, a, p)[l := v];
  }

  // ---- Committing the base layer ----

  /** fs' is fs after the updates of the buckets from position i on have been written. */
  ghost predicate AppliedFrom(fs: map<Location, Value>, fs': map<Location, Value>, bs: seq<Bucket>, i: nat) {
    && (forall t :: i <= t < |bs| ==> bs[t].update.loc in fs' && fs'[bs[t].update.loc] == bs[t].update.value)
    && (forall l :: l in fs' && l in fs && fs'[l] != fs[l] ==> Touches(bs, i, l))
  }

  ghost predicate Touches(bs: seq<Bucket>, i: nat, l: Location) {
    exists t :: i <= t < |bs| && bs[t].update.loc == l
  }

  /** Only the top layer holds updates. */
  ghost predicate OnlyTop(layers: seq<Updates>)
    requires layers != []
  {
    forall n :: 0 <= n < |layers| - 1 ==> layers[n] == map[]
  }

  ghost predicate AllEmpty(layers: seq<Updates>) {
    forall n :: 0 <= n < |layers| ==> layers[n] == map[]
  }

  lemma StackOfNothing(a: Addresses, p: nat)
    ensures AllEmpty(Stack(map[], a, p))
  {
  }

  lemma BaseLayerOnly(m: map<Key, Update>, a: Addresses, p: nat)
    requires WellPlaced(m, a) && AtMost(m, p) && OnlyTop(Stack(m, a, p))
    ensures forall k :: k in m ==> k.layer == p
  {
    forall k | k in m ensures k.layer == p {
      assert Placed(m, a, k);
      assert At(m, k.layer, a[m[k].loc]) == Some(m[k]);
      assert m[k].loc in Stack(m, a, p)[k.layer];
    }
  }

  lemma OneEntryPerLocation(bs: seq<Bucket>, m: map<Key, Update>, a: Addresses, p: nat)
    requires Represents(bs, m) && WellPlaced(m, a)
    requires forall k :: k in m ==> k.layer == p
    ensures forall s, t :: 0 <= s < t < |bs| ==> bs[s].update.loc != bs[t].update.loc
  {
    forall s: nat, t: nat | s < t < |bs| ensures bs[s].update.loc != bs[t].update.loc {
      UniqueAt(bs, s, t);
      assert Placed(m, a, bs[s].key) && Placed(m, a, bs[t].key);
    }
  }

  lemma TouchedInLayer(bs: seq<Bucket>, m: map<Key, Update>, a: Addresses, p: nat, l: Location)
    requires Represents(bs, m) && WellPlaced(m, a) && (forall k :: k in m ==> k.layer == p) && Touches(bs, 0, l)
    ensures l in Layer(m, a, p)
  {
    var t :| 0 <= t < |bs| && bs[t].update.loc == l;
    assert Placed(m, a, bs[t].key);
    assert At(m, p, a[l]) == Some(bs[t].update);
  }

  lemma BucketOf(bs: seq<Bucket>, m: map<Key, Update>, a: Addresses, p: nat, l: Location) returns (t: nat)
    requires Represents(bs, m) && WellPlaced(m, a) && Injective(a) && l in Layer(m, a, p)
    ensures t < |bs| && bs[t].update == Update(l, Layer(m, a, p)[l])
  {
    assert HasKey(bs, Key(a[l], p));
    t :| 0 <= t < |bs| && bs[t].key == Key(a[l], p);
    assert Placed(m, a, bs[t].key);
    SameCell(a, m[bs[t].key].loc, l);
  }

  lemma AllApplied(fs: map<Location, Value>, fs': map<Location, Value>, bs: seq<Bucket>,
                   m: map<Key, Update>, a: Addresses, p: nat)
    requires fs.Keys == fs'.Keys == a.Keys && AppliedFrom(fs, fs', bs, 0)
    requires Represents(bs, m) && WellPlaced(m, a) && Injective(a)
    requires forall k :: k in m ==> k.layer == p
    ensures fs' == fs + Layer(m, a, p)
    ensures Defined(fs') == Fire(Defined(fs), Layer(m, a, p))
  {
    var u := Layer(m, a, p);
    forall l | l in fs' ensures fs'[l] == (fs + u)[l] {
      if l in u {
        var t := BucketOf(bs, m, a, p, l);
      } else if Touches(bs, 0, l) {
        TouchedInLayer(bs, m, a, p, l);
      }
    }
    DefinedFire(fs, fs', u);
  }

  lemma DefinedFire(fs: map<Location, Value>, fs': map<Location, Value>, u: Updates)
    requires fs' == fs + u
    ensures Defined(fs') == Fire(Defined(fs), u)
  {
    StatesEqual(Defined(fs'), Fire(Defined(fs), u));
  }

  class ExecutionContext {
    const updateset: LinkedHash
    var pseudostate: nat
    var functionStates: map<Location, Value>
    var addresses: Addresses
    var nextAddress: nat

    ghost predicate Valid()
      reads this, updateset
    {
      && updateset.Valid()
      && LayersAscend(updateset.buckets)
      && pseudostate < LAYER_RANGE
      && functionStates.Keys == addresses.Keys
      && Injective(addresses)
      && (forall l :: l in addresses ==> addresses[l] < nextAddress)
      && WellPlaced(updateset.contents, addresses)
      && AtMost(updateset.contents, pseudostate)
    }

    /** One update set per layer, from layer 0 to the current one. */
    ghost function Layers(): (layers: seq<Updates>)
      reads this`pseudostate, this`addresses, updateset`contents
      ensures |layers| == pseudostate + 1
    {
      Stack(updateset.contents, addresses, pseudostate)
    }

    ghost function Committed(): State
      reads this`functionStates
    {
      Defined(functionStates)
    }

    /** A context without pending updates; base is 1 when the init rule is a parallel block. */
    constructor (base: nat)
      requires base <= 1
      ensures Valid() && pseudostate == base && functionStates == map[] && fresh(updateset)
      ensures AllEmpty(Layers())
    {
      updateset := new LinkedHash();
      pseudostate := base;
      functionStates, addresses, nextAddress := map[], map[], 0;
    }

    /** FORK_PAR and FORK_SEQ. */
    method Fork()
      requires Valid() && pseudostate + 1 < LAYER_RANGE
      modifies this`pseudostate
      ensures Valid() && pseudostate == old(pseudostate) + 1
      ensures Layers() == old(Layers()) + [map[]]
      ensures Committed() == old(Committed())
    {
      pseudostate := pseudostate + 1;
      StackFork(updateset.contents, addresses, old(pseudostate));
    }

    /** UPDATESET_EMPTY: no entry in the current layer. */
    method IsEmpty() returns (empty: bool)
      requires Valid()
      ensures empty <==> Top(Layers()) == map[]
    {
      for i := 0 to |updateset.buckets|
        invariant forall t :: 0 <= t < i ==> updateset.buckets[t].key.layer != pseudostate
      {
        var b := updateset.buckets[i];
        if b.key.layer == pseudostate {
          assert Placed(updateset.contents, addresses, b.key);
          assert At(updateset.contents, pseudostate, addresses[b.update.loc]) == Some(b.update);
          assert b.update.loc in Layers()[pseudostate];
          return false;
        }
      }
      forall l | l in addresses ensures At(updateset.contents, pseudostate, addresses[l]) == None {
        assert !HasKey(updateset.buckets, Key(addresses[l], pseudostate));
      }
      return true;
    }

    method SameArguments(u: Update, v: Update) returns (same: bool)
      requires |u.loc.args| == |v.loc.args|
      ensures same <==> u.loc.args == v.loc.args
    {
      for i := 0 to |u.loc.args|
        invariant u.loc.args[..i] == v.loc.args[..i]
      {
        if u.loc.args[i] != v.loc.args[i] {
          return false;
        }
        assert u.loc.args[..i + 1] == u.loc.args[..i] + [u.loc.args[i]];
        assert v.loc.args[..i + 1] == v.loc.args[..i] + [v.loc.args[i]];
      }
      return true;
    }

    /**
      casm_updateset_add: in an odd layer the update overrides an earlier one, in an even layer an
      earlier one stays and is returned.
     */
    method Add(address: nat, u: Update) returns (present: Option<Update>)
      requires updateset.Valid() && LayersAscend(updateset.buckets)
      requires AtMost(updateset.contents, pseudostate)
      modifies updateset
      ensures updateset.Valid() && LayersAscend(updateset.buckets)
      ensures present == if pseudostate % 2 == 0 then At(old(updateset.contents), pseudostate, address) else None
      ensures updateset.contents == if present.Some? then old(updateset.contents)
                                    else old(updateset.contents)[Key(address, pseudostate) := u]
      ensures EntersTop(old(updateset.buckets), updateset.buckets, pseudostate, address)
    {
      present := None;
      ghost var bs, m := updateset.buckets, updateset.contents;
      KeyListed(bs, m, Key(address, pseudostate));
      if pseudostate % 2 == 0 {
        present := updateset.Get(Key(address, pseudostate));
      }
      if present.None? {
        var _ := updateset.Set(Key(address, pseudostate), u);
        AddAscends(bs, m, updateset.buckets, pseudostate);
      }
      EntryEnters(bs, updateset.buckets, Bucket(Key(address, pseudostate), u));
    }

    /** Adds a location to its function table, as initializers and fresh symbols do. */
    method Emplace(l: Location, v: Value)
      requires Valid() && l !in functionStates
      modifies this`functionStates, this`addresses, this`nextAddress
      ensures Valid() && functionStates == old(functionStates)[l := v]
      ensures Layers() == old(Layers()) && Extends(old(addresses), addresses)
    {
      FreshCell(updateset.contents, addresses, l, nextAddress, pseudostate);
      InjectiveNext(addresses, l, nextAddress);
      PlacedNext(updateset.contents, addresses, l, nextAddress);
      functionStates := functionStates[l := v];
      addresses := addresses[l := nextAddress];
      nextAddress := nextAddress + 1;
    }

    /** Gives a location a cell in its function table; a new cell holds Undef. */
    method EmplaceCell(l: Location)
      requires Valid()
      modifies this`functionStates, this`addresses, this`nextAddress
      ensures Valid() && l in addresses
      ensures functionStates == old(if l in functionStates then functionStates else functionStates[l := Undef])
      ensures Committed() == old(Committed()) && Layers() == old(Layers())
      ensures Extends(old(addresses), addresses)
    {
      if l !in functionStates {
        Emplace(l, Undef);
      }
    }

    /** add_update: records the update in the current layer, or reports the conflict it causes. */
    method AddUpdate(l: Location, v: Value) returns (conflict: bool)
      requires Valid()
      modifies this`functionStates, this`addresses, this`nextAddress, updateset
      ensures Valid()
      ensures functionStates == old(if l in functionStates then functionStates else functionStates[l := Undef])
      ensures Committed() == old(Committed())
      ensures conflict <==> Parallel(old(Layers())) && l in Top(old(Layers()))
      ensures !conflict ==> Layers() == WithTop(old(Layers()), Top(old(Layers()))[l := v])
      ensures Extends(old(addresses), addresses) && l in addresses
      ensures EntersTop(old(updateset.buckets), updateset.buckets, pseudostate, addresses[l])
    {
      EmplaceCell(l);
      ghost var m := updateset.contents;
      var u := Update(l, v);
      var present := Add(addresses[l], u);
      conflict := false;
      if present.Some? {
        assert Placed(m, addresses, Key(addresses[l], pseudostate));
        SameCell(addresses, l, present.value.loc);
        conflict := SameArguments(u, present.value);
      } else {
        PlacedAdd(m, addresses, l, v, pseudostate);
        StackAdd(m, addresses, pseudostate, l, v);
      }
    }

    /** get_function_value: looks through the odd layers from the innermost one outwards. */
    method GetFunctionValue(l: Location) returns (v: Value)
      requires Valid()
      ensures v == Lookup(Visible(Committed(), Layers()), l)
    {
      if l !in functionStates {
        MissingNotPending(l, OddBelow(pseudostate));
        return Undef;
      }
      v := SearchLayers(l);
    }

    method SearchLayers(l: Location) returns (v: Value)
      requires Valid() && l in functionStates
      ensures v == Lookup(Visible(Committed(), Layers()), l)
    {
      ghost var c, ls := Committed(), Layers();
      var state: int := if pseudostate % 2 == 0 then pseudostate - 1 else pseudostate;
      while state > 0
        invariant state < |ls|
        invariant Lookup(Visible(c, ls), l) == Lookup(VisibleFrom(c, ls, state), l)
      {
        var update := updateset.Get(Key(addresses[l], state));
        LayerHolds(l, state);
        LookupFire(VisibleFrom(c, ls, state - 2), ls[state], l);
        if update.Some? {
          return update.value.value;
        }
        state := state - 2;
      }
      return functionStates[l];
    }

    /** What a layer holds for a location is what the map holds for its key. */
    lemma LayerHolds(l: Location, n: nat)
      requires l in addresses && n <= pseudostate
      ensures l in Layers()[n] <==> Key(addresses[l], n) in updateset.contents
      ensures l in Layers()[n] ==> Layers()[n][l] == updateset.contents[Key(addresses[l], n)].value
    {
    }

    /** A location that is missing from its function table has no pending update and reads as Undef. */
    lemma {:induction false} MissingNotPending(l: Location, n: int)
      requires Valid() && l !in functionStates && n <= pseudostate
      ensures forall i :: 0 <= i <= pseudostate ==> l !in Layers()[i]
      ensures Lookup(VisibleFrom(Committed(), Layers(), n), l) == Undef
      decreases n
    {
      if n > 0 {
        LookupFire(VisibleFrom(Committed(), Layers(), n - 2), Layers()[n], l);
        MissingNotPending(l, n - 2);
      }
    }

    /** Moves the entry of bucket i one layer down, as both merges do in their loops. */
    method Lower(i: nat) returns (previous: Option<Update>)
      requires updateset.Valid()
      requires i < |updateset.buckets| && 1 <= updateset.buckets[i].key.layer < LAYER_RANGE
      modifies updateset
      ensures updateset.Valid()
      ensures var key := old(updateset.buckets)[i].key;
        MovesDown(old(updateset.buckets), updateset.buckets, i, Key(key.address, key.layer - 1))
      ensures var key := old(updateset.buckets)[i].key;
        && key in old(updateset.contents)
        && updateset.contents == MoveDown(old(updateset.contents), key)
        && previous == At(old(updateset.contents), key.layer - 1, key.address)
    {
      var b := updateset.buckets[i];
      var lower := Decrement(b.key);
      KeyListed(updateset.buckets, updateset.contents, lower);
      updateset.Delete(i);
      previous := updateset.Set(lower, b.update);
    }

    /** One round of a merge loop. */
    method LowerLast(j: nat, ghost bs0: seq<Bucket>, ghost m0: map<Key, Update>)
      returns (u: Update, previous: Option<Update>)
      requires MergeLoop(bs0, m0, updateset.buckets, updateset.contents, addresses, pseudostate, j)
      requires pseudostate + 1 < LAYER_RANGE
      requires j > 0 && updateset.buckets[j - 1].key.layer > pseudostate
      modifies updateset
      ensures MergeLoop(bs0, m0, updateset.buckets, updateset.contents, addresses, pseudostate, j - 1)
      ensures var x := old(updateset.buckets)[j - 1].key.address;
        && At(m0, pseudostate + 1, x) == Some(u)
        && At(m0, pseudostate, x) == previous
        && (NoClash(m0, old(updateset.contents), pseudostate) && previous.None? ==>
              NoClash(m0, updateset.contents, pseudostate))
    {
      ghost var bs, m := updateset.buckets, updateset.contents;
      u := updateset.buckets[j - 1].update;
      MoveEntry(m0, m, pseudostate, bs[j - 1].key);
      previous := Lower(j - 1);
      MergeStep(bs0, m0, bs, m, updateset.buckets, updateset.contents, addresses, pseudostate, j);
    }

    /** The loop of merge_par: every entry above the current layer moves into it. */
    method LowerAll(ghost bs0: seq<Bucket>, ghost m0: map<Key, Update>)
      requires MergeLoop(bs0, m0, updateset.buckets, updateset.contents, addresses, pseudostate, |updateset.buckets|)
      requires pseudostate + 1 < LAYER_RANGE
      modifies updateset
      ensures updateset.Valid() && LayersAscend(updateset.buckets)
      ensures WellPlaced(updateset.contents, addresses) && AtMost(updateset.contents, pseudostate)
      ensures Stack(updateset.contents, addresses, pseudostate) == MergeTop(Stack(m0, addresses, pseudostate + 1))
      ensures MergedOrder(bs0, updateset.buckets, pseudostate)
    {
      ghost var j := LowerWhileAbove(bs0, m0);
      MergeComplete(bs0, m0, updateset.buckets, updateset.contents, addresses, pseudostate, j);
    }

    method LowerWhileAbove(ghost bs0: seq<Bucket>, ghost m0: map<Key, Update>) returns (ghost stop: nat)
      requires MergeLoop(bs0, m0, updateset.buckets, updateset.contents, addresses, pseudostate, |updateset.buckets|)
      requires pseudostate + 1 < LAYER_RANGE
      modifies updateset
      ensures MergeLoop(bs0, m0, updateset.buckets, updateset.contents, addresses, pseudostate, stop)
      ensures stop == 0 || updateset.buckets[stop - 1].key.layer <= pseudostate
    {
      var j: nat := |updateset.buckets|;
      while j > 0
        invariant MergeLoop(bs0, m0, updateset.buckets, updateset.contents, addresses, pseudostate, j)
      {
        if updateset.buckets[j - 1].key.layer <= pseudostate { break; }
        var _, _ := LowerLast(j, bs0, m0);
        j := j - 1;
      }
      stop := j;
    }

    /** merge_par folds the top layer, a parallel one, into the sequential layer below: its updates win. */
    method MergePar()
      requires Valid() && pseudostate >= 1
      modifies this`pseudostate, updateset
      ensures Valid() && pseudostate == old(pseudostate) - 1
      ensures Committed() == old(Committed())
      ensures Layers() == MergeTop(old(Layers()))
      ensures MergedOrder(old(updateset.buckets), updateset.buckets, pseudostate)
    {
      pseudostate := pseudostate - 1;
      MergeStart(updateset.buckets, updateset.contents, addresses, pseudostate);
      LowerAll(updateset.buckets, updateset.contents);
    }

    /** The loop of merge_seq, which stops at the first location that both layers update. */
    method LowerAllOrClash(ghost bs0: seq<Bucket>, ghost m0: map<Key, Update>) returns (conflict: bool)
      requires MergeLoop(bs0, m0, updateset.buckets, updateset.contents, addresses, pseudostate, |updateset.buckets|)
      requires m0 == updateset.contents && WellPlaced(m0, addresses) && Injective(addresses)
      requires pseudostate + 1 < LAYER_RANGE
      modifies updateset
      ensures conflict <==> !Disjoint(Layer(m0, addresses, pseudostate), Layer(m0, addresses, pseudostate + 1))
      ensures !conflict ==> updateset.Valid() && LayersAscend(updateset.buckets)
      ensures !conflict ==> WellPlaced(updateset.contents, addresses) && AtMost(updateset.contents, pseudostate)
      ensures !conflict ==>
        Stack(updateset.contents, addresses, pseudostate) == MergeTop(Stack(m0, addresses, pseudostate + 1))
      ensures !conflict ==> MergedOrder(bs0, updateset.buckets, pseudostate)
    {
      ghost var j, x;
      conflict, j, x := LowerUntilClash(bs0, m0);
      if conflict {
        ClashOverlaps(m0, addresses, pseudostate, x);
      } else {
        MergeComplete(bs0, m0, updateset.buckets, updateset.contents, addresses, pseudostate, j);
        NoClashDisjoint(m0, updateset.contents, addresses, pseudostate);
      }
    }

    method LowerUntilClash(ghost bs0: seq<Bucket>, ghost m0: map<Key, Update>)
      returns (conflict: bool, ghost stop: nat, ghost x: nat)
      requires MergeLoop(bs0, m0, updateset.buckets, updateset.contents, addresses, pseudostate, |updateset.buckets|)
      requires m0 == updateset.contents && WellPlaced(m0, addresses) && Injective(addresses)
      requires pseudostate + 1 < LAYER_RANGE
      modifies updateset
      ensures conflict ==> At(m0, pseudostate, x).Some? && At(m0, pseudostate + 1, x).Some?
      ensures !conflict ==>
        && MergeLoop(bs0, m0, updateset.buckets, updateset.contents, addresses, pseudostate, stop)
        && NoClash(m0, updateset.contents, pseudostate)
        && (stop == 0 || updateset.buckets[stop - 1].key.layer <= pseudostate)
    {
      conflict, stop, x := false, 0, 0;
      var j: nat := |updateset.buckets|;
      while j > 0
        invariant MergeLoop(bs0, m0, updateset.buckets, updateset.contents, addresses, pseudostate, j)
        invariant NoClash(m0, updateset.contents, pseudostate) && !conflict
      {
        if updateset.buckets[j - 1].key.layer <= pseudostate { break; }
        x := updateset.buckets[j - 1].key.address;
        conflict := LowerOrClash(j, bs0, m0);
        if conflict { return; }
        j := j - 1;
      }
      stop := j;
    }

    /** One round of the loop of merge_seq. */
    method LowerOrClash(j: nat, ghost bs0: seq<Bucket>, ghost m0: map<Key, Update>) returns (conflict: bool)
      requires MergeLoop(bs0, m0, updateset.buckets, updateset.contents, addresses, pseudostate, j)
      requires NoClash(m0, updateset.contents, pseudostate) && WellPlaced(m0, addresses) && Injective(addresses)
      requires pseudostate + 1 < LAYER_RANGE
      requires j > 0 && updateset.buckets[j - 1].key.layer > pseudostate
      modifies updateset
      ensures var x := old(updateset.buckets)[j - 1].key.address;
        conflict ==> At(m0, pseudostate, x).Some? && At(m0, pseudostate + 1, x).Some?
      ensures !conflict ==> NoClash(m0, updateset.contents, pseudostate)
      ensures !conflict ==>
        MergeLoop(bs0, m0, updateset.buckets, updateset.contents, addresses, pseudostate, j - 1)
    {
      ghost var x := updateset.buckets[j - 1].key.address;
      var u, previous := LowerLast(j, bs0, m0);
      conflict := false;
      if previous.Some? {
        SameLocation(m0, addresses, pseudostate, pseudostate + 1, x);
        // the source returns without an error here when the arguments differ
        conflict := SameArguments(u, previous.value);
        assert conflict;
      }
    }

    /** merge_seq folds the top layer, a sequential one, into the parallel layer below, or reports a conflict. */
    method MergeSeq() returns (conflict: bool)
      requires Valid() && pseudostate >= 1
      modifies this`pseudostate, updateset
      ensures conflict <==> TopOverlaps(old(Layers()))
      ensures !conflict ==> Valid() && pseudostate == old(pseudostate) - 1
      ensures !conflict ==> Committed() == old(Committed())
      ensures !conflict ==> Layers() == MergeTop(old(Layers()))
      ensures !conflict ==> MergedOrder(old(updateset.buckets), updateset.buckets, pseudostate)
    {
      assert Layers()[pseudostate - 1] == Layer(updateset.contents, addresses, pseudostate - 1);
      assert Layers()[pseudostate] == Layer(updateset.contents, addresses, pseudostate);
      pseudostate := pseudostate - 1;
      MergeStart(updateset.buckets, updateset.contents, addresses, pseudostate);
      conflict := LowerAllOrClash(updateset.buckets, updateset.contents);
    }

    /** The loop of apply_updates: writes every update, from the tail of the list to its head. */
    method WriteAll()
      requires forall t :: 0 <= t < |updateset.buckets| ==> updateset.buckets[t].update.loc in functionStates
      requires forall s, t :: 0 <= s < t < |updateset.buckets| ==>
        updateset.buckets[s].update.loc != updateset.buckets[t].update.loc
      modifies this`functionStates
      ensures functionStates.Keys == old(functionStates).Keys
      ensures AppliedFrom(old(functionStates), functionStates, updateset.buckets, 0)
    {
      var i: nat := |updateset.buckets|;
      while i > 0
        invariant i <= |updateset.buckets| && functionStates.Keys == old(functionStates).Keys
        invariant AppliedFrom(old(functionStates), functionStates, updateset.buckets, i)
      {
        i := i - 1;
        var u := updateset.buckets[i].update;
        functionStates := functionStates[u.loc := u.value];
      }
    }

    /** apply_updates commits the base layer and empties the update set. */
    method ApplyUpdates()
      requires Valid() && OnlyTop(Layers())
      modifies this`functionStates, updateset
      ensures Valid() && AllEmpty(Layers())
      ensures functionStates == old(functionStates) + Top(old(Layers()))
      ensures functionStates.Keys == old(functionStates).Keys
      ensures Committed() == Fire(old(Committed()), Top(old(Layers())))
    {
      ghost var bs, m, fs, p := updateset.buckets, updateset.contents, functionStates, pseudostate;
      BaseLayerOnly(m, addresses, p);
      OneEntryPerLocation(bs, m, addresses, p);
      forall t | 0 <= t < |bs| ensures bs[t].update.loc in functionStates {
        assert Placed(m, addresses, bs[t].key);
      }
      WriteAll();
      AllApplied(fs, functionStates, bs, m, addresses, p);
      StackOfNothing(addresses, p);
      updateset.Clear();
    }
  }
}
