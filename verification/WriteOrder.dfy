/**
  The order in which a rule's updates are committed. Updates enter the bucket list as they are made,
  every merge reverses the entries of the layer that it merges, and apply_updates visits the list
  from its tail to its head.
 */
module WriteOrder {
  import opened Values
  import opened Sequences
  import opened UpdateSet
  import opened BucketOrder
  import opened ExecutionContext
  import opened Semantics
  import Laws
  import Refinement

  /** What a rule does to the update set: single updates in nested parallel and sequential blocks. */
  datatype Block = Write(update: Update) | Par(blocks: seq<Block>) | Seq(blocks: seq<Block>)

  /** How many layers a block may fork. */
  function Height(b: Block): nat {
    match b
    case Write(_) => 0
    case Par(bs) => 1 + HeightAll(bs)
    case Seq(bs) => 1 + HeightAll(bs)
  }

  function HeightAll(bs: seq<Block>): (h: nat)
    ensures forall b :: b in bs ==> Height(b) <= h
  {
    if bs == [] then 0
    else
      var n := |bs| - 1;
      assert forall b :: b in bs ==> b in bs[..n] || b == bs[n];
      if Height(bs[n]) > HeightAll(bs[..n]) then Height(bs[n]) else HeightAll(bs[..n])
  }

  /**
    The locations of the current layer, in the order of the bucket list, after a block has been
    walked. A block in the mode of the layer adds to it directly; another one forks and merges.
   */
  function Order(b: Block, parallel: bool, order: seq<Location>): seq<Location> {
    match b
    case Write(u) => Enter(order, u.loc)
    case Par(bs) =>
      if parallel then OrderAll(bs, true, order) else EnterAll(order, Reverse(OrderAll(bs, true, [])))
    case Seq(bs) =>
      if parallel then EnterAll(order, Reverse(OrderAll(bs, false, []))) else OrderAll(bs, false, order)
  }

  function OrderAll(bs: seq<Block>, parallel: bool, order: seq<Location>): seq<Location> {
    if bs == [] then order
    else Order(bs[|bs| - 1], parallel, OrderAll(bs[..|bs| - 1], parallel, order))
  }

  /** The order in which the updates of a rule are committed that is walked at base layer 0 or 1. */
  function CommitOrder(b: Block, base: nat): seq<Location> {
    Reverse(Order(b, base == 0, []))
  }

  // ---- What a block does to the layers ----

  /** The update set that a block denotes. */
  function Meaning(b: Block): Outcome {
    match b
    case Write(u) => Ok(map[u.loc := u.value])
    case Par(bs) => JoinAll(Meanings(bs))
    case Seq(bs) => InTurn(bs)
  }

  function Meanings(bs: seq<Block>): (rs: seq<Outcome>)
    ensures |rs| == |bs| && forall i :: 0 <= i < |bs| ==> rs[i] == Meaning(bs[i])
  {
    seq(|bs|, i requires 0 <= i < |bs| => Meaning(bs[i]))
  }

  function InTurn(bs: seq<Block>): Outcome {
    if bs == [] then Ok(map[])
    else
      var r := InTurn(bs[..|bs| - 1]);
      if r.Ok? then Override(r.updates, Meaning(bs[|bs| - 1])) else r
  }

  /** The layers after a walk, unless there is a conflict. */
  ghost function Layered(b: Block, layers: seq<Updates>): (r: Option<seq<Updates>>)
    requires layers != []
    ensures r.Some? ==> |r.value| == |layers|
    decreases b, 1
  {
    match b
    case Write(u) =>
      if Parallel(layers) && u.loc in Top(layers) then None
      else Some(WithTop(layers, Top(layers)[u.loc := u.value]))
    case Par(bs) => if Parallel(layers) then LayeredAll(bs, layers) else LayeredForked(bs, layers)
    case Seq(bs) => if Parallel(layers) then LayeredForked(bs, layers) else LayeredAll(bs, layers)
  }

  ghost function LayeredForked(bs: seq<Block>, layers: seq<Updates>): (r: Option<seq<Updates>>)
    requires layers != []
    ensures r.Some? ==> |r.value| == |layers|
    decreases bs, 1
  {
    var inner := LayeredAll(bs, layers + [map[]]);
    if inner.None? then None else Merged(inner.value)
  }

  /** A merge, which conflicts when the top layer is sequential and overlaps the one below. */
  ghost function Merged(layers: seq<Updates>): (r: Option<seq<Updates>>)
    requires |layers| >= 2
    ensures r.Some? ==> |r.value| == |layers| - 1
  {
    if !Parallel(layers) && TopOverlaps(layers) then None else Some(MergeTop(layers))
  }

  ghost function LayeredAll(bs: seq<Block>, layers: seq<Updates>): (r: Option<seq<Updates>>)
    requires layers != []
    ensures r.Some? ==> |r.value| == |layers|
    decreases bs, 0
  {
    if bs == [] then Some(layers)
    else
      var r := LayeredAll(bs[..|bs| - 1], layers);
      if r.None? then None else Layered(bs[|bs| - 1], r.value)
  }

  /** The current layer with an outcome entered into it by its mode. */
  ghost function Entered(layers: seq<Updates>, r: Outcome): Option<seq<Updates>>
    requires layers != []
  {
    var e := Refinement.Enter(layers, r);
    if e.Ok? then Some(WithTop(layers, e.updates)) else None
  }

  lemma {:induction false} NeverAborts(b: Block)
    ensures !Meaning(b).Abort?
    decreases b, 1
  {
    match b
    case Write(_) =>
    case Par(bs) =>
      forall i | 0 <= i < |bs| ensures !Meanings(bs)[i].Abort? { NeverAborts(bs[i]); }
      Laws.NoAbortDecides(Meanings(bs));
    case Seq(bs) => NeverAbortsInTurn(bs);
  }

  lemma {:induction false} NeverAbortsInTurn(bs: seq<Block>)
    ensures !InTurn(bs).Abort?
    decreases bs, 0
  {
    if bs != [] {
      NeverAbortsInTurn(bs[..|bs| - 1]);
      NeverAborts(bs[|bs| - 1]);
    }
  }

  /** A walk enters what its block denotes, forked or not, and conflicts exactly when that does not fit. */
  lemma {:induction false} LayeredMeans(b: Block, layers: seq<Updates>)
    requires layers != []
    ensures Layered(b, layers) == Entered(layers, Meaning(b))
    decreases b, 2
  {
    match b
    case Write(u) => assert Top(layers) + map[u.loc := u.value] == Top(layers)[u.loc := u.value];
    case Par(bs) =>
      if Parallel(layers) {
        JoinedMeans(bs, layers);
      } else {
        NeverAborts(b);
        JoinedMeans(bs, layers + [map[]]);
        ForkedMeans(layers, JoinAll(Meanings(bs)), LayeredAll(bs, layers + [map[]]));
      }
    case Seq(bs) =>
      if Parallel(layers) {
        NeverAborts(b);
        InTurnMeans(bs, layers + [map[]]);
        ForkedMeans(layers, InTurn(bs), LayeredAll(bs, layers + [map[]]));
      } else {
        InTurnMeans(bs, layers);
      }
  }

  /** Entering an outcome into a new layer and merging that one is entering the outcome. */
  lemma ForkedMeans(layers: seq<Updates>, r: Outcome, inner: Option<seq<Updates>>)
    requires layers != [] && !r.Abort? && inner == Entered(layers + [map[]], r)
    ensures inner.Some? ==> |inner.value| == |layers| + 1
    ensures Entered(layers, r) == if inner.None? then None else Merged(inner.value)
  {
    var forked: seq<Updates> := layers + [map[]];
    JoinNothing(r);
    if r.Ok? {
      assert map[] + r.updates == r.updates;
      assert WithTop(forked, r.updates) == layers + [r.updates];
      assert MergeTop(layers + [r.updates]) == WithTop(layers, Top(layers) + r.updates);
    }
  }

  lemma EnteredTwice(layers: seq<Updates>, u: Updates, r: Outcome)
    requires layers != []
    ensures var e := if Parallel(layers) then Join(u, r) else Override(u, r);
      Entered(WithTop(layers, u), r) == if e.Ok? then Some(WithTop(layers, e.updates)) else None
  {
    forall v: Updates ensures WithTop(WithTop(layers, u), v) == WithTop(layers, v) {
    }
  }

  lemma {:induction false} JoinedMeans(bs: seq<Block>, layers: seq<Updates>)
    requires layers != [] && Parallel(layers)
    ensures LayeredAll(bs, layers) == Entered(layers, JoinAll(Meanings(bs)))
    decreases bs, 1
  {
    if bs == [] {
      assert Top(layers) + map[] == Top(layers);
      assert WithTop(layers, Top(layers)) == layers;
    } else {
      var n := |bs| - 1;
      JoinedMeans(bs[..n], layers);
      assert Meanings(bs)[..n] == Meanings(bs[..n]);
      var r := JoinAll(Meanings(bs[..n]));
      NeverAborts(Par(bs[..n]));
      if r.Ok? {
        JoinAssociative(Top(layers), r.updates, Meaning(bs[n]));
        if Avoids(Top(layers), r.updates.Keys) {
          LayeredMeans(bs[n], WithTop(layers, Top(layers) + r.updates));
          EnteredTwice(layers, Top(layers) + r.updates, Meaning(bs[n]));
        }
      }
    }
  }

  lemma {:induction false} InTurnMeans(bs: seq<Block>, layers: seq<Updates>)
    requires layers != [] && !Parallel(layers)
    ensures LayeredAll(bs, layers) == Entered(layers, InTurn(bs))
    decreases bs, 1
  {
    if bs == [] {
      assert Top(layers) + map[] == Top(layers);
      assert WithTop(layers, Top(layers)) == layers;
    } else {
      var n := |bs| - 1;
      InTurnMeans(bs[..n], layers);
      var r := InTurn(bs[..n]);
      if r.Ok? {
        OverrideAssociative(Top(layers), r.updates, Meaning(bs[n]));
        LayeredMeans(bs[n], WithTop(layers, Top(layers) + r.updates));
        EnteredTwice(layers, Top(layers) + r.updates, Meaning(bs[n]));
      }
    }
  }

  // ---- Locations and their cells ----

  /** The locations of some cells, in order. */
  ghost predicate Located(ls: seq<Location>, xs: seq<nat>, a: Addresses) {
    |ls| == |xs| && forall i :: 0 <= i < |ls| ==> ls[i] in a && a[ls[i]] == xs[i]
  }

  lemma LocatedEnter(ls: seq<Location>, xs: seq<nat>, l: Location, a: Addresses)
    requires Located(ls, xs, a) && Injective(a) && l in a
    ensures Located(Enter(ls, l), Enter(xs, a[l]), a)
  {
    if a[l] in xs {
      var i :| 0 <= i < |xs| && xs[i] == a[l];
      SameCell(a, ls[i], l);
    }
    if l in ls {
      var i :| 0 <= i < |ls| && ls[i] == l;
      assert xs[i] == a[l];
    }
  }

  lemma {:induction false} LocatedEnterAll(ls: seq<Location>, xs: seq<nat>, ks: seq<Location>, ys: seq<nat>,
                                           a: Addresses)
    requires Located(ls, xs, a) && Located(ks, ys, a) && Injective(a)
    ensures Located(EnterAll(ls, ks), EnterAll(xs, ys), a)
  {
    if ks != [] {
      var n := |ks| - 1;
      LocatedEnterAll(ls, xs, ks[..n], ys[..n], a);
      LocatedEnter(EnterAll(ls, ks[..n]), EnterAll(xs, ys[..n]), ks[n], a);
    }
  }

  lemma LocatedReverse(ls: seq<Location>, xs: seq<nat>, a: Addresses)
    requires Located(ls, xs, a)
    ensures Located(Reverse(ls), Reverse(xs), a)
  {
    forall i | 0 <= i < |ls| ensures Reverse(ls)[i] in a && a[Reverse(ls)[i]] == Reverse(xs)[i] {
      ReverseAt(ls, i);
      ReverseAt(xs, i);
    }
  }

  lemma LocatedExtends(ls: seq<Location>, xs: seq<nat>, a: Addresses, a': Addresses)
    requires Located(ls, xs, a) && Extends(a, a')
    ensures Located(ls, xs, a')
  {
  }

  // ---- Walking blocks ----

  /** No entry is above the current layer. */
  lemma NothingAbove(bs: seq<Bucket>, m: map<Key, Update>, p: nat)
    requires Represents(bs, m) && AtMost(m, p)
    ensures AddressesIn(bs, p + 1) == []
  {
    AddressesNone(bs, 0, |bs|, p + 1);
  }

  /** The layers below layer p have kept their entries, and locations their cells. */
  ghost predicate KeptBelow(bs: seq<Bucket>, bs': seq<Bucket>, a: Addresses, a': Addresses, p: nat) {
    Extends(a, a') && forall n: nat :: n < p ==> AddressesIn(bs', n) == AddressesIn(bs, n)
  }

  lemma KeptTwice(bs: seq<Bucket>, bs': seq<Bucket>, bs'': seq<Bucket>,
                  a: Addresses, a': Addresses, a'': Addresses, p: nat)
    requires KeptBelow(bs, bs', a, a', p) && KeptBelow(bs', bs'', a', a'', p)
    ensures KeptBelow(bs, bs'', a, a'', p)
  {
  }

  /** The order of the entries of the current layer. */
  ghost predicate HasOrder(context: ExecutionContext, order: seq<Location>)
    reads context, context.updateset
  {
    Located(order, AddressesIn(context.updateset.buckets, context.pseudostate), context.addresses)
  }

  /** Makes one update. */
  method WalkWrite(context: ExecutionContext, u: Update, ghost order: seq<Location>) returns (conflict: bool)
    requires context.Valid() && HasOrder(context, order)
    modifies context, context.updateset
    ensures context.pseudostate == old(context.pseudostate)
    ensures Layered(Write(u), old(context.Layers())) == if conflict then None else Some(context.Layers())
    ensures !conflict ==> context.Valid() && HasOrder(context, Enter(order, u.loc))
    ensures KeptBelow(old(context.updateset.buckets), context.updateset.buckets,
                      old(context.addresses), context.addresses, context.pseudostate)
  {
    ghost var xs, a := AddressesIn(context.updateset.buckets, context.pseudostate), context.addresses;
    conflict := context.AddUpdate(u.loc, u.value);
    LocatedExtends(order, xs, a, context.addresses);
    LocatedEnter(order, xs, u.loc, context.addresses);
  }

  method ForkLayer(context: ExecutionContext)
    requires context.Valid() && context.pseudostate + 1 < LAYER_RANGE
    modifies context`pseudostate
    ensures context.Valid() && context.pseudostate == old(context.pseudostate) + 1 && HasOrder(context, [])
    ensures context.Layers() == old(context.Layers()) + [map[]]
  {
    NothingAbove(context.updateset.buckets, context.updateset.contents, context.pseudostate);
    context.Fork();
  }

  /** A merge enters the locations of the layer above into the order of the layer below, last to first. */
  lemma MergedLocations(bs0: seq<Bucket>, bs: seq<Bucket>, a: Addresses, p: nat,
                        order: seq<Location>, inner: seq<Location>)
    requires MergedOrder(bs0, bs, p) && Injective(a)
    requires Located(order, AddressesIn(bs0, p), a) && Located(inner, AddressesIn(bs0, p + 1), a)
    ensures Located(EnterAll(order, Reverse(inner)), AddressesIn(bs, p), a)
  {
    LocatedReverse(inner, AddressesIn(bs0, p + 1), a);
    LocatedEnterAll(order, AddressesIn(bs0, p), Reverse(inner), Reverse(AddressesIn(bs0, p + 1)), a);
  }

  /** Leaves a layer that a block has forked. */
  method MergeLayer(context: ExecutionContext, ghost order: seq<Location>, ghost inner: seq<Location>)
    returns (conflict: bool)
    requires context.Valid() && context.pseudostate >= 1 && HasOrder(context, inner)
    requires Located(order, AddressesIn(context.updateset.buckets, context.pseudostate - 1), context.addresses)
    modifies context`pseudostate, context.updateset
    ensures Merged(old(context.Layers())) == if conflict then None else Some(context.Layers())
    ensures !conflict ==> context.Valid() && context.pseudostate == old(context.pseudostate) - 1
    ensures !conflict ==> HasOrder(context, EnterAll(order, Reverse(inner)))
    ensures !conflict ==> KeptBelow(old(context.updateset.buckets), context.updateset.buckets,
                                    old(context.addresses), context.addresses, context.pseudostate)
  {
    ghost var bs := context.updateset.buckets;
    if context.pseudostate % 2 == 0 {
      conflict := false;
      context.MergePar();
    } else {
      conflict := context.MergeSeq();
    }
    if !conflict {
      MergedLocations(bs, context.updateset.buckets, context.addresses, context.pseudostate, order, inner);
    }
  }

  /** Walks a block; without a conflict, its locations are in the bucket list in the order of the block. */
  method Walk(context: ExecutionContext, b: Block, ghost order: seq<Location>) returns (conflict: bool)
    requires context.Valid() && HasOrder(context, order) && context.pseudostate + Height(b) < LAYER_RANGE
    modifies context, context.updateset
    ensures Layered(b, old(context.Layers())) == if conflict then None else Some(context.Layers())
    ensures !conflict ==> context.Valid() && context.pseudostate == old(context.pseudostate)
    ensures !conflict ==> HasOrder(context, Order(b, old(context.pseudostate) % 2 == 0, order))
    ensures !conflict ==> KeptBelow(old(context.updateset.buckets), context.updateset.buckets,
                                    old(context.addresses), context.addresses, context.pseudostate)
    decreases b, 1
  {
    match b
    case Write(u) => conflict := WalkWrite(context, u, order);
    case Par(bs) =>
      if context.pseudostate % 2 == 0 {
        conflict := WalkAll(context, bs, order);
      } else {
        conflict := WalkForked(context, bs, order);
      }
    case Seq(bs) =>
      if context.pseudostate % 2 == 1 {
        conflict := WalkAll(context, bs, order);
      } else {
        conflict := WalkForked(context, bs, order);
      }
  }

  /** Walks the statements of a block in a layer of their own. */
  method WalkForked(context: ExecutionContext, bs: seq<Block>, ghost order: seq<Location>) returns (conflict: bool)
    requires context.Valid() && HasOrder(context, order) && context.pseudostate + 1 + HeightAll(bs) < LAYER_RANGE
    modifies context, context.updateset
    ensures LayeredForked(bs, old(context.Layers())) == if conflict then None else Some(context.Layers())
    ensures !conflict ==> context.Valid() && context.pseudostate == old(context.pseudostate)
    ensures !conflict ==>
      HasOrder(context, EnterAll(order, Reverse(OrderAll(bs, old(context.pseudostate) % 2 == 1, []))))
    ensures !conflict ==> KeptBelow(old(context.updateset.buckets), context.updateset.buckets,
                                    old(context.addresses), context.addresses, context.pseudostate)
    decreases bs, 1
  {
    ghost var bs0, a0, p := context.updateset.buckets, context.addresses, context.pseudostate;
    ForkLayer(context);
    conflict := WalkAll(context, bs, []);
    if conflict { return; }
    ghost var bs1, a1 := context.updateset.buckets, context.addresses;
    LocatedExtends(order, AddressesIn(bs0, p), a0, a1);
    conflict := MergeLayer(context, order, OrderAll(bs, p % 2 == 1, []));
    if !conflict {
      KeptTwice(bs0, bs1, context.updateset.buckets, a0, a1, context.addresses, p);
    }
  }

  lemma {:induction false} LayeredPrefix(bs: seq<Block>, n: nat, layers: seq<Updates>)
    requires layers != [] && n <= |bs| && LayeredAll(bs[..n], layers).None?
    ensures LayeredAll(bs, layers).None?
    decreases |bs|
  {
    if n == |bs| {
      assert bs[..n] == bs;
    } else {
      assert bs[..|bs| - 1][..n] == bs[..n];
      LayeredPrefix(bs[..|bs| - 1], n, layers);
    }
  }

  /** Walks the statements of a block in the current layer. */
  method WalkAll(context: ExecutionContext, bs: seq<Block>, ghost order: seq<Location>) returns (conflict: bool)
    requires context.Valid() && HasOrder(context, order) && context.pseudostate + HeightAll(bs) < LAYER_RANGE
    modifies context, context.updateset
    ensures LayeredAll(bs, old(context.Layers())) == if conflict then None else Some(context.Layers())
    ensures !conflict ==> context.Valid() && context.pseudostate == old(context.pseudostate)
    ensures !conflict ==> HasOrder(context, OrderAll(bs, old(context.pseudostate) % 2 == 0, order))
    ensures !conflict ==> KeptBelow(old(context.updateset.buckets), context.updateset.buckets,
                                    old(context.addresses), context.addresses, context.pseudostate)
    decreases bs, 0
  {
    ghost var bs0, a0, p := context.updateset.buckets, context.addresses, context.pseudostate;
    conflict := false;
    assert bs[..0] == [];
    for i := 0 to |bs|
      invariant !conflict && context.Valid() && context.pseudostate == p
      invariant LayeredAll(bs[..i], old(context.Layers())) == Some(context.Layers())
      invariant HasOrder(context, OrderAll(bs[..i], p % 2 == 0, order))
      invariant KeptBelow(bs0, context.updateset.buckets, a0, context.addresses, p)
    {
      ghost var bs1, a1 := context.updateset.buckets, context.addresses;
      assert bs[..i + 1][..i] == bs[..i] && bs[i] in bs;
      conflict := Walk(context, bs[i], OrderAll(bs[..i], p % 2 == 0, order));
      if conflict {
        LayeredPrefix(bs, i + 1, old(context.Layers()));
        return;
      }
      KeptTwice(bs0, bs1, context.updateset.buckets, a0, a1, context.addresses, p);
    }
    assert bs[..|bs|] == bs;
  }

  // ---- Committing ----

  lemma {:induction false} AddressesAll(bs: seq<Bucket>, j: nat, n: nat)
    requires j <= |bs| && forall t :: 0 <= t < j ==> bs[t].key.layer == n
    ensures |AddressesBetween(bs, 0, j, n)| == j
    ensures forall t :: 0 <= t < j ==> AddressesBetween(bs, 0, j, n)[t] == bs[t].key.address
  {
    if j > 0 { AddressesAll(bs, j - 1, n); }
  }

  /** An entry of a layer is listed there. */
  lemma EntryListed(bs: seq<Bucket>, t: nat)
    requires t < |bs|
    ensures AddressesIn(bs, bs[t].key.layer) != []
  {
    assert HasKey(bs, bs[t].key);
    Listed(bs, bs[t].key);
  }

  lemma EntryPending(context: ExecutionContext, t: nat)
    requires context.Valid() && t < |context.updateset.buckets|
    ensures var b := context.updateset.buckets[t];
      b.key.layer <= context.pseudostate && b.update.loc in context.Layers()[b.key.layer]
  {
    var b := context.updateset.buckets[t];
    assert Placed(context.updateset.contents, context.addresses, b.key);
    assert At(context.updateset.contents, b.key.layer, context.addresses[b.update.loc]) == Some(b.update);
  }

  /** When nothing is pending in any layer, no entry is in the bucket list. */
  lemma NothingPending(context: ExecutionContext)
    requires context.Valid() && AllEmpty(context.Layers())
    ensures context.updateset.buckets == []
  {
    if context.updateset.buckets != [] {
      EntryPending(context, 0);
      assert false;
    }
  }

  /** The locations of the list, from its tail to its head, are those of its one layer, last to first. */
  lemma TailToHead(bs: seq<Bucket>, m: map<Key, Update>, a: Addresses, p: nat, order: seq<Location>, i: nat)
    requires Represents(bs, m) && WellPlaced(m, a) && Injective(a) && Located(order, AddressesIn(bs, p), a)
    requires i < |bs| && forall t :: 0 <= t < |bs| ==> bs[t].key.layer == p
    ensures |Reverse(order)| == |bs| && Reverse(order)[i] == bs[|bs| - 1 - i].update.loc
  {
    var t := |bs| - 1 - i;
    AddressesAll(bs, |bs|, p);
    ReverseAt(order, i);
    assert Placed(m, a, bs[t].key);
    SameCell(a, order[t], bs[t].update.loc);
  }

  /** The order in which apply_updates visits the updates, from the tail of the bucket list to its head. */
  method Visited(context: ExecutionContext, ghost order: seq<Location>) returns (locs: seq<Location>)
    requires context.Valid() && HasOrder(context, order)
    requires forall n: nat :: n < context.pseudostate ==> AddressesIn(context.updateset.buckets, n) == []
    ensures locs == Reverse(order)
  {
    ghost var bs, m, p := context.updateset.buckets, context.updateset.contents, context.pseudostate;
    forall t: nat | t < |bs| ensures bs[t].key.layer == p {
      EntryListed(bs, t);
      assert bs[t].key in m;
    }
    AddressesAll(bs, |bs|, p);
    locs := [];
    var i: nat := |context.updateset.buckets|;
    while i > 0
      invariant i <= |bs| && |locs| == |bs| - i
      invariant forall k :: 0 <= k < |locs| ==> locs[k] == bs[|bs| - 1 - k].update.loc
    {
      i := i - 1;
      locs := locs + [context.updateset.buckets[i].update.loc];
    }
    forall k: nat | k < |bs| ensures Reverse(order)[k] == locs[k] {
      TailToHead(bs, m, context.addresses, p, order, k);
    }
  }

  lemma EnteredNothing(layers: seq<Updates>, r: Outcome)
    requires layers != [] && AllEmpty(layers) && !r.Abort?
    ensures Entered(layers, r).None? <==> r.Clash?
    ensures r.Ok? ==> Top(Entered(layers, r).value) == r.updates
  {
    if r.Ok? { assert map[] + r.updates == r.updates; }
  }

  /** The updates that a rule makes in its base layer are committed in the commit order of its blocks. */
  method WalkAndVisit(context: ExecutionContext, b: Block) returns (conflict: bool, locs: seq<Location>)
    requires context.Valid() && AllEmpty(context.Layers()) && context.pseudostate <= 1
    requires context.pseudostate + Height(b) < LAYER_RANGE
    modifies context, context.updateset
    ensures conflict <==> Meaning(b).Clash?
    ensures !conflict ==> Meaning(b).Ok? && Top(context.Layers()) == Meaning(b).updates
    ensures !conflict ==> locs == CommitOrder(b, old(context.pseudostate))
  {
    NothingPending(context);
    LayeredMeans(b, context.Layers());
    NeverAborts(b);
    EnteredNothing(context.Layers(), Meaning(b));
    locs := [];
    conflict := Walk(context, b, []);
    if !conflict {
      locs := Visited(context, Order(b, context.pseudostate == 0, []));
    }
  }

  // ---- Flat blocks ----

  function Writes(us: seq<Update>): (bs: seq<Block>)
    ensures |bs| == |us| && forall i :: 0 <= i < |us| ==> bs[i] == Write(us[i])
  {
    seq(|us|, i requires 0 <= i < |us| => Write(us[i]))
  }

  function LocationsOf(us: seq<Update>): (ls: seq<Location>)
    ensures |ls| == |us| && forall i :: 0 <= i < |us| ==> ls[i] == us[i].loc
  {
    seq(|us|, i requires 0 <= i < |us| => us[i].loc)
  }

  lemma {:induction false} WritesOrder(us: seq<Update>, parallel: bool, order: seq<Location>)
    ensures OrderAll(Writes(us), parallel, order) == EnterAll(order, LocationsOf(us))
  {
    if us != [] {
      var n := |us| - 1;
      assert Writes(us)[..n] == Writes(us[..n]) && LocationsOf(us)[..n] == LocationsOf(us[..n]);
      WritesOrder(us[..n], parallel, order);
    }
  }

  lemma ReverseDistinct<T>(s: seq<T>)
    requires Distinct(s)
    ensures Distinct(Reverse(s))
  {
    forall i, j | 0 <= i < j < |s| ensures Reverse(s)[i] != Reverse(s)[j] {
      ReverseAt(s, i);
      ReverseAt(s, j);
    }
  }

  /**
    A block of updates of different locations: they are committed as they were made if the block is
    in the other mode than the base layer, and forks, and in the reversed order if it does not.
   */
  lemma FlatOrder(us: seq<Update>, base: nat)
    requires base <= 1 && Distinct(LocationsOf(us))
    ensures CommitOrder(Par(Writes(us)), base) == if base == 0 then Reverse(LocationsOf(us)) else LocationsOf(us)
    ensures CommitOrder(Seq(Writes(us)), base) == if base == 0 then LocationsOf(us) else Reverse(LocationsOf(us))
  {
    var ls := LocationsOf(us);
    WritesOrder(us, true, []);
    WritesOrder(us, false, []);
    assert [] + ls == ls && [] + Reverse(ls) == Reverse(ls);
    EnterNew([], ls);
    ReverseDistinct(ls);
    EnterNew([], Reverse(ls));
    ReverseTwice(ls);
  }

  /** In parallel such a block has no conflict exactly when the locations are different. */
  lemma FlatMeaning(us: seq<Update>)
    ensures Meaning(Par(Writes(us))).Ok? <==> Distinct(LocationsOf(us))
  {
    var rs := Meanings(Writes(us));
    Laws.JoinAllMeaning(rs);
    if Distinct(LocationsOf(us)) {
      forall i, j | 0 <= i < j < |rs| ensures Disjoint(rs[i].updates, rs[j].updates) {
        assert LocationsOf(us)[i] != LocationsOf(us)[j];
      }
    } else {
      var i, j :| 0 <= i < j < |us| && LocationsOf(us)[i] == LocationsOf(us)[j];
      assert us[i].loc in rs[i].updates && us[i].loc in rs[j].updates;
      assert !Disjoint(rs[i].updates, rs[j].updates);
    }
  }
}
