/**
  The order of the entries of one layer in the bucket list. Updates are committed along this order,
  from the tail of the list to its head.
 */
module BucketOrder {
  import opened Sequences
  import opened UpdateSet

  /** The addresses of the entries of a layer, from position i of the list up to position j. */
  ghost function AddressesBetween(bs: seq<Bucket>, i: nat, j: nat, n: nat): seq<nat>
    requires j <= |bs|
    decreases j
  {
    if j <= i then []
    else AddressesBetween(bs, i, j - 1, n) + if bs[j - 1].key.layer == n then [bs[j - 1].key.address] else []
  }

  /** The addresses of the entries of a layer, from the head of the list to its tail. */
  ghost function AddressesIn(bs: seq<Bucket>, n: nat): seq<nat> {
    AddressesBetween(bs, 0, |bs|, n)
  }

  lemma {:induction false} AddressesSplit(bs: seq<Bucket>, i: nat, j: nat, k: nat, n: nat)
    requires i <= j <= k <= |bs|
    ensures AddressesBetween(bs, i, k, n) == AddressesBetween(bs, i, j, n) + AddressesBetween(bs, j, k, n)
    decreases k
  {
    if j < k { AddressesSplit(bs, i, j, k - 1, n); }
  }

  /** The same keys, d positions further back. */
  lemma {:induction false} AddressesShift(bs: seq<Bucket>, cs: seq<Bucket>, i: nat, j: nat, d: nat, n: nat)
    requires j <= |bs| && j + d <= |cs| && forall t :: i <= t < j ==> cs[t + d].key == bs[t].key
    ensures AddressesBetween(cs, i + d, j + d, n) == AddressesBetween(bs, i, j, n)
    decreases j
  {
    if i < j { AddressesShift(bs, cs, i, j - 1, d, n); }
  }

  lemma AddressesSame(bs: seq<Bucket>, cs: seq<Bucket>, n: nat)
    requires SameKeys(bs, cs)
    ensures AddressesIn(bs, n) == AddressesIn(cs, n)
  {
    AddressesShift(bs, cs, 0, |bs|, 0, n);
  }

  lemma {:induction false} AddressesNone(bs: seq<Bucket>, i: nat, j: nat, n: nat)
    requires j <= |bs| && forall t :: i <= t < j ==> bs[t].key.layer != n
    ensures AddressesBetween(bs, i, j, n) == []
    decreases j
  {
    if i < j { AddressesNone(bs, i, j - 1, n); }
  }

  lemma {:induction false} AddressListed(bs: seq<Bucket>, j: nat, x: nat, n: nat)
    requires j <= |bs|
    ensures x in AddressesBetween(bs, 0, j, n) <==> exists t :: 0 <= t < j && bs[t].key == Key(x, n)
  {
    if j > 0 { AddressListed(bs, j - 1, x, n); }
  }

  // ---- Adding an entry ----

  /** An entry for an address of layer p: it keeps its place if there is one already, and comes last otherwise. */
  ghost predicate EntersTop(bs: seq<Bucket>, bs': seq<Bucket>, p: nat, x: nat) {
    && AddressesIn(bs', p) == Enter(AddressesIn(bs, p), x)
    && forall n: nat :: n != p ==> AddressesIn(bs', n) == AddressesIn(bs, n)
  }

  /** A new entry comes last in its layer. */
  lemma AddressesAppend(bs: seq<Bucket>, bs': seq<Bucket>, key: Key, n: nat)
    requires |bs'| == |bs| + 1 && bs'[|bs|].key == key && forall t :: 0 <= t < |bs| ==> bs'[t].key == bs[t].key
    ensures AddressesIn(bs', n) == AddressesIn(bs, n) + if key.layer == n then [key.address] else []
  {
    AddressesShift(bs, bs', 0, |bs|, 0, n);
  }

  lemma EntryEnters(bs: seq<Bucket>, bs': seq<Bucket>, b: Bucket)
    requires if HasKey(bs, b.key) then SameKeys(bs', bs) else bs' == bs + [b]
    ensures EntersTop(bs, bs', b.key.layer, b.key.address)
  {
    AddressListed(bs, |bs|, b.key.address, b.key.layer);
    if HasKey(bs, b.key) {
      forall n: nat ensures AddressesIn(bs', n) == AddressesIn(bs, n) {
        AddressesSame(bs', bs, n);
      }
    } else {
      forall n: nat
        ensures AddressesIn(bs', n) == AddressesIn(bs, n) + if b.key.layer == n then [b.key.address] else []
      {
        AddressesAppend(bs, bs', b.key, n);
      }
    }
  }

  // ---- Merging two layers ----

  /** A merge moves the entries of the layer above, from the last to the first, behind those of the layer. */
  ghost predicate MergedOrder(bs0: seq<Bucket>, bs: seq<Bucket>, p: nat) {
    && AddressesIn(bs, p) == EnterAll(AddressesIn(bs0, p), Reverse(AddressesIn(bs0, p + 1)))
    && forall n: nat :: n < p ==> AddressesIn(bs, n) == AddressesIn(bs0, n)
  }

  /** The key at position t was one position further back. */
  ghost predicate Shifted(bs: seq<Bucket>, bs': seq<Bucket>, t: nat) {
    t < |bs'| && t + 1 < |bs| && bs'[t].key == bs[t + 1].key
  }

  /** The bucket at position i moves to the tail with a lower key, unless that key is there already. */
  ghost predicate MovesDown(bs: seq<Bucket>, bs': seq<Bucket>, i: nat, key: Key)
    requires i < |bs|
  {
    && (|bs'| == if HasKey(bs, key) then |bs| - 1 else |bs|)
    && (forall t :: 0 <= t < i ==> bs'[t].key == bs[t].key)
    && (forall t: nat {:trigger Shifted(bs, bs', t)} :: i <= t < |bs| - 1 ==> Shifted(bs, bs', t))
    && (!HasKey(bs, key) ==> bs'[|bs| - 1].key == key)
  }

  /** The order that a merge of the layers p and p + 1 leads to. */
  ghost predicate OrderOf(bs: seq<Bucket>, p: nat, order: seq<nat>) {
    order == EnterAll(AddressesIn(bs, p), Reverse(AddressesIn(bs, p + 1)))
  }

  /** Merging goes on to the same order from either list. */
  ghost predicate SameOrder(bs0: seq<Bucket>, bs: seq<Bucket>, p: nat) {
    forall order {:trigger OrderOf(bs0, p, order)} {:trigger OrderOf(bs, p, order)} ::
      OrderOf(bs0, p, order) <==> OrderOf(bs, p, order)
  }

  lemma OrderKept(bs0: seq<Bucket>, bs: seq<Bucket>, bs': seq<Bucket>, p: nat)
    requires SameOrder(bs0, bs, p) && SameOrder(bs, bs', p)
    ensures SameOrder(bs0, bs', p)
  {
  }

  /** Without the bucket at position i, which is in another layer, up to position k. */
  lemma {:induction false} AddressesLeft(bs: seq<Bucket>, bs': seq<Bucket>, i: nat, key: Key, k: nat, n: nat)
    requires i < |bs| && bs[i].key.layer != n && MovesDown(bs, bs', i, key) && i <= k < |bs|
    ensures AddressesBetween(bs', 0, k, n) == AddressesBetween(bs, 0, k + 1, n)
    decreases k
  {
    if k == i {
      AddressesShift(bs, bs', 0, i, 0, n);
    } else {
      AddressesLeft(bs, bs', i, key, k - 1, n);
      assert Shifted(bs, bs', k - 1);
    }
  }

  lemma Listed(bs: seq<Bucket>, key: Key)
    ensures key.address in AddressesIn(bs, key.layer) <==> HasKey(bs, key)
  {
    AddressListed(bs, |bs|, key.address, key.layer);
  }

  lemma AddressesMoved(bs: seq<Bucket>, bs': seq<Bucket>, i: nat, key: Key)
    requires i < |bs| && bs[i].key.layer != key.layer && MovesDown(bs, bs', i, key)
    ensures AddressesIn(bs', key.layer) == Enter(AddressesIn(bs, key.layer), key.address)
  {
    AddressesLeft(bs, bs', i, key, |bs| - 1, key.layer);
    Listed(bs, key);
  }

  lemma {:induction false} EnterSplit<T>(order: seq<T>, x: T, xs: seq<T>)
    ensures EnterAll(order, [x] + xs) == EnterAll(Enter(order, x), xs)
  {
    if xs == [] {
      assert [x] + xs == [x] && [x][..0] == [];
    } else {
      var n := |xs| - 1;
      assert ([x] + xs)[..|xs|] == [x] + xs[..n];
      EnterSplit(order, x, xs[..n]);
    }
  }

  /** One round of a merge, which moves the last entry of the layer above. */
  lemma MergingStep(bs: seq<Bucket>, bs': seq<Bucket>, p: nat, i: nat)
    requires i < |bs| && bs[i].key.layer == p + 1 && forall t :: i < t < |bs| ==> bs[t].key.layer == p
    requires MovesDown(bs, bs', i, Key(bs[i].key.address, p))
    ensures SameOrder(bs, bs', p)
  {
    var x := bs[i].key.address;
    AddressesMoved(bs, bs', i, Key(x, p));
    LastMoved(bs, bs', p, i);
    ReverseAppend(AddressesIn(bs', p + 1), x);
    EnterSplit(AddressesIn(bs, p), x, Reverse(AddressesIn(bs', p + 1)));
  }

  lemma LastMoved(bs: seq<Bucket>, bs': seq<Bucket>, p: nat, i: nat)
    requires i < |bs| && bs[i].key.layer == p + 1 && forall t :: i < t < |bs| ==> bs[t].key.layer == p
    requires MovesDown(bs, bs', i, Key(bs[i].key.address, p))
    ensures AddressesIn(bs, p + 1) == AddressesIn(bs', p + 1) + [bs[i].key.address]
  {
    AddressesSplit(bs, 0, i + 1, |bs|, p + 1);
    AddressesNone(bs, i + 1, |bs|, p + 1);
    AddressesSplit(bs', 0, i, |bs'|, p + 1);
    forall t | i <= t < |bs'| ensures bs'[t].key.layer == p {
      if t < |bs| - 1 { assert Shifted(bs, bs', t); }
    }
    AddressesNone(bs', i, |bs'|, p + 1);
    AddressesShift(bs, bs', 0, i, 0, p + 1);
  }

  /** At the first entry that is not above layer p, all entries above it have been moved. */
  lemma MergingEnds(bs0: seq<Bucket>, bs: seq<Bucket>, p: nat, j: nat)
    requires SameOrder(bs0, bs, p) && j <= |bs| && j <= |bs0|
    requires forall t :: 0 <= t < j ==> bs[t].key == bs0[t].key && bs[t].key.layer <= p
    requires forall t :: j <= t < |bs| ==> bs[t].key.layer == p
    requires forall t :: j <= t < |bs0| ==> bs0[t].key.layer == p + 1
    ensures MergedOrder(bs0, bs, p)
  {
    AddressesNone(bs, 0, |bs|, p + 1);
    assert OrderOf(bs, p, AddressesIn(bs, p));
    forall n: nat | n < p ensures AddressesIn(bs, n) == AddressesIn(bs0, n) {
      AddressesSplit(bs, 0, j, |bs|, n);
      AddressesSplit(bs0, 0, j, |bs0|, n);
      AddressesNone(bs, j, |bs|, n);
      AddressesNone(bs0, j, |bs0|, n);
      AddressesShift(bs0, bs, 0, j, 0, n);
    }
  }
}
