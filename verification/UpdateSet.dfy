/**
  The linked hash map behind the update set. Its implementation is closed source; this class
  states the contract that the interpreter relies on: buckets form a list with unique keys,
  setting a present key replaces its value in place, and a new key is appended at the tail.
 */
module UpdateSet {
  import opened Values

  datatype Update = Update(loc: Location, value: Value)

  /** A key is a 64-bit word: the address of a location shifted by 16 bits, with a layer below it. */
  datatype Key = Key(address: nat, layer: nat)

  datatype Bucket = Bucket(key: Key, update: Update)

  const LAYER_RANGE: nat := 0x1_0000

  function Pack(key: Key): nat {
    key.address * 0x1_0000 + key.layer
  }

  function Unpack(word: nat): Key {
    Key(word / 0x1_0000, word % 0x1_0000)
  }

  /** Packing is a bijection onto the words, as long as layers have 16 bits and addresses 48. */
  lemma PackRoundTrip(key: Key, word: nat)
    requires key.layer < 0x1_0000
    ensures Unpack(Pack(key)) == key
    ensures Unpack(word).layer < 0x1_0000 && Pack(Unpack(word)) == word
    ensures Pack(key) < 0x1_0000_0000_0000_0000 <==> key.address < 0x1_0000_0000_0000
  {
  }

  /** Decrementing the packed word changes nothing but the layer, unless the layer is 0. */
  method Decrement(key: Key) returns (lower: Key)
    requires 1 <= key.layer < 0x1_0000
    ensures lower == Key(key.address, key.layer - 1)
  {
    lower := Unpack(Pack(key) - 1);
  }

  /** In layer 0 the decrement borrows from the address. */
  lemma DecrementBorrows(address: nat)
    requires address >= 1
    ensures Unpack(Pack(Key(address, 0)) - 1) == Key(address - 1, 0xFFFF)
  {
  }

  ghost predicate KeysDiffer(bs: seq<Bucket>, i: nat, j: nat)
    requires i < |bs| && j < |bs|
  {
    bs[i].key != bs[j].key
  }

  ghost predicate UniqueKeys(bs: seq<Bucket>) {
    forall i: nat, j: nat {:trigger KeysDiffer(bs, i, j)} :: i < j < |bs| ==> KeysDiffer(bs, i, j)
  }

  ghost predicate NotAbove(bs: seq<Bucket>, i: nat, j: nat)
    requires i < |bs| && j < |bs|
  {
    bs[i].key.layer <= bs[j].key.layer
  }

  /** Layers never decrease from the head to the tail of the list. */
  ghost predicate LayersAscend(bs: seq<Bucket>) {
    forall i: nat, j: nat {:trigger NotAbove(bs, i, j)} :: i < j < |bs| ==> NotAbove(bs, i, j)
  }

  ghost predicate SameKeys(bs: seq<Bucket>, cs: seq<Bucket>) {
    |bs| == |cs| && forall i :: 0 <= i < |bs| ==> bs[i].key == cs[i].key
  }

  ghost predicate HasKey(bs: seq<Bucket>, key: Key) {
    exists i :: 0 <= i < |bs| && bs[i].key == key
  }

  /** The list holds exactly the entries of the map. */
  ghost predicate Represents(bs: seq<Bucket>, m: map<Key, Update>) {
    && UniqueKeys(bs)
    && (forall i :: 0 <= i < |bs| ==> bs[i].key in m && m[bs[i].key] == bs[i].update)
    && (forall k {:trigger HasKey(bs, k)} :: k in m ==> HasKey(bs, k))
  }

  lemma UniqueAt(bs: seq<Bucket>, i: nat, j: nat)
    requires UniqueKeys(bs) && i < |bs| && j < |bs| && i != j
    ensures bs[i].key != bs[j].key
  {
    assert if i < j then KeysDiffer(bs, i, j) else KeysDiffer(bs, j, i);
  }

  lemma RepresentsAppend(bs: seq<Bucket>, m: map<Key, Update>, b: Bucket)
    requires Represents(bs, m) && b.key !in m
    ensures Represents(bs + [b], m[b.key := b.update])
  {
    var cs := bs + [b];
    assert cs[|bs|] == b;
    forall s: nat, t: nat | s < t < |cs| ensures KeysDiffer(cs, s, t) {
      if t < |bs| { UniqueAt(bs, s, t); }
    }
    forall k | k in m ensures HasKey(cs, k) {
      assert HasKey(bs, k);
      var i :| 0 <= i < |bs| && bs[i].key == k;
      assert cs[i].key == k;
    }
  }

  lemma RepresentsReplace(bs: seq<Bucket>, m: map<Key, Update>, i: nat, u: Update)
    requires Represents(bs, m) && i < |bs|
    ensures Represents(bs[i := Bucket(bs[i].key, u)], m[bs[i].key := u])
  {
    var cs := bs[i := Bucket(bs[i].key, u)];
    assert cs[i].key == bs[i].key;
    forall s: nat, t: nat | s < t < |cs| ensures KeysDiffer(cs, s, t) {
      UniqueAt(bs, s, t);
    }
    forall j: nat | j < |cs| && j != i ensures cs[j].key != bs[i].key {
      UniqueAt(bs, i, j);
    }
    forall k | k in m ensures HasKey(cs, k) {
      assert HasKey(bs, k);
      var j :| 0 <= j < |bs| && bs[j].key == k;
      assert cs[j].key == k;
    }
  }

  /** The list without its bucket at position i. */
  function Without(bs: seq<Bucket>, i: nat): (cs: seq<Bucket>)
    requires i < |bs|
    ensures |cs| == |bs| - 1
    ensures forall j :: 0 <= j < i ==> cs[j] == bs[j]
    ensures forall j :: i <= j < |cs| ==> cs[j] == bs[j + 1]
  {
    bs[..i] + bs[i + 1..]
  }

  lemma RepresentsDelete(bs: seq<Bucket>, m: map<Key, Update>, i: nat)
    requires Represents(bs, m) && i < |bs|
    ensures Represents(Without(bs, i), m - {bs[i].key})
  {
    var cs := Without(bs, i);
    forall s: nat, t: nat | s < t < |cs| ensures KeysDiffer(cs, s, t) {
      UniqueAt(bs, if s < i then s else s + 1, if t < i then t else t + 1);
    }
    forall j: nat | j < |cs| ensures cs[j].key != bs[i].key {
      UniqueAt(bs, i, if j < i then j else j + 1);
    }
    forall k | k in m && k != bs[i].key ensures HasKey(cs, k) {
      assert HasKey(bs, k);
      var j :| 0 <= j < |bs| && bs[j].key == k;
      assert cs[if j < i then j else j - 1].key == k;
    }
  }

  class LinkedHash {
    var buckets: seq<Bucket>
    /** The finite map that the list stands for. */
    ghost var contents: map<Key, Update>

    ghost predicate Valid()
      reads this
    {
      Represents(buckets, contents)
    }

    constructor ()
      ensures Valid() && buckets == [] && contents == map[]
    {
      buckets := [];
      contents := map[];
    }

    method Find(key: Key) returns (index: Option<nat>)
      requires Valid()
      ensures index.Some? <==> key in contents
      ensures index.Some? ==> index.value < |buckets| && buckets[index.value].key == key
    {
      for i := 0 to |buckets|
        invariant forall j :: 0 <= j < i ==> buckets[j].key != key
      {
        if buckets[i].key == key {
          return Some(i);
        }
      }
      assert !HasKey(buckets, key);
      return None;
    }

    method Get(key: Key) returns (update: Option<Update>)
      requires Valid()
      ensures update == if key in contents then Some(contents[key]) else None
    {
      var index := Find(key);
      update := if index.Some? then Some(buckets[index.value].update) else None;
    }

    method Set(key: Key, u: Update) returns (previous: Option<Update>)
      requires Valid()
      modifies this
      ensures Valid() && contents == old(contents)[key := u]
      ensures previous == if key in old(contents) then Some(old(contents)[key]) else None
      ensures previous.None? ==> buckets == old(buckets) + [Bucket(key, u)]
      ensures previous.Some? ==> SameKeys(buckets, old(buckets))
    {
      var index := Find(key);
      if index.Some? {
        previous := Some(buckets[index.value].update);
        RepresentsReplace(buckets, contents, index.value, u);
        buckets := buckets[index.value := Bucket(key, u)];
      } else {
        previous := None;
        RepresentsAppend(buckets, contents, Bucket(key, u));
        buckets := buckets + [Bucket(key, u)];
      }
      contents := contents[key := u];
    }

    method Delete(i: nat)
      requires Valid() && i < |buckets|
      modifies this
      ensures Valid() && buckets == Without(old(buckets), i)
      ensures contents == old(contents) - {old(buckets)[i].key}
    {
      RepresentsDelete(buckets, contents, i);
      contents := contents - {buckets[i].key};
      buckets := Without(buckets, i);
    }

    /** Unlinks every bucket. */
    method Clear()
      modifies this
      ensures Valid() && buckets == [] && contents == map[]
    {
      buckets := [];
      contents := map[];
    }
  }
}
