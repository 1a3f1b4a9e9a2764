/** Notions about sequences that several modules share. */
module Sequences {

  ghost predicate Distinct<T>(s: seq<T>) {
    forall i, j :: 0 <= i < j < |s| ==> s[i] != s[j]
  }

  function Set<T>(s: seq<T>): set<T> {
    set x | x in s
  }

  function Reverse<T>(s: seq<T>): (r: seq<T>)
    ensures |r| == |s|
  {
    if s == [] then [] else [s[|s| - 1]] + Reverse(s[..|s| - 1])
  }

  lemma {:induction false} ReversePrepend<T>(x: T, s: seq<T>)
    ensures Reverse([x] + s) == Reverse(s) + [x]
  {
    if s != [] {
      var n := |s| - 1;
      assert ([x] + s)[..|s|] == [x] + s[..n];
      ReversePrepend(x, s[..n]);
    }
  }

  lemma {:induction false} ReverseAppend<T>(s: seq<T>, x: T)
    ensures Reverse(s + [x]) == [x] + Reverse(s)
  {
    assert (s + [x])[..|s|] == s;
  }

  lemma {:induction false} ReverseAt<T>(s: seq<T>, i: nat)
    requires i < |s|
    ensures Reverse(s)[i] == s[|s| - 1 - i]
  {
    if i > 0 { ReverseAt(s[..|s| - 1], i - 1); }
  }

  lemma {:induction false} ReverseTwice<T>(s: seq<T>)
    ensures Reverse(Reverse(s)) == s
  {
    if s != [] {
      ReverseTwice(s[..|s| - 1]);
      ReversePrepend(s[|s| - 1], Reverse(s[..|s| - 1]));
    }
  }

  /** rs' lists the elements of rs in the order that the bijection p gives. */
  ghost predicate Permuted<T>(rs: seq<T>, rs': seq<T>, p: seq<nat>) {
    |rs| == |rs'| == |p| && IsOrder(p) && forall i :: 0 <= i < |p| ==> rs'[i] == rs[p[i]]
  }

  /** The positions 0 to |p| - 1 in some order. */
  ghost predicate IsOrder(p: seq<nat>) {
    && (forall i :: 0 <= i < |p| ==> p[i] < |p|)
    && (forall i, j :: 0 <= i < j < |p| ==> p[i] != p[j])
    && (forall k :: 0 <= k < |p| ==> k in p)
  }

  lemma Identity<T>(rs: seq<T>) returns (p: seq<nat>)
    ensures Permuted(rs, rs, p)
  {
    p := seq(|rs|, i requires 0 <= i < |rs| => i);
    forall j | 0 <= j < |p| ensures j in p { assert p[j] == j; }
  }

  lemma ReversePermutes<T>(s: seq<T>) returns (p: seq<nat>)
    ensures Permuted(s, Reverse(s), p)
  {
    p := seq(|s|, i requires 0 <= i < |s| => |s| - 1 - i);
    forall k | 0 <= k < |p| ensures k in p { assert p[|s| - 1 - k] == k; }
    forall i | 0 <= i < |p| ensures Reverse(s)[i] == s[p[i]] { ReverseAt(s, i); }
  }

  lemma SplitAt<T>(s: seq<T>, k: nat)
    requires k < |s|
    ensures s == s[..k] + [s[k]] + s[k + 1..]
  {
  }

  /** Taking the same element from both. */
  lemma RemoveSame<T>(s: seq<T>, t: seq<T>, k: nat)
    requires t != [] && multiset(s) == multiset(t) && k < |s| && s[k] == t[|t| - 1]
    ensures multiset(s[..k] + s[k + 1..]) == multiset(t[..|t| - 1])
  {
    var n, x := |t| - 1, s[k];
    assert s == s[..k] + [x] + s[k + 1..] && t == t[..n] + [x];
    calc {
      multiset(s[..k] + s[k + 1..]);
      multiset(s) - multiset{x};
      multiset(t) - multiset{x};
      multiset(t[..n]);
    }
  }

  /** Sequences with the same elements are permutations of each other. */
  lemma {:induction false} SameElementsPermuted<T>(s: seq<T>, t: seq<T>) returns (p: seq<nat>)
    requires multiset(s) == multiset(t)
    ensures Permuted(s, t, p)
    decreases |t|
  {
    assert |s| == |multiset(s)| == |multiset(t)| == |t|;
    if t == [] { return []; }
    var n := |t| - 1;
    assert t[n] in multiset(s);
    var k :| 0 <= k < |s| && s[k] == t[n];
    var rest := s[..k] + s[k + 1..];
    RemoveSame(s, t, k);
    var q := SameElementsPermuted(rest, t[..n]);
    p := InsertedOrder(q, k);
    forall i | 0 <= i < n ensures t[i] == s[p[i]] {
      assert t[..n][i] == rest[q[i]];
    }
  }

  /** The order q of all positions but k, followed by k. */
  lemma InsertedOrder(q: seq<nat>, k: nat) returns (p: seq<nat>)
    requires IsOrder(q) && k <= |q|
    ensures |p| == |q| + 1 && IsOrder(p) && p[|q|] == k
    ensures forall i :: 0 <= i < |q| ==> p[i] == if q[i] < k then q[i] else q[i] + 1
  {
    p := seq(|q|, i requires 0 <= i < |q| => if q[i] < k then q[i] else q[i] + 1) + [k];
    forall j | 0 <= j < |p| ensures j in p {
      if j == k {
        assert p[|q|] == j;
      } else {
        var before: nat := if j < k then j else j - 1;
        assert before in q;
        var i :| 0 <= i < |q| && q[i] == before;
        assert p[i] == j;
      }
    }
  }

  /** What is there already keeps its place, and what is new comes last. */
  function Enter<T(==)>(order: seq<T>, x: T): seq<T> {
    if x in order then order else order + [x]
  }

  function EnterAll<T(==)>(order: seq<T>, xs: seq<T>): seq<T> {
    if xs == [] then order else Enter(EnterAll(order, xs[..|xs| - 1]), xs[|xs| - 1])
  }

  /** New elements, each once, come last in their order. */
  lemma {:induction false} EnterNew<T>(order: seq<T>, xs: seq<T>)
    requires Distinct(order + xs)
    ensures EnterAll(order, xs) == order + xs
  {
    if xs == [] {
      assert order + xs == order;
    } else {
      var n := |xs| - 1;
      forall i, j | 0 <= i < j < |order + xs[..n]| ensures (order + xs[..n])[i] != (order + xs[..n])[j] {
        assert (order + xs)[i] != (order + xs)[j];
      }
      EnterNew(order, xs[..n]);
      forall i | 0 <= i < |order + xs[..n]| ensures (order + xs[..n])[i] != xs[n] {
        assert (order + xs)[i] != (order + xs)[|order| + n];
      }
      assert order + xs[..n] + [xs[n]] == order + xs;
    }
  }
}
