/**
  Lazy lists. A BottomList stores its values in reverse order and may have a chain of TailLists
  behind it; HEAD and SKIP nodes are views on a bottom that never change once they are built.
 */
module Lists {
  import opened Values
  import opened Sequences

  /** A node of the chain behind a bottom; app sets its right link once. */
  class TailList {
    const currentTail: Value
    var right: TailList?

    constructor (v: Value)
      ensures currentTail == v && right == null
    {
      currentTail := v;
      right := null;
    }
  }

  ghost function TailValues(chain: seq<TailList>): (vs: seq<Value>)
    ensures |vs| == |chain|
  {
    seq(|chain|, i requires 0 <= i < |chain| => chain[i].currentTail)
  }

  /** The element at position p of the stored values is the one before which |s| - 1 - p others come. */
  lemma {:induction false} ReverseSplit<T>(s: seq<T>, p: nat)
    requires p <= |s|
    ensures Reverse(s) == Reverse(s[p..]) + Reverse(s[..p])
  {
    if p < |s| {
      var n := |s| - 1;
      ReverseSplit(s[..n], p);
      assert s[p..][..n - p] == s[..n][p..] && s[..n][..p] == s[..p];
    } else {
      assert s[p..] == [] && s[..p] == s;
    }
  }

  function Drop<T>(s: seq<T>, n: nat): seq<T> {
    if n <= |s| then s[n..] else []
  }

  lemma DropAppend<T>(a: seq<T>, b: seq<T>, n: nat)
    ensures n <= |a| ==> (a + b)[n..] == a[n..] + b
    ensures |a| <= n <= |a| + |b| ==> (a + b)[n..] == b[n - |a|..]
  {
  }

  lemma {:induction false} DropReversed<T>(values: seq<T>, n: nat)
    requires n <= |values|
    ensures Reverse(values)[n..] == Reverse(values[..|values| - n])
  {
    ReverseSplit(values, |values| - n);
  }

  /** Skipping elements of a bottom takes stored values, from the back of the vector. */
  lemma {:induction false} DropStored<T>(values: seq<T>, tails: seq<T>, n: nat)
    requires n <= |values|
    ensures Drop(Reverse(values) + tails, n) == Reverse(values[..|values| - n]) + tails
  {
    DropAppend(Reverse(values), tails, n);
    DropReversed(values, n);
  }

  /** When the stored values are used up, skipping goes on with the tail values. */
  lemma {:induction false} DropTails<T>(values: seq<T>, tails: seq<T>, n: nat)
    requires n >= |values|
    ensures Drop(Reverse(values) + tails, n) == Drop(tails, n - |values|)
  {
    DropAppend(Reverse(values), tails, n);
  }

  class BottomList {
    var usageCount: int
    var allocatedInCollect: bool
    var values: seq<Value>
    var tail: TailList?
    /** The nodes that are reached from tail, in order. */
    ghost var chain: seq<TailList>

    /** The chain follows the right links and ends. */
    ghost predicate Valid()
      reads this, chain
    {
      && tail == (if chain == [] then null else chain[0])
      && (forall i {:trigger chain[i].right} :: 0 <= i < |chain| - 1 ==> chain[i].right == chain[i + 1])
      && (chain != [] ==> chain[|chain| - 1].right == null)
    }

    /** The stored values alone, front first. */
    ghost function Stored(): seq<Value>
      reads this`values
    {
      Reverse(values)
    }

    ghost function Items(): seq<Value>
      reads this`values, this`chain
    {
      Stored() + TailValues(chain)
    }

    constructor (vs: seq<Value>)
      ensures Valid() && values == vs && usageCount == 0 && chain == [] && !allocatedInCollect
    {
      usageCount, allocatedInCollect, values, tail, chain := 0, false, vs, null, [];
    }
  }

  datatype List =
    | Head(right: List, currentHead: Value)
    | Skip(skip: nat, base: BottomList)
    | Bottom(bottom: BottomList)
  {
    function BottomOf(): BottomList {
      match this
      case Head(r, _) => r.BottomOf()
      case Skip(_, b) => b
      case Bottom(b) => b
    }

    /** The sequence that the list is a view of, when the bottom holds the sequence s. */
    function View(s: seq<Value>): seq<Value> {
      match this
      case Head(r, v) => [v] + r.View(s)
      case Skip(n, _) => Drop(s, n)
      case Bottom(_) => s
    }

    /** No skip goes beyond a bottom sequence of length n. */
    predicate Within(n: nat) {
      match this
      case Head(r, _) => r.Within(n)
      case Skip(k, _) => k <= n
      case Bottom(_) => true
    }

    ghost function Items(): seq<Value>
      reads BottomOf()
    {
      View(BottomOf().Items())
    }
  }

  // ---- Iteration ----

  /** List::const_iterator: at a head, at a position of a bottom, at a tail node, or at the end. */
  class ConstIterator {
    var head: Option<List>
    var bottom: BottomList?
    var tail: TailList?
    var pos: nat
    /** The bottom that the iterator is over, and the position in its chain when at a tail node. */
    ghost const base: BottomList
    ghost var link: nat
    /** What is still to be visited, the current element first. */
    ghost var rest: seq<Value>

    ghost predicate Valid()
      reads this, base
    {
      && (head.Some? ==> bottom == null && tail == null && head.value.Head? && head.value.BottomOf() == base)
      && (bottom != null ==> tail == null && bottom == base && pos < |base.values|)
      && (tail != null ==> link < |base.chain| && base.chain[link] == tail)
      && rest == (if head.Some? then head.value.View(base.Items())
                  else if bottom != null then Reverse(base.values[..pos + 1]) + TailValues(base.chain)
                  else if tail != null then TailValues(base.chain)[link..]
                  else [])
    }

    predicate AtEnd()
      reads this
    {
      head.None? && bottom == null && tail == null
    }

    constructor (l: List)
      requires l.BottomOf().Valid()
      ensures Valid() && base == l.BottomOf()
      ensures rest == old(l.Items()) && (AtEnd() <==> rest == [])
    {
      base := l.BottomOf();
      head, bottom, tail, pos, link, rest := None, null, null, 0, 0, [];
      new;
      InitList(l);
    }

    /** do_init on a tail link, which may be null. */
    method InitTail(t: TailList?, ghost from: nat)
      requires base.Valid() && from <= |base.chain|
      requires t == if from < |base.chain| then base.chain[from] else null
      modifies this
      ensures Valid() && rest == TailValues(base.chain)[from..] && (AtEnd() <==> rest == [])
    {
      pos := 0;
      head, bottom, tail := None, null, t;
      link, rest := from, TailValues(base.chain)[from..];
    }

    /** do_init on a bottom, whose first element is stored last. */
    method InitBottom(b: BottomList)
      requires b == base && base.Valid()
      modifies this
      ensures Valid() && rest == base.Items() && (AtEnd() <==> rest == [])
    {
      if |b.values| == 0 {
        InitTail(b.tail, 0);
      } else {
        head, bottom, tail, pos := None, b, null, |b.values| - 1;
        rest := base.Items();
        assert base.values[..pos + 1] == base.values;
      }
    }

    /** do_init on a skip: either a position of the bottom or a node of the chain. */
    method InitSkip(skip: nat, b: BottomList)
      requires b == base && base.Valid()
      modifies this
      ensures Valid() && rest == Drop(base.Items(), skip) && (AtEnd() <==> rest == [])
    {
      if |b.values| > skip {
        head, bottom, tail, pos := None, b, null, |b.values| - skip - 1;
        rest := Drop(base.Items(), skip);
        DropStored(b.values, TailValues(b.chain), skip);
      } else {
        var additional := skip - |b.values|;
        var current, i := Advance(b, additional);
        DropTails(b.values, TailValues(b.chain), skip);
        if i == additional {
          InitTail(current, i);
        } else {
          InitTail(null, |b.chain|);
        }
      }
    }

    /** Follows up to n links of the chain. */
    method Advance(b: BottomList, n: nat) returns (current: TailList?, i: nat)
      requires b.Valid()
      ensures i == (if n <= |b.chain| then n else |b.chain|)
      ensures current == if i < |b.chain| then b.chain[i] else null
    {
      current, i := b.tail, 0;
      while current != null && i < n
        invariant i <= n && i <= |b.chain|
        invariant current == if i < |b.chain| then b.chain[i] else null
      {
        assert current == b.chain[i];
        current := current.right;
        i := i + 1;
      }
    }

    method InitList(l: List)
      requires base.Valid() && l.BottomOf() == base
      modifies this
      ensures Valid() && rest == l.Items() && (AtEnd() <==> rest == [])
    {
      match l
      case Head(_, _) => head, bottom, tail, pos, rest := Some(l), null, null, 0, l.Items();
      case Skip(skip, b) => InitSkip(skip, b);
      case Bottom(b) => InitBottom(b);
    }

    /** The current element. */
    function Current(): (v: Value)
      requires Valid() && !AtEnd()
      reads this, base
      ensures rest != [] && v == rest[0]
    {
      if head.Some? then head.value.currentHead
      else if bottom != null then bottom.values[pos]
      else tail.currentTail
    }

    /** Moves to the next element; at the end nothing happens. */
    method Next()
      requires Valid() && base.Valid()
      modifies this
      ensures Valid() && (AtEnd() <==> rest == [])
      ensures rest == if old(rest) == [] then [] else old(rest)[1..]
    {
      if head.Some? {
        InitList(head.value.right);
      } else if bottom != null {
        if pos > 0 {
          assert base.values[..pos + 1][..pos] == base.values[..pos];
          pos := pos - 1;
          rest := rest[1..];
        } else {
          InitTail(bottom.tail, 0);
        }
      } else if tail != null {
        InitTail(tail.right, link + 1);
      }
    }
  }

  /** List::operator== compares element by element. */
  method Equal(l: List, m: List) returns (equal: bool)
    requires l.BottomOf().Valid() && m.BottomOf().Valid()
    ensures equal <==> l.Items() == m.Items()
  {
    ghost var a, b := l.BottomOf(), m.BottomOf();
    var i := new ConstIterator(l);
    equal := EqualFrom(i, m);
  }

  method EqualFrom(i: ConstIterator, m: List) returns (equal: bool)
    requires i.Valid() && i.base.Valid() && (i.AtEnd() <==> i.rest == []) && m.BottomOf().Valid()
    modifies i
    ensures equal <==> old(i.rest) == old(m.Items())
  {
    ghost var b := m.BottomOf();
    var j := new ConstIterator(m);
    Undisturbed(i);
    equal := SameRest(i, j);
  }

  /** The loop of operator==. */
  method SameRest(i: ConstIterator, j: ConstIterator) returns (equal: bool)
    requires i != j && i.Valid() && j.Valid() && i.base.Valid() && j.base.Valid()
    requires (i.AtEnd() <==> i.rest == []) && (j.AtEnd() <==> j.rest == [])
    modifies i, j
    ensures equal <==> old(i.rest) == old(j.rest)
  {
    while !i.AtEnd() && !j.AtEnd()
      invariant i.Valid() && j.Valid()
      invariant (i.AtEnd() <==> i.rest == []) && (j.AtEnd() <==> j.rest == [])
      invariant old(i.rest) == old(j.rest) <==> i.rest == j.rest
      decreases |i.rest|
    {
      var differ := CompareAndAdvance(i, j);
      if differ { return false; }
    }
    equal := i.AtEnd() && j.AtEnd();
  }

  /** The body of the loop of operator==. */
  method CompareAndAdvance(i: ConstIterator, j: ConstIterator) returns (differ: bool)
    requires i != j && i.Valid() && j.Valid() && !i.AtEnd() && !j.AtEnd()
    requires i.base.Valid() && j.base.Valid()
    modifies i, j
    ensures differ ==> old(i.rest) != old(j.rest)
    ensures !differ ==> i.Valid() && (i.AtEnd() <==> i.rest == []) && |i.rest| < |old(i.rest)|
    ensures !differ ==> j.Valid() && (j.AtEnd() <==> j.rest == [])
    ensures !differ ==> (old(i.rest) == old(j.rest) <==> i.rest == j.rest)
  {
    if i.Current() != j.Current() { return true; }
    ghost var xs, ys := i.rest, j.rest;
    AdvanceBoth(i, j);
    RestsDecide(xs, ys, i.rest, j.rest);
    differ := false;
  }

  method AdvanceBoth(i: ConstIterator, j: ConstIterator)
    requires i != j && i.Valid() && j.Valid() && i.base.Valid() && j.base.Valid()
    requires i.rest != [] && j.rest != []
    modifies i, j
    ensures i.Valid() && (i.AtEnd() <==> i.rest == []) && i.rest == old(i.rest)[1..]
    ensures j.Valid() && (j.AtEnd() <==> j.rest == []) && j.rest == old(j.rest)[1..]
  {
    i.Next();
    Undisturbed(j);
    label L:
    j.Next();
    Undisturbed@L(i);
  }

  /** Moving one iterator does not disturb another one. */
  twostate lemma Undisturbed(i: ConstIterator)
    requires old(i.Valid()) && unchanged(i) && unchanged(i.base) && unchanged(old(i.base.chain))
    ensures i.Valid() && (old(i.base.Valid()) ==> i.base.Valid())
  {
  }

  lemma RestsDecide<T>(s: seq<T>, t: seq<T>, s': seq<T>, t': seq<T>)
    requires s != [] && t != [] && s[0] == t[0] && s' == s[1..] && t' == t[1..]
    ensures s == t <==> s' == t'
  {
    assert s == [s[0]] + s[1..] && t == [t[0]] + t[1..];
  }

  // ---- The built-in functions on lists; None is undef ----

  method Nth(list: Option<List>, index: Value) returns (v: Value)
    requires list.Some? ==> list.value.BottomOf().Valid()
    requires index.Int? || index.Undef?
    ensures v == if list.Some? && index.Int? && 1 <= index.i <= |list.value.Items()|
                 then list.value.Items()[index.i - 1] else Undef
  {
    if list.None? || index.Undef? { return Undef; }
    ghost var base, items := list.value.BottomOf(), list.value.Items();
    var iter := new ConstIterator(list.value);
    v := ElementAt(iter, index.i);
  }

  method ElementAt(iter: ConstIterator, index: int) returns (v: Value)
    requires iter.Valid() && iter.base.Valid() && (iter.AtEnd() <==> iter.rest == [])
    modifies iter
    ensures v == if 1 <= index <= |old(iter.rest)| then old(iter.rest)[index - 1] else Undef
  {
    var i := AdvanceTo(iter, index);
    if i == index && !iter.AtEnd() {
      v := iter.Current();
    } else {
      v := Undef;
    }
  }

  /** The loop of nth: counts from 1 up to the index, or to the end of the list. */
  method AdvanceTo(iter: ConstIterator, index: int) returns (i: int)
    requires iter.Valid() && iter.base.Valid() && (iter.AtEnd() <==> iter.rest == [])
    modifies iter
    ensures iter.Valid() && (iter.AtEnd() <==> iter.rest == [])
    ensures i == index && !iter.AtEnd() <==> 1 <= index <= |old(iter.rest)|
    ensures 1 <= index <= |old(iter.rest)| ==> iter.rest[0] == old(iter.rest)[index - 1]
  {
    i := 1;
    ghost var items := iter.rest;
    while !iter.AtEnd() && i < index
      invariant iter.Valid() && (iter.AtEnd() <==> iter.rest == [])
      invariant 1 <= i <= |items| + 1 && iter.rest == items[i - 1..]
      invariant i <= index || i == 1
    {
      i := i + 1;
      iter.Next();
    }
  }

  method Len(list: Option<List>) returns (v: Value)
    requires list.Some? ==> list.value.BottomOf().Valid()
    ensures v == if list.Some? then Int(|list.value.Items()|) else Undef
  {
    if list.None? { return Undef; }
    ghost var base, items := list.value.BottomOf(), list.value.Items();
    var iter := new ConstIterator(list.value);
    var count := CountRest(iter);
    v := Int(count);
  }

  /** The loop of len. */
  method CountRest(iter: ConstIterator) returns (count: nat)
    requires iter.Valid() && iter.base.Valid() && (iter.AtEnd() <==> iter.rest == [])
    modifies iter
    ensures count == |old(iter.rest)|
  {
    count := 0;
    ghost var items := iter.rest;
    while !iter.AtEnd()
      invariant iter.Valid() && (iter.AtEnd() <==> iter.rest == [])
      invariant count <= |items| && iter.rest == items[count..]
      decreases |iter.rest|
    {
      count := count + 1;
      iter.Next();
    }
  }

  method Peek(list: Option<List>) returns (v: Value)
    requires list.Some? ==> list.value.BottomOf().Valid()
    ensures v == if list.Some? && list.value.Items() != [] then list.value.Items()[0] else Undef
  {
    if list.None? { return Undef; }
    ghost var base, items := list.value.BottomOf(), list.value.Items();
    var iter := new ConstIterator(list.value);
    if iter.AtEnd() { return Undef; }
    v := iter.Current();
  }

  function Cons(v: Value, list: Option<List>): Option<List> {
    if list.None? then None else Some(Head(list.value, v))
  }

  function Tail(list: Option<List>): Option<List> {
    match list
    case None => None
    case Some(Head(r, _)) => Some(r)
    case Some(Skip(n, b)) => Some(Skip(n + 1, b))
    case Some(Bottom(b)) => Some(Skip(1, b))
  }

  /** Whatever the shape of the list, its tail is a view without the first element, if there is one. */
  lemma TailDropsFirst(l: List, s: seq<Value>)
    ensures Tail(Some(l)).value.BottomOf() == l.BottomOf()
    ensures Tail(Some(l)).value.View(s) == Drop(l.View(s), 1)
    ensures l.Within(|s|) && l.View(s) != [] ==> Tail(Some(l)).value.Within(|s|)
  {
  }

  /** The tail of a cons is the list itself, not only an equal one. */
  lemma TailOfCons(v: Value, l: List)
    ensures Tail(Cons(v, Some(l))) == Some(l)
    ensures forall s :: Cons(v, Some(l)).value.View(s) == [v] + l.View(s)
  {
  }

  /**
    app hangs a new node behind the last one that is reached from the list. The list and every
    other view of the same bottom grow by the value; other bottoms are not touched.
   */
  method App(list: Option<List>, v: Value) returns (r: Option<List>, ghost node: TailList?)
    requires list.Some? ==> list.value.BottomOf().Valid()
    modifies if list.Some? then {list.value.BottomOf()} else {}
    modifies if list.Some? then list.value.BottomOf().chain else []
    ensures r == list
    ensures list.Some? ==> node != null && fresh(node) && node.currentTail == v
    ensures list.Some? ==> var b := list.value.BottomOf();
      && b.Valid() && b.chain == old(b.chain) + [node]
      && b.values == old(b.values) && b.usageCount == old(b.usageCount)
      && b.Items() == old(b.Items()) + [v]
  {
    r, node := list, null;
    if list.None? { return; }
    ghost var b := list.value.BottomOf();
    var last := LastLink(list.value);
    var t := new TailList(v);
    node := t;
    LinkBehind(b, last, t);
  }

  /** Hangs a node behind the last one of the chain. */
  method LinkBehind(ghost b: BottomList, last: Link, t: TailList)
    requires b.Valid() && t !in b.chain && t.right == null
    requires last == if b.chain == [] then AtBottom(b) else AtTail(b.chain[|b.chain| - 1])
    modifies b, b.chain
    ensures b.Valid() && b.chain == old(b.chain) + [t]
    ensures b.values == old(b.values) && b.usageCount == old(b.usageCount)
    ensures b.Items() == old(b.Items()) + [t.currentTail]
  {
    match last {
      case AtTail(current) => current.right := t;
      case AtBottom(bottom) => bottom.tail := t;
    }
    b.chain := b.chain + [t];
    assert TailValues(b.chain) == old(TailValues(b.chain)) + [t.currentTail];
  }

  /**
    When the sequence of a bottom grows at the end, so does every view of it whose skips stay within
    the sequence. A view that skips beyond the end swallows some of the new values instead.
   */
  lemma ViewExtends(l: List, s: seq<Value>, t: seq<Value>)
    ensures l.Within(|s|) ==> l.View(s + t) == l.View(s) + t
    ensures l.View(s + t) == l.View(s) + t && t != [] ==> l.Within(|s|)
  {
    match l
    case Head(r, v) =>
      ViewExtends(r, s, t);
      assert [v] + (r.View(s) + t) == ([v] + r.View(s)) + t;
      if l.View(s + t) == l.View(s) + t {
        assert l.View(s + t)[1..] == r.View(s + t) && (l.View(s) + t)[1..] == r.View(s) + t;
      }
    case Skip(n, _) =>
    case Bottom(_) =>
  }

  /** `app(tail(tail([x])), v)` is empty: the second tail skips beyond the end, and so swallows v. */
  lemma AppBeyondEnd(b: BottomList, x: Value, v: Value)
    ensures var l := Tail(Tail(Some(Bottom(b)))).value;
      l == Skip(2, b) && l.View([x]) == [] && l.View([x] + [v]) == []
  {
  }

  datatype Link = AtBottom(bottom: BottomList) | AtTail(node: TailList)

  /** A position of the walk of app: a list node, or a node of a chain. */
  datatype Position = OnList(list: List) | OnTail(tail: TailList)

  /** The walk of app to the node that has no successor. */
  method LastLink(list: List) returns (last: Link)
    requires list.BottomOf().Valid()
    ensures var b := list.BottomOf();
            last == if b.chain == [] then AtBottom(b) else AtTail(b.chain[|b.chain| - 1])
  {
    ghost var b := list.BottomOf();
    var current := OnList(list);
    ghost var k := 0;
    while true
      invariant b.Valid()
      invariant current.OnList? ==> current.list.BottomOf() == b
      invariant current.OnTail? ==> k < |b.chain| && b.chain[k] == current.tail
      decreases current.OnList?, if current.OnList? then |b.chain| else |b.chain| - k,
                if current.OnList? then current.list else list
    {
      if current.OnList? && current.list.Head? {
        current := OnList(current.list.right);
      }
      if current.OnList? && current.list.Skip? {
        current := OnList(Bottom(current.list.base));
      }
      if current.OnList? && current.list.Bottom? {
        if current.list.bottom.tail != null {
          current, k := OnTail(current.list.bottom.tail), 0;
        } else {
          return AtBottom(current.list.bottom);
        }
      }
      if current.OnTail? {
        assert k < |b.chain| - 1 ==> b.chain[k].right == b.chain[k + 1];
        if current.tail.right != null {
          current, k := OnTail(current.tail.right), k + 1;
        } else {
          return AtTail(current.tail);
        }
      }
    }
  }
}
