/**
  Unification of scalar types. Types that are still unknown are linked into doubly linked chains;
  as soon as one of them becomes known, its type is propagated along the links of both partners.
 */
module Types {
  datatype Kind =
    | UNKNOWN | STRING | RULEREF | INT | FLOAT | BOOLEAN | SELF | RATIONAL | INVALID | NO_TYPE | UNDEF

  /** Some constraint admits the kind; no constraints admit every kind, and so does an unknown one. */
  predicate Admits(constraints: seq<Kind>, k: Kind) {
    constraints == [] || exists i :: 0 <= i < |constraints| && constraints[i] in {k, UNKNOWN}
  }

  ghost function Nodes(c: seq<Type>): set<Type> {
    set n | n in c
  }

  ghost predicate LeftLinks(c: seq<Type>)
    reads Nodes(c)`unifyWithLeft
  {
    forall k {:trigger c[k].unifyWithLeft} :: 0 <= k < |c| ==>
      c[k].unifyWithLeft == if k == 0 then null else c[k - 1]
  }

  ghost predicate RightLinks(c: seq<Type>)
    reads Nodes(c)`unifyWithRight
  {
    forall k {:trigger c[k].unifyWithRight} :: 0 <= k < |c| ==>
      c[k].unifyWithRight == if k == |c| - 1 then null else c[k + 1]
  }

  /** The nodes of the sequence know that it is their chain, and where they are in it. */
  ghost predicate Placed(c: seq<Type>)
    reads Nodes(c)`at, Nodes(c)`chain
  {
    forall k {:trigger c[k]} :: 0 <= k < |c| ==> c[k].at == k && c[k].chain == c
  }

  /** The links along the chain are mutually inverse and end at both sides. */
  ghost predicate Linked(c: seq<Type>)
    reads Nodes(c)`unifyWithLeft, Nodes(c)`unifyWithRight, Nodes(c)`at, Nodes(c)`chain
  {
    LeftLinks(c) && RightLinks(c) && Placed(c)
  }

  class Type {
    var t: Kind
    var unifyWithLeft: Type?
    var unifyWithRight: Type?
    const constraints: seq<Kind>
    /** The chain that this node belongs to, from left to right, and its position there. */
    ghost var chain: seq<Type>
    ghost var at: nat

    constructor (t: Kind, constraints: seq<Kind>)
      ensures this.t == t && this.constraints == constraints && chain == [this]
      ensures OnChain() && (Agreed() <==> t == UNKNOWN || Admits(constraints, t))
    {
      this.t, this.constraints := t, constraints;
      unifyWithLeft, unifyWithRight := null, null;
      chain, at := [this], 0;
    }

    ghost predicate OnChain()
      reads this`chain, this`at
      reads Nodes(chain)`unifyWithLeft, Nodes(chain)`unifyWithRight, Nodes(chain)`at, Nodes(chain)`chain
    {
      at < |chain| && chain[at] == this && Linked(chain)
    }

    /** The whole chain has the kind of this node, and a known kind meets the constraints of all. */
    ghost predicate Agreed()
      reads this, chain
    {
      forall k :: 0 <= k < |chain| ==> chain[k].t == t && (t != UNKNOWN ==> Admits(chain[k].constraints, t))
    }

    /** The node has the kind already, or can take it. */
    ghost predicate Accepts(k: Kind)
      reads this`t
    {
      t == k || (t == UNKNOWN && Admits(constraints, k))
    }

    method MeetsConstraints(k: Kind) returns (matched: bool)
      ensures matched <==> Admits(constraints, k)
    {
      matched := true;
      for i := 0 to |constraints|
        invariant matched <==> i == 0
        invariant forall j :: 0 <= j < i ==> constraints[j] !in {k, UNKNOWN}
      {
        if constraints[i] in {k, UNKNOWN} { return true; }
        matched := false;
      }
    }

    /** unify_nofollow for scalars: the known kind of the two goes to the other one, links stay out of it. */
    method UnifyNofollow(other: Type) returns (ok: bool)
      modifies this`t, other`t
      ensures t == old(if t == UNKNOWN then other.t else t)
      ensures other.t == old(if other.t == UNKNOWN then t else other.t)
      ensures old(t != UNKNOWN) ==> (ok <==> old(other.t == t || (other.t == UNKNOWN && Admits(other.constraints, t))))
      ensures old(t == UNKNOWN) ==> (ok <==> old(other.t == UNKNOWN || Admits(constraints, other.t)))
    {
      if t != UNKNOWN && other.t != UNKNOWN { return t == other.t; }
      if other.t != UNKNOWN {
        t := other.t;
        ok := MeetsConstraints(t);
        return;
      }
      if t != UNKNOWN {
        other.t := t;
        ok := other.MeetsConstraints(t);
        return;
      }
      return true;
    }

    /** Propagates the kind of this node to the first nodes of a chain, from position i down to its left end. */
    method UnifyLeft(other: Type?, ghost c: seq<Type>, ghost i: int) returns (result: bool)
      requires t != UNKNOWN && Linked(c)
      requires -1 <= i < |c| && other == if i < 0 then null else c[i]
      modifies this`t, Nodes(c)`t
      ensures t == old(t)
      ensures forall k :: 0 <= k < |c| ==> c[k].t == old(c[k].t) || (old(c[k].t) == UNKNOWN && c[k].t == t && k <= i)
      ensures result <==> forall k :: 0 <= k <= i ==> old(c[k].Accepts(t))
      ensures result ==> forall n :: n in c ==> (n.Accepts(t) <==> old(n.Accepts(t)))
      ensures result ==> forall k :: 0 <= k <= i ==> c[k].t == t
      decreases i
    {
      if other == null { return true; }
      result := UnifyNofollow(other);
      if result && other.unifyWithLeft != null {
        result := UnifyNofollow(other);
        if result {
          result := UnifyLeft(other.unifyWithLeft, c, i - 1);
        }
      }
    }

    /** Propagates the kind of this node to the last nodes of a chain, from position i up to its right end. */
    method UnifyRight(other: Type?, ghost c: seq<Type>, ghost i: nat) returns (result: bool)
      requires t != UNKNOWN && Linked(c)
      requires i <= |c| && other == if i == |c| then null else c[i]
      modifies this`t, Nodes(c)`t
      ensures t == old(t)
      ensures forall k :: 0 <= k < |c| ==> c[k].t == old(c[k].t) || (old(c[k].t) == UNKNOWN && c[k].t == t && k >= i)
      ensures result <==> forall k :: i <= k < |c| ==> old(c[k].Accepts(t))
      ensures result ==> forall n :: n in c ==> (n.Accepts(t) <==> old(n.Accepts(t)))
      ensures result ==> forall k :: i <= k < |c| ==> c[k].t == t
      decreases |c| - i
    {
      if other == null { return true; }
      result := UnifyNofollow(other);
      if result && other.unifyWithRight != null {
        result := UnifyRight(other.unifyWithRight, c, i + 1);
      }
    }

    /** Looks for a node to the left, this one included, but not at the left end of the chain. */
    method FindLeft(other: Type) returns (found: bool, last: Type)
      requires OnChain()
      ensures found <==> exists k :: 1 <= k <= at && chain[k] == other
      ensures !found ==> last == chain[0]
    {
      last := this;
      ghost var i := at;
      while last.unifyWithLeft != null
        invariant 0 <= i <= at && last == chain[i]
        invariant forall k :: i < k <= at ==> chain[k] != other
        decreases i
      {
        if last == other { return true, last; }
        last, i := last.unifyWithLeft, i - 1;
      }
      found := false;
    }

    /** Looks for a node to the right, this one included, but not at the right end of the chain. */
    method FindRight(other: Type) returns (found: bool, last: Type)
      requires OnChain()
      ensures found <==> exists k :: at <= k < |chain| - 1 && chain[k] == other
      ensures !found ==> last == chain[|chain| - 1]
    {
      last := this;
      ghost var i := at;
      while last.unifyWithRight != null
        invariant at <= i < |chain| && last == chain[i]
        invariant forall k :: at <= k < i ==> chain[k] != other
        decreases |chain| - i
      {
        if last == other { return true, last; }
        last, i := last.unifyWithRight, i + 1;
      }
      found := false;
    }

    /** Both nodes are on one chain and at its two ends, which may be the same node. */
    ghost predicate AtBothEnds(other: Type)
      reads this, other
    {
      chain == other.chain && ((at == 0 && other.at == |chain| - 1) || (other.at == 0 && at == |chain| - 1))
    }

    /** The four searches: they find the partner on the same chain unless the two are its ends. */
    method FindLink(other: Type) returns (linked: bool, left: Type, right: Type)
      requires OnChain() && other.OnChain()
      ensures linked <==> chain == other.chain && !AtBothEnds(other)
      ensures !linked ==> left == other.chain[0] && right == chain[|chain| - 1]
    {
      right := this;
      linked, left := FindLeft(other);
      if linked { return; }
      linked, left := other.FindRight(this);
      if linked { return; }
      linked, left := other.FindLeft(this);
      if linked { return; }
      linked, right := FindRight(other);
    }

    /** Two nodes are on the same chain or their chains share no node. */
    lemma SameOrApart(other: Type)
      requires OnChain() && other.OnChain()
      ensures chain == other.chain ||
              forall j, k :: 0 <= j < |chain| && 0 <= k < |other.chain| ==> chain[j] != other.chain[k]
    {
      if j, k :| 0 <= j < |chain| && 0 <= k < |other.chain| && chain[j] == other.chain[k] {
        assert chain[j].chain == chain && other.chain[k].chain == other.chain;
      }
    }

    lemma ChainsApart(n: Type)
      requires OnChain() && n.OnChain() && n !in chain
      ensures forall m :: m in n.chain ==> m !in chain
    {
      SameOrApart(n);
    }

    /** A node on the chain of this one is on its own chain too, at its own place. */
    lemma NodeOf(n: Type)
      requires OnChain() && n in chain
      ensures n.OnChain() && n.chain == chain
    {
      var k :| 0 <= k < |chain| && chain[k] == n;
      assert chain[k].at == k;
    }

    /** Every node of a chain has the kind or can take it. */
    static ghost predicate AllAccept(c: seq<Type>, k: Kind)
      reads Nodes(c)`t
    {
      forall n :: n in c ==> n.Accepts(k)
    }

    /** The left halves of both chains, that of the other node first. */
    method PropagateLeft(other: Type) returns (ok: bool)
      requires t != UNKNOWN && OnChain() && other.OnChain()
      modifies this`t, Nodes(chain)`t, Nodes(other.chain)`t
      ensures t == old(t)
      ensures forall n :: n in chain || n in other.chain ==> n.t == old(n.t) || n.t == t
      ensures ok ==> forall n :: n in chain || n in other.chain ==> (n.Accepts(t) <==> old(n.Accepts(t)))
      ensures ok ==> forall k :: 0 <= k < at ==> chain[k].t == t
      ensures ok ==> forall k :: 0 <= k < other.at ==> other.chain[k].t == t
      ensures !ok ==> exists n :: (n in chain || n in other.chain) && !old(n.Accepts(t))
    {
      ok := UnifyLeft(other.unifyWithLeft, other.chain, other.at - 1);
      if ok { ok := UnifyLeft(unifyWithLeft, chain, at - 1); }
    }

    /** The right halves of both chains, that of the other node first. */
    method PropagateRight(other: Type) returns (ok: bool)
      requires t != UNKNOWN && OnChain() && other.OnChain()
      modifies this`t, Nodes(chain)`t, Nodes(other.chain)`t
      ensures t == old(t)
      ensures forall n :: n in chain || n in other.chain ==> n.t == old(n.t) || (old(n.t) == UNKNOWN && n.t == t)
      ensures ok ==> forall n :: n in chain || n in other.chain ==> (n.Accepts(t) <==> old(n.Accepts(t)))
      ensures ok ==> forall k :: at < k < |chain| ==> chain[k].t == t
      ensures ok ==> forall k :: other.at < k < |other.chain| ==> other.chain[k].t == t
      ensures !ok ==> exists n :: (n in chain || n in other.chain) && !old(n.Accepts(t))
    {
      ok := UnifyRight(other.unifyWithRight, other.chain, other.at + 1);
      if ok { ok := UnifyRight(unifyWithRight, chain, at + 1); }
    }

    /** The part of unify that spreads a known kind over both chains: it succeeds when all nodes accept it. */
    method Propagate(other: Type) returns (ok: bool)
      requires OnChain() && other.OnChain()
      requires t != UNKNOWN || other.t != UNKNOWN
      modifies Nodes(chain)`t, Nodes(other.chain)`t
      ensures Linked(chain) && Linked(other.chain)
      ensures var k := old(if t != UNKNOWN then t else other.t);
        && (ok <==> old(AllAccept(chain, k) && AllAccept(other.chain, k)))
        && (ok ==> forall n :: n in chain || n in other.chain ==> n.t == k)
    {
      assert this in chain && other in other.chain;
      ok := UnifyNofollow(other);
      if ok { ok := PropagateLeft(other); }
      if ok { ok := PropagateRight(other); }
    }

    /**
      The links of two chains, of which the right end of the first one and the left end of the second one
      are linked.
     */
    static lemma JoinedLinks(c: seq<Type>, d: seq<Type>)
      requires c != [] && d != [] && LeftLinks(c) && RightLinks(d)
      requires d[0].unifyWithLeft == c[|c| - 1] && forall k :: 1 <= k < |d| ==> d[k].unifyWithLeft == d[k - 1]
      requires c[|c| - 1].unifyWithRight == d[0] && forall k :: 0 <= k < |c| - 1 ==> c[k].unifyWithRight == c[k + 1]
      ensures LeftLinks(c + d) && RightLinks(c + d)
    {
    }

    /** Tells all nodes of two chains that they are on the joined one now. */
    static ghost method Renumber(c: seq<Type>, d: seq<Type>)
      requires forall k :: 0 <= k < |c| ==> c[k].at == k && c[k] !in d
      requires forall k :: 0 <= k < |d| ==> d[k].at == k && d[k] !in c
      modifies Nodes(c)`chain, Nodes(d)`chain, Nodes(d)`at
      ensures Placed(c + d)
    {
      forall n | n in Nodes(c) + Nodes(d) { n.chain := c + d; }
      forall i | 0 <= i < |d| { d[i].at := |c| + i; }
    }

    /** Links the right end of this chain to the left end of the other one. */
    method Join(other: Type, left: Type, right: Type)
      requires OnChain() && other.OnChain()
      requires left == other.chain[0] && right == chain[|chain| - 1]
      modifies Nodes(chain)`unifyWithRight, Nodes(other.chain)`unifyWithLeft
      modifies Nodes(chain)`chain, Nodes(other.chain)`chain, Nodes(other.chain)`at
      ensures old(chain == other.chain) ==> chain == other.chain == old(chain)
      ensures old(chain == other.chain) ==> left.unifyWithLeft == right && right.unifyWithRight == left
      ensures old(chain != other.chain) ==> chain == other.chain == old(chain) + old(other.chain)
      ensures old(chain != other.chain) ==> OnChain() && other.OnChain()
    {
      ghost var c, d := chain, other.chain;
      SameOrApart(other);
      left.unifyWithLeft := right;
      right.unifyWithRight := left;
      if c != d {
        JoinedLinks(c, d);
        Renumber(c, d);
        assert (c + d)[at] == this && (c + d)[|c| + old(other.at)] == other;
      }
    }

    /** Neither node has a kind yet, and they sit at the two ends of one chain. */
    ghost predicate ClosesCircle(other: Type)
      reads this, other
    {
      t == UNKNOWN && other.t == UNKNOWN && AtBothEnds(other)
    }

    /** What unify does to two nodes without a kind: it joins their chains unless they are on one already. */
    method UnifyUnknown(other: Type)
      requires OnChain() && other.OnChain()
      modifies Nodes(chain)`unifyWithRight, Nodes(chain)`chain
      modifies Nodes(other.chain)`unifyWithLeft, Nodes(other.chain)`chain, Nodes(other.chain)`at
      ensures old(!AtBothEnds(other)) ==> OnChain() && other.OnChain()
      ensures old(chain == other.chain) ==> chain == other.chain == old(chain)
      ensures old(chain != other.chain) ==> chain == other.chain == old(chain) + old(other.chain)
      ensures old(AtBothEnds(other)) ==>
        chain[0].unifyWithLeft == chain[|chain| - 1] && chain[|chain| - 1].unifyWithRight == chain[0]
    {
      var linked, left, right := FindLink(other);
      if !linked {
        Join(other, left, right);
      }
    }

    /** unify: joins chains without a kind, or spreads the kind that one of the two nodes has. */
    method Unify(other: Type) returns (ok: bool)
      requires OnChain() && other.OnChain()
      modifies Nodes(chain), Nodes(other.chain)
      ensures old(t == UNKNOWN && other.t == UNKNOWN) ==>
        && ok
        && (forall n :: n in old(chain) || n in old(other.chain) ==> n.t == old(n.t))
        && (old(!AtBothEnds(other)) ==> OnChain() && other.OnChain())
        && (chain == other.chain == if old(chain == other.chain) then old(chain) else old(chain) + old(other.chain))
        && (old(AtBothEnds(other)) ==>
              chain[0].unifyWithLeft == chain[|chain| - 1] && chain[|chain| - 1].unifyWithRight == chain[0])
      ensures old(t != UNKNOWN || other.t != UNKNOWN) ==>
        var k := old(if t != UNKNOWN then t else other.t);
        && OnChain() && other.OnChain() && chain == old(chain) && other.chain == old(other.chain)
        && (ok <==> old(AllAccept(chain, k) && AllAccept(other.chain, k)))
        && (ok ==> forall n :: n in chain || n in other.chain ==> n.t == k)
    {
      if t == UNKNOWN && other.t == UNKNOWN {
        UnifyUnknown(other);
        return true;
      }
      ok := Propagate(other);
    }

    /** Every chain of the nodes is well linked, stays among them, and agrees on a kind. */
    static ghost predicate Consistent(world: set<Type>)
      reads world, set n, m | n in world && m in n.chain :: m
    {
      forall n :: n in world ==> n.OnChain() && n.Agreed() && Nodes(n.chain) <= world
    }

    /** A successful unification keeps all chains consistent, unless it closes a circle. */
    method UnifyAmong(other: Type, ghost world: set<Type>) returns (ok: bool)
      requires Consistent(world) && this in world && other in world
      modifies world
      ensures ok && old(!ClosesCircle(other)) ==> Consistent(world)
      ensures ok ==> t == other.t
      ensures old(ClosesCircle(other)) ==> ok && !Consistent(world)
    {
      ghost var c, d := chain, other.chain;
      forall n | n in world && n !in c && n !in d ensures forall m :: m in n.chain ==> m !in c && m !in d {
        ChainsApart(n);
        other.ChainsApart(n);
      }
      ok := Unify(other);
      if ok && old(!ClosesCircle(other)) {
        forall n | n in world ensures n.OnChain() && n.Agreed() && Nodes(n.chain) <= world {
          if n in chain { NodeOf(n); } else if n in other.chain { other.NodeOf(n); }
        }
      }
    }
  }
}
