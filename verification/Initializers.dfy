/**
  The order in which functions are initialized. An initializer may read other functions, so the
  walk initializes those first; it gives up as soon as it meets a defined function twice.
 */
module Initializers {
  import opened Values
  import opened Sequences

  /** For each defined function: the functions that its initializer reads, if any, each named once. */
  type Dependencies = map<string, seq<string>>

  ghost predicate NamedOnce(deps: Dependencies) {
    forall f :: f in deps ==> Distinct(deps[f])
  }

  /** Each name on the path reads the next one. */
  ghost predicate IsPath(deps: Dependencies, p: seq<string>) {
    p != [] && forall i :: 0 <= i < |p| - 1 ==> p[i] in deps && p[i + 1] in deps[p[i]]
  }

  function Last(p: seq<string>): string
    requires p != []
  {
    p[|p| - 1]
  }

  /** Two different paths lead from a function to one that is defined. */
  ghost predicate Forks(deps: Dependencies, root: string, p: seq<string>, q: seq<string>) {
    IsPath(deps, p) && IsPath(deps, q) && p[0] == q[0] == root && Last(p) == Last(q) && Last(q) in deps && p != q
  }

  /** Along dependencies, every defined function is reached on one path only. */
  ghost predicate UniquePaths(deps: Dependencies, root: string) {
    forall p, q :: !Forks(deps, root, p, q)
  }

  /** The visited functions after a walk from a function that was not visited before, or None when it gives up. */
  function Visit(deps: Dependencies, name: string, visited: set<string>): (r: Option<set<string>>)
    requires name !in visited
    ensures r.Some? ==> visited <= r.value
    decreases deps.Keys - visited, 0
  {
    if name in deps then VisitAll(deps, deps[name], visited + {name}) else Some(visited)
  }

  function VisitAll(deps: Dependencies, names: seq<string>, visited: set<string>): (r: Option<set<string>>)
    ensures r.Some? ==> visited <= r.value
    decreases deps.Keys - visited, |names|
  {
    if names == [] then Some(visited)
    else if names[0] in visited then None
    else
      var v := Visit(deps, names[0], visited);
      if v.None? then None else VisitAll(deps, names[1..], v.value)
  }

  // ---- A walk that succeeds has met every function on one path ----

  /** A path from the function ends in a function that is not defined or that the walk has added. */
  lemma {:induction false} PathVisited(deps: Dependencies, name: string, visited: set<string>, p: seq<string>)
    requires name !in visited && Visit(deps, name, visited).Some?
    requires IsPath(deps, p) && p[0] == name && Last(p) in deps
    ensures Last(p) !in visited && Last(p) in Visit(deps, name, visited).value
    decreases deps.Keys - visited, 0
  {
    if |p| > 1 {
      PathVisitedAll(deps, deps[name], visited + {name}, p[1..]);
    }
  }

  lemma {:induction false} PathVisitedAll(deps: Dependencies, names: seq<string>, visited: set<string>, p: seq<string>)
    requires VisitAll(deps, names, visited).Some?
    requires IsPath(deps, p) && p[0] in names && Last(p) in deps
    ensures Last(p) !in visited && Last(p) in VisitAll(deps, names, visited).value
    decreases deps.Keys - visited, |names|
  {
    if p[0] == names[0] {
      PathVisited(deps, names[0], visited, p);
    } else {
      PathVisitedAll(deps, names[1..], Visit(deps, names[0], visited).value, p);
    }
  }

  lemma {:induction false} VisitUnique(deps: Dependencies, name: string, visited: set<string>, p: seq<string>,
                                       q: seq<string>)
    requires name !in visited && Visit(deps, name, visited).Some?
    ensures !Forks(deps, name, p, q)
    decreases deps.Keys - visited, 0
  {
    if Forks(deps, name, p, q) {
      if |p| > 1 { PathVisitedAll(deps, deps[name], visited + {name}, p[1..]); }
      if |q| > 1 { PathVisitedAll(deps, deps[name], visited + {name}, q[1..]); }
      if |p| > 1 && |q| > 1 {
        assert p == [p[0]] + p[1..] && q == [q[0]] + q[1..];
        VisitAllUnique(deps, deps[name], visited + {name}, p[1..], q[1..]);
      }
    }
  }

  lemma {:induction false} VisitAllUnique(deps: Dependencies, names: seq<string>, visited: set<string>,
                                          p: seq<string>, q: seq<string>)
    requires VisitAll(deps, names, visited).Some?
    requires IsPath(deps, p) && IsPath(deps, q) && p[0] in names && q[0] in names
    requires Last(p) == Last(q) && Last(q) in deps
    ensures p == q
    decreases deps.Keys - visited, |names|
  {
    var next := Visit(deps, names[0], visited).value;
    if p[0] == names[0] && q[0] == names[0] {
      VisitUnique(deps, names[0], visited, p, q);
    } else if p[0] == names[0] {
      PathVisited(deps, names[0], visited, p);
      PathVisitedAll(deps, names[1..], next, q);
    } else if q[0] == names[0] {
      PathVisited(deps, names[0], visited, q);
      PathVisitedAll(deps, names[1..], next, p);
    } else {
      VisitAllUnique(deps, names[1..], next, p, q);
    }
  }

  // ---- A walk that gives up has found two paths ----

  /** A path from the root to each visited function, none of which goes through one of the names next. */
  ghost predicate Explained(deps: Dependencies, root: string, visited: set<string>, paths: map<string, seq<string>>,
                            here: seq<string>, names: seq<string>)
  {
    forall f :: f in visited ==>
      && f in deps && f in paths && IsPath(deps, paths[f]) && paths[f][0] == root && Last(paths[f]) == f
      && forall k :: 0 <= k < |names| ==> !(here + [names[k]] <= paths[f])
  }

  /** From a function reached on the path here: explains what the walk adds, or finds two paths to one function. */
  lemma {:induction false} Explain(deps: Dependencies, root: string, visited: set<string>,
                                   paths: map<string, seq<string>>, here: seq<string>, name: string)
    returns (more: map<string, seq<string>>, p: seq<string>, q: seq<string>)
    requires NamedOnce(deps) && name !in visited
    requires IsPath(deps, here) && here[0] == root && Last(here) == name
    requires Explained(deps, root, visited, paths, here[..|here| - 1], [name])
    ensures Visit(deps, name, visited).None? ==> Forks(deps, root, p, q)
    ensures Visit(deps, name, visited).Some? ==>
      Added(deps, root, visited, paths, Visit(deps, name, visited).value, more, here)
    decreases deps.Keys - visited, 0
  {
    assert here[..|here| - 1] + [name] == here;
    if name in deps {
      var known := paths[name := here];
      more, p, q := ExplainAll(deps, root, visited + {name}, known, here, deps[name]);
    } else {
      more, p, q := paths, [], [];
    }
  }

  /** The walk keeps the paths it had and explains each new function by a path through here. */
  ghost predicate Added(deps: Dependencies, root: string, visited: set<string>, paths: map<string, seq<string>>,
                        visited': set<string>, more: map<string, seq<string>>, here: seq<string>)
  {
    && (forall f :: f in visited && f in paths ==> f in more && more[f] == paths[f])
    && (forall f :: f in visited' && f !in visited ==>
          && f in deps && f in more && IsPath(deps, more[f]) && more[f][0] == root && Last(more[f]) == f
          && here <= more[f])
  }

  lemma {:induction false} ExplainAll(deps: Dependencies, root: string, visited: set<string>,
                                      paths: map<string, seq<string>>, here: seq<string>, names: seq<string>)
    returns (more: map<string, seq<string>>, p: seq<string>, q: seq<string>)
    requires NamedOnce(deps) && Distinct(names)
    requires IsPath(deps, here) && here[0] == root && Last(here) in deps
    requires forall k :: 0 <= k < |names| ==> names[k] in deps[Last(here)]
    requires Explained(deps, root, visited, paths, here, names)
    ensures VisitAll(deps, names, visited).None? ==> Forks(deps, root, p, q)
    ensures VisitAll(deps, names, visited).Some? ==>
      Added(deps, root, visited, paths, VisitAll(deps, names, visited).value, more, here)
    decreases deps.Keys - visited, |names|
  {
    if names == [] { return paths, [], []; }
    var there := here + [names[0]];
    assert IsPath(deps, there);
    if names[0] in visited {
      return paths, paths[names[0]], there;
    }
    assert there[..|there| - 1] == here;
    more, p, q := Explain(deps, root, visited, paths, there, names[0]);
    var v := Visit(deps, names[0], visited);
    if v.Some? {
      ExplainedNext(deps, root, visited, paths, v.value, more, here, names);
      var middle := more;
      more, p, q := ExplainAll(deps, root, v.value, middle, here, names[1..]);
      if VisitAll(deps, names, visited).Some? {
        AddedTwice(deps, root, visited, paths, v.value, middle,
                   VisitAll(deps, names, visited).value, more, here, there);
      }
    }
  }

  /** The paths that were added for the first name do not go through the others. */
  lemma ExplainedNext(deps: Dependencies, root: string, visited: set<string>, paths: map<string, seq<string>>,
                      visited': set<string>, more: map<string, seq<string>>, here: seq<string>, names: seq<string>)
    requires Distinct(names) && names != [] && visited <= visited'
    requires Explained(deps, root, visited, paths, here, names)
    requires Added(deps, root, visited, paths, visited', more, here + [names[0]])
    ensures Explained(deps, root, visited', more, here, names[1..])
  {
    forall f, k | f in visited' && 0 <= k < |names[1..]| ensures f in more && !(here + [names[1..][k]] <= more[f]) {
      assert names[1..][k] == names[k + 1] != names[0];
      if f !in visited {
        assert here + [names[0]] <= more[f] && more[f][|here|] == names[0];
      }
    }
  }

  lemma AddedTwice(deps: Dependencies, root: string, visited: set<string>, paths: map<string, seq<string>>,
                   visited': set<string>, middle: map<string, seq<string>>,
                   visited'': set<string>, more: map<string, seq<string>>, here: seq<string>, there: seq<string>)
    requires visited <= visited' && here <= there
    requires Added(deps, root, visited, paths, visited', middle, there)
    requires Added(deps, root, visited', middle, visited'', more, here)
    ensures Added(deps, root, visited, paths, visited'', more, here)
  {
  }

  /** The walk from a function succeeds exactly when all its dependencies are reached on one path each. */
  lemma VisitExact(deps: Dependencies, root: string)
    requires NamedOnce(deps)
    ensures Visit(deps, root, {}).Some? <==> UniquePaths(deps, root)
  {
    if Visit(deps, root, {}).Some? {
      forall p, q ensures !Forks(deps, root, p, q) {
        VisitUnique(deps, root, {}, p, q);
      }
    } else {
      var _, p, q := Explain(deps, root, {}, map[], [root], root);
    }
  }

  /** A cycle that can be reached from the function makes the walk give up. */
  lemma CycleFails(deps: Dependencies, root: string, p: seq<string>, cycle: seq<string>)
    requires IsPath(deps, p) && p[0] == root
    requires IsPath(deps, cycle) && |cycle| > 1 && cycle[0] == Last(cycle) == Last(p)
    ensures Visit(deps, root, {}).None?
  {
    var q := p + cycle[1..];
    assert IsPath(deps, q) by {
      forall i | 0 <= i < |q| - 1 ensures q[i] in deps && q[i + 1] in deps[q[i]] {
        if i >= |p| - 1 {
          assert q[i] == cycle[i - |p| + 1] && q[i + 1] == cycle[i - |p| + 2];
        }
      }
    }
    assert Forks(deps, root, p, q);
    if Visit(deps, root, {}).Some? {
      VisitUnique(deps, root, {}, p, q);
    }
  }

  // ---- The order of initialization ----

  /** Every function comes after the functions that its initializer reads. */
  ghost predicate Ordered(deps: Dependencies, functions: set<string>, order: seq<string>) {
    forall k, d :: 0 <= k < |order| && order[k] in deps && d in deps[order[k]] && d in functions ==> d in order[..k]
  }

  /**
    A dependency of two functions is enough to make the walk give up, although an order exists and there
    is no cycle.
   */
  lemma SharedDependencyFails()
    ensures var deps := map["a" := ["b", "c"], "b" := ["c"], "c" := []];
      && Visit(deps, "a", {}).None?
      && Ordered(deps, {"a", "b", "c"}, ["c", "b", "a"])
  {
    var deps := map["a" := ["b", "c"], "b" := ["c"], "c" := []];
    assert Forks(deps, "a", ["a", "c"], ["a", "b", "c"]);
    if Visit(deps, "a", {}).Some? {
      VisitUnique(deps, "a", {}, ["a", "c"], ["a", "b", "c"]);
    }
    var order := ["c", "b", "a"];
    assert order[..2] == ["c", "b"] && order[..1] == ["c"];
  }

  lemma OrderedMore(deps: Dependencies, functions: set<string>, order: seq<string>, f: string)
    requires Ordered(deps, functions, order)
    requires f in deps ==> forall d :: d in deps[f] && d in functions ==> d in order
    ensures Ordered(deps, functions, order + [f])
  {
    var more := order + [f];
    forall k, d | 0 <= k < |more| && more[k] in deps && d in deps[more[k]] && d in functions ensures d in more[..k] {
      assert more[..k] == order[..k];
      assert order[..|order|] == order;
    }
  }

  class Initializer {
    const deps: Dependencies
    /** The functions of the symbol table. */
    const functions: set<string>
    var initialized: set<string>
    /** The functions in the order of their initialization, which may repeat. */
    ghost var order: seq<string>

    ghost predicate Valid()
      reads this
    {
      && NamedOnce(deps)
      && Ordered(deps, functions, order)
      && (forall f :: f in initialized <==> f in order)
      && initialized <= functions
      && (forall f :: f in initialized ==> UniquePaths(deps, f))
    }

    constructor (deps: Dependencies, functions: set<string>)
      requires NamedOnce(deps)
      ensures Valid() && this.deps == deps && this.functions == functions && initialized == {}
    {
      this.deps, this.functions := deps, functions;
      initialized, order := {}, [];
    }

    /** init_function: the functions that the initializer reads come first. */
    method InitFunction(name: string, visited: set<string>) returns (ok: bool, visited': set<string>)
      requires Valid() && name !in visited
      modifies this
      ensures Valid() && old(initialized) <= initialized && old(order) <= order
      ensures ok <==> Visit(deps, name, visited).Some?
      ensures ok ==> visited' == Visit(deps, name, visited).value
      ensures ok && name in functions ==> name in initialized
      decreases deps.Keys - visited, 0
    {
      visited' := visited;
      if name in deps {
        visited' := visited' + {name};
        ok, visited' := InitAll(deps[name], visited');
        if !ok { return; }
      }
      ok := true;
      if name in functions {
        forall p, q ensures !Forks(deps, name, p, q) {
          VisitUnique(deps, name, visited, p, q);
        }
        OrderedMore(deps, functions, order, name);
        initialized, order := initialized + {name}, order + [name];
      }
    }

    /** The loop of init_function over the functions that one reads. */
    method InitAll(names: seq<string>, visited: set<string>) returns (ok: bool, visited': set<string>)
      requires Valid()
      modifies this
      ensures Valid() && old(initialized) <= initialized && old(order) <= order
      ensures ok <==> VisitAll(deps, names, visited).Some?
      ensures ok ==> visited' == VisitAll(deps, names, visited).value
      ensures ok ==> forall d :: d in names && d in functions ==> d in initialized
      decreases deps.Keys - visited, |names|
    {
      visited' := visited;
      for i := 0 to |names|
        invariant Valid() && old(initialized) <= initialized && old(order) <= order
        invariant visited <= visited'
        invariant VisitAll(deps, names, visited) == VisitAll(deps, names[i..], visited')
        invariant forall d :: d in names[..i] && d in functions ==> d in initialized
      {
        if names[i] in visited' { return false, visited'; }
        ok, visited' := InitFunction(names[i], visited');
        if !ok { return; }
      }
      ok := true;
      assert names[..|names|] == names;
    }

    /** The start of run: all functions are initialized in order, or a dependency that is reached twice is an error. */
    method InitializeAll() returns (ok: bool)
      requires Valid()
      modifies this
      ensures Valid()
      ensures ok <==> forall f :: f in deps ==> UniquePaths(deps, f)
      ensures ok ==> initialized == functions
    {
      var todo := deps.Keys;
      while todo != {}
        invariant Valid() && todo <= deps.Keys
        invariant forall f :: f in deps && f !in todo ==> UniquePaths(deps, f) && (f in functions ==> f in initialized)
        decreases |todo|
      {
        var name :| name in todo;
        if name !in initialized {
          VisitExact(deps, name);
          var done, _ := InitFunction(name, {});
          if !done { return false; }
        }
        todo := todo - {name};
      }
      todo := functions;
      while todo != {}
        invariant Valid() && todo <= functions
        invariant forall f :: f in functions && (f in deps || f !in todo) ==> f in initialized
        decreases |todo|
      {
        var name :| name in todo;
        if name !in initialized {
          var _, _ := InitFunction(name, {});
        }
        todo := todo - {name};
      }
      ok := true;
    }
  }
}
