/**
  What a run in symbolic mode does to the function table and to the layers of pending updates, as a
  function of the actions of its rules: reads that create symbols, writes, forks, merges and steps.
 */
module SymbolicRun {
  import opened Values
  import opened UpdateSet
  import opened ExecutionContext

  /** A function symbol; its id is its position in the symbol table. */
  datatype Function = Function(name: string, isSymbolic: bool, isStatic: bool)

  type Table = map<Location, Value>

  /** What a rule makes the context do, and the end of a step. */
  datatype Action =
    | Read(id: nat, args: seq<Value>)
    | Write(id: nat, args: seq<Value>, value: Value)
    | Fork
    | Merge
    | EndStep

  /** Merges undo forks, steps end with everything merged, and layers fit their 16 bits. */
  predicate Balanced(actions: seq<Action>, depth: nat, functions: nat) {
    actions == [] || (
      match actions[0]
      case Read(id, _) => id < functions && Balanced(actions[1..], depth, functions)
      case Write(id, _, _) => id < functions && Balanced(actions[1..], depth, functions)
      case Fork => depth + 2 < LAYER_RANGE && Balanced(actions[1..], depth + 1, functions)
      case Merge => depth > 0 && Balanced(actions[1..], depth - 1, functions)
      case EndStep => depth == 0 && Balanced(actions[1..], 0, functions)
    )
  }

  /** The depth after an action. */
  function DepthAfter(a: Action, depth: int): int {
    if a.Fork? then depth + 1 else if a.Merge? then depth - 1 else depth
  }

  /** The depth before action k. */
  function Level(actions: seq<Action>, k: nat, depth: int): int
    requires k <= |actions|
  {
    if k == 0 then depth else DepthAfter(actions[k - 1], Level(actions, k - 1, depth))
  }

  /** The action is possible at this depth. */
  predicate Fits(a: Action, level: int, functions: nat) {
    && (a.Read? || a.Write? ==> a.id < functions)
    && (a.Fork? ==> level + 2 < LAYER_RANGE)
    && (a.Merge? ==> level > 0)
    && (a.EndStep? ==> level == 0)
  }

  lemma {:induction false} LevelShifted(actions: seq<Action>, k: nat, depth: int)
    requires 0 < k <= |actions|
    ensures Level(actions, k, depth) == Level(actions[1..], k - 1, DepthAfter(actions[0], depth))
    decreases k
  {
    if k > 1 { LevelShifted(actions, k - 1, depth); }
  }

  /** Actions are balanced exactly when each one fits at its depth. */
  lemma {:induction false} BalancedExact(actions: seq<Action>, depth: nat, functions: nat)
    ensures Balanced(actions, depth, functions) <==>
      forall k :: 0 <= k < |actions| ==> Fits(actions[k], Level(actions, k, depth), functions)
    decreases |actions|
  {
    if actions != [] {
      var rest, next := actions[1..], DepthAfter(actions[0], depth);
      assert Level(actions, 0, depth) == depth;
      forall k | 0 <= k < |rest|
        ensures Fits(rest[k], Level(rest, k, next), functions) <==>
                Fits(actions[k + 1], Level(actions, k + 1, depth), functions)
      {
        LevelShifted(actions, k + 1, depth);
      }
      if Fits(actions[0], depth, functions) {
        BalancedExact(rest, next, functions);
        assert (forall k :: 0 <= k < |actions| ==> Fits(actions[k], Level(actions, k, depth), functions)) <==>
               (forall k :: 0 <= k < |rest| ==> Fits(rest[k], Level(rest, k, next), functions)) by {
          forall k | 0 < k < |actions| ensures actions[k] == rest[k - 1] {
          }
        }
      }
    }
  }

  function Steps(actions: seq<Action>): nat {
    if actions == [] then 0 else (if actions[0].EndStep? then 1 else 0) + Steps(actions[1..])
  }

  /** The table, the pending updates of each layer, the last symbol, and the tables after all steps so far. */
  datatype Machine = Machine(table: Table, layers: seq<Updates>, symbol: nat, tables: seq<Table>)

  function Target(functions: seq<Function>, a: Action): Location
    requires (a.Read? || a.Write?) && a.id < |functions|
  {
    Location(functions[a.id].name, a.args)
  }

  /** The first read of a location of a symbolic function enters it with the next symbol. */
  function Touched(functions: seq<Function>, m: Machine, a: Action): Machine
    requires (a.Read? || a.Write?) && a.id < |functions|
  {
    var l := Target(functions, a);
    if functions[a.id].isSymbolic && l !in m.table
    then m.(table := m.table[l := Symbol(m.symbol + 1)], symbol := m.symbol + 1)
    else m
  }

  /** What a read yields: the value that is visible through the layers. */
  ghost function ValueRead(functions: seq<Function>, m: Machine, a: Action): Value
    requires a.Read? && a.id < |functions| && m.layers != []
  {
    var t := Touched(functions, m, a);
    Lookup(Visible(Defined(t.table), t.layers), Target(functions, a))
  }

  /** The action can be performed at the current depth. */
  ghost predicate Possible(functions: seq<Function>, m: Machine, a: Action) {
    && m.layers != []
    && (a.Read? || a.Write? ==> a.id < |functions|)
    && (a.Merge? ==> |m.layers| >= 2)
  }

  /** One action, unless it is a conflict: a second write in a parallel layer, or overlapping branches. */
  ghost function Act(functions: seq<Function>, m: Machine, a: Action): (r: Option<Machine>)
    requires Possible(functions, m, a)
    ensures r.Some? ==> r.value.layers != []
  {
    match a
    case Read(_, _) => Some(Touched(functions, m, a))
    case Write(_, _, v) =>
      var t, l := Touched(functions, m, a), Target(functions, a);
      if Parallel(t.layers) && l in Top(t.layers) then None
      else Some(t.(table := if l in t.table then t.table else t.table[l := Undef],
                   layers := WithTop(t.layers, Top(t.layers)[l := v])))
    case Fork => Some(m.(layers := m.layers + [map[]]))
    case Merge =>
      if !Parallel(m.layers) && TopOverlaps(m.layers) then None else Some(m.(layers := MergeTop(m.layers)))
    case EndStep =>
      var table := m.table + Top(m.layers);
      Some(m.(table := table, layers := Nothing(|m.layers|), tables := m.tables + [table]))
  }

  ghost function Nothing(n: nat): (layers: seq<Updates>)
    ensures |layers| == n && AllEmpty(layers)
  {
    seq(n, _ => map[])
  }

  lemma NothingLeft(layers: seq<Updates>)
    requires AllEmpty(layers)
    ensures layers == Nothing(|layers|)
  {
  }

  /** All of a list of actions can be performed. */
  ghost predicate AllPossible(functions: seq<Function>, m: Machine, actions: seq<Action>)
    decreases |actions|
  {
    actions == [] ||
    (Possible(functions, m, actions[0]) &&
     (Act(functions, m, actions[0]).Some? ==>
        AllPossible(functions, Act(functions, m, actions[0]).value, actions[1..])))
  }

  /** Any number of actions, up to the first conflict. */
  ghost function Acts(functions: seq<Function>, m: Machine, actions: seq<Action>): (r: Option<Machine>)
    requires AllPossible(functions, m, actions)
    ensures r.Some? && m.layers != [] ==> r.value.layers != []
    decreases |actions|
  {
    if actions == [] then Some(m)
    else
      var next := Act(functions, m, actions[0]);
      if next.None? then None else Acts(functions, next.value, actions[1..])
  }

  /** The values that the reads yield, in order. */
  ghost function ValuesRead(functions: seq<Function>, m: Machine, actions: seq<Action>): seq<Value>
    requires AllPossible(functions, m, actions)
    decreases |actions|
  {
    if actions == [] then []
    else
      var next := Act(functions, m, actions[0]);
      (if actions[0].Read? then [ValueRead(functions, m, actions[0])] else []) +
      (if next.None? then [] else ValuesRead(functions, next.value, actions[1..]))
  }

  lemma ActsAfter(functions: seq<Function>, m: Machine, actions: seq<Action>, next: Option<Machine>)
    requires actions != [] && AllPossible(functions, m, actions) && Act(functions, m, actions[0]) == next
    ensures next.Some? ==> AllPossible(functions, next.value, actions[1..])
    ensures Acts(functions, m, actions) == if next.None? then None else Acts(functions, next.value, actions[1..])
    ensures ValuesRead(functions, m, actions)
      == (if actions[0].Read? then [ValueRead(functions, m, actions[0])] else [])
       + (if next.None? then [] else ValuesRead(functions, next.value, actions[1..]))
  {
  }

  lemma BalancedAfter(actions: seq<Action>, depth: nat, functions: nat)
    requires actions != [] && Balanced(actions, depth, functions)
    ensures Balanced([actions[0]], depth, functions) && DepthAfter(actions[0], depth) >= 0
    ensures Balanced(actions[1..], DepthAfter(actions[0], depth), functions)
    ensures Steps(actions) == Steps([actions[0]]) + Steps(actions[1..])
  {
  }

  /** Balanced actions can be performed. */
  lemma {:induction false} BalancedPossible(functions: seq<Function>, m: Machine, actions: seq<Action>, base: nat,
                                            depth: nat)
    requires Balanced(actions, depth, |functions|) && |m.layers| == base + depth + 1
    ensures AllPossible(functions, m, actions)
    decreases |actions|
  {
    if actions != [] {
      var a := actions[0];
      var next := Act(functions, m, a);
      if next.Some? {
        BalancedPossible(functions, next.value, actions[1..], base, DepthAfter(a, depth));
      }
    }
  }

  // ---- Flat steps ----

  /** Reads and writes only. */
  predicate Flat(functions: seq<Function>, actions: seq<Action>) {
    forall a :: a in actions ==> (a.Read? || a.Write?) && a.id < |functions|
  }

  /** The last value that is written to a location, if any. */
  function LastWritten(functions: seq<Function>, actions: seq<Action>, l: Location): Option<Value>
    requires Flat(functions, actions)
  {
    if actions == [] then None
    else
      var later := LastWritten(functions, actions[1..], l);
      if later.Some? then later
      else if actions[0].Write? && Target(functions, actions[0]) == l then Some(actions[0].value)
      else None
  }

  lemma {:induction false} FlatPossible(functions: seq<Function>, m: Machine, actions: seq<Action>)
    requires Flat(functions, actions) && m.layers != []
    ensures AllPossible(functions, m, actions)
    decreases |actions|
  {
    if actions != [] {
      var next := Act(functions, m, actions[0]);
      if next.Some? { FlatPossible(functions, next.value, actions[1..]); }
    }
  }

  /** Without forks, the current layer holds for each location what was written to it last. */
  lemma {:induction false} FlatPending(functions: seq<Function>, m: Machine, actions: seq<Action>, l: Location)
    requires Flat(functions, actions) && m.layers != [] && AllPossible(functions, m, actions)
    requires Acts(functions, m, actions).Some?
    ensures var m', w := Acts(functions, m, actions).value, LastWritten(functions, actions, l);
      && |m'.layers| == |m.layers| && m'.tables == m.tables
      && (forall n :: 0 <= n < |m.layers| - 1 ==> m'.layers[n] == m.layers[n])
      && (l in Top(m'.layers) <==> w.Some? || l in Top(m.layers))
      && (l in Top(m'.layers) ==> Top(m'.layers)[l] == if w.Some? then w.value else Top(m.layers)[l])
    decreases |actions|
  {
    if actions != [] {
      FlatPending(functions, Act(functions, m, actions[0]).value, actions[1..], l);
    }
  }

  /** And without forks a sequential layer has no conflict. */
  lemma {:induction false} FlatSequential(functions: seq<Function>, m: Machine, actions: seq<Action>)
    requires Flat(functions, actions) && m.layers != [] && AllPossible(functions, m, actions)
    requires !Parallel(m.layers)
    ensures Acts(functions, m, actions).Some?
    decreases |actions|
  {
    if actions != [] {
      FlatSequential(functions, Act(functions, m, actions[0]).value, actions[1..]);
    }
  }

  /** What is in the table keeps its value until the end of the step; what enters it is undef or a symbol. */
  lemma {:induction false} FlatTable(functions: seq<Function>, m: Machine, actions: seq<Action>, l: Location)
    requires Flat(functions, actions) && m.layers != [] && AllPossible(functions, m, actions)
    requires Acts(functions, m, actions).Some?
    ensures var m' := Acts(functions, m, actions).value;
      && (l in m.table ==> l in m'.table && m'.table[l] == m.table[l])
      && (l in m'.table && l !in m.table ==> m'.table[l].Undef? || m'.table[l].Symbol?)
      && (LastWritten(functions, actions, l).Some? ==> l in m'.table)
    decreases |actions|
  {
    if actions != [] {
      FlatTable(functions, Act(functions, m, actions[0]).value, actions[1..], l);
    }
  }

  /**
    A step of reads and writes that began with nothing pending: afterwards a location holds the last
    value that was written to it, and other locations hold what they held.
   */
  lemma FlatStep(functions: seq<Function>, m: Machine, actions: seq<Action>, l: Location)
    requires Flat(functions, actions) && m.layers != [] && AllEmpty(m.layers)
    requires AllPossible(functions, m, actions) && Acts(functions, m, actions).Some?
    ensures var m' := Act(functions, Acts(functions, m, actions).value, EndStep).value;
      var w := LastWritten(functions, actions, l);
      && AllEmpty(m'.layers) && m'.tables == m.tables + [m'.table]
      && (w.Some? ==> l in m'.table && m'.table[l] == w.value)
      && (w.None? && l in m.table ==> l in m'.table && m'.table[l] == m.table[l])
      && (w.None? && l !in m.table && l in m'.table ==> m'.table[l].Undef? || m'.table[l].Symbol?)
  {
    FlatPending(functions, m, actions, l);
    FlatTable(functions, m, actions, l);
  }
}
