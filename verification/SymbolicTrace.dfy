/**
  The timeline of symbolic mode. Reading a location of a symbolic function for the first time
  creates a symbol for it; the traces then state one fact per location and time, and a location
  that is created late gets the facts of the past at its creation.
 */
module SymbolicTrace {
  import opened Values
  import opened Sequences
  import opened UpdateSet
  import opened ExecutionContext
  import opened SymbolicRun

  datatype Tag = Created | CaughtUp | Untouched | Updated

  /** The location has the value after the given time. */
  datatype Fact = Fact(loc: Location, time: nat, value: Value, tag: Tag)

  /** The values that the facts state for a location and a time, in the order of the trace. */
  function About(facts: seq<Fact>, l: Location, t: nat): seq<Value> {
    if facts == [] then []
    else
      var last := facts[|facts| - 1];
      About(facts[..|facts| - 1], l, t) + if last.loc == l && last.time == t then [last.value] else []
  }

  lemma AboutMore(facts: seq<Fact>, f: Fact, l: Location, t: nat)
    ensures About(facts + [f], l, t) == About(facts, l, t) + if f.loc == l && f.time == t then [f.value] else []
  {
    assert (facts + [f])[..|facts|] == facts;
  }

  /** One of the functions from position 1 up to, excluding, n is symbolic, not static, and owns the location. */
  ghost predicate RecordedBelow(functions: seq<Function>, l: Location, n: nat)
    requires n <= |functions|
  {
    n > 1 && ((functions[n - 1].name == l.func && Records(functions[n - 1])) || RecordedBelow(functions, l, n - 1))
  }

  predicate Records(f: Function) {
    f.isSymbolic && !f.isStatic
  }

  ghost predicate Recorded(functions: seq<Function>, l: Location) {
    RecordedBelow(functions, l, |functions|)
  }

  /** The symbol table: unique names, and `program` as the first function. */
  ghost predicate SymbolTable(functions: seq<Function>) {
    functions != [] && forall i, j :: 0 <= i < j < |functions| ==> functions[i].name != functions[j].name
  }

  lemma {:induction false} RecordedBelowById(functions: seq<Function>, l: Location, id: nat, n: nat)
    requires SymbolTable(functions) && id < |functions| && functions[id].name == l.func && n <= |functions|
    ensures RecordedBelow(functions, l, n) <==> 1 <= id < n && Records(functions[id])
  {
    if n > 1 {
      RecordedBelowById(functions, l, id, n - 1);
    }
  }

  /** With unique names the id of a location's function decides whether the location is recorded. */
  lemma RecordedById(functions: seq<Function>, l: Location, id: nat)
    requires SymbolTable(functions) && id < |functions| && functions[id].name == l.func
    ensures Recorded(functions, l) <==> id >= 1 && functions[id].isSymbolic && !functions[id].isStatic
  {
    RecordedBelowById(functions, l, id, |functions|);
  }

  /** What the traces must state about a location: its value in the history, and nothing outside of it. */
  ghost function Expected(history: seq<Table>, l: Location, t: nat): seq<Value> {
    if 1 <= t <= |history| && l in history[t - 1] then [history[t - 1][l]] else []
  }

  /** Every recorded location has exactly one fact per past time, with the value of the history. */
  ghost predicate Timeline(functions: seq<Function>, creates: seq<Fact>, trace: seq<Fact>, history: seq<Table>) {
    forall l, t: nat {:trigger About(creates, l, t)} {:trigger About(trace, l, t)} {:trigger Expected(history, l, t)} ::
      Recorded(functions, l) ==> About(creates, l, t) + About(trace, l, t) == Expected(history, l, t)
  }

  /** The history knows exactly the recorded locations of the table, and ends in the table's values. */
  ghost predicate EndsIn(functions: seq<Function>, history: seq<Table>, table: Table) {
    && history != []
    && (forall k, l :: 0 <= k < |history| && Recorded(functions, l) ==> (l in history[k] <==> l in table))
    && (forall l :: Recorded(functions, l) && l in table ==> history[|history| - 1][l] == table[l])
  }

  /**
    The history against the tables, of which the first is the initial one and each step has left one
    more: a location has the value of the table, or, when the table does not have it yet, the symbol
    with which it was created later.
   */
  ghost predicate Faithful(functions: seq<Function>, history: seq<Table>, tables: seq<Table>) {
    && |history| == |tables| > 0
    && (forall k, l :: 0 <= k < |tables| && Recorded(functions, l) && l in tables[k] ==>
          l in history[k] && history[k][l] == tables[k][l])
    && (forall k, l :: 0 <= k < |tables| && Recorded(functions, l) && l in history[k] && l !in tables[k] ==>
          l in history[0] && history[0][l].Symbol? && history[k][l] == history[0][l])
  }

  /** Tables never lose a location. */
  ghost predicate Grown(tables: seq<Table>, table: Table) {
    forall k, l :: 0 <= k < |tables| && l in tables[k] ==> l in table
  }

  /** The history after a location has been created with a value that holds for all of the past. */
  ghost function Backdated(history: seq<Table>, l: Location, v: Value): (h: seq<Table>)
    ensures |h| == |history| && forall k :: 0 <= k < |h| ==> h[k] == history[k][l := v]
  {
    seq(|history|, k requires 0 <= k < |history| => history[k][l := v])
  }

  /** Creating a location keeps the history faithful to the tables of the past, which do not have it. */
  lemma BackdatedFaithful(functions: seq<Function>, history: seq<Table>, tables: seq<Table>, l: Location, v: Value)
    requires Faithful(functions, history, tables) && v.Symbol?
    requires forall k :: 0 <= k < |tables| ==> l !in tables[k]
    ensures Faithful(functions, Backdated(history, l, v), tables)
  {
    var h: seq<Table> := Backdated(history, l, v);
    forall k: int, l': Location | 0 <= k < |tables| && Recorded(functions, l') && l' in h[k] && l' !in tables[k]
      ensures l' in h[0] && h[0][l'].Symbol? && h[k][l'] == h[0][l']
    {
      assert l' != l ==> l' in history[k];
    }
  }

  /** creates' states one more value for a location, at every time before the current one. */
  ghost predicate CreatedSince(creates: seq<Fact>, creates': seq<Fact>, l: Location, v: Value, time: nat) {
    forall l', t: nat {:trigger About(creates', l', t)} ::
      About(creates', l', t) == About(creates, l', t) + if l' == l && 1 <= t < time then [v] else []
  }

  /** The facts that catch up with the first n times. */
  function CatchUps(l: Location, v: Value, n: nat): (facts: seq<Fact>)
    ensures |facts| == n && forall k :: 0 <= k < n ==> facts[k] == Fact(l, k + 1, v, CaughtUp)
  {
    if n == 0 then [] else CatchUps(l, v, n - 1) + [Fact(l, n, v, CaughtUp)]
  }

  /** creates' states one more value for a location, at the last time and at every time before i. */
  ghost predicate CreatedUpTo(creates: seq<Fact>, creates': seq<Fact>, l: Location, v: Value, i: nat, time: nat) {
    forall l', t: nat {:trigger About(creates', l', t)} ::
      About(creates', l', t) == About(creates, l', t) + if l' == l && (1 <= t < i || t == time - 1) then [v] else []
  }

  lemma CreatedFirst(creates: seq<Fact>, l: Location, v: Value, time: nat)
    requires time >= 2
    ensures CreatedUpTo(creates, creates + [Fact(l, time - 1, v, Created)], l, v, 1, time)
  {
    forall l', t: nat { AboutMore(creates, Fact(l, time - 1, v, Created), l', t); }
  }

  lemma CreatedNext(creates: seq<Fact>, creates': seq<Fact>, l: Location, v: Value, i: nat, time: nat)
    requires CreatedUpTo(creates, creates', l, v, i, time) && 1 <= i < time - 1
    ensures CreatedUpTo(creates, creates' + [Fact(l, i, v, CaughtUp)], l, v, i + 1, time)
  {
    forall l', t: nat { AboutMore(creates', Fact(l, i, v, CaughtUp), l', t); }
  }

  lemma ExpectedBackdated(history: seq<Table>, l: Location, v: Value, l': Location, t: nat)
    ensures Expected(Backdated(history, l, v), l', t)
         == if l' == l && 1 <= t <= |history| then [v] else Expected(history, l', t)
  {
  }

  /** A created location makes the traces state what the backdated history demands. */
  lemma TimelineCreated(functions: seq<Function>, creates: seq<Fact>, creates': seq<Fact>, trace: seq<Fact>,
                        history: seq<Table>, l: Location, v: Value)
    requires Timeline(functions, creates, trace, history)
    requires forall k :: 0 <= k < |history| && Recorded(functions, l) ==> l !in history[k]
    requires CreatedSince(creates, creates', l, v, |history| + 1)
    ensures Timeline(functions, creates', trace, Backdated(history, l, v))
  {
    forall l', t: nat | Recorded(functions, l')
      ensures About(creates', l', t) + About(trace, l', t) == Expected(Backdated(history, l, v), l', t)
    {
      ExpectedBackdated(history, l, v, l', t);
      CreatedAbout(functions, creates, creates', trace, history, l, v, l', t);
    }
  }

  lemma CreatedAbout(functions: seq<Function>, creates: seq<Fact>, creates': seq<Fact>, trace: seq<Fact>,
                     history: seq<Table>, l: Location, v: Value, l': Location, t: nat)
    requires Timeline(functions, creates, trace, history) && Recorded(functions, l')
    requires forall k :: 0 <= k < |history| && Recorded(functions, l) ==> l !in history[k]
    requires CreatedSince(creates, creates', l, v, |history| + 1)
    ensures About(creates', l', t) + About(trace, l', t)
         == if l' == l && 1 <= t <= |history| then [v] else Expected(history, l', t)
  {
    assert About(creates, l', t) + About(trace, l', t) == Expected(history, l', t);
    if l' == l && 1 <= t <= |history| {
      assert About(creates, l', t) + About(trace, l', t) == [];
      assert About(creates, l', t) == [] && About(trace, l', t) == [];
      assert About(creates', l', t) == [v];
    } else {
      assert About(creates', l', t) == About(creates, l', t);
    }
  }

  lemma EndsInCreated(functions: seq<Function>, history: seq<Table>, table: Table, l: Location, v: Value)
    requires EndsIn(functions, history, table)
    ensures EndsIn(functions, Backdated(history, l, v), table[l := v])
  {
  }

  /** trace' states, for the given time, the table's value of every location in a set, and nothing else new. */
  ghost predicate DumpedSince(trace: seq<Fact>, trace': seq<Fact>, table: Table, locs: set<Location>, time: nat) {
    forall l, t: nat {:trigger About(trace', l, t)} ::
      About(trace', l, t) == About(trace, l, t) + if t == time && l in locs && l in table then [table[l]] else []
  }

  /** The facts added to a trace are of the given time, and their tags tell which locations were updated. */
  ghost predicate Tagged(trace: seq<Fact>, trace': seq<Fact>, updated: set<Location>, time: nat) {
    && trace <= trace'
    && forall i :: |trace| <= i < |trace'| ==>
      trace'[i].time == time && trace'[i].tag == if trace'[i].loc in updated then Updated else Untouched
  }

  lemma TaggedOneMore(trace: seq<Fact>, trace': seq<Fact>, updated: set<Location>, time: nat, f: Fact)
    requires Tagged(trace, trace', updated, time)
    requires f.time == time && f.tag == if f.loc in updated then Updated else Untouched
    ensures Tagged(trace, trace' + [f], updated, time)
  {
  }

  /** Taking one location off the list of those to do. */
  lemma OneLess(all: set<Location>, todo: set<Location>, skipped: set<Location>, l: Location)
    requires todo <= all && l in todo
    ensures all - (todo - {l}) - skipped == all - todo - skipped + if l in skipped then {} else {l}
  {
  }

  lemma DumpedOneMore(trace: seq<Fact>, trace': seq<Fact>, table: Table, locs: set<Location>, time: nat, f: Fact)
    requires DumpedSince(trace, trace', table, locs, time)
    requires f.loc !in locs && f.loc in table && f.value == table[f.loc] && f.time == time
    ensures DumpedSince(trace, trace' + [f], table, locs + {f.loc}, time)
  {
    forall l, t: nat
      ensures About(trace' + [f], l, t)
           == About(trace, l, t) + if t == time && l in locs + {f.loc} && l in table then [table[l]] else []
    {
      AboutMore(trace', f, l, t);
    }
  }

  lemma DumpedTwice(trace: seq<Fact>, trace': seq<Fact>, trace'': seq<Fact>, table: Table, s: set<Location>,
                    s': set<Location>, time: nat)
    requires DumpedSince(trace, trace', table, s, time) && DumpedSince(trace', trace'', table, s', time)
    requires s !! s'
    ensures DumpedSince(trace, trace'', table, s + s', time)
  {
    forall l, t: nat
      ensures About(trace'', l, t)
           == About(trace, l, t) + if t == time && l in s + s' && l in table then [table[l]] else []
    {
      assert About(trace', l, t) == About(trace, l, t) + if t == time && l in s && l in table then [table[l]] else [];
    }
  }

  /** The facts of one more time extend the timeline by the table of that time. */
  lemma TimelineDumped(functions: seq<Function>, creates: seq<Fact>, trace: seq<Fact>, trace': seq<Fact>,
                       history: seq<Table>, table: Table, locs: set<Location>)
    requires Timeline(functions, creates, trace, history)
    requires DumpedSince(trace, trace', table, locs, |history| + 1)
    requires forall l :: l in table ==> (l in locs <==> Recorded(functions, l))
    ensures Timeline(functions, creates, trace', history + [table])
  {
    forall l, t: nat | Recorded(functions, l)
      ensures About(creates, l, t) + About(trace', l, t) == Expected(history + [table], l, t)
    {
      assert About(creates, l, t) + About(trace, l, t) == Expected(history, l, t);
    }
  }

  lemma FaithfulDumped(functions: seq<Function>, history: seq<Table>, tables: seq<Table>, before: Table, table: Table)
    requires EndsIn(functions, history, before) && Faithful(functions, history, tables)
    requires before.Keys == table.Keys && Grown(tables, before)
    ensures EndsIn(functions, history + [table], table) && Faithful(functions, history + [table], tables + [table])
    ensures Grown(tables + [table], table)
  {
    assert forall k :: 0 <= k < |history| ==> (history + [table])[k] == history[k];
    assert forall l :: l in before <==> l in table;
  }

  /** Nothing is pending below the base layer, which is layer 0 or 1. */
  ghost predicate Based(layers: seq<Updates>, base: nat) {
    base < |layers| && base <= 1 && forall i :: 0 <= i < base ==> layers[i] == map[]
  }

  /** What the traces tell is complete and faithful. */
  ghost predicate Told(functions: seq<Function>, creates: seq<Fact>, trace: seq<Fact>, history: seq<Table>,
                       tables: seq<Table>, table: Table)
  {
    && Timeline(functions, creates, trace, history)
    && EndsIn(functions, history, table)
    && Faithful(functions, history, tables)
    && Grown(tables, table)
  }

  /** One more step, with a fact for every recorded location. */
  lemma ToldDumped(functions: seq<Function>, creates: seq<Fact>, trace: seq<Fact>, trace': seq<Fact>,
                   history: seq<Table>, tables: seq<Table>, before: Table, table: Table, locs: set<Location>)
    requires Told(functions, creates, trace, history, tables, before) && before.Keys == table.Keys
    requires DumpedSince(trace, trace', table, locs, |history| + 1)
    requires forall l :: l in table ==> (l in locs <==> Recorded(functions, l))
    ensures Told(functions, creates, trace', history + [table], tables + [table], table)
  {
    TimelineDumped(functions, creates, trace, trace', history, table, locs);
    FaithfulDumped(functions, history, tables, before, table);
  }

  /** One more location, whose symbol goes back to the beginning. */
  lemma ToldCreated(functions: seq<Function>, creates: seq<Fact>, creates': seq<Fact>, trace: seq<Fact>,
                    history: seq<Table>, tables: seq<Table>, table: Table, l: Location, v: Value)
    requires Told(functions, creates, trace, history, tables, table) && l !in table && v.Symbol?
    requires CreatedSince(creates, creates', l, v, |history| + 1)
    ensures Told(functions, creates', trace, Backdated(history, l, v), tables, table[l := v])
  {
    TimelineCreated(functions, creates, creates', trace, history, l, v);
    BackdatedFaithful(functions, history, tables, l, v);
    EndsInCreated(functions, history, table, l, v);
  }

  /** One more location of the initial table, before the first step. */
  lemma ToldInitialized(functions: seq<Function>, creates: seq<Fact>, creates': seq<Fact>, trace: seq<Fact>,
                        history: seq<Table>, tables: seq<Table>, table: Table, l: Location, v: Value)
    requires Told(functions, creates, trace, history, tables, table) && l !in table && |tables| == 1
    requires CreatedSince(creates, creates', l, v, |history| + 1)
    ensures Told(functions, creates', trace, Backdated(history, l, v), [tables[0][l := v]], table[l := v])
  {
    TimelineCreated(functions, creates, creates', trace, history, l, v);
    EndsInCreated(functions, history, table, l, v);
  }

  /** One more location of the initial table, of a function that is not recorded. */
  lemma ToldUnrecorded(functions: seq<Function>, creates: seq<Fact>, trace: seq<Fact>, history: seq<Table>,
                       tables: seq<Table>, table: Table, l: Location, v: Value)
    requires Told(functions, creates, trace, history, tables, table) && !Recorded(functions, l) && |tables| == 1
    ensures Told(functions, creates, trace, history, [tables[0][l := v]], table[l := v])
  {
  }

  class SymbolicContext {
    const context: ExecutionContext
    const functions: seq<Function>
    var creates: seq<Fact>
    var trace: seq<Fact>
    var time: nat
    var lastSymbol: nat
    /** The value of each recorded location after each time so far, from time 1 on. */
    ghost var history: seq<Table>
    /** The initial function table, and the table as each step has left it. */
    ghost var tables: seq<Table>

    ghost predicate Valid()
      reads this, context, context.updateset
    {
      context.Valid() && Recording()
    }

    /** The traces are complete with respect to the function tables. */
    ghost predicate Recording()
      reads this, context`functionStates
    {
      && SymbolTable(functions)
      && time == |history| + 1
      && Told(functions, creates, trace, history, tables, context.functionStates)
    }

    constructor (base: nat, functions: seq<Function>)
      requires base <= 1 && SymbolTable(functions)
      ensures Valid() && time == 2 && tables == [map[]] && this.functions == functions
      ensures context.pseudostate == base && AllEmpty(context.Layers()) && fresh(context) && fresh(context.updateset)
    {
      context := new ExecutionContext(base);
      this.functions := functions;
      creates, trace := [], [];
      time, lastSymbol := 2, 1;
      history, tables := [map[]], [map[]];
    }

    /** The location of a function and its arguments. */
    function LocationOf(id: nat, args: seq<Value>): Location
      requires id < |functions|
    {
      Location(functions[id].name, args)
    }

    /** The facts about a created location. */
    function Creation(l: Location, v: Value): seq<Fact>
      requires time >= 2
      reads this`time
    {
      [Fact(l, time - 1, v, Created)] + CatchUps(l, v, time - 2)
    }

    /** dump_create: a fact for the time before the current one, and one for each time before that. */
    method DumpCreate(l: Location, v: Value)
      requires time >= 2
      modifies this`creates
      ensures CreatedSince(old(creates), creates, l, v, time)
      ensures creates == old(creates) + Creation(l, v)
    {
      ghost var before := creates;
      CreatedFirst(before, l, v, time);
      creates := creates + [Fact(l, time - 1, v, Created)];
      if time > 2 {
        var i := 1;
        while i < time - 1
          invariant 1 <= i <= time - 1
          invariant creates == before + [Fact(l, time - 1, v, Created)] + CatchUps(l, v, i - 1)
          invariant CreatedUpTo(before, creates, l, v, i, time)
        {
          CreatedNext(before, creates, l, v, i, time);
          creates := creates + [Fact(l, i, v, CaughtUp)];
          i := i + 1;
        }
      }
      assert creates == before + Creation(l, v);
    }

    /** Adds a location with a symbol that it is taken to have had from the beginning. */
    method Create(id: nat, args: seq<Value>, v: Value)
      requires Valid() && id < |functions| && LocationOf(id, args) !in context.functionStates
      requires functions[id].isSymbolic && v.Symbol?
      modifies this`creates, this`history, context`functionStates, context`addresses, context`nextAddress
      ensures Valid() && context.Layers() == old(context.Layers())
      ensures context.functionStates == old(context.functionStates)[LocationOf(id, args) := v]
      ensures creates == old(creates) + Creation(LocationOf(id, args), v)
    {
      var l := LocationOf(id, args);
      ghost var creates0, table := creates, context.functionStates;
      context.Emplace(l, v);
      DumpCreate(l, v);
      ToldCreated(functions, creates0, creates, trace, history, tables, table, l, v);
      history := Backdated(history, l, v);
    }

    /** The body of the initializer loop of init_function; an argument tuple is initialized only once. */
    method Initialize(id: nat, args: seq<Value>, v: Value) returns (alreadyInitialized: bool)
      requires Valid() && id < |functions| && time == 2
      modifies this`creates, this`history, this`tables
      modifies context`functionStates, context`addresses, context`nextAddress
      ensures Valid() && context.Layers() == old(context.Layers())
      ensures alreadyInitialized <==> LocationOf(id, args) in old(context.functionStates)
      ensures alreadyInitialized ==> tables == old(tables) && context.functionStates == old(context.functionStates)
      ensures !alreadyInitialized ==>
        && tables == [old(tables)[0][LocationOf(id, args) := v]]
        && context.functionStates == old(context.functionStates)[LocationOf(id, args) := v]
      ensures creates == old(creates) +
        if alreadyInitialized || !functions[id].isSymbolic then [] else Creation(LocationOf(id, args), v)
    {
      var l := LocationOf(id, args);
      alreadyInitialized := l in context.functionStates;
      if alreadyInitialized { return; }
      ghost var creates0, table := creates, context.functionStates;
      context.Emplace(l, v);
      if functions[id].isSymbolic {
        DumpCreate(l, v);
        ToldInitialized(functions, creates0, creates, trace, history, tables, table, l, v);
        history := Backdated(history, l, v);
      } else {
        RecordedById(functions, l, id);
        ToldUnrecorded(functions, creates, trace, history, tables, table, l, v);
      }
      tables := [tables[0][l := v]];
    }

    /** get_function_value: the first read of a location of a symbolic function gives it a new symbol. */
    method GetFunctionValue(id: nat, args: seq<Value>) returns (v: Value)
      requires Valid() && id < |functions|
      modifies this`creates, this`history, this`lastSymbol
      modifies context`functionStates, context`addresses, context`nextAddress
      ensures Valid() && context.Layers() == old(context.Layers())
      ensures v == Lookup(Visible(context.Committed(), context.Layers()), LocationOf(id, args))
      ensures functions[id].isSymbolic ==> LocationOf(id, args) in context.functionStates
      ensures context.functionStates ==
        if functions[id].isSymbolic && LocationOf(id, args) !in old(context.functionStates)
        then old(context.functionStates)[LocationOf(id, args) := Symbol(lastSymbol)] else old(context.functionStates)
      ensures lastSymbol == old(lastSymbol) + if context.functionStates == old(context.functionStates) then 0 else 1
      ensures creates == old(creates) +
        if context.functionStates == old(context.functionStates) then []
        else Creation(LocationOf(id, args), Symbol(lastSymbol))
    {
      var l := LocationOf(id, args);
      if l !in context.functionStates && functions[id].isSymbolic {
        context.MissingNotPending(l, 0);
        lastSymbol := lastSymbol + 1;
        Create(id, args, Symbol(lastSymbol));
        UntouchedVisible(context.Committed(), context.Layers(), l);
        return Symbol(lastSymbol);
      }
      v := context.GetFunctionValue(l);
    }

    /** walk_update: a location of a symbolic function is read, and thereby created, before it is updated. */
    method Update(id: nat, args: seq<Value>, v: Value) returns (conflict: bool)
      requires Valid() && id < |functions|
      modifies this`creates, this`history, this`lastSymbol, context, context.updateset
      ensures Valid() && context.pseudostate == old(context.pseudostate)
      ensures conflict <==> Parallel(old(context.Layers())) && LocationOf(id, args) in Top(old(context.Layers()))
      ensures !conflict ==>
        context.Layers() == WithTop(old(context.Layers()), Top(old(context.Layers()))[LocationOf(id, args) := v])
      ensures var l, table := LocationOf(id, args), old(context.functionStates);
        if functions[id].isSymbolic && l !in table
        then lastSymbol == old(lastSymbol) + 1 && context.functionStates == table[l := Symbol(lastSymbol)]
        else lastSymbol == old(lastSymbol) && context.functionStates == if l in table then table else table[l := Undef]
    {
      var l := LocationOf(id, args);
      if functions[id].isSymbolic {
        var _ := GetFunctionValue(id, args);
      }
      RecordedById(functions, l, id);
      conflict := context.AddUpdate(l, v);
    }

    /** The locations that the update list holds, from its tail to its head. */
    method UpdatedKeys() returns (keys: seq<Location>)
      requires context.Valid() && OnlyTop(context.Layers())
      ensures forall l :: l in keys <==> l in Top(context.Layers())
      ensures forall i, j :: 0 <= i < j < |keys| ==> keys[i] != keys[j]
    {
      keys := [];
      ghost var bs, m, p := context.updateset.buckets, context.updateset.contents, context.pseudostate;
      BaseLayerOnly(m, context.addresses, p);
      OneEntryPerLocation(bs, m, context.addresses, p);
      var i: nat := |context.updateset.buckets|;
      while i > 0
        invariant i <= |bs| && |keys| == |bs| - i
        invariant forall k :: 0 <= k < |keys| ==> keys[k] == bs[|bs| - 1 - k].update.loc
      {
        i := i - 1;
        keys := keys + [context.updateset.buckets[i].update.loc];
      }
      forall l ensures l in keys <==> l in Top(context.Layers()) {
        if l in keys {
          var k :| 0 <= k < |keys| && keys[k] == l;
          assert bs[|bs| - 1 - k].update.loc == l;
          TouchedInLayer(bs, m, context.addresses, p, l);
        }
        if l in Top(context.Layers()) {
          var t := BucketOf(bs, m, context.addresses, p, l);
          assert keys[|bs| - 1 - t] == l;
        }
      }
    }

    /** The locations in the map of one function. */
    function Map(name: string): set<Location>
      reads context`functionStates
    {
      set l | l in context.functionStates && l.func == name
    }

    /** dump_symbolic for each location of a function that no update mentions, in no particular order. */
    method DumpUntouched(name: string, keys: seq<Location>)
      modifies this`trace
      ensures DumpedSince(old(trace), trace, context.functionStates, Map(name) - Set(keys), time)
      ensures Tagged(old(trace), trace, Set(keys), time)
    {
      var todo := Map(name);
      while todo != {}
        invariant todo <= Map(name) && Tagged(old(trace), trace, Set(keys), time)
        invariant DumpedSince(old(trace), trace, context.functionStates, Map(name) - todo - Set(keys), time)
        decreases |todo|
      {
        var l :| l in todo;
        OneLess(Map(name), todo, Set(keys), l);
        if l !in keys {
          var f := Fact(l, time, context.functionStates[l], Untouched);
          DumpedOneMore(old(trace), trace, context.functionStates, Map(name) - todo - Set(keys), time, f);
          TaggedOneMore(old(trace), trace, Set(keys), time, f);
          trace := trace + [f];
        }
        todo := todo - {l};
      }
    }

    /** dump_update for each update of a function. */
    method DumpUpdated(name: string, keys: seq<Location>)
      requires forall l :: l in keys ==> l in context.functionStates
      requires forall i, j :: 0 <= i < j < |keys| ==> keys[i] != keys[j]
      modifies this`trace
      ensures DumpedSince(old(trace), trace, context.functionStates, Map(name) * Set(keys), time)
      ensures Tagged(old(trace), trace, Set(keys), time)
    {
      for k := 0 to |keys|
        invariant Tagged(old(trace), trace, Set(keys), time)
        invariant DumpedSince(old(trace), trace, context.functionStates, Map(name) * Set(keys[..k]), time)
      {
        assert keys[..k + 1] == keys[..k] + [keys[k]];
        if keys[k].func == name {
          var f := Fact(keys[k], time, context.functionStates[keys[k]], Updated);
          DumpedOneMore(old(trace), trace, context.functionStates, Map(name) * Set(keys[..k]), time, f);
          TaggedOneMore(old(trace), trace, Set(keys), time, f);
          trace := trace + [f];
          assert Map(name) * Set(keys[..k]) + {keys[k]} == Map(name) * Set(keys[..k + 1]);
        } else {
          assert Map(name) * Set(keys[..k]) == Map(name) * Set(keys[..k + 1]);
        }
      }
      assert keys[..|keys|] == keys;
    }

    /** The locations of the recorded functions below position n. */
    ghost function RecordedCells(n: nat): set<Location>
      requires n <= |functions|
      reads context`functionStates
    {
      set l | l in context.functionStates && RecordedBelow(functions, l, n)
    }

    /** One fact for every location of function i, if that function is recorded. */
    method DumpFunction(i: nat, keys: seq<Location>, ghost before: seq<Fact>)
      requires 1 <= i < |functions| && SymbolTable(functions)
      requires forall l :: l in keys ==> l in context.functionStates
      requires forall i, j :: 0 <= i < j < |keys| ==> keys[i] != keys[j]
      requires DumpedSince(before, trace, context.functionStates, RecordedCells(i), time)
      requires Tagged(before, trace, Set(keys), time)
      modifies this`trace
      ensures DumpedSince(before, trace, context.functionStates, RecordedCells(i + 1), time)
      ensures Tagged(before, trace, Set(keys), time)
    {
      var name := functions[i].name;
      if !Records(functions[i]) {
        assert RecordedCells(i + 1) == RecordedCells(i);
        return;
      }
      ghost var trace0 := trace;
      DumpUntouched(name, keys);
      ghost var trace1 := trace;
      DumpUpdated(name, keys);
      DumpedTwice(trace0, trace1, trace, context.functionStates, Map(name) - Set(keys), Map(name) * Set(keys), time);
      assert Map(name) - Set(keys) + Map(name) * Set(keys) == Map(name);
      forall l: Location | l.func == name ensures !RecordedBelow(functions, l, i) {
        RecordedBelowById(functions, l, i, i);
      }
      DumpedTwice(before, trace0, trace, context.functionStates, RecordedCells(i), Map(name), time);
      assert RecordedCells(i) + Map(name) == RecordedCells(i + 1);
    }

    /** The dump loop of apply_updates, which starts at function 1. */
    method DumpStep(keys: seq<Location>)
      requires SymbolTable(functions)
      requires forall l :: l in keys ==> l in context.functionStates
      requires forall i, j :: 0 <= i < j < |keys| ==> keys[i] != keys[j]
      modifies this`trace
      ensures DumpedSince(old(trace), trace, context.functionStates, RecordedCells(|functions|), time)
      ensures Tagged(old(trace), trace, Set(keys), time)
    {
      var i := 1;
      while i < |functions|
        invariant 1 <= i <= |functions|
        invariant DumpedSince(old(trace), trace, context.functionStates, RecordedCells(i), time)
        invariant Tagged(old(trace), trace, Set(keys), time)
      {
        DumpFunction(i, keys, old(trace));
        i := i + 1;
      }
    }

    /** apply_updates: commits the base layer and states one fact per recorded location. */
    method ApplyUpdates()
      requires context.Valid() && SymbolTable(functions) && OnlyTop(context.Layers())
      modifies this`trace, context`functionStates, context.updateset
      ensures context.Valid() && AllEmpty(context.Layers())
      ensures context.functionStates == old(context.functionStates) + Top(old(context.Layers()))
      ensures context.functionStates.Keys == old(context.functionStates).Keys
      ensures DumpedSince(old(trace), trace, context.functionStates, RecordedCells(|functions|), time)
      ensures Tagged(old(trace), trace, Top(old(context.Layers())).Keys, time)
    {
      var keys := UpdatedKeys();
      context.ApplyUpdates();
      DumpStep(keys);
      assert Set(keys) == Top(old(context.Layers())).Keys;
    }

    /** advance_timestamp, after a step whose facts are in the trace. */
    method AdvanceTimestamp(ghost table: Table)
      requires table == context.functionStates
      requires SymbolTable(functions) && time == |history| + 1
      requires Told(functions, creates, trace, history + [table], tables + [table], table)
      modifies this`time, this`history, this`tables
      ensures Recording() && time == old(time) + 1 && tables == old(tables) + [table]
    {
      tables := tables + [table];
      history := history + [table];
      time := time + 1;
    }

    /** The end of a step: apply_updates and advance_timestamp. */
    method EndStep()
      requires Valid() && OnlyTop(context.Layers())
      modifies this`trace, this`time, this`history, this`tables, context`functionStates, context.updateset
      ensures Valid() && AllEmpty(context.Layers())
      ensures time == old(time) + 1
      ensures context.functionStates == old(context.functionStates) + Top(old(context.Layers()))
      ensures tables == old(tables) + [context.functionStates]
    {
      ghost var before, trace0 := context.functionStates, trace;
      ApplyUpdates();
      ghost var table := context.functionStates;
      ToldDumped(functions, creates, trace0, trace, history, tables, before, table, RecordedCells(|functions|));
      AdvanceTimestamp(table);
    }

    method Fork()
      requires Valid() && context.pseudostate + 1 < LAYER_RANGE
      modifies context`pseudostate
      ensures Valid() && context.pseudostate == old(context.pseudostate) + 1
      ensures context.Layers() == old(context.Layers()) + [map[]]
    {
      context.Fork();
    }

    /** Merges the top layer by the rule of the layer below. */
    method Merge() returns (conflict: bool)
      requires Valid() && context.pseudostate >= 1
      modifies context`pseudostate, context.updateset
      ensures conflict <==> old(context.pseudostate) % 2 == 1 && TopOverlaps(old(context.Layers()))
      ensures !conflict ==> Valid() && context.pseudostate == old(context.pseudostate) - 1
      ensures !conflict ==> context.Layers() == MergeTop(old(context.Layers()))
    {
      conflict := false;
      if context.pseudostate % 2 == 0 {
        context.MergePar();
      } else {
        conflict := context.MergeSeq();
      }
    }

    ghost predicate AtDepth(base: nat, depth: nat)
      reads this, context, context.updateset
    {
      Valid() && context.pseudostate == base + depth && Based(context.Layers(), base)
    }

    /** The tables and the layers, as a run changes them. */
    ghost function Now(): Machine
      reads this, context, context.updateset
    {
      Machine(context.functionStates, context.Layers(), lastSymbol, tables)
    }

    method ReadAt(a: Action, base: nat, depth: nat) returns (v: Value)
      requires AtDepth(base, depth) && a.Read? && a.id < |functions|
      modifies this, context, context.updateset
      ensures AtDepth(base, depth) && time == old(time) && tables == old(tables)
      ensures Act(functions, old(Now()), a) == Some(Now()) && v == ValueRead(functions, old(Now()), a)
    {
      v := GetFunctionValue(a.id, a.args);
    }

    method WriteAt(a: Action, base: nat, depth: nat) returns (conflict: bool)
      requires AtDepth(base, depth) && a.Write? && a.id < |functions|
      modifies this, context, context.updateset
      ensures !conflict ==> AtDepth(base, depth)
      ensures time == old(time) && tables == old(tables)
      ensures Act(functions, old(Now()), a) == if conflict then None else Some(Now())
    {
      conflict := Update(a.id, a.args, a.value);
    }

    method ForkAt(base: nat, depth: nat)
      requires AtDepth(base, depth) && depth + 2 < LAYER_RANGE
      modifies context, context.updateset
      ensures AtDepth(base, depth + 1)
      ensures Act(functions, old(Now()), Action.Fork) == Some(Now())
    {
      Fork();
    }

    method MergeAt(base: nat, depth: nat) returns (conflict: bool)
      requires AtDepth(base, depth) && depth > 0
      modifies context, context.updateset
      ensures !conflict ==> AtDepth(base, depth - 1)
      ensures Act(functions, old(Now()), Action.Merge) == if conflict then None else Some(Now())
    {
      ghost var layers := context.Layers();
      conflict := Merge();
      assert !conflict ==> forall n :: 0 <= n < base ==> MergeTop(layers)[n] == layers[n];
    }

    /** The end of a step, at the base layer. */
    method Step(base: nat)
      requires AtDepth(base, 0)
      modifies this, context, context.updateset
      ensures AtDepth(base, 0) && time == old(time) + 1
      ensures Act(functions, old(Now()), Action.EndStep) == Some(Now())
    {
      EndStep();
      NothingLeft(context.Layers());
    }

    /** One action. */
    method Perform(a: Action, base: nat, depth: nat) returns (conflict: bool, seen: seq<Value>)
      requires AtDepth(base, depth) && Balanced([a], depth, |functions|)
      modifies this, context, context.updateset
      ensures !conflict ==> AtDepth(base, DepthAfter(a, depth)) && time == old(time) + Steps([a])
      ensures old(tables) <= tables
      ensures Act(functions, old(Now()), a) == if conflict then None else Some(Now())
      ensures seen == if a.Read? then [ValueRead(functions, old(Now()), a)] else []
    {
      conflict, seen := false, [];
      if a.EndStep? {
        Step(base);
      } else if a.Fork? {
        ForkAt(base, depth);
      } else if a.Merge? {
        conflict := MergeAt(base, depth);
      } else if a.Write? {
        conflict := WriteAt(a, base, depth);
      } else {
        var v := ReadAt(a, base, depth);
        seen := [v];
      }
    }

    /**
      Any run: it does to the tables and the layers what its actions say, and reads what they say, up
      to the first conflict; and the timeline is complete all the way.
     */
    method Run(actions: seq<Action>, base: nat, depth: nat) returns (conflict: bool, seen: seq<Value>)
      requires AtDepth(base, depth) && Balanced(actions, depth, |functions|)
      modifies this, context, context.updateset
      ensures !conflict ==> Valid() && time == old(time) + Steps(actions)
      ensures AllPossible(functions, old(Now()), actions)
      ensures Acts(functions, old(Now()), actions) == if conflict then None else Some(Now())
      ensures seen == ValuesRead(functions, old(Now()), actions)
      ensures old(tables) <= tables
      decreases |actions|
    {
      ghost var m := Now();
      BalancedPossible(functions, m, actions, base, depth);
      if actions == [] { return false, []; }
      BalancedAfter(actions, depth, |functions|);
      conflict, seen := Perform(actions[0], base, depth);
      ActsAfter(functions, m, actions, if conflict then None else Some(Now()));
      if !conflict {
        var rest;
        conflict, rest := Run(actions[1..], base, DepthAfter(actions[0], depth));
        seen := seen + rest;
      }
    }

    /**
      The main result about the traces, at any point of any run: for each past time there is
      exactly one fact about a recorded location. It states the value that the location had after
      that time, the initial one for time 1; or, for a location that was created later, its symbol,
      which it is taken to have had from the beginning.
     */
    lemma OneFactPerTime(l: Location, t: nat)
      requires Valid() && Recorded(functions, l) && l in context.functionStates && 1 <= t < time
      ensures |tables| == time - 1
      ensures exists v :: (
        && About(creates, l, t) + About(trace, l, t) == [v]
        && (l in tables[t - 1] ==> v == tables[t - 1][l])
        && (l !in tables[t - 1] ==> v.Symbol? && About(creates, l, 1) + About(trace, l, 1) == [v])
        && (t == time - 1 ==> v == context.functionStates[l]))
    {
      var v := history[t - 1][l];
      assert About(creates, l, t) + About(trace, l, t) == Expected(history, l, t) == [v];
      assert About(creates, l, 1) + About(trace, l, 1) == Expected(history, l, 1);
    }

    /** Nothing is said about a recorded location outside of the past, or before it exists. */
    lemma NoOtherFacts(l: Location, t: nat)
      requires Valid() && Recorded(functions, l) && (t == 0 || t >= time || l !in context.functionStates)
      ensures About(creates, l, t) == [] && About(trace, l, t) == []
    {
      assert About(creates, l, t) + About(trace, l, t) == Expected(history, l, t) == [];
      assert |About(creates, l, t) + About(trace, l, t)| == |About(creates, l, t)| + |About(trace, l, t)|;
    }

    /**
      walk_update_dumps does not read the location first. It keeps the timeline exactly when the
      location is not a new one of a recorded function; such a location has no fact for its past.
     */
    method UpdateDumps(id: nat, args: seq<Value>, v: Value) returns (conflict: bool)
      requires Valid() && id < |functions|
      modifies context, context.updateset
      ensures conflict <==> Parallel(old(context.Layers())) && LocationOf(id, args) in Top(old(context.Layers()))
      ensures !conflict ==>
        context.Layers() == WithTop(old(context.Layers()), Top(old(context.Layers()))[LocationOf(id, args) := v])
      ensures var l := LocationOf(id, args);
        var gap := id >= 1 && functions[id].isSymbolic && !functions[id].isStatic && l !in old(context.functionStates);
        && (Valid() <==> !gap)
        && l in context.functionStates
        && (gap ==> forall t: nat :: About(creates, l, t) == [] && About(trace, l, t) == [])
    {
      var l := LocationOf(id, args);
      RecordedById(functions, l, id);
      if l !in context.functionStates && Recorded(functions, l) {
        forall t: nat ensures About(creates, l, t) == [] && About(trace, l, t) == [] {
          NoOtherFacts(l, t);
        }
      }
      conflict := context.AddUpdate(l, v);
    }
  }
}
