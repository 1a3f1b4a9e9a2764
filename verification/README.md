# A verified model of casmi

casmi interprets CASM, a language of abstract state machines. A step of a machine walks a rule,
collects updates, and commits them all at once. This project models the parts of the interpreter
whose correctness is not visible in any single function, and proves what they are for. Each part
keeps the form of the code: what the code does by changing objects step by step is a class with
methods, and each method is proved against a function that says what it is to achieve.

## What is modelled

**The layered update set** (`Values`, `UpdateSet`, `BucketOrder`, `ExecutionContext`, `WriteOrder`). All
pending updates are in one linked hash map whose keys combine the address of a location with a layer
number. Odd layers are sequential, even ones parallel. The flat map is shown to represent a stack with
one update set per layer: forking pushes an empty layer, `merge_par` overrides the layer below with the
top layer, `merge_seq` adds the top layer to it or finds a conflict, and reads go through the odd layers
from the innermost one outwards. The hash map is closed source; `LinkedHash` states the contract on
which the interpreter relies: unique keys, replacement in place, new keys at the tail. The order of the
buckets is proved as well: new entries come last in their layer, a merge moves the entries of the top
layer to the end of the layer below in reversed order, and the commit visits the list from tail to head.
`WriteOrder.WalkAndVisit` puts this together for nested blocks of updates: the locations are committed
in the order `CommitOrder`, which depends on the base layer.

**The walkers against a semantics that knows no layers** (`Syntax`, `ExpressionLaws`, `Semantics`,
`StatementLaws`, `Refinement`, `ExecutionVisitor`, `Laws`, `Reordering`, `Interpreter`).
`Semantics.Denote` gives each statement the update set of the textbook: parallel composition is disjoint
union, sequential composition is override in the state that the first part leads to. The main result is
the contract of `ExecutionVisitor.WalkStatement`, for every program, statement and layer: the walk
changes nothing but the current layer, and that by exactly the denoted update set, and it reports a
conflict exactly when the denotation has one. What expressions and statements mean is determined by laws
over all of their parts: `ExpressionLaws` leaves no operator open, and `StatementLaws` says what
choices, bindings, calls, blocks and loops do. `Interpreter.WalkRun` lifts this to runs of any length. A
second write to a location in a parallel layer is a conflict whatever the value, as in the code.
`Reordering` shows that neither the order of the statements of parallel blocks nor the order in which a
forall visits an enum matters to any run, except for the failure that is reported when something fails
by itself. The walkers, the semantics and `Reordering` have no built-in functions, `print` or `pop`:
with `app` on lists the order of a parallel block can matter, as the next part shows.

**Lazy lists** (`Lists`, `ListFold`, `ListSteps`). `cons`, `tail` and `app` build views on shared
bottoms, and `apply_updates` folds them back, in place or by copying. Iterators refine sequences over
all node shapes, and usage counts stay equal to numbers of holders. `ListSteps.RunSteps` puts this
together: steps that build lists on shared bottoms, append to them in place, and fold them at the commit
are assignments of plain sequences. A step is walked in one order and folded in another;
`ListSteps.RunStep` says for which steps the assignment is right, by a condition on the order of the
folds, and `ListSteps.RunParBlock` says it for a rule that is one parallel block, at either base layer.

**Symbolic mode** (`SymbolicRun`, `SymbolicTrace`, `PathConditions`). In any run of reads, writes,
forks, merges and steps, the tables, the layers and the values that are read are those of a pure
machine, and the traces hold exactly one fact for each past time and location of a recorded function,
with the value of that time. Path-condition lookup is sound, and finds what covered bounds decide; the
tree of paths that a run of if-tests explores contains for every valuation exactly one path, the one
that the concrete run takes.

**The front end** (`Types`, `Initializers`, `NamedSyntax`, `Resolution`, `TypecheckVisitor`, `Scoping`,
`NamedInterpreter`). Unification keeps its doubly linked chains well formed; initialization puts every
function behind the functions it reads. Replacing names by the frame offsets of their innermost binders
preserves the meaning of every rule, with respect to a semantics in which names are bound in an
environment (`Resolution`). The checker's table yields these offsets exactly where its reads are right
(`TypecheckVisitor.ResolveExact`), it accepts exactly the well scoped rules whose reads are still in its
table (`Scoping.AcceptedExact`), and then whole runs of the layered machine are those of the named
program (`NamedInterpreter.WalkNamedRun`).

**Rationals** (`Rationals`). The operations on unreduced pairs are those of the rational numbers, and
two rationals print the same exactly when they are equal, whole numbers as such and positive fractions
with positive terms.

## Where the code falls short of a property

Each of these is proved with the exact condition, and none is repaired in the model.

- A write through `walk_update_dumps` does not read its location first, so a new location of a recorded
  function has no facts for its past: `SymbolicContext.UpdateDumps`.
- A lookup that compares two bounds with the same ordering operator has its operands the wrong way
  round, and swapping a condition does not mirror its operator: `InclusionExact`, `SwapExact`. It does not
  use a known ordering to decide an equation: `InclusionComplete` says for which bounds it finds all that
  follows.
- A negative rational is printed with its sign above or below the line, depending on the rounds of the
  divisor's loop: `SignsPrinted`, `SignMoves`.
- Unifying the two ends of one chain closes a circle: `Type.Unify`, `Type.UnifyAmong`.
- A dependency of two functions makes `init_function` give up although there is no cycle:
  `VisitExact`, `SharedDependencyFails`.
- The checker's `insert` keeps the outer binding of a shadowed name, and its `erase` loses it: at each
  read `LookupExact` says when the offset is the right one, and `ResolveExact` says so for every
  statement; `AcceptedExact` says which programs are rejected for it; `InnerLetIsIgnored` and
  `OuterLetIsLost` are two rules that go wrong.
- A rule with parameters that is put into `program` is started without values for them, and its let and
  forall variables are then looked up behind the missing parameters: `PlacedExact` says for which reads
  this is right, and `ParameterDisplaces` is a rule that goes wrong.
- Which of several failures a parallel block reports depends on the order of its statements:
  `ClashExact`, `OrderOfFailures`; without failures of single statements it does not, in whole runs:
  `FaultlessRunReordered`.
- Folding two lists over one bottom gives the chain of that bottom to the first one only: `FoldExact`
  and `KeptItems` for one list, `StepExact` and `RunStep` for whole steps, and `AppIsLost` for a step
  that loses a value in this way. Which one is folded first depends on the base layer, and so on
  whether the body of the first rule is a parallel block: `ParBlockOrder`, `BaseLayerMatters`. An `app`
  on a list that skips beyond its end is swallowed: `ViewExtends`, `AppBeyondEnd`.
- `decrease_usage` adds a holder on HEAD and SKIP nodes: `DecreaseUsage`.
- At layer 0 decrementing a packed key would borrow from the address: `DecrementBorrows`.

## Conventions

Function tables are maps from locations, and a location that holds undef explicitly counts as absent
where states are compared. Fuel bounds the nesting of statements and calls, and rounds bounds the
rounds of each iterate; `DenoteMonotone` and `Deterministic` show that they decide nothing but whether
a result is reached. `TooDeep` stands for a fork beyond the 16 bits of a layer, which the code does not
notice.

## Model

| member | source | states |
|---|---|---|
| UpdateSet.PackRoundTrip | src/libinterpreter/execution_context.cpp:329 | Keys of 16-bit layers and 48-bit addresses pack one to one into 64-bit words, and nothing larger fits. |
| UpdateSet.Decrement | src/libinterpreter/execution_context.cpp:269 | Subtracting 1 from a packed key lowers its layer by one and leaves the address, for layers 1 to 65535. |
| UpdateSet.DecrementBorrows | src/libinterpreter/execution_context.cpp:269 | At layer 0 the same subtraction would change the address. |
| UpdateSet.LinkedHash.Set | src/libinterpreter/execution_context.cpp:291 | Assumed contract of the map: an entry with the key is replaced in place and returned, otherwise one is appended at the tail. |
| UpdateSet.LinkedHash.Delete | src/libinterpreter/execution_context.cpp:267 | Assumed contract of the map: exactly the given bucket leaves the list, the order of the others stays. |
| ExecutionContext.ExecutionContext.constructor | src/libinterpreter/execution_context.cpp:70-83 | A new context has no pending update, empty tables, and base layer 1 or 0. |
| ExecutionContext.ExecutionContext.Fork | src/libinterpreter/execution_visitor.cpp:601-604 | Forking pushes an empty layer; everything below stays. |
| ExecutionContext.ExecutionContext.IsEmpty | src/libinterpreter/execution_visitor.cpp:803 | True exactly when no entry is in the current layer. |
| ExecutionContext.ExecutionContext.Add | src/libinterpreter/execution_context.cpp:291 | Assumed contract of `casm_updateset_add`, in the form that `add_update` relies on: an even layer keeps and returns a present entry, an odd layer overrides. |
| ExecutionContext.ExecutionContext.Emplace | src/libinterpreter/execution_visitor.cpp:938-960 | A new location enters its table and no layer changes. |
| ExecutionContext.ExecutionContext.AddUpdate | src/libinterpreter/execution_visitor.cpp:61-97 | A conflict exactly when the layer is parallel and updates the location already; otherwise the top layer gains the update, overriding an earlier one. The committed state does not change. |
| ExecutionContext.ExecutionContext.GetFunctionValue | src/libinterpreter/execution_context.cpp:322-350 | A read yields the value of the location in the state that is visible through the odd layers. |
| ExecutionContext.ExecutionContext.SearchLayers | src/libinterpreter/execution_context.cpp:326-335 | The loop over the odd layers finds the visible value of a location that has a cell. |
| ExecutionContext.ReadIsInnermost | src/libinterpreter/execution_context.cpp:326-335 | The visible value is the update in the innermost odd layer at or below the current one that has one, else the committed value. |
| ExecutionContext.ExecutionContext.MissingNotPending | src/libinterpreter/execution_context.cpp:325-349 | A location that is missing from its table has no pending update in any layer and reads as undef. |
| ExecutionContext.ExecutionContext.LowerAll | src/libinterpreter/execution_context.cpp:258-271 | Despite its early exit the loop moves every entry of the top layer: nothing stays above the current layer, and no entry is lost but those that are overridden at the same location. |
| ExecutionContext.MergeStep | src/libinterpreter/execution_context.cpp:261-271 | One round keeps the order of layers in the list, and the map between the one before the loop and the merged one. |
| ExecutionContext.MergeComplete | src/libinterpreter/execution_context.cpp:265 | Stopping at the first entry that is not above the layer leaves none above it, because layers never decrease along the list. |
| ExecutionContext.ExecutionContext.MergePar | src/libinterpreter/execution_context.cpp:255-273 | The top layer overrides the one below, and the layer number drops by one. |
| ExecutionContext.ExecutionContext.LowerAllOrClash | src/libinterpreter/execution_context.cpp:278-305 | The loop reports a conflict exactly when the two layers update a common location; otherwise it merges completely. |
| ExecutionContext.ExecutionContext.MergeSeq | src/libinterpreter/execution_context.cpp:275-306 | A conflict exactly when the two top layers overlap; otherwise the layer below is their disjoint union. |
| BucketOrder.MergingStep | src/libinterpreter/execution_context.cpp:258-271 | Moving the last entry of the top layer, overriding one of the same location in place or putting it at the tail, is one step of entering the reversed top layer into the layer below. |
| BucketOrder.MergingEnds | src/libinterpreter/execution_context.cpp:258-271 | So after the loop the layer below lists its own entries in their order, and behind them those of the top layer in reversed order; all further layers have kept their order. |
| WriteOrder.LayeredMeans | src/libinterpreter/execution_visitor.cpp:598-626 | In every layer a block adds its denotation, forked or not: joined if the layer is parallel, overriding if it is sequential, with a conflict iff the denotation does not fit. |
| WriteOrder.Walk | src/libinterpreter/execution_visitor.cpp:598-626 | Walking any nesting of parallel and sequential blocks of updates leaves the locations of the current layer in the order that the blocks determine: as they are made in a block that does not fork, reversed by the merge of one that does, and never moved by a second update. It ends with the layers, or the conflict, of `Layered`. |
| WriteOrder.Visited | src/libinterpreter/execution_context.cpp:119-160 | The commit visits the base layer from tail to head, each location once. |
| WriteOrder.WalkAndVisit | src/libinterpreter/execution_context.cpp:107-160 | From an empty set, walking a rule conflicts iff its blocks denote a conflict; otherwise exactly the denoted updates are pending, and the commit visits them in the order `CommitOrder` of the blocks and the base layer. |
| WriteOrder.FlatOrder | src/libinterpreter/execution_context.cpp:76-80 | One block of updates of different locations is committed as it was walked if it forks at the base layer, and backwards if it does not: a parallel block at base layer 1 and 0. |
| WriteOrder.FlatMeaning | src/libinterpreter/execution_visitor.cpp:61-97 | A parallel block of updates has no conflict iff their locations are different. |
| ExecutionContext.ExecutionContext.WriteAll | src/libinterpreter/execution_context.cpp:119-160 | The writing loop leaves every updated location with its update and every other one as it was. |
| ExecutionContext.ExecutionContext.ApplyUpdates | src/libinterpreter/execution_context.cpp:106-160 | With one layer pending, the new table is the old one overridden by that layer, and nothing is pending afterwards. |
| ExecutionContext.AllApplied | src/libinterpreter/execution_context.cpp:119-160 | Writing one entry per location, in any list order, is firing the base layer. |
| ExecutionContext.BaseLayerOnly | src/libinterpreter/execution_context.cpp:242-252 | When only the top of the stack holds updates, all entries are in the base layer. |
| Values.FireTwice | src/libinterpreter/execution_context.cpp:119-160 | Committing two update sets one after the other is committing the first overridden by the second. |
| Semantics.JoinAssociative | src/libinterpreter/execution_visitor.cpp:613-626 | A parallel block nested in a parallel layer without a fork joins as if it had one. |
| Semantics.OverrideAssociative | src/libinterpreter/execution_visitor.cpp:598-611 | A sequential block nested in a sequential layer without a fork overrides as if it had one. |
| ExecutionVisitor.ExecutionVisitor.WalkStatement | src/libsyntax/visitor.h:84-170 | For every statement and layer: the walk leaves all layers below untouched and changes the current one exactly by the denoted update set (disjoint union if parallel, override if sequential); it fails with a conflict exactly when the denotation does, and with a fault exactly when the denotation does; a walk that ends normally restores frames and layer number. |
| ExecutionVisitor.ExecutionVisitor.WalkExpression | src/libinterpreter/execution_visitor.cpp:361-395 | Expressions evaluate in the visible state and the current frame, to what the laws of the following rows determine. |
| ExpressionLaws.CountingLaws | src/libinterpreter/operators.cpp:142-144 | For every operand that is an integer: adding 0 changes nothing, adding 1 gives the next number. |
| ExpressionLaws.SumLaws | src/libinterpreter/operators.cpp:142-144 | Sums of any integer operands commute and associate. |
| ExpressionLaws.DifferenceLaws | src/libinterpreter/operators.cpp:146-148 | A difference undoes a sum with the same operand, and is undone by one. |
| ExpressionLaws.ProductLaws | src/libinterpreter/operators.cpp:150-152 | Products have the unit 1, commute, and distribute over sums. |
| ExpressionLaws.EqualityLaws | src/libinterpreter/operators.cpp:83-99 | An equation of two values of any type, undef included, is true iff they are the same value, and false otherwise; the inequation is its negation. |
| ExpressionLaws.TrichotomyLaws | src/libinterpreter/operators.cpp:112-139 | Of two integers exactly one is lesser, equal or greater. |
| ExpressionLaws.OrderLaws | src/libinterpreter/operators.cpp:218-220 | The order is transitive and every number precedes the next one. |
| ExpressionLaws.ComparisonLaws | src/libinterpreter/operators.cpp:222-232 | Greater is lesser with the sides exchanged; the other two are the negations of greater and lesser. |
| ExpressionLaws.NegationLaws | src/libinterpreter/operators.cpp:207-212 | Double negation and De Morgan, for truth values and undef. |
| ExpressionLaws.ConnectiveLaws | src/libinterpreter/operators.cpp:186-198 | And and or have units, are idempotent and commute. |
| ExpressionLaws.DistributionLaws | src/libinterpreter/operators.cpp:186-198 | And distributes over or. |
| ExpressionLaws.ComplementLaws | src/libinterpreter/operators.cpp:186-212 | A truth value and its negation exclude each other and exhaust the cases. |
| ExpressionLaws.UndefLaws | src/libinterpreter/operators.cpp:10-17 | All operators but the equations are strict in undef. |
| ExpressionLaws.TypedLaws | src/libinterpreter/operators.cpp:19-44 | Operands of the type of an operator never make it fail, and its result has the type that it should have. |
| ExpressionLaws.IllTypedLaws | src/libinterpreter/operators.cpp:19-44 | Operands of another type make it fail, unless one of them is undef. |
| ExpressionLaws.FailureLaws | src/libinterpreter/execution_visitor.cpp:361-365 | A failing operand makes the expression fail in the same way, the left one first. |
| ExpressionLaws.ArgumentLaws | src/libinterpreter/execution_visitor.cpp:371-395 | Arguments evaluate to all of their values in order, or to the first failure. |
| ExpressionLaws.AtomLaws | src/libinterpreter/execution_visitor.cpp:371-395 | After an update an atom for that location yields the new value, and atoms for others what they did. |
| ExpressionLaws.ParameterLaws | src/libinterpreter/execution_visitor.cpp:377 | A pushed value is read at the depth at which it was pushed, and moves no other one. |
| StatementLaws.ConditionalLaws | src/libinterpreter/execution_visitor.cpp:588-595 | A conditional is its first branch when the condition is true, its second one when it is false, and fails on undef. |
| StatementLaws.AssertionLaws | src/libinterpreter/execution_visitor.cpp:45-51 | An assertion is a skip when true and fails when false. |
| StatementLaws.LetLaws | src/libsyntax/visitor.h:253-258 | `let x = e in f := x` is `f := e`. |
| StatementLaws.CallLaws | src/libsyntax/visitor.h:221-242 | A rule that assigns its i-th parameter, called directly or indirectly, assigns the i-th argument. |
| StatementLaws.IndirectCallLaws | src/libinterpreter/execution_visitor.cpp:151-170 | An indirect call fails on undef and on the wrong number of arguments. |
| StatementLaws.ExchangeLaws | src/libinterpreter/execution_visitor.cpp:598-626 | `f := g` and `g := f` exchange the values in parallel; in sequence the second one sees the first one. |
| StatementLaws.OverwriteLaws | src/libinterpreter/execution_visitor.cpp:61-97 | Two updates of a function conflict in parallel, whatever the values; in sequence the last one counts. |
| StatementLaws.ForallLaws | src/libinterpreter/execution_visitor.cpp:741-757 | `forall i in n do f(i) := i` updates f exactly at the numbers from 0 up to n, or down to it. |
| StatementLaws.IterateLaws | src/libinterpreter/execution_visitor.cpp:789-812 | Iterating `if f < n then f := f + 1` from any number counts up to n and not beyond, in as many rounds as that takes and one empty one. |
| StatementLaws.CountingRun | src/libinterpreter/execution_visitor.cpp:1005-1015 | A whole run: a rule that counts f up to n and then sets `program` to undef counts once in each step, stops after n, and the run halts with f at n. |
| ExecutionVisitor.ExecutionVisitor.WalkUpdate | src/libinterpreter/execution_visitor.cpp:814-832 | The new value is evaluated before the arguments, and the update enters the current layer or conflicts. |
| ExecutionVisitor.ExecutionVisitor.WalkIfThenElse | src/libinterpreter/execution_visitor.cpp:588-595 | An undef condition is an error; otherwise the branch that the condition selects is walked, if there is one. |
| ExecutionVisitor.ExecutionVisitor.WalkAssert | src/libinterpreter/execution_visitor.cpp:45-51 | Fails exactly when the condition does not evaluate to true. |
| ExecutionVisitor.ExecutionVisitor.WalkLet | src/libsyntax/visitor.h:253-258 | The body runs with the value pushed on the frame, which is popped afterwards. |
| ExecutionVisitor.ExecutionVisitor.WalkCall | src/libsyntax/visitor.h:221-242 | The callee runs in a frame of the argument values, with the arity check of indirect calls; the caller's frame is back afterwards. |
| ExecutionVisitor.ExecutionVisitor.WalkParBlock | src/libinterpreter/execution_visitor.cpp:613-626 | A parallel block changes the layer by the join of its branches, whether it forks or not. |
| ExecutionVisitor.ExecutionVisitor.WalkSeqBlock | src/libinterpreter/execution_visitor.cpp:598-611 | A sequential block changes the layer by the override of its statements, whether it forks or not, and conflicts when it overlaps a parallel layer. |
| ExecutionVisitor.ExecutionVisitor.WalkForall | src/libinterpreter/execution_visitor.cpp:721-785 | A forall changes the layer by the join of its instances, one per item of the list, the number range or the enum. |
| ExecutionVisitor.ExecutionVisitor.WalkUpwards | src/libinterpreter/execution_visitor.cpp:745-750 | The instances for 0 up to a positive bound. |
| ExecutionVisitor.ExecutionVisitor.WalkDownwards | src/libinterpreter/execution_visitor.cpp:751-756 | The instances for 0 down to a bound that is not positive. |
| ExecutionVisitor.ExecutionVisitor.WalkMembers | src/libinterpreter/execution_visitor.cpp:763-773 | The instances for the members of an enum, without the entry that has the name of the enum. |
| ExecutionVisitor.ExecutionVisitor.WalkIterate | src/libinterpreter/execution_visitor.cpp:789-812 | An iterate changes the layer by the override of its rounds, up to and including an empty round. |
| ExecutionVisitor.ExecutionVisitor.WalkRounds | src/libinterpreter/execution_visitor.cpp:799-807 | The loop ends exactly with the first round whose own update set is empty. |
| Refinement.ParStep | src/libsyntax/visitor.h:182-187 | A parallel layer after one more branch: still the join of the branches so far, or already decided for the whole block. |
| Refinement.SeqStep | src/libsyntax/visitor.h:182-187 | A sequential layer after one more statement, which saw the effect of the ones before it. |
| Refinement.LeavePar | src/libinterpreter/execution_visitor.cpp:617-625 | Merging the layer of a parallel block that forked overrides the sequential layer by the denotation. |
| Refinement.LeaveSeq | src/libinterpreter/execution_visitor.cpp:602-610 | Merging the layer of a sequential block that forked joins the denotation with the parallel layer, or both conflict. |
| Refinement.RoundStep | src/libinterpreter/execution_visitor.cpp:799-807 | One round of an iterate advances walk and denotation alike. |
| Laws.JoinAllMeaning | src/libinterpreter/execution_visitor.cpp:613-626 | A parallel block succeeds iff every branch does and no two update a common location; its update set then is the union. |
| Laws.ParBlockAnyOrder | src/libinterpreter/execution_visitor.cpp:613-626 | Permuting the statements of a parallel block changes neither its update set nor whether it fails; when no statement fails on its own other than by a conflict, it does not change the outcome at all. |
| Laws.ForallAnyOrder | src/libinterpreter/execution_visitor.cpp:735-739 | The same for the items that a forall visits, and it conflicts in every order iff it conflicts in one and no instance fails otherwise. |
| Laws.JoinAllPermuted | src/libinterpreter/execution_visitor.cpp:613-626 | When all branches succeed on their own, one order conflicts iff every order does. |
| Laws.ClashExact | src/libinterpreter/execution_visitor.cpp:613-626 | Branches conflict in every order iff they conflict in one order and none of them fails for another reason. |
| Laws.ParBlockConflictExact | src/libinterpreter/execution_visitor.cpp:613-626 | The same for parallel blocks and all permutations of their statements. |
| Laws.OrderOfFailures | src/libinterpreter/execution_visitor.cpp:613-626 | A concrete block that conflicts in one order and dies in another. |
| Reordering.DenoteReordered | src/libinterpreter/execution_visitor.cpp:613-626 | Permuting parallel blocks, and the members of enums that foralls visit, anywhere in a statement and in all rules that it calls, changes neither its update set nor whether it fails. |
| Reordering.RunReordered | src/libinterpreter/execution_visitor.cpp:1005-1015 | Two programs that differ in such orders make the same runs: the same states, the same end, or both break. |
| Reordering.ItemsReordered | src/libinterpreter/execution_visitor.cpp:763-773 | An enum whose table is in another order has the same members, in some order. |
| Reordering.FaultlessReordered | src/libinterpreter/execution_visitor.cpp:613-626 | Where nothing that is evaluated fails by itself, the outcome is the same in all these orders, also a conflict. |
| Reordering.FaultlessRunReordered | src/libinterpreter/execution_visitor.cpp:1005-1015 | So whole runs in which nothing fails by itself are the same, with the conflict that may end them. |
| Reordering.ReportsAlike | src/libinterpreter/execution_visitor.cpp:1005-1015 | So machines that walk the two programs report the same and have committed the same state, unless both fail; and if the runs are the same, so are the failures that are reported. |
| Laws.WalksInterchangeable | src/libinterpreter/execution_visitor.cpp:613-626 | Two walks from the same layers with such denotations both end with the same layers, or both fail. |
| Laws.IterateReachesFixpoint | src/libinterpreter/execution_visitor.cpp:799-807 | An iterate that ends does so in a state in which its body yields the empty update set. |
| Laws.DenoteMonotone | src/libinterpreter/execution_visitor.cpp:789-812 | More fuel and more rounds change no outcome except for running out of them. |
| Laws.Deterministic | src/libsyntax/visitor.h:84-170 | Any two fuels that suffice give the same outcome. |
| Interpreter.ExecutionWalker.WalkStep | src/libinterpreter/execution_visitor.cpp:1005-1015 | A step fires the update set that the rule in `program` denotes, stops when `program` is undef, or reports the failure of the rule; between steps nothing is pending and the layer is the base layer. |
| Interpreter.ExecutionWalker.WalkRun | src/libinterpreter/execution_visitor.cpp:1005-1015 | A run of any number of steps ends in the state of the abstract machine, or where that one halts or breaks. |
| Lists.ConstIterator.constructor | src/libinterpreter/value.cpp:347-404 | A new iterator is at the first element of the list, or at the end when it has none, for all node shapes and any skip. |
| Lists.ConstIterator.InitSkip | src/libinterpreter/value.cpp:369-394 | A skip starts at the right element of the bottom or node of the chain, or at the end. |
| Lists.ConstIterator.Next | src/libinterpreter/value.cpp:414-427 | Moving on drops exactly the first element of what is left; at the end nothing happens. |
| Lists.ConstIterator.Current | src/libinterpreter/value.cpp:435-445 | The element under the iterator is the first of what is left. |
| Lists.Equal | src/libinterpreter/value.cpp:470-487 | Two lists are equal iff they denote the same sequence. |
| Lists.Nth | src/libinterpreter/builtins.cpp:86-104 | The 1-based element of the sequence; undef outside of 1 to the length, and for undef arguments. |
| Lists.Len | src/libinterpreter/builtins.cpp:186-202 | The length of the sequence. |
| Lists.Peek | src/libinterpreter/builtins.cpp:204-216 | The first element, or undef when there is none. |
| Lists.TailDropsFirst | src/libinterpreter/builtins.cpp:164-184 | The tail of a list of any shape is a view of the same bottom without the first element. |
| Lists.TailOfCons | src/libinterpreter/builtins.cpp:153-184 | The tail of a cons is the list itself, and a cons denotes the value in front of the list. |
| Lists.App | src/libinterpreter/builtins.cpp:106-151 | The new node ends up behind the last one of the chain: the bottom's sequence grows by the value. |
| Lists.LastLink | src/libinterpreter/builtins.cpp:112-137 | The walk ends on every acyclic chain, at its last node. |
| Lists.ViewExtends | src/libinterpreter/builtins.cpp:143-150 | A list on an extended bottom is extended alike iff its skips stay within the old sequence. |
| Lists.AppBeyondEnd | src/libinterpreter/builtins.cpp:106-151 | A concrete list that skips beyond its end and stays empty when a value is appended. |
| ListFold.CollectTail | src/libinterpreter/value.cpp:603-608 | Inserting the tail values at the front of the reversed vector appends them to the sequence. |
| ListFold.CollectBottom | src/libinterpreter/value.cpp:572-593 | Folding keeps the sequence; with one holder it happens in place, with more a copy is made, which is marked as such, and the original keeps its stored values. |
| ListFold.Collect | src/libinterpreter/value.cpp:559-597 | Any chain of heads over a bottom or skip within bounds folds to a bottom with the same sequence, without a chain and with count 1. |
| ListFold.BumpUsage | src/libinterpreter/value.cpp:529-542 | Counts one more holder at the bottom of the list. |
| ListFold.DecreaseUsage | src/libinterpreter/value.cpp:544-557 | Takes one holder off a bottom; on the lazy nodes it adds one. |
| ListFold.ListStore.WriteUpdate | src/libinterpreter/execution_context.cpp:124-144 | One list update keeps every count equal to the number of holders. |
| ListFold.ListStore.WriteUpdates | src/libinterpreter/execution_context.cpp:118-160 | After the writing loop the tables hold the new lists, counts are numbers of holders, and the defined updates wait to be folded in order. |
| ListFold.ListStore.FoldOne | src/libinterpreter/execution_context.cpp:216-223 | Folding one location gives it a bottom of its own with the sequence it denoted and keeps all counts right. |
| ListFold.ListStore.FoldAll | src/libinterpreter/execution_context.cpp:216-223 | After the folding loop each folded location owns its result, and others keep what was stored. |
| ListFold.FoldExact | src/libinterpreter/execution_context.cpp:216-223 | A fold yields the denoted sequence iff no earlier fold has taken the chain of the bottom. |
| ListFold.ListStore.KeptItems | src/libinterpreter/execution_context.cpp:216-223 | A location that was not folded has its stored sequence back iff no chain was behind it or a fold took it. |
| ListFold.ListStore.ApplyListUpdates | src/libinterpreter/execution_context.cpp:118-223 | Committing list updates, without restriction on sharing among them: what each location then holds, in the order of the folds. |
| ListFold.ListStore.CommitStep | src/libinterpreter/execution_context.cpp:118-223 | When each chain is folded once: updated locations own what their updates denoted, all others keep their sequences, and every list is again a bottom with one holder. |
| ListFold.ListStore.AloneAgain | src/libinterpreter/execution_context.cpp:216-223 | After any commit whoever holds a bottom holds it alone. |
| ListSteps.AppTo | src/libinterpreter/builtins.cpp:106-151 | In a store whose bottoms share no node, `app` lets one bottom grow by the value, leaves every other bottom as it was, and keeps all of them valid and apart. |
| ListSteps.ShapeMeans | src/libinterpreter/builtins.cpp:106-184 | The node that cons, tail and app build is a view, within bounds, with the meaning of the expression on plain sequences, once all values have been appended. |
| ListSteps.EvaluateOver | src/libinterpreter/builtins.cpp:106-184 | Evaluating cons, tail and app over a bottom yields that node and appends exactly the values of the expression to the chain. |
| ListSteps.EvaluateAll | src/libinterpreter/execution_visitor.cpp:814-832 | Evaluating all assignments of a step in the order in which it is walked changes nothing but chains, and each update is what its expression built. |
| ListSteps.StepExact | src/libinterpreter/execution_context.cpp:216-223 | All folds of a step yield what its expressions mean iff, of the expressions over one base, none but the one that is folded first appends, whatever the order in which they were evaluated. |
| ListSteps.RunStep | src/libinterpreter/execution_visitor.cpp:1005-1015 | A whole step over shared lists, walked in one order and folded in any other, is the simultaneous assignment of plain sequences iff, of the expressions over one base, none but the one that is folded first appends; in any case it leaves every list a bottom of its own. |
| ListSteps.RunSteps | src/libinterpreter/execution_visitor.cpp:1005-1015 | Any number of such steps, one after the other and each with its own two orders, assigns sequences. |
| ListSteps.PushThenPop | src/libinterpreter/execution_visitor.cpp:274-286 | A push in one step and a pop in the next yield the pushed value and restore the sequence, whatever else the two steps assign and in whatever orders they are walked and folded. |
| ListSteps.ParBlockOrder | src/libinterpreter/execution_context.cpp:107-160 | The fold order of a rule that is one parallel block is that of its commit: the order of its statements at base layer 1, the reversed one at base layer 0. |
| ListSteps.RunParBlock | src/libinterpreter/execution_visitor.cpp:1005-1015 | A step of such a rule assigns sequences iff, in the text of the block, none but the first expression over a base appends at base layer 1, and none but the last one at base layer 0. |
| ListSteps.BaseLayerMatters | src/libinterpreter/execution_context.cpp:76-80 | A block that meets the condition at base layer 1 and fails it at base layer 0: `x := app(x, v)` before `y := x`. |
| ListSteps.AppIsLost | src/libinterpreter/execution_context.cpp:216-223 | A step that does not: with `x := app(x, v)` and `y := x`, folding y first gives y the appended value and leaves x without it. |
| SymbolicTrace.SymbolicContext.constructor | src/libinterpreter/symbolic.cpp:15-22 | Before initialization the time is 2 and the traces are empty. |
| SymbolicTrace.SymbolicContext.DumpCreate | src/libinterpreter/symbolic.cpp:75-109 | One fact for every time before the current one, all with the value of the new location and in the order of the code: the creation first, then the times to catch up with. |
| SymbolicTrace.SymbolicContext.Create | src/libinterpreter/execution_context.cpp:338-345 | A created location keeps the traces complete: its value is taken to hold for all of the past. |
| SymbolicTrace.SymbolicContext.Initialize | src/libinterpreter/execution_visitor.cpp:931-961 | An initializer enters a location once, with its value in the initial table, and with exactly its creation facts if the function is symbolic, none otherwise. |
| SymbolicTrace.SymbolicContext.GetFunctionValue | src/libinterpreter/execution_context.cpp:322-350 | The first read of a location of a symbolic function creates a new symbol and its facts; every read yields the visible value. |
| SymbolicTrace.SymbolicContext.Update | src/libinterpreter/execution_visitor.cpp:814-832 | An update reads its location first if the function is symbolic, so that the traces stay complete. |
| SymbolicTrace.SymbolicContext.UpdatedKeys | src/libinterpreter/execution_context.cpp:153-156 | The updated keys are the locations of the base layer, each once. |
| SymbolicTrace.RecordedById | src/libinterpreter/execution_context.cpp:163-169 | A location is recorded iff its function is symbolic, not static, and not the first one of the table. |
| SymbolicTrace.SymbolicContext.DumpUntouched | src/libinterpreter/execution_context.cpp:171-183 | One fact for every location of a function that was not updated, tagged so. |
| SymbolicTrace.SymbolicContext.DumpUpdated | src/libinterpreter/execution_context.cpp:184-187 | One fact for every updated location of a function, tagged so, with its new value. |
| SymbolicTrace.SymbolicContext.DumpStep | src/libinterpreter/execution_context.cpp:162-189 | Exactly one new fact for every location of the recorded functions, from function 1 on, and none for others. |
| SymbolicTrace.SymbolicContext.ApplyUpdates | src/libinterpreter/execution_context.cpp:106-190 | Commits the base layer and adds exactly one fact per recorded location, tagged as an update exactly when the location was updated. |
| SymbolicTrace.SymbolicContext.EndStep | src/libinterpreter/execution_visitor.cpp:1011-1014 | Committing a step and advancing the time keeps the traces complete and appends the new table to the history. |
| SymbolicTrace.SymbolicContext.ReadAt | src/libinterpreter/execution_context.cpp:322-350 | A read yields the visible value, enters a missing location of a symbolic function with the next symbol, and changes nothing else. |
| SymbolicTrace.SymbolicContext.WriteAt | src/libinterpreter/execution_visitor.cpp:814-832 | A write conflicts iff the layer is parallel and holds the location; otherwise it sets the location in the top layer. |
| SymbolicTrace.SymbolicContext.MergeAt | src/libinterpreter/execution_context.cpp:255-306 | A merge conflicts iff the top layer is sequential and overlaps the one below; otherwise the two become one. |
| SymbolicTrace.SymbolicContext.Run | src/libinterpreter/execution_visitor.cpp:1005-1015 | Any run of reads, writes, balanced forks and merges, and steps ends, or conflicts, as the pure machine `SymbolicRun.Acts` does, with its tables, layers and symbols, and reads the values that it reads; the traces stay complete, and the tables of past times, the initial one included, stay what they were. |
| SymbolicRun.FlatStep | src/libinterpreter/execution_context.cpp:106-160 | After a step of reads and writes that began with nothing pending, a location holds the last value written to it, and any other one what it held; what was created meanwhile is undef or a symbol. |
| SymbolicRun.FlatSequential | src/libinterpreter/execution_visitor.cpp:61-97 | Such a step never conflicts at a sequential base layer. |
| SymbolicTrace.SymbolicContext.OneFactPerTime | src/libinterpreter/symbolic.cpp:75-142 | For every past time exactly one fact about each recorded location: its initial value for time 1, the value that the step of that time left there for later ones, or, before the location existed, its symbol. |
| SymbolicTrace.SymbolicContext.NoOtherFacts | src/libinterpreter/symbolic.cpp:75-142 | No fact about the present or the future, about time 0, or about locations that do not exist. |
| SymbolicTrace.SymbolicContext.UpdateDumps | src/libinterpreter/execution_visitor.cpp:859-874 | An update that does not read first keeps the traces complete iff its location exists or is not recorded; otherwise the location has no fact at all. |
| PathConditions.InvertIsComplement | src/libinterpreter/execution_visitor.cpp:493-503 | Inversion is an involution and a complement, for orderings exactly on integers. |
| PathConditions.InclusionExact | src/libinterpreter/symbolic.cpp:185-259 | For integer bounds on one symbol the answer is sound iff the two are not the same ordering with the check the stronger bound. |
| PathConditions.InclusionComplete | src/libinterpreter/symbolic.cpp:185-259 | For integer bounds on one symbol the answer says all that follows, holding iff the known bound entails the check and failing iff it refutes it, exactly when the two are covered: not two lower bounds, nor different upper ones, nor an equation with a number that a known ordering excludes. |
| PathConditions.SwapExact | src/libinterpreter/symbolic.cpp:266-272 | Swapping the sides keeps the meaning of a condition iff it is an equation. |
| PathConditions.CheckCondition | src/libinterpreter/symbolic.cpp:261-288 | The loop returns the first answer of a known condition, of which the following rows say what it is worth; a check without a symbol is rejected. |
| PathConditions.LookupSound | src/libinterpreter/symbolic.cpp:185-213 | For EQ and NEQ with the symbol on either side, an answer holds for every valuation that satisfies all known conditions. |
| PathConditions.BoundsSound | src/libinterpreter/symbolic.cpp:261-288 | So does an answer among bounds, orderings included, unless a known bound is the weaker one of the same ordering. |
| PathConditions.BoundsFound | src/libinterpreter/symbolic.cpp:275-287 | Whatever a covered known bound entails or refutes is answered, wherever it is among the known ones. |
| PathConditions.BoundsDecide | src/libinterpreter/symbolic.cpp:275-287 | So a run that is possible takes the side that such a bound decides. |
| PathConditions.UndecidedIsOpen | src/libinterpreter/symbolic.cpp:261-288 | When no answer is found, the known equations allow the check to hold and allow it to fail. |
| PathConditions.ExploreExact | src/libinterpreter/execution_visitor.cpp:517-586 | Under each valuation that fits what is known, the conditions of exactly one explored path hold, and it ends at the leaf of the concrete run. |
| PathConditions.ExploreFeasible | src/libinterpreter/execution_visitor.cpp:538-586 | The conditions of every explored path can be satisfied: no process is forked in vain. |
| Types.Type.MeetsConstraints | src/libsyntax/types.cpp:374-385 | A kind is accepted iff there are no constraints or one of them admits it. |
| Types.Type.UnifyNofollow | src/libsyntax/types.cpp:371-414 | The known kind of two nodes goes to the other one; the result says whether kinds agree and constraints admit it. |
| Types.Type.UnifyLeft | src/libsyntax/types.cpp:416-428 | The recursion ends at the left end; it succeeds iff every node down to it accepts the kind, and then all have it. |
| Types.Type.UnifyRight | src/libsyntax/types.cpp:430-440 | The same towards the right end. |
| Types.Type.FindLink | src/libsyntax/types.cpp:455-485 | The four searches find the partner on the same chain unless the two are its ends; otherwise they stop at the nodes to be linked. |
| Types.Type.Join | src/libsyntax/types.cpp:487-488 | Joining different chains gives one chain, this one followed by the other, with mutually inverse links and two ends. |
| Types.Type.Propagate | src/libsyntax/types.cpp:492-499 | Spreading a kind succeeds iff all nodes of both chains accept it, and then all have it; the links stay. |
| Types.Type.Unify | src/libsyntax/types.cpp:453-501 | Both cases exactly: joining chains that have no kind, or spreading one; the two ends of one chain become a circle. |
| Types.Type.UnifyAmong | src/libsyntax/types.cpp:453-501 | A successful unification keeps every chain of the program well linked and of one kind that meets all constraints, iff it does not close a circle. |
| Initializers.VisitExact | src/libinterpreter/execution_visitor.cpp:880-893 | From a fresh start `init_function` succeeds iff every defined function is reached along the dependencies on one path only. |
| Initializers.CycleFails | src/libinterpreter/execution_visitor.cpp:880-893 | A cycle that can be reached makes it fail. |
| Initializers.SharedDependencyFails | src/libinterpreter/execution_visitor.cpp:886-888 | So does a dependency of two functions, although an order of initialization exists. |
| Initializers.VisitUnique | src/libinterpreter/execution_visitor.cpp:880-893 | A walk that succeeds has met no defined function on two paths. |
| Initializers.Explain | src/libinterpreter/execution_visitor.cpp:880-893 | A walk that gives up has two different paths to one function. |
| Initializers.Initializer.InitFunction | src/libinterpreter/execution_visitor.cpp:880-966 | It terminates, its result is that of the dependency walk, and every function is initialized after the functions that it reads. |
| Initializers.Initializer.InitializeAll | src/libinterpreter/execution_visitor.cpp:971-995 | All functions are initialized in order iff no defined function is reached on two paths from another one; otherwise an error is reported. |
| TypecheckVisitor.ParameterOffsetExact | src/libsyntax/grammer.yy:314-325 | A parameter has the position of its last occurrence as offset iff no name is repeated before that position. |
| TypecheckVisitor.OffsetsAfter | src/libmiddle/typecheck_visitor.cpp:217-247 | A statement takes from the offsets exactly the names that it binds; they are back as they were iff none of these was there before. |
| Resolution.ExpressionPreserved | src/libmiddle/typecheck_visitor.cpp:437-448 | Reading the frame at the offsets of innermost binders gives an expression the value that it has in the environment of its names, if all its reads are placed. |
| Resolution.LexicalPreserved | src/libmiddle/typecheck_visitor.cpp:217-247 | Lexical resolution keeps the meaning of every statement, with any shadowing, through calls, loops and binders: frames and environments stay in step. |
| Resolution.CallPreserved | src/libmiddle/typecheck_visitor.cpp:672-697 | Calls, direct and indirect ones, enter the resolved rule with exactly its parameters bound to the argument values. |
| Resolution.InstancesPreserved | src/libmiddle/typecheck_visitor.cpp:653-669 | In each round of a forall the offset of its variable indexes the current item. |
| Resolution.BindingAt | src/libinterpreter/execution_visitor.cpp:377 | The frame has the value that the environment gives to a name at the position of its innermost binder. |
| Resolution.PlacedExact | src/libinterpreter/execution_visitor.cpp:377 | When the values of the first names are missing from the frame, a read is right for all frames iff the name has no binder behind the missing ones and its position is not reached by the frame. |
| TypecheckVisitor.MeaningPreserved | src/libmiddle/typecheck_visitor.cpp:217-247 | Every rule of an accepted program whose reads are right denotes, for any arguments, what the named rule denotes with its parameters bound to them. |
| Scoping.LexicalScoped | src/libmiddle/typecheck_visitor.cpp:425-495 | Lexical scoping resolves exactly the well scoped statements: atoms and updated locations are functions with the arguments that they take, or atoms are names in scope without arguments; direct calls name a rule with as many parameters as arguments. |
| Scoping.AcceptedExact | src/libmiddle/typecheck_visitor.cpp:425-495 | At every point of a rule, with or without shadowing, the checker accepts exactly the well scoped statements in which every name that is read still has an offset. |
| Scoping.RuleAccepted | src/libmiddle/typecheck_visitor.cpp:104-110 | The same for whole rules. |
| Scoping.ScopedAccepted | src/libmiddle/typecheck_visitor.cpp:160-204 | Accepted programs are well scoped, and well scoped programs without shadowing are accepted. |
| TypecheckVisitor.BarePreserved | src/libinterpreter/execution_visitor.cpp:1005-1010 | So does a rule that is started without arguments, if all its reads are placed behind its missing parameters. |
| NamedInterpreter.RunPreserved | src/libinterpreter/execution_visitor.cpp:1005-1015 | So do whole runs, of any length, of the resolved and the named program, as long as all reads are placed in the rules that the machine itself starts, which holds for rules without parameters. |
| NamedInterpreter.CheckProgram | src/libmiddle/typecheck_visitor.cpp:104-110 | The loop over the rules accepts exactly the programs in which all rules are well scoped and all reads are kept; what is accepted is well scoped, and every well scoped program without shadowing is accepted and reads right. |
| NamedInterpreter.WalkNamedRun | src/libinterpreter/execution_visitor.cpp:1005-1015 | From names to layers: the machine that walks a resolved program over its layered update set ends where the named program leads, under the same condition. |
| NamedInterpreter.ParameterDisplaces | src/libinterpreter/execution_visitor.cpp:1005-1010 | A concrete rule with a parameter that is put into `program`: it is accepted, and the value of its let variable is not found. |
| TypecheckVisitor.LookupExact | src/libmiddle/typecheck_visitor.cpp:231-247 | At every point of a rule, the offset that the checker has for a name is the position of its innermost binder iff no binder of the name has been closed since that one was opened and, when it was opened, no offset of the name was left from further out. |
| TypecheckVisitor.ResolveExact | src/libmiddle/typecheck_visitor.cpp:217-247 | For every statement and every point: what lexical scoping rejects the checker rejects, and otherwise it yields the lexical resolution iff each read in the statement is right where it stands, after all the binders that were opened and closed before it. |
| TypecheckVisitor.RuleExact | src/libmiddle/typecheck_visitor.cpp:104-110 | The same for whole rules with their parameters. |
| TypecheckVisitor.ProgramExact | src/libmiddle/typecheck_visitor.cpp:104-110 | An accepted program is its lexical resolution iff all reads of its rules are right. |
| TypecheckVisitor.UnshadowedReadsRight | src/libmiddle/typecheck_visitor.cpp:217-247 | Where no binder reuses a name in scope, all reads are right. |
| TypecheckVisitor.UnshadowedRule | src/libmiddle/typecheck_visitor.cpp:104-110 | So they are in every accepted rule with distinct parameters and no shadowing. |
| TypecheckVisitor.UnshadowedProgram | src/libmiddle/typecheck_visitor.cpp:104-110 | An accepted program of such rules is its lexical resolution. |
| TypecheckVisitor.InnerLetIsIgnored | src/libmiddle/typecheck_visitor.cpp:234-237 | A concrete rule in which the inner of two lets is ignored. |
| TypecheckVisitor.OuterLetIsLost | src/libmiddle/typecheck_visitor.cpp:245-246 | A concrete rule in which the outer let is lost after the inner one, and the rule rejected. |
| TypecheckVisitor.TypecheckVisitor.PushBinding | src/libmiddle/typecheck_visitor.cpp:231-238 | A new name gets the number of bindings so far as offset; a name that is in use keeps its offset. |
| TypecheckVisitor.TypecheckVisitor.PopBinding | src/libmiddle/typecheck_visitor.cpp:245-246 | The name leaves the offsets and the last binding the frame. |
| TypecheckVisitor.TypecheckVisitor.WalkStatement | src/libmiddle/typecheck_visitor.cpp:217-247 | The walk resolves a statement as specified, shadowing included, and returns to the depth where it began. |
| TypecheckVisitor.TypecheckVisitor.WalkRule | src/libmiddle/typecheck_visitor.cpp:104-110 | A rule is resolved with its parameters as the first bindings. |
| Rationals.EqualExact | src/libinterpreter/value.cpp:269-271 | Two pairs are equal iff they stand for the same number. |
| Rationals.SumExact | src/libinterpreter/value.cpp:273-291 | Sums and differences of pairs stand for sums and differences of numbers. |
| Rationals.ProductExact | src/libinterpreter/value.cpp:293-301 | Products of pairs stand for products of numbers. |
| Rationals.QuotientExact | src/libinterpreter/value.cpp:303-311 | Quotients by a pair that is not zero stand for quotients of numbers. |
| Rationals.EqualityIsCongruence | src/libinterpreter/value.cpp:269-311 | With denominators that are not zero, equality is an equivalence that all four operations respect. |
| Rationals.GcdLoop | src/libinterpreter/value.cpp:318-327 | The loop computes the recursive greatest common divisor with truncated remainders. |
| Rationals.GcdIsGreatest | src/libinterpreter/value.cpp:318-327 | It divides both numbers, every common divisor divides it, and it is 0 only for two zeros. |
| Rationals.GcdScales | src/libinterpreter/value.cpp:318-327 | It scales with every factor but 0, negative ones included. |
| Rationals.QuotRem | src/libinterpreter/value.cpp:318-327 | Division rounds toward zero: the remainder has the sign of the dividend. |
| Rationals.GcdPositive | src/libinterpreter/value.cpp:318-327 | The divisor of numbers that are not negative is positive. |
| Rationals.GcdSign | src/libinterpreter/value.cpp:318-327 | In general it is that of the absolute values, with the sign of the first number after an even number of rounds and of the second one after an odd number. |
| Rationals.ToTextIsExact | src/libinterpreter/value.cpp:329-342 | Printing keeps the number. |
| Rationals.ToTextIsLowest | src/libinterpreter/value.cpp:333-335 | What is printed has no common factor but 1 and -1. |
| Rationals.WholePrinted | src/libinterpreter/value.cpp:329-342 | A rational that is a whole number is printed as that number, whatever its denominator. |
| Rationals.WholeExact | src/libinterpreter/value.cpp:336-341 | Only those are printed without a denominator. |
| Rationals.SignsPrinted | src/libinterpreter/value.cpp:329-342 | Positive rationals are printed with positive terms; negative ones with a negative numerator iff the loop takes an odd number of rounds, else with a negative denominator. |
| Rationals.SignMoves | src/libinterpreter/value.cpp:329-342 | -2/3 and -1/2 are printed as -2/3 and 1/-2. |
| Rationals.PrintingExact | src/libinterpreter/value.cpp:329-342 | Two rationals print the same iff they are equal, whatever the signs of their denominators. |

## Left out

- The inside of the hash map and of the memory pools, which is closed source: `LinkedHash` and `Add` are the contract that is assumed of them.
- Derived functions, `case`, `assure`, `print`, `impossible` in concrete mode, subrange checks and floats: they add cases to the walkers without a new interaction with the layers.
- Built-in functions, `push` and `pop` in the walkers, in `Semantics` and in `Reordering`: what these say of rules, and of the order of statements in particular, holds for rules without them. Lists, where `app` makes the order of a parallel block matter, are in `ListSteps`.
- Type errors at run time: a value of the wrong type is the fault `IllTyped`; the argument types of indirect calls are not checked, only their number.
- The operands of the arithmetic operators are unbounded integers; 64-bit wrap-around is not modelled.
- ExecutionVisitor.ExecutionVisitor.WalkStatement: a fork beyond 65535 layers ends as `TooDeep`, with nothing claimed about the layers, because the code lets the layer run into the address there.
- Undef as the integer or list of a forall and an undef assertion are the faults `IllTyped` and `AssertionFailed`; the code reads an uninitialised union there (src/libinterpreter/execution_visitor.cpp:46, 733 and 743).
- Line numbers, error texts and the choice of the error that is printed first.
- Lists: nodes of the kinds HEAD and SKIP are immutable values, as the code never changes them; freeing lists and the bookkeeping of `temp_lists` are not modelled.
- Literal lists in initializers and number-range literals, whose bottoms are not counted as held, and lists inside lists.
- The walkers see lists as sequences; the heap of list nodes is a model of its own, whose `Items` are such sequences. No theorem joins it to `WalkStatement`.
- SymbolicTrace.SymbolicContext.Run: rules are represented by what they make the context do, so it holds for every rule; expressions over symbols are not evaluated.
- SymbolicTrace.SymbolicContext.Initialize: the code may initialize a function again when several others read it, which repeats its facts; here each location is initialized once.
- Symbolic function arguments, `FINAL` facts, symbolic lists, and the text of the facts.
- PathConditions.LookupSound: orderings are covered by `InclusionExact` for a single known condition with the symbol on the left; conditions between two symbols are not modelled, nor are the operators for which the lookup asserts.
- PathConditions.ExploreFeasible: tests of symbols that stand for truth values are left out, because their values are limited to two.
- Re-testing a symbolic condition that is bound by a let, whose operator the code inverts in place, and symbolic `case`.
- PathConditions.ExploreExact: `fork` and `waitpid` are a branching tree.
- Types: lists, tuples and enums, whose unification goes through their components.
- Types.Type.UnifyAmong: after a circle has been closed nothing more is claimed, because the loops over the links need not end then.
- Initializers.Initializer.InitFunction: the values of initializers and the re-initialization of a function that several others read are not modelled, only the order.
- ListSteps.RunStep: the two orders of a step are any permutations of its assignments; `RunParBlock` derives the order of the folds for a rule that is one parallel block. For other rules it is the `CommitOrder` of their blocks, which `WriteOrder` proves for updates and not for whole statements. Each location is assigned once, and tails are taken of lists that are not empty; where later expressions over a base append, their skips must stay within the base (`InReach`), because folding pops elements from an empty vector otherwise.
- ListSteps.EvaluateAll: expressions read the lists that were committed before the step, so lists that a sequential block assigns and then reads within the step are not covered; appended values are constants.
- NamedInterpreter.RunPreserved: whether a misplaced read in a rule with parameters is ever reached is not decided, so the condition on started rules is exact for each read and sufficient for the run.
- TypecheckVisitor.MeaningPreserved: bindings made by `pop`, enum members and built-in functions as atoms, updates of static functions, and all type inference are not modelled.
- Rationals: printing yields a pair of numbers instead of a string; `asrational` and rational modulo are not modelled.
- Option parsing, the parser, dumping of syntax trees, and benchmarks.
