# Model of go-flow-levee's pointer and taint analyses

A Dafny model of the algorithmic core of go-flow-levee, a taint analysis for Go programs, with proofs of
what its data structures and searches guarantee.

- **The abstract heap** (`References`, `UnionFind`, `AbstractHeap`, `State`, `Congruence`): a union-find over
  references whose partitions carry field maps; unifying two partitions unifies the targets of the fields they
  share. `AbstractHeap.Step` says, without reference to the algorithm, what a heap must look like after a set of
  equations and field edges was requested; the methods of `State` are proved to establish it, steps compose, and
  `Congruence` draws the conclusions for whole runs. A step is *lossless* when no merge overwrote a pair of its work
  list that made a difference; the state keeps the log of its merges, from which this is decided. A condition that can
  be checked beforehand, `AbstractHeap.Separable`, guarantees it: some possible partition after the requests keeps the
  targets of different fields of a class apart. An equivalence is given inside `Step` by the class it assigns to each
  reference; the theorems of `Congruence` quantify over relations.
- **The visitor** (`CallStrings`, `Visitor`, `CallBinding`, `Demands`, `Solutions`, `Analysis`): context-limited call
  strings and the constraint helpers that drive the state, up to the traversal of any list of instructions. `Demands`
  says what each instruction wants of the heap in terms of the contexts of functions and the attributes of values, and
  `Analysis` that this is what the final heap has: on references of program values, the least model of the instructions.
- **The finalised index** (`Partitions`, `HeapTraversal`): what `finalize` computes, exactly when that agrees
  with the state, and the traversals over it and over the call graph. `Examples` and `LossyMerges` hold
  inputs on which the code does not do what its comments say.
- **Taint propagation** (`Ssa`, `TaintSearch`, `FlowLaws`, `HopLaws`, `Propagation`, `TaintTheorems`, `Sanitizer`): the
  flow-aware depth-first search over SSA nodes. `FlowLaws` says exactly when a node is refused, in terms of block listings
  and the way to it; `HopLaws` where the search goes from a node, in terms of kinds, operands, referrers and call fields. Every tainted node has a *trail*, the path by which it was tainted; the flow state
  that the search passes along is a function of the trail.
- **Source inference and source types** (`SourceInfer`, `SourceType`, with `Graphs` for reachability): visited-set
  searches on cyclic graphs, proved to be reachability.

Conventions. Go maps are finite maps held in fields or variables; ranging over one picks the keys in an arbitrary
order, so every theorem holds for all iteration orders. A reference that was never inserted counts as its own root
without fields, which makes `Insert` change no class. References to program values, contexts and source positions are taken from the
program; `typeMayShareObject`, `isLocal`, `canBeTaintedByCall`, `hasTaintableType` and the configuration are attributes of the input. A bitset
is the set of its one bits. The answers of the dominator tree are a parameter, assumed to be what runs define that begin
at the entry of a function or at its recover block. The parts of helpers that the source repeats inline (`AddOrUnify`, `PointTo`, `UnifyPlain`, `SearchBlocks` and the like) are separate methods.

Where the code and its comments disagree the model follows the code:

- `finalize` climbs at most to the grandparent (internal/pkg/earpointer/state.go:333-335), not to the representative as
  the comment above it says: `Examples.FinalizeMissesRepresentative`, `EarPartitions.OptimizedIsExactIff`.
- The partition size is updated in a copy only (internal/pkg/earpointer/state.go:198, 254-260), so all stored sizes
  stay 1 and the source position alone decides which representative survives.
- The work list of `mergeFieldMap` is keyed by the absorbed target (internal/pkg/earpointer/state.go:234-244) and can lose a pair:
  `LossyMerges.MergeLosesPair`, `LossyMerges.WorkListIsCompleteIff`, `LossyMerges.MergeIsCompleteIff`. Whether a run
  loses something depends on the order of its requests: `LossyMerges.UnifyLate` and `LossyMerges.UnifyEarly` make the same
  five, and only the first loses. So no condition on the requests that ignores their order is exact; the one used here,
  `Separable`, is sufficient for every order.
- The loop of `unifyCallWithContexts` stops at the first callee context that matches (internal/pkg/earpointer/analysis.go:596),
  while the comment (579-581) unifies for each matched context. For an argument that is a local of the caller there is
  only one; a global has the empty context, which several may match: `CallBinding.GlobalMissesContext`,
  `CallBinding.GlobalReachesAllContextsIff`.
- `boundedReachableFunctions` with depth 1 returns the start function alone, as `HeapTraversal.BoundedReachableFunctions`
  states; the example at internal/pkg/earpointer/taint.go:165-167 says more.

## Model

| member | source | states |
|---|---|---|
| UnionFind.NoCycles | internal/pkg/earpointer/state.go:29-31 | parent chains are acyclic: whoever climbs back to where it started is a root |
| UnionFind.RootIsLater | internal/pkg/earpointer/state.go:178-195 | in a parent map whose links never go back in the source, no reference lies after its root |
| UnionFind.InsertKeepsRoots | internal/pkg/earpointer/state.go:146-154 | a new entry keeps the forest and every root |
| UnionFind.LinkMergesRoots | internal/pkg/earpointer/state.go:190-195 | hanging one root under another keeps the forest and merges exactly their two trees |
| UnionFind.CompressKeepsRoots | internal/pkg/earpointer/state.go:220-223 | path compression keeps the forest, every root and the set of roots |
| UnionFind.CompressEntry | internal/pkg/earpointer/state.go:204-224 | after a lookup exactly the entries on the climbed path point to their root; all others are untouched |
| AbstractHeap.StepTransitive | internal/pkg/earpointer/state.go:156-200 | the effects of two consecutive requests compose: requests add up, and the composition is lossless when both parts are |
| AbstractHeap.EdgeSurvives | internal/pkg/earpointer/state.go:229-250 | a step never loses a field of a class; a lossless one keeps where the field points |
| AbstractHeap.LinkedHeap | internal/pkg/earpointer/state.go:190-199 | absorbing representative a into b gives a well-formed heap in which the two classes are one, with both field maps, b's entries winning; all else is as before |
| AbstractHeap.AbsorbStep | internal/pkg/earpointer/state.go:165-200 | linking followed by any outcome of the work list honours a = b, forces nothing that congruence does not, and is lossless if the work list had room for every shared field |
| AbstractHeap.WithFieldStep | internal/pkg/earpointer/analysis.go:804-808 | storing a missing field under any name of the target's class honours the edge obj.f = t and nothing more |
| AbstractHeap.FieldUnifyStep | internal/pkg/earpointer/analysis.go:804-806 | unifying the present f-target with t honours the edge obj.f = t and nothing more |
| AbstractHeap.EnteredStep | internal/pkg/earpointer/state.go:88-96 | looking up, with insertion on failure, changes no class and no field |
| AbstractHeap.StepHeads | internal/pkg/earpointer/state.go:184-188 | the termination measure, the references not absorbed by another, never grows |
| AbstractHeap.AbsorbSeparable | internal/pkg/earpointer/state.go:190-249 | where a separating partition for a = b exists, merging a and b overwrites nothing that matters, and a separating partition exists for the work list that remains |
| AbstractHeap.SeparableAfter | internal/pkg/earpointer/state.go:156-250 | after the first of two requests a separating partition for both is one for the second in the new heap |
| EarState.State.constructor | internal/pkg/earpointer/state.go:58-63 | the new state is the empty heap, well-formed |
| EarState.State.LookupPartitionRep | internal/pkg/earpointer/state.go:204-224 | answers the root and compresses the path; creates a missing entry, or answers nil where it must not; the inner lookup never fails |
| EarState.State.Insert | internal/pkg/earpointer/state.go:146-154 | answers the current representative; a new reference becomes a partition of its own; no class changes |
| EarState.State.Representative | internal/pkg/earpointer/state.go:88-96 | answers the representative and inserts a missing reference on the way |
| EarState.State.Unify | internal/pkg/earpointer/state.go:157-159 | honours the equation exactly: classes, kept fields, nothing unforced; loses nothing if some possible partition after it keeps the targets of different fields of a class apart, or if the two classes share no field; terminates on every heap, inserted targets or not; keeps inserted references = partitions + merges |
| EarState.State.UnifyReps | internal/pkg/earpointer/state.go:165-200 | the representative earlier in the source is linked under the other, its entry deleted, its fields copied, and then only the work list is unified; one merge is logged first; nothing is lost where a separating partition exists |
| EarState.State.MergeFieldMap | internal/pkg/earpointer/state.go:229-250 | copies missing fields, keeps present ones, and unifies exactly the pairs of its work list |
| EarState.CollectWork | internal/pkg/earpointer/state.go:234-245 | for any iteration order: the merged map, and a work list with one kept target for every absorbed target of a shared field |
| EarState.UnifyStep | internal/pkg/earpointer/state.go:157-159 | unifying the two looked-up representatives honours the equation between the arguments |
| EarState.LinkOnly | internal/pkg/earpointer/state.go:190-195 | linking deletes one partition, adds none, and strictly shrinks the termination measure before any recursion |
| EarState.EarlierIsAbsorbed | internal/pkg/earpointer/state.go:178-195 | of two unified representatives the one earlier in the source is absorbed, the first one on a tie |
| Congruence.OnlyForcedUnifications | internal/pkg/earpointer/state.go:15-18 | for every run: two references share a class only if every equivalence that contains the requested pairs and is closed under same class, same field, same target class relates them |
| Congruence.LosslessIsCongruence | internal/pkg/earpointer/state.go:15-18 | after a lossless run the partition is itself such an equivalence |
| Congruence.LeastCongruence | internal/pkg/earpointer/state.go:15-18 | the partition of a lossless run is the least congruence of its requests (for when a run is lossless see Congruence.ApartRunIsLeastCongruence and Analysis.Analyze) |
| Congruence.LosslessFields | internal/pkg/earpointer/analysis.go:786-809 | after a lossless run a class has a field iff a requested edge leaves it by that field, and the field points to the class of the requested target |
| Congruence.LosslessRunsAgree | internal/pkg/earpointer/state.go:238-249 | lossless runs with the same requests, in any order and for any map iteration order, agree on classes, fields and targets |
| Congruence.ApartIsSeparable | internal/pkg/earpointer/state.go:15-18 | a congruence of the requests that keeps the targets of different fields of a class apart is a separating partition for the empty heap |
| Congruence.RelatedMergesAreFunctional | internal/pkg/earpointer/state.go:234-245 | in every state reached by such requests, any two representatives that the congruence relates can be merged without a loss |
| Congruence.ApartRunIsLeastCongruence | internal/pkg/earpointer/state.go:15-18 | a run whose requests have such a congruence is lossless and computes their least congruence |
| Congruence.RunComputesLeastCongruence | internal/pkg/earpointer/analysis.go:93-103 | a whole lossless run from the empty state computes the least congruence of all its requests |
| Congruence.OrderIsIrrelevant | internal/pkg/earpointer/state.go:238-249 | lossless runs whose requests are the same up to order end in the same partition |
| Congruence.RunIsStep | internal/pkg/earpointer/analysis.go:93-103 | any stretch of a run is one step for all its requests |
| Congruence.Persistence | internal/pkg/earpointer/analysis.go:751-848 | over any run: what was unified stays unified, class fields are never lost, and if no merge lost a pair every recorded or stored edge still holds at the end |
| Congruence.RepresentativeIsLast | internal/pkg/earpointer/state.go:178-182 | in every reachable state each parent, and so each representative, lies no earlier in the source than the references under it |
| CallStrings.CollectContext | internal/pkg/earpointer/analysis.go:122-140 | returns exactly the call strings of the node, each once |
| CallStrings.ContextKEqual | internal/pkg/earpointer/analysis.go:985-997 | whether the last K sites agree as far as both contexts go |
| CallStrings.Truncated | internal/pkg/earpointer/analysis.go:122-140 | a call string cut to one edge less is a call string for one edge less, and never longer than K |
| CallStrings.AgreeingAreEqual | internal/pkg/earpointer/analysis.go:985-997 | two call strings of one function that agree as far as both go are equal, so running out of sites never makes a wrong match |
| CallStrings.UniqueMatch | internal/pkg/earpointer/analysis.go:574-600 | for every K, call edge and caller context, the context extended by the site matches exactly one callee call string: its own last K sites |
| Visitor.Visitor.InitContexts | internal/pkg/earpointer/analysis.go:109-119 | every function of the call graph gets one context per call string |
| Visitor.Visitor.InitLocal | internal/pkg/earpointer/analysis.go:158-165 | inserts the value in all its contexts and changes nothing else |
| Visitor.Visitor.UnifyLocals | internal/pkg/earpointer/analysis.go:775-783 | the equations between the two values, context by context, or nothing if one of them shares no object |
| Visitor.Visitor.UnifyField | internal/pkg/earpointer/analysis.go:786-809 | the edge obj.fd = target in one context, nothing for unshareable targets |
| Visitor.Visitor.ProcessHeapAccess | internal/pkg/earpointer/analysis.go:739-748 | the edges base.fd = data in all contexts of base |
| Visitor.Visitor.ProcessAddressToValue | internal/pkg/earpointer/analysis.go:751-772 | the edges addr.-> = value in all contexts of addr |
| Visitor.Visitor.GetPointee | internal/pkg/earpointer/analysis.go:835-848 | the target of "->" if there is one; otherwise a synthesised reference that is new to the state, stored there; for program values and for synthetic references that the state holds |
| Visitor.Visitor.UnifyFieldAddress | internal/pkg/earpointer/analysis.go:813-830 | target becomes the field of exactly the pointee that the state names: the stored one, or the one synthesised for the representative |
| Visitor.Visitor.VisitFieldAddr | internal/pkg/earpointer/analysis.go:276-284 | the field-address constraint in all contexts of the address, one request after the other, each through the pointee of the state it meets |
| Visitor.Visitor.UnifyCallWithContexts | internal/pkg/earpointer/analysis.go:574-600 | each argument context is unified with the first matching parameter context, and with no other |
| Visitor.Visitor.VisitAll | internal/pkg/earpointer/analysis.go:93-103 | traversing any list of instructions is a run that makes exactly their requests, each determined by the instruction and the state it meets; it loses nothing if some possible partition after all of them keeps the targets of different fields apart |
| CallBinding.CallPairsAreExact | internal/pkg/earpointer/analysis.go:578-599 | for an argument that is a local of the caller no context is skipped, and each is bound exactly to the parameter context of its last K sites |
| CallBinding.GlobalReachesAllContextsIff | internal/pkg/earpointer/analysis.go:578-599 | a global argument is bound to every parameter context that matches the call if and only if K is at most zero or the caller has a single call string of length K - 1 |
| CallBinding.GlobalIsBoundOnce | internal/pkg/earpointer/analysis.go:593-598 | a global argument is never left unbound, and bound to one parameter context, which came in over the call |
| CallBinding.GlobalMissesContext | internal/pkg/earpointer/analysis.go:579-598 | a call graph where, for K = 2, a parameter context matches the call and is not bound, against the comment |
| CallBinding.GlobalParameterBindsAll | internal/pkg/earpointer/analysis.go:540-543 | a global on the callee's side is bound to the argument in all its contexts |
| Solutions.PointeeFollows | internal/pkg/earpointer/analysis.go:835-848 | whatever pointee the state answers for an address, every solution identifies it with the one it stands for |
| Solutions.SolutionIsCongruence | internal/pkg/earpointer/analysis.go:96-102 | a solution of the constraints of the instructions is a congruence of the requests of every run, lossless or not; one that keeps fields apart does so for the requests too |
| Solutions.OnlySolved | internal/pkg/earpointer/analysis.go:96-102 | no run unifies references that some solution of the constraints tells apart |
| Solutions.LosslessIsSolution | internal/pkg/earpointer/analysis.go:96-102 | what a lossless run leaves behind satisfies all constraints, its synthesised pointees read as what the addresses point to |
| Solutions.LeastSolution | internal/pkg/earpointer/analysis.go:96-102 | on references of program values the partition of a lossless run is the least solution of the constraints |
| Solutions.ApartLosesNothing | internal/pkg/earpointer/analysis.go:96-102 | if a solution keeps the targets of different fields of a class apart, the run loses nothing; the condition names the instructions only |
| Solutions.TraversalOrderIsIrrelevant | internal/pkg/earpointer/analysis.go:89-102 | functions are visited in map order: lossless traversals of the same instructions in any order agree on all program values |
| Demands.ContextsAreThose | internal/pkg/earpointer/analysis.go:974-982 | a value occurs in the contexts of its function; a global, or a value of a function without contexts, in the empty context only |
| Demands.BoundIff | internal/pkg/earpointer/analysis.go:593-598 | an argument in a context is bound in the first context of the parameter's function whose last K sites agree, or in the empty one |
| Demands.PairsAreDemanded | internal/pkg/earpointer/analysis.go:96-102 | the equations an instruction asks for are exactly those between references in the contexts of its values, guarded by whether both may share objects |
| Demands.EdgesAreDemanded | internal/pkg/earpointer/analysis.go:96-102 | the field edges an instruction asks for are exactly those in the contexts of its base or address |
| Analysis.Analyze | internal/pkg/earpointer/analysis.go:79-102 | contexts and traversal from the empty state: every function of the graph has its call strings, declared values are inserted in all their contexts, every instruction is satisfied, only what every model relates is unified, and where a model keeps fields apart nothing is lost and the result is exactly the least model |
| Analysis.RunSatisfies | internal/pkg/earpointer/analysis.go:96-102 | after any traversal, lossless or not, demanded pairs are in one class and demanded fields are there; without losses they lead to the demanded targets |
| Analysis.LocalsAreUnified | internal/pkg/earpointer/analysis.go:775-783 | two locals that may share objects are in one class in every context of the first one's function |
| Analysis.GlobalsJoinContexts | internal/pkg/earpointer/analysis.go:775-783 | a global unified with a local is in the local's class in every context, and joins them |
| Analysis.FieldsAreHeld | internal/pkg/earpointer/analysis.go:739-748 | in every context of the base its class has the field, holding the data if nothing was lost |
| Analysis.AddressesPointToValues | internal/pkg/earpointer/analysis.go:751-772 | in every context of the address its class has "->", leading to the value if nothing was lost |
| Analysis.FieldAddressesAreFields | internal/pkg/earpointer/analysis.go:276-284 | in every context of the field address the object points somewhere, and, if nothing was lost, to what has the address as its field |
| Analysis.ArgumentsMeetParameters | internal/pkg/earpointer/analysis.go:574-600 | at a call edge a local argument is, in each caller context, in the class of the parameter in exactly one callee context: the one that ends the caller's sites extended by the call |
| Visitor.PointeeIsFresh | internal/pkg/earpointer/analysis.go:843-847 | for a representative without "->" the synthesised pointee does not occur anywhere in the state |
| Visitor.PointeesStaySettled | internal/pkg/earpointer/analysis.go:835-848 | steps keep the invariant that a synthesised pointee belongs to an absorbed reference or to a class with "->" |
| Visitor.PointeeIsStable | internal/pkg/earpointer/analysis.go:835-848 | asking twice for the pointee of an address, with any lossless steps between, gives the same class |
| EarPartitions.Partitions.Finalize | internal/pkg/earpointer/state.go:320-363 | parents become grandparents; members, normalised field maps and reverse fields are exactly those of the new parent map |
| EarPartitions.Partitions.OptimizeParents | internal/pkg/earpointer/state.go:327-340 | each reference is mapped to the parent of its parent |
| EarPartitions.Partitions.ConstructMembers | internal/pkg/earpointer/state.go:343-353 | under each representative of the new map every reference mapped to it, once |
| EarPartitions.Partitions.NormalizeFields | internal/pkg/earpointer/state.go:356-360 | every field target is replaced by its entry in the new parent map |
| EarPartitions.Partitions.ConstructFieldParentMap | internal/pkg/earpointer/state.go:418-427 | the multiset inverse of the field maps: an owner is listed under a target once per field that leads there |
| EarPartitions.OwnersAreListed | internal/pkg/earpointer/state.go:418-427 | an owner is listed under a target as often as it has fields that lead there |
| EarPartitions.OptimizedIsExactIff | internal/pkg/earpointer/state.go:323-339 | the new map holds representatives if and only if no parent chain has more than two hops |
| EarPartitions.ToPartitions | internal/pkg/earpointer/state.go:306-315 | the index agrees with the state on parents, members, fields and reverse fields if and only if no chain has more than two hops |
| EarPartitions.LookupFlattens | internal/pkg/earpointer/state.go:204-224 | a reference looked up once keeps pointing at its root through later lookups |
| EarPartitions.LookingUpAllEnablesFinalize | internal/pkg/earpointer/state.go:204-224 | after every reference was looked up, in any order, no chain has more than two hops |
| Examples.FinalizeMissesRepresentative | internal/pkg/earpointer/state.go:323-339 | a reachable state on which finalize maps a reference to a non-representative, against its comment |
| LossyMerges.Cross | internal/pkg/earpointer/analysis.go:786-809 | four field constraints lead from the empty state to that of the next row |
| LossyMerges.MergeLosesPair | internal/pkg/earpointer/state.go:234-244 | two shared fields holding one reference: every congruence relates the kept targets, no outcome of the merge does |
| LossyMerges.UnifyLate | internal/pkg/earpointer/state.go:229-250 | field constraints first, then the unification: the run loses a pair, and two references that every congruence of the requests relates stay apart |
| LossyMerges.UnifyEarly | internal/pkg/earpointer/state.go:229-250 | the same requests with the unification first lose nothing and relate the two references |
| LossyMerges.WorkListIsCompleteIff | internal/pkg/earpointer/state.go:234-244 | the work list keeps the pair of every shared field, up to classes, if and only if fields with one absorbed target have kept targets of one class, whatever the iteration order |
| LossyMerges.MergeIsCompleteIff | internal/pkg/earpointer/state.go:229-250 | after a merge whose own unifications lose nothing all field edges hold if and only if the pairs on the work list force, by congruence, those that were overwritten |
| HeapTraversal.AgreementIsNormal | internal/pkg/earpointer/state.go:356-360 | an index that agrees with its state is a normalised heap |
| HeapTraversal.Traversal.FieldRefs | internal/pkg/earpointer/taint.go:114-128 | adds the in-scope members of the partitions visited by the call, each expanded; terminates on cyclic heaps |
| HeapTraversal.FieldReferences | internal/pkg/earpointer/taint.go:114-128 | from an empty visited set: adds exactly the in-scope members of all partitions reachable along field edges |
| HeapTraversal.FieldReferencesOfState | internal/pkg/earpointer/state.go:306-315 | for a state whose chains are short: finalising and traversing yields exactly the in-scope members of all classes that the field edges of the state lead to |
| HeapTraversal.FunctionSet.AddReachable | internal/pkg/earpointer/taint.go:168-185 | adds functions fewer than depth calls away; with enough depth for what is missing, adds all neighbours of what it adds |
| HeapTraversal.BoundedReachableFunctions | internal/pkg/earpointer/taint.go:168-185 | only functions that fewer than depth calls, made or received, lead to; when depth is at least its size, exactly the smallest set around the start that holds all callees and callers of its members; nothing for depth 0 and the start alone for depth 1 |
| Propagation.Propagation.CanReach | internal/pkg/propagation/propagation.go:318-339 | answers exactly control-flow reachability, the dominance shortcut included |
| Propagation.Propagation.ShouldNotTaint | internal/pkg/propagation/propagation.go:99-127 | refuses exactly nodes already tainted and those that FlowLaws.IsRefused describes: not listed by their block, in a block that the last one on the way does not lead to, or a call entered as a referrer that precedes an instruction on the way |
| FlowLaws.BlockedIff | internal/pkg/propagation/propagation.go:99-127 | flow blocks a node for exactly the three reasons of the source, said of block listings, successors and the nodes on the way |
| FlowLaws.OperandsMayLieInThePast | internal/pkg/propagation/propagation.go:116-123 | a node entered as an operand is never refused for its index |
| Propagation.Propagation.Taint | internal/pkg/propagation/propagation.go:71-97 | taints the node or finds it blocked, and handles whatever it newly taints; terminates on cyclic graphs |
| Propagation.Propagation.TaintReferrers | internal/pkg/propagation/propagation.go:222-232 | every referrer of a node of taintable type is tainted or blocked |
| Propagation.Propagation.TaintOperands | internal/pkg/propagation/propagation.go:234-241 | every operand is tainted or blocked |
| Propagation.Propagation.TaintNeighbors | internal/pkg/propagation/propagation.go:129-212 | every hop that the node's kind allows at the time of the visit ends in a tainted node or is blocked; no other hop is taken (which hops these are: the HopLaws rows) |
| HopLaws.ReferrersAreVisited | internal/pkg/propagation/propagation.go:129-232 | every referrer of a tainted node of taintable type is tainted or refused, except from inert kinds, non-array allocations, unconfigured fields, stores, map updates, sends, selects, go statements and calls |
| HopLaws.OperandsAreVisited | internal/pkg/propagation/propagation.go:150-212 | the written address, updated map, sent-on channel, indexed or sliced value, and all operands of MakeInterface, TypeAssert, UnOp and configured fields are tainted or refused |
| HopLaws.NothingElseIsVisited | internal/pkg/propagation/propagation.go:129-316 | every tainted node is the root, a referrer of a root of taintable type, or one of the referrers and operands that the laws name for an earlier node |
| HopLaws.BuiltinsAreFollowed | internal/pkg/propagation/propagation.go:258-280 | append and copy visit their first argument if its type allows, append its referrers too |
| HopLaws.SelectsAreFollowed | internal/pkg/propagation/propagation.go:282-316 | a tainted sent value visits its channel; a receive from a tainted channel visits the Extract at 2 plus the number of receives before it |
| HopLaws.ExtractIndexCounts | internal/pkg/propagation/propagation.go:287-294 | the tuple position of a receive is 2 plus the number of receive states before it |
| Propagation.Propagation.TaintCall | internal/pkg/propagation/propagation.go:243-256 | a sanitizer call is recorded and not left; builtins and library calls propagate by their rules |
| Propagation.Propagation.TaintBuiltin | internal/pkg/propagation/propagation.go:258-274 | append and copy taint their first argument if its type allows, append its referrers too, other builtins nothing |
| Propagation.Propagation.TaintStdlibCall | internal/pkg/propagation/stdlib.go:26-89 | nothing is tainted if the gate is closed; if it is open, the arguments that the summary lists are tainted or refused, the receiver of an invoke call being position 0 |
| HopLaws.GateIff | internal/pkg/propagation/stdlib.go:32-48 | the gate is open iff a listed position below 64 is tainted, position 0 being the receiver of an invoke call and its arguments moved up by one |
| HopLaws.SummariesAreFollowed | internal/pkg/propagation/stdlib.go:50-89 | a call whose gate is open visits the arguments and, unless it is a go statement, the results of its summary |
| Propagation.Propagation.TaintSelect | internal/pkg/propagation/propagation.go:282-316 | a tainted sent value taints its channel, a tainted channel the Extracts of its receive state |
| Propagation.GateIsOpenIff | internal/pkg/propagation/stdlib.go:39-48 | the bitset test is positive iff some argument below position 64 is tainted and listed |
| Propagation.Propagation.IsTainted | internal/pkg/propagation/propagation.go:342-356 | tainted, and not dominated by any recorded sanitizer |
| Propagation.Taint | internal/pkg/propagation/propagation.go:45-59 | the finished search: every tainted node handled, the root first, every referrer of a root of taintable type tainted or refused without history |
| TaintSearch.PushIsValid | internal/pkg/propagation/propagation.go:71-97 | tainting by a possible and unblocked hop keeps the search valid: no duplicates, every node at the end of a trail that extends an earlier one |
| TaintSearch.ContinuesTransitive | internal/pkg/propagation/propagation.go:61-97 | what was handled stays handled while the search goes on |
| TaintTheorems.EntriesAreConnected | internal/pkg/propagation/propagation.go:129-280 | every entry is the root, a direct referrer of a root of taintable type, or an operand or referrer of an earlier entry of a kind that lets taint through; sanitizer calls, inert kinds and unconfigured fields are never left otherwise |
| TaintTheorems.TrailFollowsControlFlow | internal/pkg/propagation/propagation.go:110-114 | of two instructions on the path to a tainted node the later lies in a block reachable from the earlier one's |
| TaintTheorems.CallsAreNotInThePast | internal/pkg/propagation/propagation.go:116-123 | a call entered as a referrer never precedes, in its block, an instruction already on the path |
| TaintTheorems.TaintedIsReachable | internal/pkg/propagation/propagation.go:54-56 | a tainted instruction's block is reachable from the block of the root or, in the second phase, of a direct referrer of the root |
| TaintTheorems.SanitizersAreRecorded | internal/pkg/propagation/propagation.go:243-247 | after the search the recorded sanitizers are exactly the tainted sanitizer calls |
| TaintTheorems.SanitizedMeansExecuted | internal/pkg/propagation/propagation.go:342-356 | a tainted instruction counts as sanitised iff some recorded sanitizer of its function is executed earlier on every run of the function, from its entry or its recover block |
| Sanitizer.Dominates | internal/pkg/sanitizer/sanitizer.go:35-57 | same function, and within a block call index below target index, across blocks block dominance |
| Sanitizer.IsIrreflexive | internal/pkg/sanitizer/sanitizer.go:41-54 | no call dominates itself |
| Sanitizer.DominatedIsExecutedAfter | internal/pkg/sanitizer/sanitizer.go:31-34 | if the call dominates the target, every run from the entry executes the call before it arrives at the target |
| Sanitizer.AlwaysExecutedBeforeIsDominated | internal/pkg/sanitizer/sanitizer.go:31-34 | conversely, a call that every run executes first dominates the target |
| Ssa.DominanceImpliesReach | internal/pkg/propagation/propagation.go:318-321 | without dead blocks a dominating block reaches the dominated one, which justifies the shortcut of canReach |
| Ssa.IndexInBlock | internal/pkg/propagation/propagation.go:374-383 | the index at which the block lists the instruction, or none |
| SourceInfer.TopoSort.Visit | internal/pkg/sourceinfer/analyzer.go:227-237 | lists what it newly visits after all its successors, except successors that lead back |
| SourceInfer.TopoSort.Sort | internal/pkg/sourceinfer/analyzer.go:224-242 | every key and successor exactly once, each successor earlier than its predecessor unless it leads back |
| SourceInfer.EdgeOrder | internal/pkg/sourceinfer/analyzer.go:221-223 | for a direct edge u to v where v cannot reach u, v comes before u, cycles or not |
| SourceInfer.AcyclicOrder | internal/pkg/sourceinfer/analyzer.go:221-223 | without cycles everything an object leads to comes before it |
| SourceInfer.SearchFrom | internal/pkg/sourceinfer/analyzer.go:192-208 | one search adds exactly what its start newly reaches and infers the local part of it except the start |
| SourceInfer.InferSources | internal/pkg/sourceinfer/analyzer.go:177-212 | seen is exactly what the base sources reach, the smallest set that holds them and whatever the graph lists for a member; the inferred set is its local part minus the objects that started a search; without cycles an object is inferred iff a base source reaches it by at least one edge |
| SourceInfer.InferenceIsExact | internal/pkg/sourceinfer/analyzer.go:182-209 | once all base sources were treated in this order the two statements of the row above hold, for any map iteration order |
| SourceType.HasTaggedField | internal/pkg/sourcetype/sourcetype.go:75-83 | whether some field is tagged |
| SourceType.Search.IsSourceType | internal/pkg/sourcetype/sourcetype.go:40-73 | yes only if a source is reachable; no only if everything newly seen is no source and has its components seen |
| SourceType.IsSourceType | internal/pkg/sourcetype/sourcetype.go:27-35 | true iff a configured named type or a struct with a tagged field is reachable through Underlying, Elem and Key; equivalently, iff the type is in no set of types that may all answer no together; terminates on cyclic types |
| SourceType.AnswersAreConsistent | internal/pkg/sourcetype/sourcetype.go:48-72 | the answer satisfies the equation of every shape: configured or underlying, key or element, element, some tagged field, never |
| SourceType.HarmlessContainsNoSource | internal/pkg/sourcetype/sourcetype.go:37-46 | among the solutions of these equations on a cyclic graph the answer is the least: a self-consistent set of noes has no source |

## Left out

- EarState.State.MergeFieldMap: the field map that Go shares by reference is named by the representative that owns it; aliasing between partition entries and the freed map of the absorbed partition are not represented.
- EarPartitions.Partitions.Finalize: requires all field targets to be inserted; for others the source stores nil.
- Congruence.LeastCongruence: the lower bound needs a lossless run; `LossyMerges.UnifyLate` shows it fails otherwise. `Separable` and the solutions of `Analysis.Analyze` that keep fields apart guarantee it for every order of the requests; they are sufficient, not necessary, and since the same requests lose in one order and not in another no condition blind to the order is both. For a single merge `LossyMerges.MergeIsCompleteIff` is exact. For lossy runs the upper bound, the requested equations and the presence of fields are proved.
- CallStrings.UniqueMatch: assumes that a call site belongs to one caller and that a node lists no In edge twice; the sharing of backing arrays by Go's append is not represented.
- Visitor.Visitor.UnifyCallWithContexts: the loop for tuple results, which does not stop at the first match, is not modelled, nor is the collection of callee constraints.
- visitField, unifyByValue and unifyFields: the first can store a reference that was never inserted and depends on the order of instructions; the others compare addresses of locals and share synthetic references, so they have no clean contract.
- HeapTraversal.BoundedReachableFunctions: says nothing about the exact radius for small depths, since a function first met with little depth left blocks a later visit.
- Visitor.Visitor.GetPointee: a synthetic address must be one that the state holds, as is every one the source passes.
- Propagation.Propagation.TaintStdlibCall: the map from tuple positions to Extracts is part of the input, and every position the source looks up is assumed to have one.
- Propagation.Propagation.CanReach: assumes every block is reachable from its function's entry or is, or is reached from, its recover block, so that the dominance shortcut agrees with reachability.
- Propagation.Taint: handled is relative to the trail by which a node was first tainted; that the result is independent of the visiting order is false and not claimed.
- Sanitizer.Dominates: the dominator tree is a parameter with its meaning by runs; the recover block of a function, where it has one, is a second block at which runs begin.
- SourceInfer.InferSources: findObjects and the creation of the object graph are not modelled; base sources are a parameter.
- srcRefs, the heap-based canReach and the reports built from them: they only combine the closures above.
- Class sizes and logarithmic height: the stored sizes are never updated, so nothing of the kind holds.
- Configuration, field tags, function summaries, suppression, debug rendering, report text and analyzer plumbing: input, output or lookup tables.
