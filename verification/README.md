# Verified model of the ComfyNG core

ComfyNG compiles node graphs into execution plans, runs them as jobs, and keeps their
results in a content-addressed store. This project models the three parts of it whose
correctness is least visible from any single function, and proves what they promise.

**The graph compiler.** A node is an uninterpreted function of its type, version, metadata
and the values bound to its ports; the meaning of a graph is the one assignment of outputs
that satisfies every node's equation (`Semantics`). Subgraph calls are inlined one by one
(`Inlining`, `InlineCall`, `Expansion`, `Meaning`, `Expand`, `ExpansionTheorems`, `CallChains`,
`Determinism`, `Traces`, `CallDefects`, `Interpretation`), the result is validated (`Validation`,
`Acceptance`), layered (`Layering`, `Topology`, `CriticalPath`), keyed (`CacheKeys`, `PlanKeys`),
fused and contracted (`Fusion`, `Contraction`), built into steps (`Compile`, `PlanSteps`) and
annotated with control regions (`Reachability`, `ControlNesting`, `ControlRegions`, `ControlPlan`,
`LoopNesting`, `RegionMembers`); `FullCompile` puts the phases together, with every outcome.
`AcceptanceExamples`, `SwitchExample`, `ControlExamples`, `NestingExamples`, `KeyExamples` and
`TraceExamples` hold concrete graphs. `PlanTheorems`, `Permutation` and `Outcomes` hold the
end-to-end results: running a compiled plan, in any interleaving it allows, computes the graph
that was compiled, equal keys may share results, and neither the plan nor the kind of failure
depends on the order in which nodes and edges are stored.

**The scheduler.** Job records (`Jobs`), priority queues (`Queues`), the admission broker
(`Budgets`, `Broker`), the result cache (`ResultCache`), the event journal (`Journal`) and
cancellation tokens (`Cancellation`) are classes with the fields the Python objects have.
`SchedulerModel` is the state machine of atomic steps over their values, `JobEffects` says what
each step does to its job and what becomes of a result, `SchedulerRuns` and `SchedulerHistory` hold
the theorems over whole runs, and `Scheduler` is the object itself: each of its methods is proved
to take exactly one step of the machine, and its main loop to drain all work.

**The content store.** `StoreProtocol` interleaves the small steps of any number of writers,
reference holders and collectors, down to single lock acquisitions and single manifest reads,
and `StoreOutcomes` says what each job has done when it ends. `ContentStore` holds the operations one at a time.

`dafny verify dfyconfig.toml` checks everything. All files are at the top level, one module a
file, each named after its module.

Several modules say a result a second time, over the stored graph, the catalogue or the record
alone, and prove that this is what the phase computes: `Acceptance` for validation, `CallDefects`
for inlining, `PlanKeys` for keys, `PlanSteps` for fusion and steps, `RegionMembers` for control
regions, `JobEffects` for the scheduler's steps and `StoreOutcomes` for the store's jobs.

## How the source is read

- Node identifiers are a free datatype: an original number, or the identifier of a clone, made
  of the call, the child graph's id and version, and the inner node. It replaces the name-based
  identifiers of section 5.5 of RFC 9562, so derived identifiers do not collide. Sorting and
  minimising by `key=str` becomes a total order on this type; numbers stand for graph ids.
- SHA-256 over canonical JSON is an injective function from the hashed record to a string. Where
  a theorem needs injectivity it says so (`CollisionFree`).
- JSON Schema checks of literals and type compatibility of ports are predicates handed to
  validation. Equality of schema fingerprints is equality of schemas.
- The theorems about meaning take well-formed source graphs in which no call has an edge to
  itself and registered graphs that bind distinct input names to distinct inner ports. They may
  be cyclic as long as the expansion is not. Where a promise fails without such a condition, the
  exact condition is proved: `LiteralsKeptIff`, with a concrete lost literal
  (`OverwrittenLiteral`), and `InliningWellFormedIff` for an edge from a call to itself.
- Clocks, cache contents at launch, dispatcher outcomes and external calls are arbitrary; the
  clock never goes backwards and the scheduler is the broker's only client. Repository, journal
  and cache of the in-memory wiring (src/comfyng/api/app.py:219-234) never suspend inside their
  own locks, so the sections under the control lock, and an attempt's stretches between its
  suspension points, are atomic steps. Floating-point scores are reals.
- Publishing and unlinking a file are atomic steps. Locks are a thread lock and a file lock per
  digest, taken one after the other.

## What the proofs show about the code

- The cycle error is worded as if it named a cycle. It lists every node on a cycle or downstream
  of one (`TopologicalLayers`).
- A for-each body is said to end at its collect node. Every collect node downstream of the loop
  bounds it, nested ones included (`RawLoopOf`).
- A loop region's body and boundary steps should be disjoint. They are exactly as long as fusion
  did not join a body node with a collect node (`OverlapIffFused`, `CompileFully`); the accepted
  graph of `OverlapHappens` never compiles, because a region's constructor fails. That needs a
  catalogue whose collect node may be fused, which the shipped one is not.
- Loops that come one after the other are reported as cyclic nesting, with shipped nodes and
  nothing nested (`LoopsInTurnAreReported`): the second loop counts as part of the first one's body
  and the first as part of the second one's iterable (`MutualIffFeeds`). The exact condition is a
  ring of innermost owners (`CyclicIffRing`, `LoopsParentEachOther`), so a third loop that owns less
  can hide the circle: then the graph compiles and the first loop counts as nested in the third
  (`ThirdLoopIsAccepted`).
- The order in which calls are inlined does not change a successful expansion (`OrderIndependent`),
  but it decides whether there is an id collision on the way (`OrderDecides`).
- Trace ids are unique exactly as long as no graph stores a call under the id that another of its
  calls gives to a call of its child (`TracesFormForest`). The collision check does not see it,
  since the child's call is gone by then; the plan's constructor does (`TracesShareAnId`).
- A reduced batch that lacks only current room is rejected, although it would fit later
  (`ReducedBatchNeverWaits`, `ReducedBatchTurnedAway`).
- The key of a fused step covers its evidence, which names member ids: equal node keys mean
  equal values whatever the ids, but two equal chains under different ids get different step keys
  (`StepKeysSound`, `TwinStepsApart`).

## Model

| member | source | states |
|---|---|---|
| Layering.StuckIffCycle | src/comfyng/graph/topology.py:39-81 | Kahn's loop leaves a node over if and only if the graph has a directed cycle |
| Layering.LayerIsLongestDistance | src/comfyng/graph/topology.py:64-77 | the layer index of a node is the number of arcs on a longest path that ends there: such a path exists and none is longer |
| Layering.LayersAreLeastRanking | src/comfyng/graph/topology.py:64-77 | no assignment of numbers that grows along edges places a node below its layer |
| Layering.LayersDisjoint | src/comfyng/graph/topology.py:64-77 | a node lies in at most one layer, and never when it is left over |
| Topology.PeelAll | src/comfyng/graph/topology.py:58-77 | the in-degree loop computes exactly the mathematical layers, each sorted by id, and ends with positive in-degree exactly on the nodes it cannot reach |
| Topology.TopologicalLayers | src/comfyng/graph/topology.py:39-81 | exact for every input: invalid input iff a duplicate or dangling id; otherwise a cycle error iff there is a cycle, and then it lists exactly the nodes on or downstream of a cycle, sorted (more than the nodes on a cycle) |
| CriticalPath.FlattenIsTopological | src/comfyng/graph/topology.py:84-92 | the concatenated layers list every node once with every edge pointing forwards |
| CriticalPath.CriticalPathLengths | src/comfyng/graph/topology.py:95-110 | one backward sweep gives every node the length of a longest path that starts there |
| CriticalPath.SelectCriticalPath | src/comfyng/graph/topology.py:113-143 | the selected path is a real path from a root, as long as any path in the graph, and of all such paths the first in id order |
| CriticalPath.LeastCriticalUnique | src/comfyng/graph/topology.py:122-142 | only one path meets that description, so the selection is a function of the node and edge sets |
| CriticalPath.CriticalPathMeetsEachLayerOnce | src/comfyng/graph/topology.py:113-143 | a critical path has exactly one node in each layer, so the number of layers equals the longest path |
| Semantics.SolutionUnique | src/comfyng/graph/compiler.py:1400-1446 | an acyclic graph has at most one assignment of outputs that satisfies all node equations |
| Semantics.RunSolves | src/comfyng/graph/compiler.py:1376-1377 | executing the nodes in any topological order solves the graph |
| Semantics.SolutionReads | src/comfyng/graph/types.py:137-253 | in a solution every node's outputs are what its type makes of exactly what it reads: its literals, the outputs at the other ends of its edges by port, and the graph inputs bound to it; graph outputs are the outputs they are bound to |
| Validation.Validate | src/comfyng/graph/validation.py:421-710 | no error is reported if and only if the graph is acceptable: unique ids, known types, fitting edges and bindings, literals in order, required ports bound exactly once, others at most once, bounded loops, no cycle |
| Acceptance.AcceptedIff | src/comfyng/graph/validation.py:421-710 | acceptance said of the stored graph and the catalogue alone: unique ids; known types; every edge between existing ports with compatible types; literals in order; each required port bound in exactly one way and any other in at most one; boundary bindings to existing ports; iterations within the limit; no walk back to its start |
| Acceptance.AcceptedEdgesFit | src/comfyng/graph/validation.py:490-533 | the catalogue schemas at the two ends of an accepted edge are compatible, whichever stored nodes carry the ends' ids |
| AcceptanceExamples.AcceptedExample | src/comfyng/graph/validation.py:421-710 | a concrete graph that is accepted; beside it a rejected graph for every kind of check |
| AcceptanceExamples.WrongTypeRejected | src/comfyng/graph/validation.py:523-533 | a graph whose only fault is an edge from a string port to an integer port is rejected |
| Validation.AcceptedBoundOnce | src/comfyng/graph/validation.py:590-655 | in an accepted graph no port has two bindings of any kind |
| Validation.AcceptedEdgesDistinct | src/comfyng/graph/validation.py:590-655 | an accepted graph stores no edge twice |
| Validation.AcceptedEvaluates | src/comfyng/graph/validation.py:590-708 | acceptance makes evaluation total and unambiguous: exactly one valuation, and under it no port receives two values |
| InlineCall.InlineCall | src/comfyng/graph/subgraphs.py:148-300 | succeeds iff the call fits its child (no id collision, known ports on both sides, no doubly bound port, sound child edges); the result is the parent with the call replaced by clones; the error is that of the first check that fails, for edges that of the first stored edge |
| CallDefects.ReplacedIffSound | src/comfyng/graph/subgraphs.py:148-311 | a call can be replaced iff nothing is wrong with it, said of the stored graphs: the child is not empty, the kind exists, no clone takes an existing id, used ports exist on the child's boundary and lead to its nodes, no port is bound twice, child edges are sound |
| CallDefects.UnfitTells | src/comfyng/graph/subgraphs.py:148-311 | whatever code an unfit call is reported under, the defect it names is there |
| CallDefects.DefectsComeInOrder | src/comfyng/graph/subgraphs.py:148-200 | of several defects the first in the order of the checks is reported |
| Inlining.InliningPreservesMeaning | src/comfyng/graph/subgraphs.py:148-300 | interpret the call as its child graph: surviving nodes and graph outputs keep their values in the inlined graph, clones take the child's |
| Inlining.LiteralsKeptIff | src/comfyng/graph/subgraphs.py:157-187 | a clone receives every literal sent to it iff literals for one inner port agree; otherwise one is overwritten without an error |
| ExpansionTheorems.OverwrittenLiteral | src/comfyng/graph/subgraphs.py:157-187 | a concrete call whose second literal is silently lost |
| Expansion.InliningWellFormedIff | src/comfyng/graph/subgraphs.py:204-236 | the inlined graph has no dangling reference iff the call has no edge to itself, of which only the target is rewritten |
| Expansion.InliningAcyclic | src/comfyng/graph/subgraphs.py:148-300 | an acyclic child in an acyclic parent gives an acyclic graph |
| Expansion.ExpansionSound | src/comfyng/graph/subgraphs.py:340-406 | an expansion of well-formed graphs without self-edges on calls is well-formed and contains no node of a registered type |
| Meaning.ExpansionPreservesMeaning | src/comfyng/graph/subgraphs.py:340-406 | lifted to whole expansions by induction: ordinary nodes and graph outputs keep their values whenever registered types mean their graphs; only the expanded graph has to be acyclic |
| Meaning.ExpansionReflectsMeaning | src/comfyng/graph/subgraphs.py:340-406 | conversely every solution of the expanded graph comes from one of the graph before expansion, with the same outputs and ordinary values |
| Meaning.ExpandableMeansOneThing | src/comfyng/graph/subgraphs.py:340-406 | a graph whose expansion is acyclic has exactly one meaning, even if it is cyclic itself through a call |
| Interpretation.InterpretationExists | src/comfyng/graph/subgraphs.py:340-406 | any meaning of the ordinary types extends to the registered types so that each means its graph, if every registered graph has an acyclic expansion |
| Expand.NextCall | src/comfyng/graph/subgraphs.py:356-363 | the loop picks the call with the smallest id, and stops iff no call is left |
| Expand.InliningFewerCalls | src/comfyng/graph/subgraphs.py:355-406 | inlining an expanded child leaves strictly fewer calls, all of them old ones: why the loop ends |
| Expand.ExpandAll | src/comfyng/graph/subgraphs.py:340-406 | always terminates: it succeeds with a run that takes the smallest call id at every level, and with that run's traces, or raises the error at the point where the recursion stops: too deep, a key being expanded already, or a call that does not fit its expanded child |
| CallChains.RunMeansChainsGood | src/comfyng/graph/subgraphs.py:346-371 | success means that no chain of calls from the graph repeats a key or exceeds the depth, although the recursion never looks at whole chains |
| CallChains.StopMeansBadChain | src/comfyng/graph/subgraphs.py:346-371 | a recursion or depth error is raised exactly where the recursion stops for that reason, and then a chain really repeats a key or is too deep |
| Determinism.NotBoth | src/comfyng/graph/subgraphs.py:340-406 | an expansion that succeeds does not also fail, whatever the stored order and the values of literals: an error at any depth excludes every success |
| Determinism.StopsAtOnePlace | src/comfyng/graph/subgraphs.py:340-406 | all errors of one source come at one place in the recursion, in any stored order; a chain error and an unfit call never compete |
| Determinism.RunsOnce | src/comfyng/graph/subgraphs.py:340-406 | a source has at most one expansion, and one way to it, if distinct input names of a registered graph lead to distinct ports |
| TraceExamples.OrderDecides | src/comfyng/graph/subgraphs.py:356-363 | a concrete graph that expands in one order of inlining, while the loop, which takes the smallest id first, fails with an id collision |
| Traces.TracesNest | src/comfyng/graph/subgraphs.py:314-406 | members are final nodes, and every nested trace has its parent one level up and lies inside its members |
| Traces.CallShowsItsTrace | src/comfyng/graph/subgraphs.py:303-311 | every call of the graph has a root trace under its id, with its declared kind (one of three, "subgraph" by default), its type, and the id and version of the registered graph |
| Traces.TracesTellOfCalls | src/comfyng/graph/subgraphs.py:314-337 | and no trace shows anything but the kind, type and graph of a call of the source or of a registered graph |
| Traces.TracedIffCalled | src/comfyng/graph/subgraphs.py:314-406 | the traced call ids are exactly those of the calls in the graph and, as cloned, of the calls below it |
| Traces.TracesFormForest | src/comfyng/graph/compiler.py:603-621 | the traces meet every check of the plan constructor iff no graph reached stores a call under the id that another of its calls gives to a call of its child |
| Traces.ApartMeansUnshared | src/comfyng/graph/subgraphs.py:112-113 | original ids are never shared, nor are ids cloned out of other graphs: no call of any chain of calls shares an id as long as no call carries an id cloned out of a call of its own graph |
| TraceExamples.TracesShareAnId | src/comfyng/graph/subgraphs.py:389-406 | a concrete graph that expands without an error and has two traces of one id |
| ExpansionTheorems.Flattened | src/comfyng/graph/subgraphs.py:340-406 | a sequence of inlinings equals one simultaneous replacement of all calls |
| ExpansionTheorems.OrderIndependent | src/comfyng/graph/subgraphs.py:340-406 | confluence: any two orders of inlining, at every depth and over any stored order, end with the same nodes, edges and bindings |
| CacheKeys.Annotate | src/comfyng/graph/compiler.py:1402-1446 | the sweep gives every node the hash of its content over its sources' keys, and flags constants by their sources |
| CacheKeys.CacheKeysSound | src/comfyng/graph/cache.py:69-90 | with an injective hash two nodes with equal keys, in one graph or two and whatever their ids, evaluate equally whenever equally named graph inputs agree |
| PlanKeys.NodeKeysEqualIff | src/comfyng/graph/cache.py:69-90 | under an injective hash two nodes have one key iff they are equal but for their ids and are fed alike: by equally keyed sources through the same ports, and by the same graph inputs |
| CacheKeys.ConstantIffUnreached | src/comfyng/graph/compiler.py:1419-1427 | a node is flagged constant iff no graph input reaches it |
| CacheKeys.ConstantIgnoresInputs | src/comfyng/graph/compiler.py:1419-1427 | a constant node computes the same outputs for all graph inputs |
| Fusion.NextMapIsInjective | src/comfyng/graph/compiler.py:775-835 | fusible links never converge on one node |
| Fusion.LinkSafety | src/comfyng/graph/compiler.py:800-835 | a link never joins a control node, swallows a graph output or skips a graph input |
| Fusion.GrowChain | src/comfyng/graph/compiler.py:858-893 | the inner loop follows links to the end of the chain; its two extra exits never cut a chain short |
| Fusion.FusionUnits | src/comfyng/graph/compiler.py:838-916 | the units are exactly the maximal chains of fusible links, partition the nodes, come in order of their heads, and carry the evidence of their links |
| Fusion.FusedMembersCompatible | src/comfyng/graph/compiler.py:895-913 | what the evidence asserts is true of every member: pure, deterministic, offline, no control node, one kind and runtime, one-to-one links, no inner graph input or output |
| PlanSteps.FusedIff | src/comfyng/graph/compiler.py:775-835 | both directions, over the stored graph and the profiles: the ends of a stored edge are neighbours in a step iff both are known, pure, deterministic and without side effects, of one fusion kind and one offline runtime, joined by ports of one schema, the edge is the only one out of its source and into its target, no graph output leaves the source, no graph input enters the target, and neither is a control node |
| PlanSteps.StepsFollowEdges | src/comfyng/graph/compiler.py:858-893 | only the ends of stored edges come one after the other in a step |
| Contraction.ContractionLayers | src/comfyng/graph/compiler.py:941-964 | the contracted graph is acyclic, so the second layering never raises, and it has at most as many groups as the graph has layers |
| Contraction.PlanScheduleIsTopological | src/comfyng/graph/compiler.py:919-1034 | every edge points forwards in every schedule of the plan |
| Contraction.PlanRunsAsGraph | src/comfyng/graph/compiler.py:919-1034 | groups in turn, steps inside a group in any interleaving, fused members in sequence: every node gets the value of direct evaluation |
| Compile.BuildRep | src/comfyng/graph/compiler.py:942-944 | every member maps to the head of its unit and to nothing else |
| Compile.Synthesize | src/comfyng/graph/compiler.py:945-955 | the synthetic edges are the edges between units, moved to the heads, in stored order |
| Compile.BuildStep | src/comfyng/graph/compiler.py:981-1033 | a step lists, in id order, exactly the steps it reads from and those that read from it, with its unit's members, key and constancy |
| PlanSteps.StepNeighbours | src/comfyng/graph/compiler.py:966-1019 | a step depends on exactly the other steps with a stored edge from a member into one of its members, and its dependents are exactly the other steps it has an edge into |
| PlanSteps.StepGroupsAreTight | src/comfyng/graph/compiler.py:957-980 | a step without dependencies is in the first group, any other one group after the latest of the steps it depends on |
| PlanSteps.StepConstantIff | src/comfyng/graph/compiler.py:1012-1019 | a step is constant iff no graph input reaches any of its members |
| PlanSteps.StepsComputeGraph | src/comfyng/graph/compiler.py:919-1034 | running the steps in any order in which each comes after the steps it depends on, groups or not, computes every output of the graph that was compiled |
| Compile.CompileGraph | src/comfyng/graph/compiler.py:1344-1376 | an expansion failure is the error at which the recursion stops; otherwise the outcome is a valid plan of the one expansion iff validation accepts it |
| PlanTheorems.StepKeysSound | src/comfyng/graph/compiler.py:1003-1011 | reusing a step's result under an equal key is sound: two steps with equal keys, of one plan or two, have as many members, and these compute equal values whenever equally named graph inputs agree |
| PlanKeys.StepKeysEqual | src/comfyng/graph/compiler.py:1003-1011 | two steps have one key iff their evidence is equal and their members have equal node keys in turn |
| PlanKeys.PlanKeysEqualIff | src/comfyng/graph/compiler.py:1548-1562 | two plans have one key iff graph version, the multiset of step keys and, per output name, the node key and port agree |
| PlanKeys.PlanKeysSound | src/comfyng/graph/compiler.py:1548-1562 | plans with equal keys have the same output names and give the same values at them whenever equally named graph inputs agree |
| KeyExamples.TwinStepsApart | src/comfyng/graph/compiler.py:1003-1011 | two equal chains in one graph have equal node keys and different step keys |
| FullCompile.BuildGroups | src/comfyng/graph/compiler.py:1521-1545 | one group per layer, with the layer's steps in order and, sorted, exactly the other groups its steps read from |
| FullCompile.CompileFully | src/comfyng/graph/compiler.py:1344-1579 | every outcome with its exact condition: the error at which the expansion stops, rejection iff the expansion is not acceptable, constructor failure iff fusion joined a loop's body with its boundary, region errors iff a loop is malformed or nesting is cyclic, and otherwise a plan whose groups are the layers and whose regions are drafted from the graph, with innermost owners as parents |
| Outcomes.OutcomeIgnoresStoredOrder | src/comfyng/graph/compiler.py:1344-1579 | a source has one outcome: two compilations of it, stored in whatever order, fail alike (with one code for chain errors and the same region errors) or finish with the same order, path, steps, keys, groups and regions |
| FullCompile.FinishedPlanConstructs | src/comfyng/graph/compiler.py:396-635 | the constructors of groups and regions never reject a finished compilation, loops are bounded within the limit, and the plan's own constructor rejects order, path, steps, dependencies or traces iff two traces share an id |
| PlanTheorems.PlanConstructorAccepts | src/comfyng/graph/compiler.py:474-537 | the plan constructor accepts order, critical path, step partition, symmetric dependencies and traces of a valid plan iff no trace id is shared |
| PlanTheorems.CompiledPlanMeansGraph | src/comfyng/graph/compiler.py:1344-1579 | end to end: every schedule of the compiled plan computes every output of the graph that was compiled, subgraph calls included |
| PlanTheorems.CompiledPlanKeepsNodes | src/comfyng/graph/compiler.py:1344-1579 | ordinary nodes keep their own values under their own ids |
| Permutation.StoredOrderIrrelevant | src/comfyng/graph/compiler.py:1376-1562 | permuting stored nodes and edges changes neither topological order, critical path, units, groups, steps and step keys nor the plan key |
| Permutation.CompilationIgnoresStoredOrder | src/comfyng/graph/compiler.py:1344-1562 | the same for whole compilations, expansion included |
| Reachability.Closure | src/comfyng/graph/compiler.py:1037-1053 | the worklist visits exactly the nodes some start node leads to |
| Reachability.Origins | src/comfyng/graph/compiler.py:1037-1053 | over reversed edges it visits exactly the nodes that lead to a start node |
| ControlRegions.RawLoopOf | src/comfyng/graph/compiler.py:1115-1160 | boundaries are all collect nodes downstream of the loop (nested ones included), the body what lies between, the iterable what feeds its items; malformed iff something follows the loop but no collect does |
| ControlRegions.BodyAvoidsIterable | src/comfyng/graph/compiler.py:1115-1160 | in an acyclic graph no node is in the iterable and also in the body or boundary of a loop |
| ControlRegions.BranchesDisjoint | src/comfyng/graph/compiler.py:1162-1222 | the two branches of a condition share no step, although members were mapped to fused steps |
| ControlRegions.BranchHasEnds | src/comfyng/graph/compiler.py:1162-1222 | a non-empty branch has an entry step and an exit step |
| ControlRegions.ConditionAccepted | src/comfyng/graph/compiler.py:131-228 | every condition region passes its constructor |
| ControlRegions.LoopAccepted | src/comfyng/graph/compiler.py:160-228 | a loop region passes its constructor iff it has a non-negative bound and no fusible link joins its body with its boundary |
| ControlRegions.OverlapIffFused | src/comfyng/graph/compiler.py:216-228 | body and boundary steps are disjoint iff no fusible link joins a body node and a boundary node |
| ControlExamples.OverlapHappens | src/comfyng/graph/compiler.py:1094-1311 | an accepted graph on which every compilation ends in a region failure: the loop's collect node is fused with its body |
| ControlNesting.ChooseParent | src/comfyng/graph/compiler.py:1246-1264 | the parent of a region is the smallest region that owns its controller, the earliest among equals |
| ControlNesting.ResolveDepth | src/comfyng/graph/compiler.py:1270-1289 | the memoised recursion terminates even on cyclic parents, and reports only real cycles |
| ControlNesting.ResolveAll | src/comfyng/graph/compiler.py:1266-1292 | a nesting error is reported iff the parent relation is cyclic; otherwise every depth is the parent's plus one |
| ControlNesting.CyclicIffRing | src/comfyng/graph/compiler.py:1246-1292 | a nesting error arises iff some regions form a ring in which each is the innermost owner of the one before |
| ControlNesting.MutualParentsIff | src/comfyng/graph/compiler.py:1246-1264 | two regions become each other's parents iff each is the other's innermost owner; owning each other's controllers is not enough |
| LoopNesting.MutualIffFeeds | src/comfyng/graph/compiler.py:1114-1160 | two loops hold each other in their node sets iff one of them leads into the other's items and the other is followed by a collect node |
| LoopNesting.LoopsParentEachOther | src/comfyng/graph/compiler.py:1246-1264 | in a plan two loops become each other's parents iff one feeds the other in that way and no region that owns either of them is tighter |
| LoopNesting.FeedingLoopsAreReported | src/comfyng/graph/compiler.py:1246-1292 | then compilation fails: cyclic nesting is reported, unless a region's constructor fails before |
| NestingExamples.LoopsInTurnAreReported | src/comfyng/graph/compiler.py:1246-1292 | an accepted graph of two loops one after the other, each with its collect node and all of them shipped control nodes, on which every compilation reports cyclic nesting and nothing else |
| NestingExamples.ThirdLoopIsAccepted | src/comfyng/graph/compiler.py:1246-1292 | the same graph with a third, empty loop beside the second always compiles, the first loop nested in the empty one, although the first two still own each other's controllers |
| ControlPlan.DeriveControlRegions | src/comfyng/graph/compiler.py:1094-1311 | construction fails iff some loop is unbounded or was fused across its boundary; otherwise there is one accepted region per control node, in plan order, with exactly the branches, iterable, body and boundary drafted from the graph and its innermost owner as parent, and exactly malformed loops and cyclic nesting are reported |
| RegionMembers.BranchMembers | src/comfyng/graph/compiler.py:1161-1213 | over stored edges: the branch named p of a finished compilation holds exactly the steps some (and then every) member of which has a walk to an edge into port p of the switch, but not walks to both values, nor to the condition, and is neither the switch nor a loop around it; members are in plan order, entries depend on no member, on exits none depends |
| RegionMembers.LoopMembers | src/comfyng/graph/compiler.py:1114-1159 | likewise for loops: the boundary are the collect nodes after the loop, the body what lies between, the iterable what has a walk to an edge into port items, as steps in plan order |
| RegionMembers.RegionPerControlNode | src/comfyng/graph/compiler.py:1222-1243 | every for-each and switch node has exactly one region, of its kind, with its two named branches or the bound its literal items or metadata declare, and nothing else has one |
| RegionMembers.RegionsInPlanOrder | src/comfyng/graph/compiler.py:1294-1311 | regions come in the order of their controllers' steps |
| RegionMembers.ParentsAreTightest | src/comfyng/graph/compiler.py:1246-1292 | a region has no parent iff no other region lists its controller; otherwise its parent lists the fewest steps of those that do, the first of equals, and lies one level above |
| SwitchExample.SwitchCompiles | src/comfyng/graph/compiler.py:1161-1213 | a concrete accepted graph: its one region has the node that feeds false_value in the branch of that name and the node that feeds true_value in the other, and in neither the node both share or the one that decides |
| ControlPlan.PlanSetting | src/comfyng/graph/compiler.py:1495-1511 | a compiled plan satisfies all that region derivation relies on, control nodes being never fused |
| Jobs.RevisionAdvances | src/comfyng/core/jobs.py:212-415 | every transition and retry gives a valid record of the same job, one revision on and at a strictly higher position |
| Jobs.HistoryClimbs | src/comfyng/core/jobs.py:302-306 | record number i of a history has revision i and a position of at least i |
| Jobs.HistoryIsBounded | src/comfyng/core/jobs.py:302-415 | a job has at most four records per permitted attempt |
| Jobs.TerminalIsFinal | src/comfyng/core/jobs.py:38-60 | completed and cancelled jobs never change again; a failed one only by a retry under the next attempt number |
| Jobs.TransitionSucceedsIff | src/comfyng/core/jobs.py:358-386 | a transition succeeds iff it starts from the expected status, is one of nine moves, does not go back in time, and carries a result only on completion and an error only on failure or cancellation |
| Jobs.RetrySucceedsIff | src/comfyng/core/jobs.py:389-415 | a retry succeeds iff the status is the expected one, failed or active, attempts are left and time does not go back |
| Jobs.InMemoryJobRepository.Transition | src/comfyng/core/jobs.py:448-475 | the record and its history move together by one permitted revision, or nothing changes and the error says why |
| Jobs.InMemoryJobRepository.Retry | src/comfyng/core/jobs.py:477-500 | likewise for retries |
| Jobs.InMemoryJobRepository.HistoryOf | src/comfyng/core/jobs.py:502-506 | every record the job ever had, oldest first, at most four per permitted attempt |
| Queues.OrderIsFixed | src/comfyng/scheduler/queues.py:141-176 | which of two waiting items is served first does not depend on when one asks: it is the fixed order by base minus rate times enqueue time, with the tie-breaks of the code |
| Queues.OvertakingIsBounded | src/comfyng/scheduler/priority.py:44-68 | an item is only overtaken by one whose lead in priority outweighs how much later it came |
| Queues.FactorsCount | src/comfyng/scheduler/priority.py:44-54 | a point of user priority, age, warmth or reuse counts one for an item, a point of memory or duration one against it |
| Queues.NoWorseComesFirst | src/comfyng/scheduler/queues.py:141-176 | an item no worse in any factor, queued no later, put in first and in a queue served no later comes first; queues are served from interactive to maintenance |
| Queues.DrainIsUnique | src/comfyng/scheduler/queues.py:160-176 | popping everything at any times gives one and the same order |
| Queues.PutBackFits | src/comfyng/scheduler/queues.py:110-139 | an item taken off always fits back in, as a deferred launch needs |
| Queues.NextIsUnique | src/comfyng/scheduler/queues.py:160-176 | at any time at most one item precedes all others, so what is popped is determined |
| Queues.SchedulerQueues.Enqueue | src/comfyng/scheduler/queues.py:130-139 | refuses exactly duplicates and full queues, and otherwise adds the item with the next sequence number |
| Queues.SchedulerQueues.PopNext | src/comfyng/scheduler/queues.py:160-176 | removes exactly the one item that precedes all others now |
| Broker.AvailableIsTheRest | src/comfyng/resources/broker.py:225-261 | per kind of resource, what is available and what is reserved add up to the limit |
| Broker.DiagnosticsExact | src/comfyng/resources/broker.py:263-359 | there are no diagnostics iff the demand fits |
| Broker.DiagnosticsListShortfalls | src/comfyng/resources/broker.py:263-359 | the diagnostics are exactly the shortfalls, each with its code, figures, GPU and transience, and a missing GPU |
| Broker.DeferredIsTransient | src/comfyng/resources/broker.py:446-467 | a deferral has diagnostics, all transient, and somebody else holds a lease |
| Broker.RejectedIsPermanent | src/comfyng/resources/broker.py:469-489 | a rejection has diagnostics, none transient, and nothing but a reduced batch could ever fit |
| Broker.AdmissionPrefers | src/comfyng/resources/broker.py:412-489 | the outcome over needs and reserved sums: request, offload and quantize are tried in this order and the first with room is granted; else the first that would have room on an idle machine waits; else the reduced batch is granted if it has room; else the request is rejected |
| Broker.ReducedBatchNeverWaits | src/comfyng/resources/broker.py:469-489 | when nothing else can ever fit, a reduced batch is admitted iff it fits now and otherwise rejected, never deferred |
| Broker.ReducedBatchTurnedAway | src/comfyng/resources/broker.py:469-489 | a concrete request that is rejected beside a running lease and granted on an idle machine |
| Broker.ResourceBroker.UsedNow | src/comfyng/resources/broker.py:225-240 | one pass over the live leases gives the reserved sum of a kind |
| Broker.RunConserves | src/comfyng/resources/broker.py:375-501 | after any sequence of admissions and releases no kind of resource is overcommitted and leases are distinct |
| Broker.ReleaseReturns | src/comfyng/resources/broker.py:491-501 | a release gives back exactly what the lease held |
| Broker.ReleasedOnce | src/comfyng/resources/broker.py:491-501 | a released lease never becomes live again, so its second release does nothing |
| Broker.ResourceBroker.Admit | src/comfyng/resources/broker.py:412-489 | grants the first option that fits now in the documented order, else defers to the first that fits an idle machine, else tries the reduced batch, else rejects, with the actions it attempted |
| Broker.ResourceBroker.Release | src/comfyng/resources/broker.py:491-501 | true exactly for a live lease, which is removed |
| ResultCache.RunIsUnique | src/comfyng/core/cache.py:202-209 | there is only one longest most recently used run within both limits |
| ResultCache.LivesFor | src/comfyng/core/cache.py:127-200 | an entry put at a time expires exactly when its time to live has passed since, and never without one |
| ResultCache.InMemoryNodeResultCache.Put | src/comfyng/core/cache.py:159-200 | afterwards the cache holds the longest most recently used run of live entries within both limits, the new one included; a value larger than the cache changes nothing |
| ResultCache.InMemoryNodeResultCache.Get | src/comfyng/core/cache.py:140-157 | a hit is live, returns the last value put and becomes the most recent entry |
| ResultCache.InMemoryNodeResultCache.Delete | src/comfyng/core/cache.py:211-218 | removes the entry and its bytes, and says whether there was one |
| Journal.ReplayResumes | src/comfyng/events/journal.py:76-102 | replaying again from the last sequence seen misses nothing and repeats nothing |
| Journal.MatchingMembers | src/comfyng/events/journal.py:76-102 | a replay holds exactly the events after the given sequence that match job and kind |
| Journal.InMemoryEventJournal.Append | src/comfyng/events/journal.py:54-74 | sequence numbers have no gaps, over all events and within each job's stream |
| Journal.InMemoryEventJournal.Replay | src/comfyng/events/journal.py:76-102 | the matching events in order, cut off at the limit |
| Cancellation.LatestOfLatest | src/comfyng/scheduler/cancellation.py:82-102 | trimming after each observation keeps the same observations as trimming once |
| Cancellation.CancellationToken.Pass | src/comfyng/scheduler/cancellation.py:64-102 | a checkpoint is always recorded, and stops the attempt iff a cancellation was ever requested, with the reason of the first request |
| SchedulerModel.StepKeepsInvariant | src/comfyng/scheduler/scheduler.py:184-557 | every atomic step keeps: queued jobs are exactly the queue entries; preparing and running jobs exactly those with one active task and token; limits hold; the broker's live leases are exactly the scheduler's; none is held by a job waiting to be retried; the journal matches the history |
| SchedulerRuns.RunKeepsInvariant | src/comfyng/scheduler/scheduler.py:184-557 | so it holds in every state any run reaches |
| SchedulerRuns.JournalTellsHistory | src/comfyng/scheduler/scheduler.py:221-251 | in every reachable state a job's status events spell out its repository history in order, at most four per permitted attempt |
| SchedulerRuns.DeferredMeansBusy | src/comfyng/scheduler/scheduler.py:312-337 | a job is only deferred while another attempt is active |
| SchedulerRuns.InternalStepWorks | src/comfyng/scheduler/scheduler.py:274-499 | every internal step but a deferral lowers the remaining work, which is never negative |
| SchedulerRuns.IdleMeansEnded | src/comfyng/scheduler/scheduler.py:569-585 | with nothing queued and nothing active every job is terminal |
| SchedulerRuns.CancelledNeverCompletes | src/comfyng/scheduler/scheduler.py:501-527 | after a successful cancel of an active job no run without a manual retry completes that attempt or queues the job again |
| SchedulerRuns.StepConfined | src/comfyng/scheduler/scheduler.py:184-557 | no step touches another job's record or attempt |
| SchedulerRuns.LeaseNeverReturns | src/comfyng/scheduler/scheduler.py:360-366 | over whole runs a lease that was given back is never live again |
| SchedulerHistory.StepRemembers | src/comfyng/scheduler/scheduler.py:184-557 | no step loses a job or changes what was submitted; histories and journal are only added to |
| SchedulerHistory.RunRemembers | src/comfyng/scheduler/scheduler.py:184-585 | so the state at the end of a run remembers every state before it |
| JobEffects.StepHasEffect | src/comfyng/scheduler/scheduler.py:184-557 | what each step does to its job, field by field: the record with status, attempt, times, result and error, the queue entry, the attempt with its phase, the lease, and the events published; said without the model's own functions |
| JobEffects.CompletedBy | src/comfyng/scheduler/scheduler.py:376-403 | a completed job was completed by one step of the run, which returned its result from a dispatch or found it in the cache |
| JobEffects.ReturnedValueStays | src/comfyng/scheduler/scheduler.py:397-403 | what a dispatch returned to an attempt nobody had cancelled is the job's result in every later state |
| JobEffects.OnlyAnswer | src/comfyng/scheduler/scheduler.py:376-403 | any dispatch that ever returned to a job that ends up completed returned its result |
| JobEffects.EndedStays | src/comfyng/core/jobs.py:38-60 | over whole runs a completed or cancelled record never changes again |
| Scheduler.Scheduler.Submit | src/comfyng/scheduler/scheduler.py:184-219 | takes exactly the model's step, and refuses exactly full queues and known ids |
| Scheduler.Scheduler.LaunchNext | src/comfyng/scheduler/scheduler.py:274-358 | takes exactly the model's launch of the first item, if a slot is free, completing it from the cache exactly with the live value under its key; false iff nothing was launched or the job was deferred |
| Scheduler.Scheduler.EndDispatch | src/comfyng/scheduler/scheduler.py:376-499 | after a returned value the job is completed with it as its result, after an interruption cancelled with its reason, after a cancellation requested earlier cancelled with that reason, after an error asleep for a retry if that is allowed and attempts are left, else failed with it; each is the model's step; the cache takes the result exactly when it is cacheable, the job has a key, the attempt was not cancelled and the value fits, and a value that does not fit is reported |
| Scheduler.Scheduler.WakeAttempt | src/comfyng/scheduler/scheduler.py:438-486 | after the retry delay the job is cancelled, failed for lack of room, or queued again, as the model says |
| Scheduler.Scheduler.Cancel | src/comfyng/scheduler/scheduler.py:501-527 | accepted iff the job is live and not yet cancelled; an active attempt is then doomed |
| Scheduler.Scheduler.RetryJob | src/comfyng/scheduler/scheduler.py:529-557 | takes the model's step and answers with the first reason that applies: unknown, no room, not failed, no attempt left, or the new record |
| Scheduler.RetryAcceptsFailed | src/comfyng/scheduler/scheduler.py:529-557 | an accepted retry was of a failed job, which is queued under the next attempt number |
| Scheduler.Scheduler.RunUntilIdle | src/comfyng/scheduler/scheduler.py:569-585 | terminates however attempts end and whatever finitely many calls arrive meanwhile, reports idle, and leaves every job terminal; its run continues the earlier one, so all earlier jobs are among them, with their submissions and histories, and those completed or cancelled before with unchanged records |
| StoreProtocol.StepKeepsInvariant | src/comfyng/storage/cas.py:96-318 | every small step of every process keeps lock exclusion and what each process has learnt about blobs and manifests |
| StoreProtocol.ReferencedBlobsExist | src/comfyng/storage/cas.py:272-326 | in every interleaving of put, add, remove and collectors that read manifests one by one, every digest named by an existing manifest has its blob |
| StoreProtocol.DeleteStep | src/comfyng/storage/gc.py:52-60 | deleting an unreferenced blob under its lock cannot hurt a process that has seen the blob |
| StoreProtocol.PublishStep | src/comfyng/storage/cas.py:289-297 | publishing a manifest cannot hurt a collector that is deciding about one of its blobs |
| StoreProtocol.NoDeadlock | src/comfyng/storage/locks.py:40-82 | in every reachable state with a waiting process some busy process can take a step |
| StoreOutcomes.PutStores | src/comfyng/storage/cas.py:96-157 | a put ends with its blob in the store, whoever wrote it |
| StoreOutcomes.AddRefers | src/comfyng/storage/cas.py:272-297 | an addition fails iff a blob is missing or the name belongs to another manifest, and otherwise ends with its manifest under its name |
| StoreOutcomes.RemoveFrees | src/comfyng/storage/cas.py:299-309 | a removal ends with its name free and changes nothing else |
| StoreOutcomes.CheckDecides | src/comfyng/storage/gc.py:43-60 | a check removes its victim or nothing: only in a real run and only when no manifest names it; it leaves it only in a dry run, after reading a manifest that names it, or when a manifest vanished under the reader |
| StoreOutcomes.WorkGoesOn | src/comfyng/storage/gc.py:43-60 | until then the contents stay as they are, and a check reads every manifest there was at its start |
| StoreOutcomes.CollectionTakesTurns | src/comfyng/storage/gc.py:28-61 | a collection starts with all blobs in order and goes through them one at a time |
| StoreOutcomes.OthersStay | src/comfyng/storage/cas.py:96-318 | a process is moved only by its own steps |
| StoreProtocol.StepIsAtomic | src/comfyng/storage/cas.py:96-318 | a small step changes the contents by exactly one whole legal operation, or not at all |
| StoreProtocol.InterleavingIsSequential | src/comfyng/storage/cas.py:96-318 | every interleaving of writers, reference holders and collectors has the effect of some sequence of whole legal operations |
| ContentStore.CAS.AddReference | src/comfyng/storage/cas.py:272-297 | write-once: only an identical retry and only over present blobs; otherwise nothing changes and the error is exact |
| ContentStore.CAS.ReferencesFor | src/comfyng/storage/cas.py:320-326 | exactly the manifests that name the digest |
| ContentStore.CAS.Collect | src/comfyng/storage/gc.py:28-61 | reports, sorted, exactly the old unreferenced blobs and their total size, and unless it is a dry run deletes exactly those |
| ContentStore.CollectionReclaims | src/comfyng/storage/gc.py:43-60 | a collection is a sequence of legal single deletions of the interleaved store |
| ContentStore.CollectionIsComplete | src/comfyng/storage/gc.py:28-61 | a collection leaves no garbage and no uncovered manifest, so repeating it does nothing |
| ContentStore.DigestLockPool.AcquireMany | src/comfyng/storage/locks.py:40-82 | one more hold on each digest; exactly the file locks of the digests not held before are taken, in ascending order |
| ContentStore.DigestLockPool.ReleaseMany | src/comfyng/storage/locks.py:70-82 | leaving gives back exactly one hold on each digest |

## Left out

- HTTP application, command line, frontend, configuration, model paths and the FLUX runtime: input, output and third-party code.
- SQLite repositories, journals and migrations: the in-memory versions are modelled.
- Plugin packages, worker processes, sandboxing, shared memory and the frame protocol: mostly operating-system effects.
- JSON Schema validation, port type names, manifest parsing, identifier syntax and Unicode: predicates or absent.
- The structural check of unexpanded graphs (src/comfyng/graph/validation.py:248-418): only unique ids, which expansion relies on, are required of its input.
- Warnings of validation, the sorting of diagnostics and the text of messages: only whether there is an error.
- Resource annotations of steps, groups and plans, the cacheable flag, incoming edges and critical-path marks copied onto steps, and a plan's copies of its outputs and fusion records: projections of modelled values.
- InlineCall.InlineCall: of several graph inputs, or graph outputs, that do not fit the child, any may be the one reported, because maps are unordered here; otherwise the code is exact.
- ControlPlan.DeriveControlRegions: when several regions cannot be constructed, the controller reported is that of one of them, which need not be the first.
- Sorting of successor lists and of loop variables whose order has no effect on the result.
- Task-level `asyncio` cancellation, an attempt whose first transition fails, type checks on dispatch results, and exceptions raised by broker or cache themselves.
- `run_once`, `run`, `stop` and the polling delay of the scheduler; retry delays, thread budgets, pressure events and hardware probing.
- Scheduler.Scheduler.LaunchNext: one clock reading serves a whole atomic step, where the source may read the clock again for each transition inside it.
- Scheduler.Scheduler.Cancel: tokens are values in the scheduler's table, so the identity of a token object and its waiters are not captured; the token's own behaviour is in `Cancellation`.
- Event payloads, the bus that delivers events to subscribers, and caller-supplied reservation ids.
- Listing and ordering of the job repository; `clear`, `size`, `total_bytes` and `evict_until` of the cache.
- StoreProtocol.StepKeepsInvariant: locks of the protocol are not re-entrant, since no store operation nests them; nesting is in `DigestLockPool`.
- File-system detail of the store: temporary files, hashing of streams, permissions, `fsync`, hard and symbolic links, imports, clean-up of partial files, and the collector's first pass that only validates manifests.
- Blob age in the protocol: whether the collector skips a blob as too young is arbitrary there, and exact in `ContentStore`.
