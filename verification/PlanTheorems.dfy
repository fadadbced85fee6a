/** What a compiled plan guarantees: it satisfies every structural check of its own
    constructor, and running it computes the graph the user wrote
    (src/comfyng/graph/compiler.py:448-635, 919-1034, 1344-1579). */
module PlanTheorems {
  import opened Ids
  import opened Layering
  import opened Graphs
  import opened Topology
  import opened CriticalPath
  import opened Semantics
  import opened Fusion
  import opened Contraction
  import opened CacheKeys
  import opened Expansion
  import opened Meaning
  import opened Expand
  import opened ExpansionTheorems
  import opened Traces
  import opened Compile

  // ----- The checks -----

  /** Unique representatives, and members that partition the nodes. */
  ghost predicate StepsPartition(steps: seq<ExecutionStep>, nodes: set<Id>)
  {
    && (forall k, l :: 0 <= k < l < |steps| ==> steps[k].nodeId != steps[l].nodeId)
    && (forall k :: 0 <= k < |steps| ==> Distinct(steps[k].members) && steps[k].members != [] && steps[k].members[0] == steps[k].nodeId)
    && (forall n :: n in nodes <==> exists k :: MemberOf(steps, k, n))
    && (forall k, l, n :: MemberOf(steps, k, n) && MemberOf(steps, l, n) ==> k == l)
  }

  ghost predicate MemberOf(steps: seq<ExecutionStep>, k: int, n: Id)
  {
    0 <= k < |steps| && n in steps[k].members
  }

  ghost predicate StepAt(steps: seq<ExecutionStep>, k: int, id: Id)
  {
    0 <= k < |steps| && steps[k].nodeId == id
  }

  /** `d` is a dependency of step `k`: a step of an earlier group that lists `k` as dependent. */
  ghost predicate GoodDependency(steps: seq<ExecutionStep>, k: int, d: Id)
  {
    0 <= k < |steps| && d !in steps[k].members &&
    exists l :: StepAt(steps, l, d) && steps[k].nodeId in steps[l].dependents && steps[l].group < steps[k].group
  }

  ghost predicate GoodDependent(steps: seq<ExecutionStep>, k: int, d: Id)
  {
    0 <= k < |steps| && d !in steps[k].members &&
    exists l :: StepAt(steps, l, d) && steps[k].nodeId in steps[l].dependencies && steps[k].group < steps[l].group
  }

  ghost predicate DependenciesAgree(steps: seq<ExecutionStep>)
  {
    && (forall k, d :: 0 <= k < |steps| && d in steps[k].dependencies ==> GoodDependency(steps, k, d))
    && (forall k, d :: 0 <= k < |steps| && d in steps[k].dependents ==> GoodDependent(steps, k, d))
  }

  /** A path that visits the order at growing positions. */
  ghost predicate FollowsOrder(path: seq<Id>, order: seq<Id>)
  {
    exists at: seq<nat> :: |at| == |path| && (forall i :: 0 <= i < |at| ==> at[i] < |order| && order[at[i]] == path[i])
                           && forall i, j :: 0 <= i < j < |at| ==> at[i] < at[j]
  }

  /** The checks of `ExecutionPlan.__post_init__` on order, path, steps, groups and traces. */
  ghost predicate ConstructorAccepts(p: Plan)
  {
    && TopologicalOrder(p.analysis.order, NodeIds(p.analysis.graph), Arcs(p.analysis.graph.edges))
    && (p.analysis.order != [] ==> FollowsOrder(p.analysis.criticalPath, p.analysis.order))
    && (forall k :: 0 <= k < |p.steps| ==> p.steps[k].index == k)
    && StepsPartition(p.steps, NodeIds(p.analysis.graph))
    && DependenciesAgree(p.steps)
    && (forall i :: 0 <= i < |p.grouping.groups| ==> p.grouping.groups[i] != [])
    && Forest(p.traces, NodeIds(p.analysis.graph))
  }

  // ----- Steps are the classes of the representative table -----

  lemma {:induction false} PartDistinct(chains: seq<seq<Id>>, u: nat)
    requires Distinct(Flatten(chains)) && u < |chains|
    ensures Distinct(chains[u])
  {
    DistinctParts(chains[0], Flatten(chains[1..]));
    if u > 0 {
      PartDistinct(chains[1..], u - 1);
    }
  }

  /** A step's members are one class of the table, led by its representative. */
  ghost predicate ClassOf(s: ExecutionStep, rep: map<Id, Id>)
  {
    && (forall m :: m in s.members <==> m in rep && rep[m] == s.nodeId)
    && Distinct(s.members) && s.members != [] && s.members[0] == s.nodeId
  }

  lemma MembersAreClass(chains: seq<seq<Id>>, rep: map<Id, Id>, s: ExecutionStep, u: int)
    requires Distinct(Flatten(chains)) && Represents(rep, chains)
    requires 0 <= u < |chains| && s.members == chains[u] && s.members != [] && s.members[0] == s.nodeId
    ensures ClassOf(s, rep)
  {
    PartDistinct(chains, u);
    forall m
      ensures m in s.members <==> m in rep && rep[m] == s.nodeId
    {
      if m in s.members {
        var i :| 0 <= i < |s.members| && s.members[i] == m;
        assert InChain(chains, u, i, m);
      }
      if m in rep && rep[m] == s.nodeId {
        var w, j :| InChain(chains, w, j, m);
        SameHead(chains, u, w);
      }
    }
  }

  /** The listing of all heads, group after group. */
  lemma HeadsOnce(a: Analysis, q: Grouping, next: map<Id, Id>)
    requires Grouped(a, q, next) && Acyclic(Arcs(a.graph.edges))
    ensures Distinct(Flatten(q.groups)) && Elements(Flatten(q.groups)) == Heads(q.rep)
    ensures forall i :: 0 <= i < |q.groups| ==> q.groups[i] != []
  {
    var heads, arcs := Heads(q.rep), Arcs(SyntheticEdges(a.graph.edges, q.rep));
    ContractionLayers(NodeIds(a.graph), a.graph.edges, next, MembersOf(a.units), q.rep);
    FlattenIsTopological(q.groups, heads, arcs);
    LayersNonEmpty(heads, arcs);
    forall i | 0 <= i < |q.groups|
      ensures q.groups[i] != []
    {
      assert SetsOf(q.groups)[i] == Elements(q.groups[i]);
    }
  }

  ghost predicate Classes(steps: seq<ExecutionStep>, rep: map<Id, Id>)
  {
    forall k :: 0 <= k < |steps| ==> ClassOf(steps[k], rep)
  }

  ghost predicate ListsHeads(steps: seq<ExecutionStep>, rep: map<Id, Id>)
  {
    && (forall k, l :: 0 <= k < l < |steps| ==> steps[k].nodeId != steps[l].nodeId)
    && (forall n :: n in rep ==> exists k :: StepAt(steps, k, rep[n]))
  }

  lemma StepsAreClasses(steps: seq<ExecutionStep>, heads: seq<Id>, a: Analysis, q: Grouping, next: map<Id, Id>, hash: Hash)
    requires Grouped(a, q, next) && StepsFor(steps, heads, a, q, hash)
    ensures Classes(steps, q.rep)
  {
    forall k | 0 <= k < |steps|
      ensures ClassOf(steps[k], q.rep)
    {
      var u :| UnitOfStep(steps[k], a, hash, u);
      MembersAreClass(MembersOf(a.units), q.rep, steps[k], u);
    }
  }

  lemma StepsListHeads(steps: seq<ExecutionStep>, heads: seq<Id>, rep: map<Id, Id>)
    requires |steps| == |heads| && forall k :: 0 <= k < |steps| ==> steps[k].nodeId == heads[k]
    requires Distinct(heads) && Elements(heads) == Heads(rep)
    ensures ListsHeads(steps, rep)
  {
    forall n | n in rep
      ensures exists k :: StepAt(steps, k, rep[n])
    {
      assert rep[n] in Elements(heads);
      var k :| 0 <= k < |heads| && heads[k] == rep[n];
      assert StepAt(steps, k, rep[n]);
    }
  }

  lemma ClassesPartition(steps: seq<ExecutionStep>, rep: map<Id, Id>)
    requires Classes(steps, rep) && ListsHeads(steps, rep)
    ensures StepsPartition(steps, rep.Keys)
  {
    forall n | n in rep
      ensures exists k :: MemberOf(steps, k, n)
    {
      var k :| StepAt(steps, k, rep[n]);
      assert MemberOf(steps, k, n);
    }
  }

  // ----- Dependencies -----

  /** A dependency points to an earlier group. */
  lemma DependencyIsEarlier(a: Analysis, q: Grouping, next: map<Id, Id>, hash: Hash, e: Edge, s: ExecutionStep, t: ExecutionStep)
    requires Grouped(a, q, next) && Acyclic(Arcs(a.graph.edges)) && StepOk(s, a, q, hash) && StepOk(t, a, q, hash)
    requires e in a.graph.edges && q.rep[e.source] == s.nodeId && q.rep[e.target] == t.nodeId && s.nodeId != t.nodeId
    ensures s.nodeId in t.dependencies && t.nodeId in s.dependents && s.group < t.group
  {
    assert s.nodeId in Elements(t.dependencies) && t.nodeId in Elements(s.dependents);
    GroupsOf(NodeIds(a.graph), a.graph.edges, next, MembersOf(a.units), q.rep, e);
    var heads, arcs := Heads(q.rep), Arcs(SyntheticEdges(a.graph.edges, q.rep));
    var i, j :| InLayer(Layers(heads, arcs), i, s.nodeId) && InLayer(Layers(heads, arcs), j, t.nodeId) && i < j;
    GroupedHead(a.graph.edges, q, s.group, s.nodeId);
    GroupedHead(a.graph.edges, q, t.group, t.nodeId);
    LayersDisjoint(heads, arcs, i, s.nodeId);
    LayersDisjoint(heads, arcs, j, t.nodeId);
  }

  /** The step at the other end of an edge between steps. */
  lemma DependencyHolds(steps: seq<ExecutionStep>, heads: seq<Id>, a: Analysis, q: Grouping, next: map<Id, Id>, hash: Hash,
                        k: nat, e: Edge)
    requires Grouped(a, q, next) && Acyclic(Arcs(a.graph.edges)) && StepsFor(steps, heads, a, q, hash)
    requires Classes(steps, q.rep) && ListsHeads(steps, q.rep) && k < |steps|
    requires e in a.graph.edges && q.rep[e.source] != q.rep[e.target]
    ensures q.rep[e.target] == steps[k].nodeId ==> GoodDependency(steps, k, q.rep[e.source])
    ensures q.rep[e.source] == steps[k].nodeId ==> GoodDependent(steps, k, q.rep[e.target])
  {
    if q.rep[e.target] == steps[k].nodeId {
      var l :| StepAt(steps, l, q.rep[e.source]);
      DependencyIsEarlier(a, q, next, hash, e, steps[l], steps[k]);
      OtherStep(steps, q.rep, l, k);
    }
    if q.rep[e.source] == steps[k].nodeId {
      var l :| StepAt(steps, l, q.rep[e.target]);
      DependencyIsEarlier(a, q, next, hash, e, steps[k], steps[l]);
      OtherStep(steps, q.rep, l, k);
    }
  }

  lemma OtherStep(steps: seq<ExecutionStep>, rep: map<Id, Id>, l: nat, k: nat)
    requires Classes(steps, rep) && l < |steps| && k < |steps| && steps[l].nodeId != steps[k].nodeId
    ensures steps[l].nodeId !in steps[k].members
  {
    assert steps[l].members[0] in steps[l].members;
  }

  lemma DependenciesHold(steps: seq<ExecutionStep>, heads: seq<Id>, a: Analysis, q: Grouping, next: map<Id, Id>, hash: Hash)
    requires Grouped(a, q, next) && Acyclic(Arcs(a.graph.edges)) && StepsFor(steps, heads, a, q, hash)
    requires Classes(steps, q.rep) && ListsHeads(steps, q.rep)
    ensures DependenciesAgree(steps)
  {
    forall k, d | 0 <= k < |steps| && d in steps[k].dependencies
      ensures GoodDependency(steps, k, d)
    {
      assert d in DependencySet(a.graph.edges, q.rep, steps[k].nodeId);
      var e :| e in a.graph.edges && q.rep[e.source] != q.rep[e.target] && q.rep[e.target] == steps[k].nodeId && d == q.rep[e.source];
      DependencyHolds(steps, heads, a, q, next, hash, k, e);
    }
    forall k, d | 0 <= k < |steps| && d in steps[k].dependents
      ensures GoodDependent(steps, k, d)
    {
      assert d in DependentSet(a.graph.edges, q.rep, steps[k].nodeId);
      var e :| e in a.graph.edges && q.rep[e.source] != q.rep[e.target] && q.rep[e.source] == steps[k].nodeId && d == q.rep[e.target];
      DependencyHolds(steps, heads, a, q, next, hash, k, e);
    }
  }

  // ----- The critical path -----

  lemma {:induction false} PathFollowsOrder(path: seq<Id>, order: seq<Id>, nodes: set<Id>, arcs: set<Arc>) returns (at: seq<nat>)
    requires TopologicalOrder(order, nodes, arcs) && Within(nodes, arcs) && Path(path, arcs) && path[0] in nodes
    ensures |at| == |path| && forall i :: 0 <= i < |at| ==> at[i] < |order| && order[at[i]] == path[i]
    ensures forall i, j :: 0 <= i < j < |at| ==> at[i] < at[j]
    decreases |path|
  {
    var last := |path| - 1;
    assert last > 0 ==> (path[last - 1], path[last - 1 + 1]) in arcs;
    assert path[last] in Elements(order);
    var k :| 0 <= k < |order| && order[k] == path[last];
    if last == 0 {
      at := [k];
    } else {
      var front := path[..last];
      assert forall i :: 0 <= i < last - 1 ==> (front[i], front[i + 1]) == (path[i], path[i + 1]);
      at := PathFollowsOrder(front, order, nodes, arcs);
      assert order[at[last - 1]] == path[last - 1];
      at := at + [k];
    }
  }

  // ----- Main results -----

  /** The plan constructor accepts what the compiler builds, unless two traces share an id. */
  lemma PlanConstructorAccepts(p: Plan, profiles: Profiles, hash: Hash, d: Derivation, g: Graph, registry: Registry)
    requires ValidPlan(p, profiles, hash) && p.traces == TracesOf(d)
    requires Derives(d, g, registry, p.analysis.graph) && UniqueIds(g)
    requires forall key :: key in registry ==> UniqueIds(registry[key])
    ensures ConstructorAccepts(p) <==> !SomeSharedId(g, registry)
  {
    hide Analysed, Grouped, StepsFor, Derives, UniqueIds, SomeSharedId, FollowsOrder, StepsPartition, DependenciesAgree, Forest;
    var next := NextMap(p.analysis.graph, profiles);
    AnalysisAccepted(p.analysis, next, hash);
    StepsAccepted(p.steps, p.analysis, p.grouping, next, hash);
    TracesFormForest(d, g, registry, p.analysis.graph);
  }

  lemma AnalysisAccepted(a: Analysis, next: map<Id, Id>, hash: Hash)
    requires Analysed(a, next, hash)
    ensures TopologicalOrder(a.order, NodeIds(a.graph), Arcs(a.graph.edges))
    ensures a.order != [] ==> FollowsOrder(a.criticalPath, a.order)
  {
    hide KeysOf, ConstantsOf, Cut, BoundOnce;
    OrderIsTopological(a.order, a.graph);
    WellFormedWithin(a.graph);
    if a.order != [] {
      var at := PathFollowsOrder(a.criticalPath, a.order, NodeIds(a.graph), Arcs(a.graph.edges));
      assert FollowsOrder(a.criticalPath, a.order);
    }
  }

  lemma StepsAccepted(steps: seq<ExecutionStep>, a: Analysis, q: Grouping, next: map<Id, Id>, hash: Hash)
    requires Analysed(a, next, hash) && Grouped(a, q, next) && StepsFor(steps, Flatten(q.groups), a, q, hash)
    ensures forall k :: 0 <= k < |steps| ==> steps[k].index == k
    ensures StepsPartition(steps, NodeIds(a.graph)) && DependenciesAgree(steps)
    ensures forall i :: 0 <= i < |q.groups| ==> q.groups[i] != []
  {
    var heads := Flatten(q.groups);
    HeadsOnce(a, q, next);
    StepsListHeads(steps, heads, q.rep);
    StepsAreClasses(steps, heads, a, q, next, hash);
    ClassesPartition(steps, q.rep);
    DependenciesHold(steps, heads, a, q, next, hash);
  }

  /** Group by group, in any order inside a group and with fused members in sequence, the
      compiled plan computes every output of the graph that was compiled, calls included. */
  lemma CompiledPlanMeansGraph(p: Plan, profiles: Profiles, hash: Hash, d: Derivation, g: Graph, registry: Registry,
                               sem: Sem, ext: Env, v: Valuation, schedule: seq<Id>)
    requires ValidPlan(p, profiles, hash) && Derives(d, g, registry, p.analysis.graph)
    requires SoundGraph(g, registry) && SoundRegistry(registry) && Interprets(sem, registry) && Solves(g, sem, ext, v)
    requires PlanSchedule(schedule, NodeIds(p.analysis.graph), MembersOf(p.analysis.units), p.grouping.rep, SetsOf(p.grouping.groups))
    ensures OutputsOf(p.analysis.graph, Run(p.analysis.graph, sem, ext, schedule)) == OutputsOf(g, v)
  {
    var u := ExpansionPreservesMeaning(d, g, registry, p.analysis.graph, sem, ext, v);
    PlanComputes(p, profiles, hash, schedule, sem, ext, u);
  }

  /** Ordinary nodes keep their own values as well, under their own ids. */
  lemma CompiledPlanKeepsNodes(p: Plan, profiles: Profiles, hash: Hash, d: Derivation, g: Graph, registry: Registry,
                               sem: Sem, ext: Env, v: Valuation, schedule: seq<Id>, n: Node)
    requires ValidPlan(p, profiles, hash) && Derives(d, g, registry, p.analysis.graph)
    requires SoundGraph(g, registry) && SoundRegistry(registry) && Interprets(sem, registry) && Solves(g, sem, ext, v)
    requires PlanSchedule(schedule, NodeIds(p.analysis.graph), MembersOf(p.analysis.units), p.grouping.rep, SetsOf(p.grouping.groups))
    requires n in g.nodes && KeyOf(n) !in registry
    ensures n.id in Run(p.analysis.graph, sem, ext, schedule) && Run(p.analysis.graph, sem, ext, schedule)[n.id] == v[n.id]
  {
    var u := ExpansionPreservesMeaning(d, g, registry, p.analysis.graph, sem, ext, v);
    PlanComputes(p, profiles, hash, schedule, sem, ext, u);
  }

  /** A valid plan runs as its own expanded graph. */
  lemma PlanComputes(p: Plan, profiles: Profiles, hash: Hash, schedule: seq<Id>, sem: Sem, ext: Env, u: Valuation)
    requires ValidPlan(p, profiles, hash) && Solves(p.analysis.graph, sem, ext, u)
    requires PlanSchedule(schedule, NodeIds(p.analysis.graph), MembersOf(p.analysis.units), p.grouping.rep, SetsOf(p.grouping.groups))
    ensures Run(p.analysis.graph, sem, ext, schedule) == u
  {
    GroupedRuns(p.analysis, p.grouping, NextMap(p.analysis.graph, profiles), schedule, sem, ext, u);
  }

  lemma GroupedRuns(a: Analysis, q: Grouping, next: map<Id, Id>, schedule: seq<Id>, sem: Sem, ext: Env, u: Valuation)
    requires WellFormed(a.graph) && Acyclic(Arcs(a.graph.edges)) && Grouped(a, q, next)
    requires PlanSchedule(schedule, NodeIds(a.graph), MembersOf(a.units), q.rep, SetsOf(q.groups))
    requires Solves(a.graph, sem, ext, u)
    ensures Run(a.graph, sem, ext, schedule) == u
  {
    PlanRunsAsGraph(a.graph, next, MembersOf(a.units), q.rep, schedule, sem, ext, u);
  }

  // ----- Step keys -----

  /** The unit behind a step: its members are nodes with keys, and its key is the unit's. */
  lemma StepUnit(p: Plan, profiles: Profiles, hash: Hash, s: ExecutionStep) returns (unit: Unit)
    requires ValidPlan(p, profiles, hash) && s in p.steps
    ensures unit.members == s.members && unit.members != [] && unit.evidence == s.evidence && ValidUnit(unit)
    ensures forall m :: m in s.members ==> m in NodeIds(p.analysis.graph) && m in p.analysis.keys
    ensures s.cacheKey == StepKey(unit, p.analysis.keys, hash)
  {
    hide ValidUnit, StepKey, KeysOf, ConstantsOf, UnitsCertified, MaximalChains, Contracted;
    var a := p.analysis;
    var k :| 0 <= k < |p.steps| && p.steps[k] == s;
    assert StepOk(p.steps[k], a, p.grouping, hash);
    var u :| UnitOfStep(s, a, hash, u);
    unit := a.units[u];
    assert unit in a.units;
    forall m | m in s.members
      ensures m in NodeIds(a.graph)
    {
      MemberIsNode(a, p.grouping, NextMap(a.graph, profiles), u, m);
    }
  }

  /** A node's key is never the key of a fused step. */
  lemma NodeKeyIsNoFusedKey(g: Graph, hash: Hash, keys: map<Id, string>, id: Id, evidence: Evidence, memberKeys: seq<string>)
    requires CollisionFree(hash) && KeysOf(g, hash, keys) && id in NodeIds(g)
    ensures id in keys && keys[id] != hash(FusedContent(evidence, memberKeys))
  {
    var n := NodeAt(g, id);
    assert KeyOk(g, hash, keys, n);
    var up :| Records(g, keys, n.id, up) && keys[n.id] == hash(ContentOf(n, up));
  }

  /** Units with one step key have members with one node key each. */
  lemma EqualStepKeys(g: Graph, h: Graph, hash: Hash, keys: map<Id, string>, keys': map<Id, string>, u: Unit, w: Unit)
    requires CollisionFree(hash) && KeysOf(g, hash, keys) && KeysOf(h, hash, keys') && ValidUnit(u) && ValidUnit(w)
    requires u.members != [] && w.members != []
    requires forall m :: m in u.members ==> m in NodeIds(g) && m in keys
    requires forall m :: m in w.members ==> m in NodeIds(h) && m in keys'
    requires StepKey(u, keys, hash) == StepKey(w, keys', hash)
    ensures |u.members| == |w.members| && forall i :: 0 <= i < |u.members| ==> keys[u.members[i]] == keys'[w.members[i]]
  {
    hide KeysOf;
    assert u.members[0] in u.members && w.members[0] in w.members;
    var memberKeys, memberKeys' := MemberKeys(u.members, keys), MemberKeys(w.members, keys');
    if u.evidence.Some? && w.evidence.None? {
      NodeKeyIsNoFusedKey(h, hash, keys', w.members[0], u.evidence.value, memberKeys);
    } else if u.evidence.None? && w.evidence.Some? {
      NodeKeyIsNoFusedKey(g, hash, keys, u.members[0], w.evidence.value, memberKeys');
    } else if u.evidence.Some? {
      StepKeysEqualIff(u, w, keys, keys', hash);
      forall i | 0 <= i < |u.members|
        ensures keys[u.members[i]] == keys'[w.members[i]]
      {
        assert memberKeys[i] == memberKeys'[i];
      }
    }
  }

  /** Reusing a step's result under an equal key is sound: with an injective hash two steps with
      equal keys, of one plan or of two, have as many members, and these compute the same values
      whenever equally named graph inputs agree. */
  lemma StepKeysSound(p: Plan, p': Plan, profiles: Profiles, profiles': Profiles, hash: Hash, s: ExecutionStep, s': ExecutionStep,
                      sem: Sem, ext: Env, ext': Env, v: Valuation, v': Valuation)
    requires CollisionFree(hash) && ValidPlan(p, profiles, hash) && ValidPlan(p', profiles', hash)
    requires Solves(p.analysis.graph, sem, ext, v) && Solves(p'.analysis.graph, sem, ext', v')
    requires InputsAgree(p.analysis.graph, p'.analysis.graph, ext, ext')
    requires s in p.steps && s' in p'.steps && s.cacheKey == s'.cacheKey
    ensures |s.members| == |s'.members|
    ensures forall i :: 0 <= i < |s.members| ==> s.members[i] in v && s'.members[i] in v' && v[s.members[i]] == v'[s'.members[i]]
  {
    hide CollisionFree, KeysOf, ConstantsOf, UnitsCertified, Cut, Grouped, StepsFor, InputsAgree, StepKey, ValidUnit, Ordered, BoundOnce, Acyclic,
         Eval, WellFormed;
    var unit, unit' := StepUnitOf(p, p', profiles, profiles', hash, s, s');
    var g, h := p.analysis.graph, p'.analysis.graph;
    EqualStepKeys(g, h, hash, p.analysis.keys, p'.analysis.keys, unit, unit');
    forall i | 0 <= i < |s.members|
      ensures s.members[i] in v && s'.members[i] in v' && v[s.members[i]] == v'[s'.members[i]]
    {
      assert s.members[i] in s.members && s'.members[i] in s'.members;
      var n, m := NodeAt(g, s.members[i]), NodeAt(h, s'.members[i]);
      CacheKeysSound(g, h, hash, p.analysis.keys, p'.analysis.keys, sem, ext, ext', v, v', n, m);
    }
  }

  lemma StepUnitOf(p: Plan, p': Plan, profiles: Profiles, profiles': Profiles, hash: Hash, s: ExecutionStep, s': ExecutionStep)
    returns (unit: Unit, unit': Unit)
    requires ValidPlan(p, profiles, hash) && ValidPlan(p', profiles', hash) && s in p.steps && s' in p'.steps
    ensures unit.members == s.members && unit.members != [] && ValidUnit(unit)
    ensures unit'.members == s'.members && unit'.members != [] && ValidUnit(unit')
    ensures forall m :: m in s.members ==> m in NodeIds(p.analysis.graph) && m in p.analysis.keys
    ensures forall m :: m in s'.members ==> m in NodeIds(p'.analysis.graph) && m in p'.analysis.keys
    ensures s.cacheKey == StepKey(unit, p.analysis.keys, hash) && s'.cacheKey == StepKey(unit', p'.analysis.keys, hash)
  {
    hide ValidPlan;
    unit := StepUnit(p, profiles, hash, s);
    unit' := StepUnit(p', profiles', hash, s');
  }
}
