/** The compiler: expand, validate, layer, key, fuse, layer again and build the plan
    (src/comfyng/graph/compiler.py:919-1034, 1344-1579). */
module Compile {
  import opened Ids
  import opened Layering
  import opened Graphs
  import opened Topology
  import opened CriticalPath
  import opened Semantics
  import opened Fusion
  import opened Contraction
  import opened CacheKeys
  import opened Validation
  import opened Expansion
  import opened Expand

  datatype ExecutionStep = ExecutionStep(
    index: nat,
    group: nat,
    nodeId: Id,
    members: seq<Id>,
    dependencies: seq<Id>,
    dependents: seq<Id>,
    cacheKey: string,
    isConstant: bool,
    evidence: Option<Evidence>)

  /** Everything the compiler derives before it groups steps. */
  datatype Analysis = Analysis(
    graph: Graph,
    order: seq<Id>,
    criticalPath: seq<Id>,
    keys: map<Id, string>,
    constants: map<Id, bool>,
    units: seq<Unit>)

  /** The representatives of fused nodes, and the parallel groups of representatives. */
  datatype Grouping = Grouping(rep: map<Id, Id>, groups: seq<seq<Id>>)

  datatype Plan = Plan(
    analysis: Analysis,
    grouping: Grouping,
    steps: seq<ExecutionStep>,
    key: string,
    traces: seq<Trace>)

  // ----- The representative table -----

  lemma {:induction false} ChainsApart(chains: seq<seq<Id>>, u: int, i: int, w: int, j: int, n: Id)
    requires Distinct(Flatten(chains)) && InChain(chains, u, i, n) && InChain(chains, w, j, n)
    ensures u == w
    decreases u
  {
    var head, tail := chains[0], chains[1..];
    DistinctParts(head, Flatten(tail));
    if u > 0 && w > 0 {
      assert InChain(tail, u - 1, i, n) && InChain(tail, w - 1, j, n);
      ChainsApart(tail, u - 1, i, w - 1, j, n);
    } else if u > 0 {
      assert n in tail[u - 1];
      FlattenElements(tail, n);
    } else if w > 0 {
      assert n in tail[w - 1];
      FlattenElements(tail, n);
    }
  }

  /** The table for the first `k` chains. */
  ghost predicate RepresentsFirst(rep: map<Id, Id>, chains: seq<seq<Id>>, k: int)
  {
    && (forall u, i, n :: InChain(chains, u, i, n) && u < k ==> n in rep && rep[n] == chains[u][0])
    && (forall n :: n in rep ==> exists u, i :: InChain(chains, u, i, n) && u < k)
  }

  method BuildRep(chains: seq<seq<Id>>) returns (rep: map<Id, Id>)
    requires Distinct(Flatten(chains))
    ensures Represents(rep, chains)
  {
    rep := map[];
    for k := 0 to |chains|
      invariant RepresentsFirst(rep, chains, k)
    {
      var c := chains[k];
      var more := map n | n in c :: c[0];
      forall u, i, n | InChain(chains, u, i, n) && u < k
        ensures n !in c
      {
        if n in c {
          var j :| 0 <= j < |c| && c[j] == n;
          assert InChain(chains, k, j, n);
          ChainsApart(chains, u, i, k, j, n);
        }
      }
      RepExtend(rep, chains, k, more);
      rep := rep + more;
    }
  }

  lemma RepExtend(rep: map<Id, Id>, chains: seq<seq<Id>>, k: int, more: map<Id, Id>)
    requires 0 <= k < |chains| && RepresentsFirst(rep, chains, k)
    requires forall u, i, n :: InChain(chains, u, i, n) && u < k ==> n !in chains[k]
    requires more == map n | n in chains[k] :: chains[k][0]
    ensures RepresentsFirst(rep + more, chains, k + 1)
  {
    forall n | n in rep + more
      ensures exists u, i :: InChain(chains, u, i, n) && u < k + 1
    {
      if n in more {
        var i :| 0 <= i < |chains[k]| && chains[k][i] == n;
        assert InChain(chains, k, i, n);
      } else {
        var u, i :| InChain(chains, u, i, n) && u < k;
      }
    }
  }

  /** The synthetic edges, filtered and renamed in a loop. */
  method Synthesize(edges: seq<Edge>, rep: map<Id, Id>) returns (synthetic: seq<Edge>)
    requires forall e :: e in edges ==> e.source in rep && e.target in rep
    ensures synthetic == SyntheticEdges(edges, rep)
  {
    synthetic := [];
    for k := 0 to |edges|
      invariant forall e :: e in edges[..k] ==> e.source in rep && e.target in rep
      invariant synthetic == SyntheticEdges(edges[..k], rep)
    {
      var e := edges[k];
      assert e in edges && edges[..k + 1] == edges[..k] + [e];
      assert edges[..k + 1][..k] == edges[..k];
      if rep[e.source] != rep[e.target] {
        synthetic := synthetic + [Edge(rep[e.source], e.sourcePort, rep[e.target], e.targetPort)];
      }
    }
    assert edges[..|edges|] == edges;
  }

  /** The listing of unit heads handed to the second layering. */
  function HeadList(chains: seq<seq<Id>>): (heads: seq<Id>)
    requires forall u :: 0 <= u < |chains| ==> chains[u] != []
    ensures |heads| == |chains| && forall u :: 0 <= u < |chains| ==> heads[u] == chains[u][0]
  {
    seq(|chains|, u requires 0 <= u < |chains| => chains[u][0])
  }

  lemma HeadsListed(chains: seq<seq<Id>>, rep: map<Id, Id>)
    requires Distinct(Flatten(chains)) && Represents(rep, chains)
    requires forall u :: 0 <= u < |chains| ==> chains[u] != []
    ensures Distinct(HeadList(chains)) && Elements(HeadList(chains)) == Heads(rep)
  {
    var heads := HeadList(chains);
    forall u, w | 0 <= u < w < |heads|
      ensures heads[u] != heads[w]
    {
      if heads[u] == heads[w] { SameHead(chains, u, w); }
    }
    forall u | 0 <= u < |heads|
      ensures heads[u] in Heads(rep)
    {
      assert InChain(chains, u, 0, heads[u]);
    }
    forall n | n in rep
      ensures rep[n] in heads
    {
      var u, i :| InChain(chains, u, i, n);
      assert heads[u] == rep[n];
    }
  }

  // ----- Steps -----

  /** The steps a step reads from, and the steps that read from it. */
  ghost function DependencySet(edges: seq<Edge>, rep: map<Id, Id>, head: Id): set<Id>
    requires forall e :: e in edges ==> e.source in rep && e.target in rep
  {
    set e | e in edges && rep[e.source] != rep[e.target] && rep[e.target] == head :: rep[e.source]
  }

  ghost function DependentSet(edges: seq<Edge>, rep: map<Id, Id>, head: Id): set<Id>
    requires forall e :: e in edges ==> e.source in rep && e.target in rep
  {
    set e | e in edges && rep[e.source] != rep[e.target] && rep[e.source] == head :: rep[e.target]
  }

  function MemberKeys(members: seq<Id>, keys: map<Id, string>): seq<string>
    requires forall m :: m in members ==> m in keys
  {
    seq(|members|, i requires 0 <= i < |members| => keys[members[i]])
  }

  /** A fused step hashes its evidence with its members' keys; a single step keeps its key. */
  function StepKey(unit: Unit, keys: map<Id, string>, hash: Hash): string
    requires unit.members != [] && forall m :: m in unit.members ==> m in keys
  {
    if unit.evidence.Some? then hash(FusedContent(unit.evidence.value, MemberKeys(unit.members, keys)))
    else keys[unit.members[0]]
  }

  /** Under an injective hash two steps have one key exactly when both are single nodes with one
      node key, or both are fused with equal evidence over equal member keys. */
  lemma StepKeysEqualIff(u: Unit, w: Unit, keys: map<Id, string>, keys': map<Id, string>, hash: Hash)
    requires CollisionFree(hash) && u.members != [] && w.members != []
    requires (forall m :: m in u.members ==> m in keys) && forall m :: m in w.members ==> m in keys'
    requires u.evidence.Some? <==> w.evidence.Some?
    ensures u.evidence.Some? ==>
              (StepKey(u, keys, hash) == StepKey(w, keys', hash) <==>
                 u.evidence == w.evidence && MemberKeys(u.members, keys) == MemberKeys(w.members, keys'))
    ensures u.evidence.None? ==>
              (StepKey(u, keys, hash) == StepKey(w, keys', hash) <==> keys[u.members[0]] == keys'[w.members[0]])
  {
  }

  /** A member list with its unit's evidence, key and constancy. */
  ghost predicate UnitOfStep(s: ExecutionStep, a: Analysis, hash: Hash, u: int)
  {
    && HeadOf(a.units, u, s.nodeId) && s.members == a.units[u].members && s.evidence == a.units[u].evidence
    && (forall m :: m in s.members ==> m in a.keys && m in a.constants)
    && s.cacheKey == StepKey(a.units[u], a.keys, hash)
    && (s.isConstant <==> forall m :: m in s.members ==> a.constants[m])
  }

  ghost predicate HeadOf(units: seq<Unit>, u: int, head: Id)
  {
    0 <= u < |units| && units[u].members != [] && units[u].members[0] == head
  }

  ghost predicate EndsMapped(edges: seq<Edge>, rep: map<Id, Id>)
  {
    forall e :: e in edges ==> e.source in rep && e.target in rep
  }

  ghost predicate StepOk(s: ExecutionStep, a: Analysis, q: Grouping, hash: Hash)
    requires EndsMapped(a.graph.edges, q.rep)
  {
    && Ascending(s.dependencies) && Elements(s.dependencies) == DependencySet(a.graph.edges, q.rep, s.nodeId)
    && Ascending(s.dependents) && Elements(s.dependents) == DependentSet(a.graph.edges, q.rep, s.nodeId)
    && (exists u :: UnitOfStep(s, a, hash, u))
    && 0 <= s.group < |q.groups| && s.nodeId in q.groups[s.group]
  }

  /** The steps for a listing of heads. */
  ghost predicate StepsFor(steps: seq<ExecutionStep>, heads: seq<Id>, a: Analysis, q: Grouping, hash: Hash)
    requires EndsMapped(a.graph.edges, q.rep)
  {
    && |steps| == |heads|
    && forall k :: 0 <= k < |steps| ==> steps[k].index == k && steps[k].nodeId == heads[k] && StepOk(steps[k], a, q, hash)
  }

  ghost predicate Ordered(order: seq<Id>, x: Graph)
  {
    exists layers :: IsLayering(layers, NodeIds(x), Arcs(x.edges)) && order == Flatten(layers)
  }

  ghost predicate Cut(units: seq<Unit>, order: seq<Id>, next: map<Id, Id>)
  {
    MaximalChains(MembersOf(units), order, next) && forall u :: u in units ==> ValidUnit(u)
  }

  ghost predicate Analysed(a: Analysis, next: map<Id, Id>, hash: Hash)
  {
    && WellFormed(a.graph) && BoundOnce(a.graph) && Acyclic(Arcs(a.graph.edges))
    && Ordered(a.order, a.graph)
    && (a.order == [] ==> a.criticalPath == [])
    && (a.order != [] ==> LeastCritical(a.criticalPath, NodeIds(a.graph), Arcs(a.graph.edges)))
    && KeysOf(a.graph, hash, a.keys) && ConstantsOf(a.graph, a.constants)
    && Cut(a.units, a.order, next)
  }

  ghost predicate Grouped(a: Analysis, q: Grouping, next: map<Id, Id>)
  {
    && Contracted(NodeIds(a.graph), a.graph.edges, next, MembersOf(a.units), q.rep)
    && EndsMapped(a.graph.edges, q.rep)
    && IsLayering(q.groups, Heads(q.rep), Arcs(SyntheticEdges(a.graph.edges, q.rep)))
    && |q.groups| <= |Layers(NodeIds(a.graph), Arcs(a.graph.edges))|
  }

  function OutputRecords(g: Graph, keys: map<Id, string>): map<string, (string, string)>
  {
    map name | name in g.outputs && g.outputs[name].node in keys :: (keys[g.outputs[name].node], g.outputs[name].port)
  }

  function StepKeys(steps: seq<ExecutionStep>): multiset<string>
  {
    if steps == [] then multiset{} else StepKeys(steps[..|steps| - 1]) + multiset{steps[|steps| - 1].cacheKey}
  }

  function PlanRecord(a: Analysis, steps: seq<ExecutionStep>): Content
  {
    PlanContent(2, a.graph.version, StepKeys(steps), OutputRecords(a.graph, a.keys))
  }

  ghost predicate ValidPlan(p: Plan, profiles: Profiles, hash: Hash)
  {
    && Analysed(p.analysis, NextMap(p.analysis.graph, profiles), hash)
    && Grouped(p.analysis, p.grouping, NextMap(p.analysis.graph, profiles))
    && StepsFor(p.steps, Flatten(p.grouping.groups), p.analysis, p.grouping, hash)
    && UnitsCertified(p.analysis, profiles)
    && p.key == hash(PlanRecord(p.analysis, p.steps))
  }

  ghost predicate UnitsCertified(a: Analysis, profiles: Profiles)
  {
    forall u :: u in a.units ==> UnitCertified(a.graph, profiles, u)
  }

  /** Everything up to the groups, for an accepted graph. */
  method Analyse(x: Graph, profiles: Profiles, hash: Hash) returns (a: Analysis)
    requires WellFormed(x) && BoundOnce(x) && Acyclic(Arcs(x.edges))
    ensures a.graph == x && Analysed(a, NextMap(x, profiles), hash) && UnitsCertified(a, profiles)
  {
    NodeIdsAreElements(x);
    WellFormedWithin(x);
    var layering := TopologicalLayers(IdsOf(x.nodes), x.edges);
    StuckIffCycle(NodeIds(x), Arcs(x.edges));
    FlattenIsTopological(layering.layers, NodeIds(x), Arcs(x.edges));
    var order := Flatten(layering.layers);
    assert Ordered(order, x);
    var lengths := CriticalPathLengths(order, x.edges);
    var path := SelectCriticalPath(order, x.edges, lengths);
    var keys, constants := Annotate(x, order, hash);
    var units := FusionUnits(x, order, profiles);
    a := Analysis(x, order, path, keys, constants, units);
  }

  lemma EnterContraction(nodes: set<Id>, edges: seq<Edge>, next: map<Id, Id>, chains: seq<seq<Id>>, rep: map<Id, Id>, order: seq<Id>)
    requires Within(nodes, Arcs(edges)) && LinksAlone(edges, next)
    requires MaximalChains(chains, order, next) && Elements(order) == nodes && Represents(rep, chains)
    ensures Contracted(nodes, edges, next, chains, rep) && EndsMapped(edges, rep)
    ensures forall u :: 0 <= u < |chains| ==> chains[u] != []
  {
    forall u | 0 <= u < |chains|
      ensures chains[u] != []
    {
      assert Chain(chains[u], next);
    }
    forall n
      ensures n in rep <==> n in nodes
    {
      RepMember(chains, rep, n);
      assert n in nodes <==> n in Elements(Flatten(chains));
    }
    forall e | e in edges
      ensures e.source in rep && e.target in rep
    {
      assert (e.source, e.target) in Arcs(edges);
    }
  }

  lemma OrderIsTopological(order: seq<Id>, x: Graph)
    requires WellFormed(x) && Acyclic(Arcs(x.edges)) && Ordered(order, x)
    ensures TopologicalOrder(order, NodeIds(x), Arcs(x.edges))
  {
    WellFormedWithin(x);
    StuckIffCycle(NodeIds(x), Arcs(x.edges));
    var layers :| IsLayering(layers, NodeIds(x), Arcs(x.edges)) && order == Flatten(layers);
    FlattenIsTopological(layers, NodeIds(x), Arcs(x.edges));
  }

  lemma RepMember(chains: seq<seq<Id>>, rep: map<Id, Id>, n: Id)
    requires Represents(rep, chains)
    ensures n in rep <==> n in Flatten(chains)
  {
    FlattenElements(chains, n);
    if n in rep {
      var u, i :| InChain(chains, u, i, n);
      assert n in chains[u];
    }
    if n in Flatten(chains) {
      var u :| 0 <= u < |chains| && n in chains[u];
      var i :| 0 <= i < |chains[u]| && chains[u][i] == n;
      assert InChain(chains, u, i, n);
    }
  }

  /** The second layering. It never fails. */
  method Group(a: Analysis, profiles: Profiles, hash: Hash) returns (q: Grouping)
    requires Analysed(a, NextMap(a.graph, profiles), hash)
    ensures Grouped(a, q, NextMap(a.graph, profiles))
  {
    WellFormedWithin(a.graph);
    FusedLinksAlone(a.graph, profiles);
    OrderIsTopological(a.order, a.graph);
    q := GroupChains(NodeIds(a.graph), a.graph.edges, NextMap(a.graph, profiles), MembersOf(a.units), a.order);
  }

  method GroupChains(ghost nodes: set<Id>, edges: seq<Edge>, ghost next: map<Id, Id>, chains: seq<seq<Id>>, ghost order: seq<Id>)
    returns (q: Grouping)
    requires Within(nodes, Arcs(edges)) && LinksAlone(edges, next) && Acyclic(Arcs(edges))
    requires MaximalChains(chains, order, next) && Elements(order) == nodes
    ensures Contracted(nodes, edges, next, chains, q.rep) && EndsMapped(edges, q.rep)
    ensures IsLayering(q.groups, Heads(q.rep), Arcs(SyntheticEdges(edges, q.rep)))
    ensures |q.groups| <= |Layers(nodes, Arcs(edges))|
  {
    var rep := BuildRep(chains);
    EnterContraction(nodes, edges, next, chains, rep, order);
    ContractionLayers(nodes, edges, next, chains, rep);
    HeadsListed(chains, rep);
    var synthetic := Synthesize(edges, rep);
    var layering := TopologicalLayers(HeadList(chains), synthetic);
    LayeringLength(layering.layers, Heads(rep), Arcs(synthetic));
    q := Grouping(rep, layering.layers);
  }

  lemma LayeringLength(layers: seq<seq<Id>>, nodes: set<Id>, arcs: set<Arc>)
    requires IsLayering(layers, nodes, arcs)
    ensures |layers| == |Layers(nodes, arcs)|
  {
    assert |SetsOf(layers)| == |layers|;
  }

  /** What building steps needs: known ends, one unit per head, keyed members. */
  ghost predicate Steppable(a: Analysis, q: Grouping)
  {
    && EndsMapped(a.graph.edges, q.rep)
    && (forall i, n :: 0 <= i < |q.groups| && n in q.groups[i] ==> exists u :: HeadOf(a.units, u, n))
    && (forall u, m :: 0 <= u < |a.units| && m in a.units[u].members ==> m in a.keys && m in a.constants)
  }

  /** One execution step for the unit with the given head. */
  method BuildStep(a: Analysis, q: Grouping, hash: Hash, index: nat, group: nat, head: Id) returns (s: ExecutionStep)
    requires Steppable(a, q) && group < |q.groups| && head in q.groups[group]
    ensures s.index == index && s.nodeId == head && StepOk(s, a, q, hash)
  {
    var u := FindUnit(a.units, head);
    var unit := a.units[u];
    var sources := set e | e in a.graph.edges && q.rep[e.source] != q.rep[e.target] && q.rep[e.target] == head :: q.rep[e.source];
    var targets := set e | e in a.graph.edges && q.rep[e.source] != q.rep[e.target] && q.rep[e.source] == head :: q.rep[e.target];
    var dependencies := SortSet(sources);
    var dependents := SortSet(targets);
    var constant := forall m :: m in unit.members ==> a.constants[m];
    s := ExecutionStep(index, group, head, unit.members, dependencies, dependents, StepKey(unit, a.keys, hash), constant, unit.evidence);
    assert UnitOfStep(s, a, hash, u);
  }

  /** `units_by_id[node_id]`. */
  method FindUnit(units: seq<Unit>, head: Id) returns (u: nat)
    requires exists w :: HeadOf(units, w, head)
    ensures HeadOf(units, u, head)
  {
    ghost var w :| HeadOf(units, w, head);
    u := 0;
    while units[u].members == [] || units[u].members[0] != head
      invariant u <= w
      decreases w - u
    {
      u := u + 1;
    }
  }

  lemma BecomesSteppable(a: Analysis, q: Grouping, next: map<Id, Id>, hash: Hash)
    requires Analysed(a, next, hash) && Grouped(a, q, next)
    ensures Steppable(a, q)
  {
    hide WellFormed, BoundOnce, Acyclic, Ordered, LeastCritical, Cut, Contracted, KeyOk, ConstantOk, IsLayering;
    HeadsHaveUnits(a, q, next);
    forall u, m | 0 <= u < |a.units| && m in a.units[u].members
      ensures m in NodeIds(a.graph)
    {
      MemberIsNode(a, q, next, u, m);
    }
  }

  lemma HeadsHaveUnits(a: Analysis, q: Grouping, next: map<Id, Id>)
    requires Grouped(a, q, next)
    ensures forall i, n :: 0 <= i < |q.groups| && n in q.groups[i] ==> exists u :: HeadOf(a.units, u, n)
  {
    var chains := MembersOf(a.units);
    forall i, n | 0 <= i < |q.groups| && n in q.groups[i]
      ensures exists u :: HeadOf(a.units, u, n)
    {
      GroupedHead(a.graph.edges, q, i, n);
      HeadHasUnit(chains, q.rep, n);
      var u :| 0 <= u < |chains| && chains[u] != [] && chains[u][0] == n;
      assert HeadOf(a.units, u, n);
    }
  }

  lemma MemberIsNode(a: Analysis, q: Grouping, next: map<Id, Id>, u: nat, m: Id)
    requires Grouped(a, q, next) && u < |a.units| && m in a.units[u].members
    ensures m in NodeIds(a.graph)
  {
    var chains := MembersOf(a.units);
    var i :| 0 <= i < |chains[u]| && chains[u][i] == m;
    assert InChain(chains, u, i, m);
  }

  lemma HeadHasUnit(chains: seq<seq<Id>>, rep: map<Id, Id>, head: Id)
    requires Represents(rep, chains) && head in Heads(rep)
    ensures exists u :: 0 <= u < |chains| && chains[u] != [] && chains[u][0] == head
  {
    var n :| n in rep && rep[n] == head;
    var u, i :| InChain(chains, u, i, n);
  }

  lemma GroupedHead(edges: seq<Edge>, q: Grouping, i: nat, n: Id)
    requires EndsMapped(edges, q.rep) && i < |q.groups| && n in q.groups[i]
    requires IsLayering(q.groups, Heads(q.rep), Arcs(SyntheticEdges(edges, q.rep)))
    ensures n in Heads(q.rep) && InLayer(Layers(Heads(q.rep), Arcs(SyntheticEdges(edges, q.rep))), i, n)
  {
    var arcs := Arcs(SyntheticEdges(edges, q.rep));
    assert SetsOf(q.groups)[i] == Elements(q.groups[i]);
    assert InLayer(Layers(Heads(q.rep), arcs), i, n);
    LayersDisjoint(Heads(q.rep), arcs, i, n);
  }

  /** The steps, group after group. */
  method BuildSteps(a: Analysis, q: Grouping, hash: Hash) returns (steps: seq<ExecutionStep>)
    requires Steppable(a, q)
    ensures StepsFor(steps, Flatten(q.groups), a, q, hash)
  {
    steps := [];
    for i := 0 to |q.groups|
      invariant StepsFor(steps, Flatten(q.groups[..i]), a, q, hash)
    {
      assert q.groups[..i + 1] == q.groups[..i] + [q.groups[i]];
      FlattenAppend(q.groups[..i], q.groups[i]);
      steps := BuildGroup(a, q, hash, i, steps, Flatten(q.groups[..i]));
    }
    assert q.groups[..|q.groups|] == q.groups;
  }

  method BuildGroup(a: Analysis, q: Grouping, hash: Hash, group: nat, before: seq<ExecutionStep>, ghost heads: seq<Id>)
    returns (steps: seq<ExecutionStep>)
    requires Steppable(a, q) && group < |q.groups| && StepsFor(before, heads, a, q, hash)
    ensures StepsFor(steps, heads + q.groups[group], a, q, hash)
  {
    steps := before;
    for j := 0 to |q.groups[group]|
      invariant StepsFor(steps, heads + q.groups[group][..j], a, q, hash)
    {
      var s := BuildStep(a, q, hash, |steps|, group, q.groups[group][j]);
      StepsGrow(steps, heads + q.groups[group][..j], s, a, q, hash);
      assert heads + q.groups[group][..j] + [s.nodeId] == heads + q.groups[group][..j + 1];
      steps := steps + [s];
    }
    assert q.groups[group][..|q.groups[group]|] == q.groups[group];
  }

  lemma StepsGrow(steps: seq<ExecutionStep>, heads: seq<Id>, s: ExecutionStep, a: Analysis, q: Grouping, hash: Hash)
    requires EndsMapped(a.graph.edges, q.rep) && StepsFor(steps, heads, a, q, hash)
    requires s.index == |steps| && StepOk(s, a, q, hash)
    ensures StepsFor(steps + [s], heads + [s.nodeId], a, q, hash)
  {
  }

  datatype CompileResult =
    | Compiled(plan: Plan)
    | ExpansionFailed(code: string)
    | Rejected(errors: seq<string>)

  /** The phases of `GraphCompiler.compile` before control regions, after the structural check
      of the parent and the registered graphs. Each outcome has its exact cause: the expansion
      stops, validation rejects exactly the unacceptable expansions, and any other expansion gets
      a valid plan. */
  method CompileGraph(g: Graph, registry: Registry, maxDepth: nat, rules: Rules, profiles: Profiles, hash: Hash)
    returns (r: CompileResult, ghost d: Derivation, ghost x: Graph)
    ensures r.ExpansionFailed? ==> ExpansionFails(r.code, g, registry, [], maxDepth)
    ensures !r.ExpansionFailed? ==> Runs(d, g, registry, [], maxDepth, x)
    ensures !r.ExpansionFailed? ==> (r.Compiled? <==> Accepted(x, rules))
    ensures r.Compiled? ==> r.plan.analysis.graph == x && r.plan.traces == TracesOf(d) && ValidPlan(r.plan, profiles, hash)
    ensures r.Rejected? ==> r.errors != []
  {
    hide Runs, ExpansionFails, Accepted, ValidPlan;
    var expansion;
    expansion, d := ExpandAll(g, registry, [], maxDepth);
    if expansion.ExpandError? {
      return ExpansionFailed(expansion.code), d, g;
    }
    x := expansion.graph;
    var errors := Validate(expansion.graph, rules);
    if errors != [] {
      return Rejected(errors), d, x;
    }
    AcceptedWellFormed(x, rules);
    AcceptedBoundOnce(x, rules);
    AcceptedAcyclic(x, rules);
    var plan := BuildPlan(expansion.graph, profiles, hash, expansion.traces);
    r := Compiled(plan);
  }

  lemma AcceptedAcyclic(x: Graph, rules: Rules)
    requires Accepted(x, rules)
    ensures Acyclic(Arcs(x.edges))
  {
  }

  method BuildPlan(x: Graph, profiles: Profiles, hash: Hash, traces: seq<Trace>) returns (p: Plan)
    requires WellFormed(x) && BoundOnce(x) && Acyclic(Arcs(x.edges))
    ensures p.analysis.graph == x && p.traces == traces && ValidPlan(p, profiles, hash)
  {
    var analysis := Analyse(x, profiles, hash);
    var grouping := Group(analysis, profiles, hash);
    BecomesSteppable(analysis, grouping, NextMap(x, profiles), hash);
    var steps := BuildSteps(analysis, grouping, hash);
    p := Plan(analysis, grouping, steps, hash(PlanRecord(analysis, steps)), traces);
  }
}
