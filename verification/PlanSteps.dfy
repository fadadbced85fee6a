/** What the steps of a compiled plan are, said of the stored graph: which nodes share a step,
    which steps wait for which, which are constant, and that running the steps in any order that
    respects the waiting computes the graph (src/comfyng/graph/compiler.py:775-1034). */
module PlanSteps {
  import opened Ids
  import opened Layering
  import opened Graphs
  import opened Topology
  import opened CriticalPath
  import opened Semantics
  import opened Fusion
  import opened Contraction
  import opened CacheKeys
  import opened Expansion
  import opened Meaning
  import opened Expand
  import opened ExpansionTheorems
  import opened Compile
  import opened PlanTheorems
  import opened ControlPlan

  // ----- Which edges are fused -----

  ghost predicate OnlyOut(edges: seq<Edge>, id: Id)
  {
    forall i, j :: 0 <= i < |edges| && 0 <= j < |edges| && edges[i].source == id && edges[j].source == id ==> i == j
  }

  ghost predicate OnlyInto(edges: seq<Edge>, id: Id)
  {
    forall i, j :: 0 <= i < |edges| && 0 <= j < |edges| && edges[i].target == id && edges[j].target == id ==> i == j
  }

  predicate Bound(bindings: map<string, Binding>, id: Id)
  {
    exists name :: name in bindings && bindings[name].node == id
  }

  predicate Steers(n: Node)
  {
    n.typeId == "ng.control.for_each" || n.typeId == "ng.control.switch"
  }

  /** The two ends of an edge may share a step: both types are known, pure, deterministic and
      without side effects, of one fusion kind and one runtime that does not use the network; the
      edge is the only one out of its source and into its target and joins ports of one schema;
      no graph output leaves the source and no graph input enters the target; neither end is a
      control node. */
  ghost predicate MayShareStep(g: Graph, profiles: Profiles, e: Edge, n: Node, m: Node)
  {
    && (n.typeId, n.typeVersion) in profiles && (m.typeId, m.typeVersion) in profiles
    && var a, b := profiles[(n.typeId, n.typeVersion)], profiles[(m.typeId, m.typeVersion)];
       && a.fusionKind.Some? && b.fusionKind == a.fusionKind
       && a.pure && b.pure && a.deterministic && b.deterministic && !a.sideEffects && !b.sideEffects
       && a.runtimeFingerprint == b.runtimeFingerprint && !a.network
       && e.sourcePort in a.outputSchemas && e.targetPort in b.inputSchemas
       && a.outputSchemas[e.sourcePort] == b.inputSchemas[e.targetPort]
       && OnlyOut(g.edges, e.source) && OnlyInto(g.edges, e.target)
       && !Bound(g.outputs, e.source) && !Bound(g.inputs, e.target)
       && !Steers(n) && !Steers(m)
  }

  lemma {:induction false} OutOnce(edges: seq<Edge>, e: Edge)
    requires e in edges
    ensures |OutOf(edges, e.source)| == 1 <==> OnlyOut(edges, e.source)
  {
    var i :| 0 <= i < |edges| && edges[i] == e;
    OutAt(edges, e.source, i);
  }

  /** The list of edges out of a node has one entry exactly when one position holds such an edge. */
  lemma {:induction false} OutAt(edges: seq<Edge>, id: Id, i: nat)
    requires i < |edges| && edges[i].source == id
    ensures |OutOf(edges, id)| == 1 <==> OnlyOut(edges, id)
  {
    var init, last := edges[..|edges| - 1], edges[|edges| - 1];
    assert edges == init + [last];
    if i < |init| {
      assert init[i] == edges[i];
      OutAt(init, id, i);
      OutOfMembers(init, id, edges[i]);
      if last.source == id {
        assert edges[i].source == edges[|edges| - 1].source;
        assert |OutOf(edges, id)| > 1;
      } else {
        OnlyOutGrows(init, last, id);
      }
    } else {
      NoneOut(init, id);
      if last.source == id && OutOf(init, id) == [] {
        OnlyLast(init, last, id);
      }
    }
  }

  lemma OnlyOutGrows(init: seq<Edge>, last: Edge, id: Id)
    requires last.source != id
    ensures OnlyOut(init + [last], id) <==> OnlyOut(init, id)
  {
    var edges := init + [last];
    assert forall i :: 0 <= i < |init| ==> edges[i] == init[i];
  }

  /** With an earlier edge out of the node, the last one is not alone. */
  lemma NoneOut(init: seq<Edge>, id: Id)
    ensures OutOf(init, id) == [] <==> forall i :: 0 <= i < |init| ==> init[i].source != id
  {
    if OutOf(init, id) == [] {
      forall i | 0 <= i < |init|
        ensures init[i].source != id
      {
        OutOfMembers(init, id, init[i]);
      }
    } else {
      OutOfMembers(init, id, OutOf(init, id)[0]);
    }
  }

  lemma OnlyLast(init: seq<Edge>, last: Edge, id: Id)
    requires forall i :: 0 <= i < |init| ==> init[i].source != id
    ensures OnlyOut(init + [last], id)
  {
  }

  lemma {:induction false} InOnce(edges: seq<Edge>, e: Edge)
    requires e in edges
    ensures |IntoOf(edges, e.target)| == 1 <==> OnlyInto(edges, e.target)
  {
    var i :| 0 <= i < |edges| && edges[i] == e;
    InAt(edges, e.target, i);
  }

  lemma {:induction false} InAt(edges: seq<Edge>, id: Id, i: nat)
    requires i < |edges| && edges[i].target == id
    ensures |IntoOf(edges, id)| == 1 <==> OnlyInto(edges, id)
  {
    var init, last := edges[..|edges| - 1], edges[|edges| - 1];
    assert edges == init + [last];
    if i < |init| {
      assert init[i] == edges[i];
      InAt(init, id, i);
      IntoOfMembers(init, id, edges[i]);
      if last.target == id {
        assert edges[i].target == edges[|edges| - 1].target;
        assert |IntoOf(edges, id)| > 1;
      } else {
        OnlyIntoGrows(init, last, id);
      }
    } else {
      NoneInto(init, id);
    }
  }

  lemma OnlyIntoGrows(init: seq<Edge>, last: Edge, id: Id)
    requires last.target != id
    ensures OnlyInto(init + [last], id) <==> OnlyInto(init, id)
  {
    var edges := init + [last];
    assert forall i :: 0 <= i < |init| ==> edges[i] == init[i];
  }

  lemma NoneInto(init: seq<Edge>, id: Id)
    ensures IntoOf(init, id) == [] <==> forall i :: 0 <= i < |init| ==> init[i].target != id
  {
    if IntoOf(init, id) == [] {
      forall i | 0 <= i < |init|
        ensures init[i].target != id
      {
        IntoOfMembers(init, id, init[i]);
      }
    } else {
      IntoOfMembers(init, id, IntoOf(init, id)[0]);
    }
  }

  lemma EvidenceIff(g: Graph, profiles: Profiles, e: Edge, n: Node, m: Node)
    requires WellFormed(g) && e in g.edges && n in g.nodes && m in g.nodes && n.id == e.source && m.id == e.target
    ensures e.source in NodeTable(g.nodes) && e.target in NodeTable(g.nodes)
    ensures LinkEvidence(g, NodeTable(g.nodes), profiles, e).Some? <==> MayShareStep(g, profiles, e, n, m)
  {
    hide OutOf, IntoOf, OnlyOut, OnlyInto, NodeTable;
    NodeTableAt(g, e.source);
    NodeTableAt(g, e.target);
    UniqueNode(g, n, NodeAt(g, e.source));
    UniqueNode(g, m, NodeAt(g, e.target));
    OutOnce(g.edges, e);
    InOnce(g.edges, e);
    assert forall b, id: Id :: id in BoundNodes(b) <==> Bound(b, id);
  }

  /** An edge is followed inside a unit exactly when it carries evidence. */
  lemma LinkedIff(g: Graph, profiles: Profiles, e: Edge)
    requires WellFormed(g) && e in g.edges && e.source in NodeTable(g.nodes) && e.target in NodeTable(g.nodes)
    ensures LinkEvidence(g, NodeTable(g.nodes), profiles, e).Some?
            <==> e.source in NextMap(g, profiles) && NextMap(g, profiles)[e.source] == e.target
  {
    hide NodeTable;
    OutOfMembers(g.edges, e.source, e);
    if LinkEvidence(g, NodeTable(g.nodes), profiles, e).Some? {
      EvidenceFacts(g, NodeTable(g.nodes), profiles, e);
      SingletonSeq(OutOf(g.edges, e.source), e);
      assert Linked(g, profiles, e.source);
    }
    if e.source in NextMap(g, profiles) {
      var f := LinkFacts(g, profiles, e.source);
    }
  }

  /** Two nodes come one right after the other in a step. */
  predicate Consecutive(members: seq<Id>, a: Id, b: Id)
  {
    exists i :: 0 < i < |members| && members[i - 1] == a && members[i] == b
  }

  ghost predicate SomeStepJoins(steps: seq<ExecutionStep>, a: Id, b: Id)
  {
    exists s :: s in steps && Consecutive(s.members, a, b)
  }

  /** The units of a plan: whole chains, each the members of a step. */
  ghost predicate UnitsAreSteps(steps: seq<ExecutionStep>, chains: seq<seq<Id>>, next: map<Id, Id>, nodes: set<Id>)
  {
    && WholeChains(chains, next)
    && (forall n :: n in nodes ==> exists u, i :: InChain(chains, u, i, n))
    && (forall s :: s in steps ==> s.members in chains)
    && (forall u :: 0 <= u < |chains| ==> HasMembers(steps, chains[u]))
  }

  ghost predicate HasMembers(steps: seq<ExecutionStep>, c: seq<Id>)
  {
    exists s :: s in steps && s.members == c
  }

  lemma PlanUnits(p: Plan, profiles: Profiles, hash: Hash)
    requires ValidPlan(p, profiles, hash)
    ensures UnitsAreSteps(p.steps, MembersOf(p.analysis.units), NextMap(p.analysis.graph, profiles), NodeIds(p.analysis.graph))
    ensures WellFormed(p.analysis.graph)
  {
    hide UnitsCertified, Grouped, NextMap, KeysOf, ConstantsOf, PlanRecord, WellFormed, StepsFor, LeastCritical, UnitsAreSteps, ListsHeads;
    var a, q, next := p.analysis, p.grouping, NextMap(p.analysis.graph, profiles);
    StepsFitSetting(p.steps, a, q, next, hash);
    GroupedUnits(p.steps, a, q, next, hash);
  }

  lemma GroupedUnits(steps: seq<ExecutionStep>, a: Analysis, q: Compile.Grouping, next: map<Id, Id>, hash: Hash)
    requires Grouped(a, q, next) && StepsFor(steps, Flatten(q.groups), a, q, hash) && ListsHeads(steps, q.rep)
    ensures UnitsAreSteps(steps, MembersOf(a.units), next, NodeIds(a.graph))
  {
    hide LinksAlone, IsLayering, DependencySet, DependentSet, Flatten, Ascending, StepKey, Layers, Chain;
    var chains := MembersOf(a.units);
    forall s | s in steps
      ensures s.members in chains
    {
      var k :| 0 <= k < |steps| && steps[k] == s;
      assert StepOk(steps[k], a, q, hash);
      var u :| UnitOfStep(s, a, hash, u);
      assert chains[u] == s.members;
    }
    forall u | 0 <= u < |chains|
      ensures HasMembers(steps, chains[u])
    {
      ChainHasHead(chains, next, u);
      UnitHasStep(steps, a, q, hash, chains, u);
    }
  }

  lemma ChainHasHead(chains: seq<seq<Id>>, next: map<Id, Id>, u: nat)
    requires WholeChains(chains, next) && u < |chains|
    ensures chains[u] != []
  {
    assert Chain(chains[u], next);
  }

  lemma UnitHasStep(steps: seq<ExecutionStep>, a: Analysis, q: Compile.Grouping, hash: Hash, chains: seq<seq<Id>>, u: nat)
    requires EndsMapped(a.graph.edges, q.rep) && ListsHeads(steps, q.rep) && chains == MembersOf(a.units)
    requires Distinct(Flatten(chains)) && Represents(q.rep, chains) && u < |chains| && chains[u] != []
    requires forall k :: 0 <= k < |steps| ==> StepOk(steps[k], a, q, hash)
    ensures HasMembers(steps, chains[u])
  {
    assert InChain(chains, u, 0, chains[u][0]);
    var k :| StepAt(steps, k, q.rep[chains[u][0]]);
    assert StepOk(steps[k], a, q, hash);
    var w :| UnitOfStep(steps[k], a, hash, w);
    SameHead(chains, u, w);
    assert steps[k] in steps && steps[k].members == chains[u];
  }

  lemma JoinedIffLinked(steps: seq<ExecutionStep>, chains: seq<seq<Id>>, next: map<Id, Id>, nodes: set<Id>, a: Id, b: Id)
    requires UnitsAreSteps(steps, chains, next, nodes) && a in nodes
    ensures SomeStepJoins(steps, a, b) <==> a in next && next[a] == b
  {
    if SomeStepJoins(steps, a, b) {
      var s :| s in steps && Consecutive(s.members, a, b);
      var u :| 0 <= u < |chains| && chains[u] == s.members;
      var i :| 0 < i < |s.members| && s.members[i - 1] == a && s.members[i] == b;
      ChainLink(chains, next, u, i - 1);
    }
    if a in next && next[a] == b {
      var u, i :| InChain(chains, u, i, a);
      ChainLink(chains, next, u, i);
      assert HasMembers(steps, chains[u]);
      var s :| s in steps && s.members == chains[u];
      assert s.members[i + 1 - 1] == a && s.members[i + 1] == b;
      assert Consecutive(s.members, a, b);
    }
  }

  /** The two ends of a stored edge come one right after the other in a step exactly when they
      may share one, whichever stored nodes carry the ends' ids. */
  lemma FusedIff(p: Plan, profiles: Profiles, hash: Hash, e: Edge, n: Node, m: Node)
    requires ValidPlan(p, profiles, hash) && e in p.analysis.graph.edges
    requires n in p.analysis.graph.nodes && m in p.analysis.graph.nodes && n.id == e.source && m.id == e.target
    ensures SomeStepJoins(p.steps, e.source, e.target) <==> MayShareStep(p.analysis.graph, profiles, e, n, m)
  {
    hide ValidPlan, UnitsAreSteps, NextMap, LinkEvidence, MayShareStep, WellFormed, NodeTable;
    var g := p.analysis.graph;
    PlanUnits(p, profiles, hash);
    EvidenceIff(g, profiles, e, n, m);
    LinkedIff(g, profiles, e);
    JoinedIffLinked(p.steps, MembersOf(p.analysis.units), NextMap(g, profiles), NodeIds(g), e.source, e.target);
  }

  /** Only the ends of stored edges come one after the other in a step. */
  lemma StepsFollowEdges(p: Plan, profiles: Profiles, hash: Hash, s: ExecutionStep, i: nat)
    requires ValidPlan(p, profiles, hash) && s in p.steps && 0 < i < |s.members|
    ensures exists e :: e in p.analysis.graph.edges && e.source == s.members[i - 1] && e.target == s.members[i]
  {
    hide ValidPlan, NextMap, LinkEvidence, WellFormed, NodeTable;
    var g := p.analysis.graph;
    PlanUnits(p, profiles, hash);
    var chains := MembersOf(p.analysis.units);
    var u :| 0 <= u < |chains| && chains[u] == s.members;
    ChainLink(chains, NextMap(g, profiles), u, i - 1);
    var e := LinkFacts(g, profiles, s.members[i - 1]);
  }

  // ----- What steps wait for -----

  /** Some stored edge runs from a member of the one step into a member of the other. */
  ghost predicate ReadsFrom(edges: seq<Edge>, s: ExecutionStep, t: ExecutionStep)
  {
    exists e :: e in edges && e.source in t.members && e.target in s.members
  }

  /** The step of this id that the step reads from. */
  ghost predicate Supplies(edges: seq<Edge>, steps: seq<ExecutionStep>, s: ExecutionStep, d: Id, t: ExecutionStep)
  {
    t in steps && t.nodeId == d && t != s && ReadsFrom(edges, s, t)
  }

  ghost predicate Consumes(edges: seq<Edge>, steps: seq<ExecutionStep>, s: ExecutionStep, d: Id, t: ExecutionStep)
  {
    t in steps && t.nodeId == d && t != s && ReadsFrom(edges, t, s)
  }

  lemma SameStep(steps: seq<ExecutionStep>, rep: map<Id, Id>, s: ExecutionStep, t: ExecutionStep)
    requires ListsHeads(steps, rep) && s in steps && t in steps
    ensures s == t <==> s.nodeId == t.nodeId
  {
    var k :| 0 <= k < |steps| && steps[k] == s;
    var l :| 0 <= l < |steps| && steps[l] == t;
  }

  lemma MembersMapped(steps: seq<ExecutionStep>, rep: map<Id, Id>, s: ExecutionStep)
    requires Classes(steps, rep) && s in steps
    ensures forall m :: m in s.members <==> m in rep && rep[m] == s.nodeId
  {
    var k :| 0 <= k < |steps| && steps[k] == s;
    assert ClassOf(steps[k], rep);
  }

  /** An edge between the classes of two different steps is an edge between their members. */
  lemma CrossingInto(edges: seq<Edge>, steps: seq<ExecutionStep>, rep: map<Id, Id>, s: ExecutionStep, d: Id)
    requires Classes(steps, rep) && ListsHeads(steps, rep) && EndsMapped(edges, rep) && s in steps
    ensures d in DependencySet(edges, rep, s.nodeId) <==> exists t :: Supplies(edges, steps, s, d, t)
  {
    hide Classes, ListsHeads;
    MembersMapped(steps, rep, s);
    if d in DependencySet(edges, rep, s.nodeId) {
      var e :| e in edges && rep[e.source] != rep[e.target] && rep[e.target] == s.nodeId && d == rep[e.source];
      var t := StepOfNode(steps, rep, e.source);
      MembersMapped(steps, rep, t);
      assert Supplies(edges, steps, s, d, t);
    }
    if t :| Supplies(edges, steps, s, d, t) {
      SameStep(steps, rep, s, t);
      MembersMapped(steps, rep, t);
    }
  }

  lemma CrossingOut(edges: seq<Edge>, steps: seq<ExecutionStep>, rep: map<Id, Id>, s: ExecutionStep, d: Id)
    requires Classes(steps, rep) && ListsHeads(steps, rep) && EndsMapped(edges, rep) && s in steps
    ensures d in DependentSet(edges, rep, s.nodeId) <==> exists t :: Consumes(edges, steps, s, d, t)
  {
    hide Classes, ListsHeads;
    MembersMapped(steps, rep, s);
    if d in DependentSet(edges, rep, s.nodeId) {
      var e :| e in edges && rep[e.source] != rep[e.target] && rep[e.source] == s.nodeId && d == rep[e.target];
      var t := StepOfNode(steps, rep, e.target);
      MembersMapped(steps, rep, t);
      assert Consumes(edges, steps, s, d, t);
    }
    if t :| Consumes(edges, steps, s, d, t) {
      SameStep(steps, rep, s, t);
      MembersMapped(steps, rep, t);
    }
  }

  lemma StepOfNode(steps: seq<ExecutionStep>, rep: map<Id, Id>, n: Id) returns (t: ExecutionStep)
    requires ListsHeads(steps, rep) && n in rep
    ensures t in steps && t.nodeId == rep[n]
  {
    var k :| StepAt(steps, k, rep[n]);
    t := steps[k];
  }

  /** What the steps of a plan satisfy over the table of representatives. */
  lemma PlanClasses(p: Plan, profiles: Profiles, hash: Hash)
    requires ValidPlan(p, profiles, hash)
    ensures Classes(p.steps, p.grouping.rep) && ListsHeads(p.steps, p.grouping.rep)
    ensures EndsMapped(p.analysis.graph.edges, p.grouping.rep)
    ensures forall s :: s in p.steps ==> StepOk(s, p.analysis, p.grouping, hash)
  {
    hide UnitsCertified, NextMap, KeysOf, ConstantsOf, PlanRecord, WellFormed, LeastCritical, ListsHeads, Classes, StepOk, Contracted;
    StepsFitSetting(p.steps, p.analysis, p.grouping, NextMap(p.analysis.graph, profiles), hash);
  }

  /** A step depends on exactly the other steps out of which a stored edge leads into it, and its
      dependents are exactly the other steps into which a stored edge leads out of it. */
  lemma StepNeighbours(p: Plan, profiles: Profiles, hash: Hash, s: ExecutionStep, d: Id)
    requires ValidPlan(p, profiles, hash) && s in p.steps
    ensures d in s.dependencies <==> exists t :: Supplies(p.analysis.graph.edges, p.steps, s, d, t)
    ensures d in s.dependents <==> exists t :: Consumes(p.analysis.graph.edges, p.steps, s, d, t)
  {
    hide ValidPlan, Supplies, Consumes, Classes, ListsHeads;
    PlanClasses(p, profiles, hash);
    CrossingInto(p.analysis.graph.edges, p.steps, p.grouping.rep, s, d);
    CrossingOut(p.analysis.graph.edges, p.steps, p.grouping.rep, s, d);
    assert d in s.dependencies <==> d in Elements(s.dependencies);
    assert d in s.dependents <==> d in Elements(s.dependents);
  }

  /** A step without dependencies is in the first group. Any other comes one group after the
      latest of the steps it depends on. */
  lemma StepGroupsAreTight(p: Plan, profiles: Profiles, hash: Hash, s: ExecutionStep)
    requires ValidPlan(p, profiles, hash) && s in p.steps
    ensures forall t :: t in p.steps && t.nodeId in s.dependencies ==> t.group < s.group
    ensures s.group == 0 <==> s.dependencies == []
    ensures s.group > 0 ==> exists t :: t in p.steps && t.nodeId in s.dependencies && t.group == s.group - 1
  {
    hide ValidPlan, StepOk, Classes, ListsHeads, IsLayering;
    PlanClasses(p, profiles, hash);
    PlanLayers(p, profiles, hash);
    var edges, q := p.analysis.graph.edges, p.grouping;
    forall t | t in p.steps
      ensures Layered(t, edges, q)
    {
      assert StepOk(t, p.analysis, q, hash);
      StepIsLayered(t, p.analysis, q, hash);
    }
    forall t | t in p.steps && t.nodeId in s.dependencies
      ensures t.group < s.group
    {
      DependencyBefore(edges, q.rep, t, s, q);
    }
    if s.dependencies != [] {
      DependencyHasStep(p.steps, edges, q.rep, s, s.dependencies[0]);
    }
    if s.group > 0 {
      var m := DependencyJustBefore(edges, q, s);
      DependencyHasStep(p.steps, edges, q.rep, s, m);
      var t :| t in p.steps && t.nodeId == m;
      LayersDisjoint(Heads(q.rep), Arcs(SyntheticEdges(edges, q.rep)), s.group - 1, m);
      LayersDisjoint(Heads(q.rep), Arcs(SyntheticEdges(edges, q.rep)), t.group, m);
    }
  }

  /** A step's group is its head's layer in the contracted graph, its dependencies are its
      sources there. */
  ghost predicate Layered(s: ExecutionStep, edges: seq<Edge>, q: Compile.Grouping)
    requires EndsMapped(edges, q.rep)
  {
    && InLayer(Layers(Heads(q.rep), Arcs(SyntheticEdges(edges, q.rep))), s.group, s.nodeId)
    && s.nodeId in Heads(q.rep)
    && Elements(s.dependencies) == DependencySet(edges, q.rep, s.nodeId)
  }

  lemma StepIsLayered(s: ExecutionStep, a: Analysis, q: Compile.Grouping, hash: Hash)
    requires EndsMapped(a.graph.edges, q.rep) && StepOk(s, a, q, hash)
    requires IsLayering(q.groups, Heads(q.rep), Arcs(SyntheticEdges(a.graph.edges, q.rep)))
    ensures Layered(s, a.graph.edges, q)
  {
    GroupedHead(a.graph.edges, q, s.group, s.nodeId);
  }

  lemma DependencyBefore(edges: seq<Edge>, rep: map<Id, Id>, t: ExecutionStep, s: ExecutionStep, q: Compile.Grouping)
    requires rep == q.rep && EndsMapped(edges, rep) && Layered(t, edges, q) && Layered(s, edges, q) && t.nodeId in s.dependencies
    ensures t.group < s.group
  {
    hide SyntheticEdges, Arcs, Layers, DependencySet;
    var heads, arcs := Heads(rep), Arcs(SyntheticEdges(edges, rep));
    DependencyArc(edges, rep, s, t.nodeId);
    SourceLayer(heads, arcs, s.group, t.nodeId, s.nodeId);
    var j :| 0 <= j < s.group && InLayer(Layers(heads, arcs), j, t.nodeId);
    LayersDisjoint(heads, arcs, j, t.nodeId);
    LayersDisjoint(heads, arcs, t.group, t.nodeId);
  }

  lemma DependencyJustBefore(edges: seq<Edge>, q: Compile.Grouping, s: ExecutionStep) returns (m: Id)
    requires EndsMapped(edges, q.rep) && Layered(s, edges, q) && s.group > 0
    ensures m in s.dependencies && InLayer(Layers(Heads(q.rep), Arcs(SyntheticEdges(edges, q.rep))), s.group - 1, m)
  {
    m := FedByPreviousLayer(Heads(q.rep), Arcs(SyntheticEdges(edges, q.rep)), s.group, s.nodeId);
    DependencyArc(edges, q.rep, s, m);
  }

  lemma PlanLayers(p: Plan, profiles: Profiles, hash: Hash)
    requires ValidPlan(p, profiles, hash)
    ensures EndsMapped(p.analysis.graph.edges, p.grouping.rep)
    ensures IsLayering(p.grouping.groups, Heads(p.grouping.rep), Arcs(SyntheticEdges(p.analysis.graph.edges, p.grouping.rep)))
  {
    hide Analysed, StepsFor, IsLayering, Contracted;
  }

  lemma DependencyArc(edges: seq<Edge>, rep: map<Id, Id>, s: ExecutionStep, d: Id)
    requires EndsMapped(edges, rep) && Elements(s.dependencies) == DependencySet(edges, rep, s.nodeId)
    ensures d in s.dependencies <==> (d, s.nodeId) in Arcs(SyntheticEdges(edges, rep))
  {
    SyntheticArcs(edges, rep, (d, s.nodeId));
    if d in s.dependencies {
      assert d in Elements(s.dependencies);
      var e :| e in edges && rep[e.source] != rep[e.target] && rep[e.target] == s.nodeId && d == rep[e.source];
      assert Crosses(e, edges, rep, (d, s.nodeId));
    }
    if e :| Crosses(e, edges, rep, (d, s.nodeId)) {
      assert d in Elements(s.dependencies);
    }
  }

  lemma DependencyHasStep(steps: seq<ExecutionStep>, edges: seq<Edge>, rep: map<Id, Id>, s: ExecutionStep, d: Id)
    requires EndsMapped(edges, rep) && ListsHeads(steps, rep)
    requires Elements(s.dependencies) == DependencySet(edges, rep, s.nodeId) && d in s.dependencies
    ensures exists t :: t in steps && t.nodeId == d
  {
    assert d in Elements(s.dependencies);
    var e :| e in edges && rep[e.source] != rep[e.target] && rep[e.target] == s.nodeId && d == rep[e.source];
    var k :| StepAt(steps, k, rep[e.source]);
  }

  /** A step is constant exactly when no graph input reaches any of its members. */
  lemma StepConstantIff(p: Plan, profiles: Profiles, hash: Hash, s: ExecutionStep)
    requires ValidPlan(p, profiles, hash) && s in p.steps
    ensures s.isConstant <==> forall m :: m in s.members ==> !InputReaches(p.analysis.graph, m)
  {
    hide ValidPlan, InputReaches, Classes, ListsHeads;
    var a := p.analysis;
    PlanClasses(p, profiles, hash);
    PlanConstants(p, profiles, hash);
    var rank := LayerRanking(NodeIds(a.graph), Arcs(a.graph.edges));
    var u :| UnitOfStep(s, a, hash, u);
    forall m | m in s.members
      ensures m in a.constants && (a.constants[m] <==> !InputReaches(a.graph, m))
    {
      ConstantIffUnreached(a.graph, a.constants, rank, m);
    }
  }

  lemma PlanConstants(p: Plan, profiles: Profiles, hash: Hash)
    requires ValidPlan(p, profiles, hash)
    ensures WellFormed(p.analysis.graph) && ConstantsOf(p.analysis.graph, p.analysis.constants)
    ensures Within(NodeIds(p.analysis.graph), Arcs(p.analysis.graph.edges))
    ensures Stuck(NodeIds(p.analysis.graph), Arcs(p.analysis.graph.edges)) == {}
  {
    hide Grouped, StepsFor, UnitsCertified, ConstantsOf, KeysOf, NextMap;
    WellFormedWithin(p.analysis.graph);
    StuckIffCycle(NodeIds(p.analysis.graph), Arcs(p.analysis.graph.edges));
  }

  // ----- Running the steps -----

  ghost predicate Precedes(schedule: seq<Id>, m: Id, n: Id)
  {
    forall i, j :: 0 <= i < |schedule| && 0 <= j < |schedule| && schedule[i] == m && schedule[j] == n ==> i < j
  }

  /** Every node once, the members of a step in sequence, and after all members of the steps it
      depends on. */
  ghost predicate Obeys(schedule: seq<Id>, steps: seq<ExecutionStep>, nodes: set<Id>)
  {
    && Distinct(schedule) && Elements(schedule) == nodes
    && (forall s, i, j :: s in steps && 0 <= i < j < |s.members| ==> Precedes(schedule, s.members[i], s.members[j]))
    && (forall s, t, m, n :: s in steps && t in steps && t.nodeId in s.dependencies && m in t.members && n in s.members ==>
          Precedes(schedule, m, n))
  }

  lemma ObeyingIsTopological(p: Plan, profiles: Profiles, hash: Hash, schedule: seq<Id>)
    requires ValidPlan(p, profiles, hash) && Obeys(schedule, p.steps, NodeIds(p.analysis.graph))
    ensures TopologicalOrder(schedule, NodeIds(p.analysis.graph), Arcs(p.analysis.graph.edges))
  {
    hide ValidPlan, Classes, ListsHeads;
    var g := p.analysis.graph;
    forall i, j | 0 <= i < |schedule| && 0 <= j < |schedule| && (schedule[i], schedule[j]) in Arcs(g.edges)
      ensures i < j
    {
      var e :| e in g.edges && (e.source, e.target) == (schedule[i], schedule[j]);
      EdgeObeyed(p, profiles, hash, schedule, e);
    }
  }

  lemma EdgeObeyed(p: Plan, profiles: Profiles, hash: Hash, schedule: seq<Id>, e: Edge)
    requires ValidPlan(p, profiles, hash) && Obeys(schedule, p.steps, NodeIds(p.analysis.graph)) && e in p.analysis.graph.edges
    ensures Precedes(schedule, e.source, e.target)
  {
    hide ValidPlan, Precedes;
    var g, rep := p.analysis.graph, p.grouping.rep;
    PlanClasses(p, profiles, hash);
    var k :| StepAt(p.steps, k, rep[e.source]);
    var l :| StepAt(p.steps, l, rep[e.target]);
    var t, s := p.steps[k], p.steps[l];
    assert ClassOf(t, rep) && ClassOf(s, rep);
    if rep[e.source] == rep[e.target] {
      var i, j := EdgeInStep(p, profiles, hash, e, s);
      assert Precedes(schedule, s.members[i], s.members[j]);
    } else {
      assert ReadsFrom(g.edges, s, t) && Supplies(g.edges, p.steps, s, t.nodeId, t);
      StepNeighbours(p, profiles, hash, s, t.nodeId);
      assert t.nodeId in s.dependencies;
      assert Precedes(schedule, e.source, e.target);
    }
  }

  /** An edge between two members of one step runs from an earlier to a later one. */
  lemma EdgeInStep(p: Plan, profiles: Profiles, hash: Hash, e: Edge, s: ExecutionStep) returns (i: nat, j: nat)
    requires ValidPlan(p, profiles, hash) && e in p.analysis.graph.edges && s in p.steps
    requires e.source in s.members && e.target in s.members
    ensures i < j < |s.members| && s.members[i] == e.source && s.members[j] == e.target
  {
    hide ValidPlan, UnitsAreSteps, NextMap;
    var g, rep, chains := p.analysis.graph, p.grouping.rep, MembersOf(p.analysis.units);
    PlanClasses(p, profiles, hash);
    var k :| 0 <= k < |p.steps| && p.steps[k] == s;
    assert ClassOf(s, rep);
    PlanContraction(p, profiles, hash);
    InternalEdge(NodeIds(g), g.edges, NextMap(g, profiles), chains, rep, e);
    var u, a, b :| InChain(chains, u, a, e.source) && InChain(chains, u, b, e.target) && a < b;
    var w :| UnitOfStep(s, p.analysis, hash, w);
    assert chains[u][0] == rep[e.source] == s.nodeId == chains[w][0];
    SameHead(chains, u, w);
    i, j := a, b;
  }

  lemma PlanContraction(p: Plan, profiles: Profiles, hash: Hash)
    requires ValidPlan(p, profiles, hash)
    ensures Acyclic(Arcs(p.analysis.graph.edges)) && WellFormed(p.analysis.graph)
    ensures Contracted(NodeIds(p.analysis.graph), p.analysis.graph.edges, NextMap(p.analysis.graph, profiles),
                       MembersOf(p.analysis.units), p.grouping.rep)
  {
    hide StepsFor, UnitsCertified, ConstantsOf, KeysOf, NextMap, Contracted, WellFormed, Acyclic;
  }

  /** Running the steps in any order in which each comes after the steps it depends on computes
      every output of the graph that was compiled, calls included. */
  lemma StepsComputeGraph(p: Plan, profiles: Profiles, hash: Hash, d: Derivation, g: Graph, registry: Registry,
                          sem: Sem, ext: Env, v: Valuation, schedule: seq<Id>)
    requires ValidPlan(p, profiles, hash) && Derives(d, g, registry, p.analysis.graph)
    requires SoundGraph(g, registry) && SoundRegistry(registry) && Interprets(sem, registry) && Solves(g, sem, ext, v)
    requires Obeys(schedule, p.steps, NodeIds(p.analysis.graph))
    ensures OutputsOf(p.analysis.graph, Run(p.analysis.graph, sem, ext, schedule)) == OutputsOf(g, v)
  {
    hide ValidPlan, Derives, SoundGraph, SoundRegistry, Interprets, Obeys, WellFormed, Acyclic, TopologicalOrder, Solves, Contracted;
    var x := p.analysis.graph;
    PlanContraction(p, profiles, hash);
    var u := ExpansionPreservesMeaning(d, g, registry, x, sem, ext, v);
    ObeyingIsTopological(p, profiles, hash, schedule);
    RunSolves(x, sem, ext, schedule);
    SolutionUnique(x, sem, ext, Run(x, sem, ext, schedule), u);
  }
}
