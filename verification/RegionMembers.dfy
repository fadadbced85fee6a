/** Which steps belong to which part of a control region, which region lies in which, and how a
    loop is bounded, said of the stored graph and the steps of a finished compilation
    (src/comfyng/graph/compiler.py:1056-1311). */
module RegionMembers {
  import opened Ids
  import opened Layering
  import opened Graphs
  import opened Topology
  import opened CriticalPath
  import opened Reachability
  import opened Fusion
  import opened Contraction
  import opened CacheKeys
  import opened Validation
  import opened Acceptance
  import opened Expansion
  import opened Expand
  import opened Compile
  import opened PlanTheorems
  import opened PlanSteps
  import opened ControlRegions
  import opened ControlNesting
  import opened ControlPlan
  import opened LoopNesting
  import opened FullCompile

  // ----- The reading -----

  /** A walk along stored edges, possibly of one node. */
  ghost predicate WalksTo(edges: seq<Edge>, a: Id, b: Id)
  {
    exists p :: WalkBetween(edges, p, a, b)
  }

  ghost predicate WalkBetween(edges: seq<Edge>, p: seq<Id>, a: Id, b: Id)
  {
    Walk(edges, p) && p[0] == a && p[|p| - 1] == b
  }

  /** A walk to the source of a stored edge into this port. */
  ghost predicate FeedsPort(edges: seq<Edge>, n: Id, target: Id, port: string)
  {
    exists e :: e in edges && e.target == target && e.targetPort == port && WalksTo(edges, n, e.source)
  }

  /** A walk from the target of a stored edge out of `a`. */
  ghost predicate After(edges: seq<Edge>, a: Id, n: Id)
  {
    exists e :: e in edges && e.source == a && WalksTo(edges, e.target, n)
  }

  ghost predicate OfType(x: Graph, id: Id, typeId: string)
  {
    exists n :: n in x.nodes && n.id == id && n.typeId == typeId
  }

  /** The loop's collect nodes, its body before them, and what computes its items. */
  ghost predicate BoundaryNode(x: Graph, loop: Id, n: Id)
  {
    After(x.edges, loop, n) && OfType(x, n, "ng.control.collect")
  }

  ghost predicate BodyNode(x: Graph, loop: Id, n: Id)
  {
    && n != loop && After(x.edges, loop, n) && !OfType(x, n, "ng.control.collect")
    && exists c :: BoundaryNode(x, loop, c) && After(x.edges, n, c)
  }

  ghost predicate ItemsNode(x: Graph, loop: Id, n: Id)
  {
    n != loop && FeedsPort(x.edges, n, loop, "items")
  }

  /** What computes the value at a switch's port and neither the other value nor the condition. A
      loop around the switch is left out. */
  ghost predicate BranchNode(x: Graph, switch: Id, port: string, n: Id)
  {
    && FeedsPort(x.edges, n, switch, port)
    && !(FeedsPort(x.edges, n, switch, "false_value") && FeedsPort(x.edges, n, switch, "true_value"))
    && !FeedsPort(x.edges, n, switch, "condition")
    && n != switch && !(OfType(x, n, "ng.control.for_each") && BodyNode(x, n, switch))
  }

  // ----- It is what the closures compute -----

  lemma WalksToIsLeads(edges: seq<Edge>, a: Id, b: Id)
    ensures WalksTo(edges, a, b) <==> Leads(a, b, Arcs(edges))
  {
    if p :| WalkBetween(edges, p, a, b) {
      WalkIsPath(edges, p);
      assert Joins(p, a, b, Arcs(edges));
    }
    if p :| Joins(p, a, b, Arcs(edges)) {
      WalkIsPath(edges, p);
      assert WalkBetween(edges, p, a, b);
    }
  }

  lemma FeedsPortIff(edges: seq<Edge>, n: Id, target: Id, port: string)
    ensures FeedsPort(edges, n, target, port) <==> LeadsInto(n, PortSources(edges, target, port), Arcs(edges))
  {
    hide WalksTo, Leads;
    forall s
      ensures WalksTo(edges, n, s) <==> Leads(n, s, Arcs(edges))
    {
      WalksToIsLeads(edges, n, s);
    }
    if e :| e in edges && e.target == target && e.targetPort == port && WalksTo(edges, n, e.source) {
      assert e.source in PortSources(edges, target, port);
    }
  }

  lemma AfterIff(edges: seq<Edge>, a: Id, n: Id)
    ensures After(edges, a, n) <==> Below(a, n, Arcs(edges))
  {
    hide WalksTo, Leads;
    forall t
      ensures WalksTo(edges, t, n) <==> Leads(t, n, Arcs(edges))
    {
      WalksToIsLeads(edges, t, n);
    }
    if e :| e in edges && e.source == a && WalksTo(edges, e.target, n) {
      assert (a, e.target) in Arcs(edges);
    }
    if t :| (a, t) in Arcs(edges) && Leads(t, n, Arcs(edges)) {
      var e :| e in edges && (e.source, e.target) == (a, t);
    }
  }

  lemma OfTypeIff(x: Graph, id: Id, typeId: string)
    requires WellFormed(x) && typeId != ""
    ensures OfType(x, id, typeId) <==> TypeAt(NodeTable(x.nodes), id) == typeId
  {
    if n :| n in x.nodes && n.id == id && n.typeId == typeId {
      UniqueNode(x, n, NodeTable(x.nodes)[id]);
    }
  }

  lemma BoundaryIff(x: Graph, loop: Id, n: Id)
    requires WellFormed(x)
    ensures BoundaryNode(x, loop, n) <==> IsBoundary(x, loop, n)
  {
    AfterIff(x.edges, loop, n);
    OfTypeIff(x, n, "ng.control.collect");
  }

  lemma BodyIff(x: Graph, loop: Id, raw: RawLoop, n: Id)
    requires WellFormed(x) && LoopSets(x, loop, raw)
    ensures n in raw.body <==> BodyNode(x, loop, n)
  {
    hide NodeTable, After, Below, LeadsInto, SourcesOf, OfType, IsBoundary, BoundaryNode;
    AfterIff(x.edges, loop, n);
    BoundaryIff(x, loop, n);
    BoundaryAfter(x, loop, n);
    assert n in raw.body <==> InBody(x, loop, raw.boundaries, n);
    if n in raw.body {
      var c :| c in raw.boundaries && LeadsInto(n, SourcesOf(x.edges, c), Arcs(x.edges));
      BoundaryIff(x, loop, c);
      SourcesAreArcs(x, c, "");
      AboveTarget(x, n, c, SourcesOf(x.edges, c));
      AfterIff(x.edges, n, c);
    }
    if BodyNode(x, loop, n) {
      var c :| BoundaryNode(x, loop, c) && After(x.edges, n, c);
      BoundaryIff(x, loop, c);
      BoundaryAfter(x, loop, c);
      AfterIff(x.edges, n, c);
      LeadsIntoSources(x, n, c);
    }
  }

  lemma BoundaryAfter(x: Graph, loop: Id, n: Id)
    ensures BoundaryNode(x, loop, n) <==> After(x.edges, loop, n) && OfType(x, n, "ng.control.collect")
  {
  }

  lemma ItemsIff(x: Graph, loop: Id, raw: RawLoop, n: Id)
    requires LoopSets(x, loop, raw)
    ensures n in raw.iterable <==> ItemsNode(x, loop, n)
  {
    FeedsPortIff(x.edges, n, loop, "items");
    assert n in raw.iterable <==> InIterable(x, loop, n);
  }

  lemma BranchIff(x: Graph, loops: map<Id, RawLoop>, id: Id, name: string, n: Id)
    requires WellFormed(x) && LoopsOf(x, loops)
    ensures InBranch(x, loops, id, name, n) <==> BranchNode(x, id, name, n)
  {
    hide LoopSets, FeedsPort, LeadsInto, BodyNode, OfType, TypeAt;
    FeedsPortIff(x.edges, n, id, name);
    FeedsPortIff(x.edges, n, id, "false_value");
    FeedsPortIff(x.edges, n, id, "true_value");
    FeedsPortIff(x.edges, n, id, "condition");
    OfTypeIff(x, n, "ng.control.for_each");
    if n in loops {
      BodyIff(x, n, loops[n], id);
    }
  }

  // ----- Steps of node sets -----

  /** Some member of the step is in the set. */
  ghost predicate Meets(s: ExecutionStep, nodes: set<Id>)
  {
    exists n :: n in s.members && n in nodes
  }

  lemma StepOfSet(steps: seq<ExecutionStep>, rep: map<Id, Id>, nodes: set<Id>, s: ExecutionStep)
    requires ListsHeads(steps, rep) && Classes(steps, rep) && s in steps
    ensures s.nodeId in InSteps(steps, RepsOf(nodes, rep)) <==> Meets(s, nodes)
  {
    hide ListsHeads, Classes;
    StepsOfReps(steps, rep, nodes);
    MembersMapped(steps, rep, s);
    assert s.nodeId in InSteps(steps, RepsOf(nodes, rep)) <==> s.nodeId in Elements(InSteps(steps, RepsOf(nodes, rep)));
  }

  ghost predicate IsStep(steps: seq<ExecutionStep>, id: Id)
  {
    exists s :: s in steps && s.nodeId == id
  }

  /** The ids name steps, in the order of the plan. */
  ghost predicate InPlanOrder(ids: seq<Id>, steps: seq<ExecutionStep>)
  {
    && (forall id :: id in ids ==> IsStep(steps, id))
    && (forall i, j, k, l :: 0 <= i < j < |ids| && StepAt(steps, k, ids[i]) && StepAt(steps, l, ids[j]) ==> k < l)
  }

  lemma {:induction false} InStepsOrdered(steps: seq<ExecutionStep>, reps: set<Id>)
    requires forall k, l :: 0 <= k < l < |steps| ==> steps[k].nodeId != steps[l].nodeId
    ensures InPlanOrder(InSteps(steps, reps), steps)
  {
    if steps != [] {
      var init, last := steps[..|steps| - 1], steps[|steps| - 1];
      var before, ids := InSteps(init, reps), InSteps(steps, reps);
      InStepsOrdered(init, reps);
      forall id | id in ids
        ensures IsStep(steps, id)
      {
        InStepsMembers(steps, reps, id);
        var k :| StepAt(steps, k, id);
      }
      forall i, j, k, l | 0 <= i < j < |ids| && StepAt(steps, k, ids[i]) && StepAt(steps, l, ids[j])
        ensures k < l
      {
        assert ids[i] == before[i] && before[i] in before;
        InStepsMembers(init, reps, before[i]);
        var k' :| StepAt(init, k', ids[i]);
        assert StepAt(steps, k', ids[i]) && k == k';
        if j < |before| {
          assert before[j] in before;
          InStepsMembers(init, reps, before[j]);
          var l' :| StepAt(init, l', ids[j]);
          assert StepAt(steps, l', ids[j]) && l == l';
        }
      }
    }
  }

  // ----- The regions of a finished compilation -----

  /** A region comes from a draft, over the steps and the loops of the plan. */
  ghost predicate Drawn(x: Graph, loops: map<Id, RawLoop>, steps: seq<ExecutionStep>, rep: map<Id, Id>, next: map<Id, Id>,
                        chains: seq<seq<Id>>, r: Region)
  {
    && Setting(x, next, chains, rep, steps) && LoopsOf(x, loops)
    && DraftFor(x, loops, steps, rep, r.(parent := None, depth := 0))
  }

  lemma RegionIsDrawn(r: FullResult, w: Phases, g: Graph, registry: Registry, maxDepth: nat, rules: Rules, profiles: Profiles, hash: Hash,
                      region: Region)
    requires Outcome(r, w, g, registry, maxDepth, rules, profiles, hash) && r.Finished? && region in r.full.regions
    ensures r.full.plan == w.plan && w.plan.analysis.graph == w.x
    ensures Drawn(w.x, w.loops, w.plan.steps, w.plan.grouping.rep, NextMap(w.x, profiles), MembersOf(w.plan.analysis.units), region)
  {
    hide Runs, Accepted, ValidPlan, LoopsOf, ParentsFor, SomeMalformed, Cyclic, RegionsClash, FailsAt, Levelled, GroupsFor, Setting, DraftFor;
    PlanSetting(w.plan, profiles, hash);
    var i :| 0 <= i < |r.full.regions| && r.full.regions[i] == region;
    assert w.drafts[i] in w.drafts;
    DraftIsRoot(w.x, w.loops, w.plan.steps, w.plan.grouping.rep, w.drafts[i]);
    assert region.(parent := None, depth := 0) == w.drafts[i];
  }

  lemma DraftIsRoot(x: Graph, loops: map<Id, RawLoop>, steps: seq<ExecutionStep>, rep: map<Id, Id>, d: Region)
    requires DraftFor(x, loops, steps, rep, d)
    ensures d.parent == None && d.depth == 0
  {
  }

  ghost predicate SomeInBranch(x: Graph, id: Id, name: string, s: ExecutionStep)
  {
    exists n :: n in s.members && BranchNode(x, id, name, n)
  }

  lemma DrawnBranch(x: Graph, loops: map<Id, RawLoop>, steps: seq<ExecutionStep>, rep: map<Id, Id>, next: map<Id, Id>,
                    chains: seq<seq<Id>>, r: Region, b: Branch) returns (nodes: set<Id>)
    requires Drawn(x, loops, steps, rep, next, chains, r) && b in r.branches
    ensures forall n :: n in nodes <==> BranchNode(x, r.controller, b.name, n)
    ensures b.members == InSteps(steps, RepsOf(nodes, rep)) && Saturated(nodes, next)
    ensures b.entries == EntriesOf(b.members, b.members, StepTable(steps))
    ensures b.exits == ExitsOf(b.members, b.members, StepTable(steps))
  {
    hide LoopsOf, BranchNode, InBranch, Saturated, InSteps, RepsOf, Classes, ListsHeads, DependenciesAgree, Acyclic;
    assert BranchFor(x, loops, steps, rep, r.controller, b);
    nodes :| BranchNodes(x, loops, r.controller, b.name, nodes) && b.members == InSteps(steps, RepsOf(nodes, rep));
    forall n
      ensures n in nodes <==> BranchNode(x, r.controller, b.name, n)
    {
      BranchIff(x, loops, r.controller, b.name, n);
    }
    ControlsApart(x, loops, steps, rep, next, chains, r.controller);
    BranchSaturated(x, loops, r.controller, b.name, next, nodes);
  }

  lemma ControlsApart(x: Graph, loops: map<Id, RawLoop>, steps: seq<ExecutionStep>, rep: map<Id, Id>, next: map<Id, Id>,
                      chains: seq<seq<Id>>, id: Id)
    requires Setting(x, next, chains, rep, steps) && LoopsOf(x, loops)
    requires id in NodeTable(x.nodes) && IsControl(NodeTable(x.nodes)[id])
    ensures Unlinked(id, next) && LoopsUnlinked(loops, next) && LinksAlone(x.edges, next)
  {
    hide LoopSets, Classes, ListsHeads, DependenciesAgree, Acyclic, Unlinked;
    forall l | l in loops
      ensures Unlinked(l, next)
    {
      assert IsControl(NodeTable(x.nodes)[l]);
    }
  }

  /** A branch holds exactly the steps of its nodes, none of them cut in two, in plan order. Its
      entries are the members that depend on no member, its exits those on which none depends. */
  lemma BranchMembers(r: FullResult, w: Phases, g: Graph, registry: Registry, maxDepth: nat, rules: Rules, profiles: Profiles, hash: Hash,
                      region: Region, b: Branch, s: ExecutionStep)
    requires Outcome(r, w, g, registry, maxDepth, rules, profiles, hash) && r.Finished?
    requires region in r.full.regions && b in region.branches && s in r.full.plan.steps
    ensures s.nodeId in b.members <==> SomeInBranch(r.full.plan.analysis.graph, region.controller, b.name, s)
    ensures s.nodeId in b.members <==> forall n :: n in s.members ==> BranchNode(r.full.plan.analysis.graph, region.controller, b.name, n)
    ensures InPlanOrder(b.members, r.full.plan.steps)
    ensures s.nodeId in b.entries <==> s.nodeId in b.members && forall d :: d in s.dependencies ==> d !in b.members
    ensures s.nodeId in b.exits <==> s.nodeId in b.members && forall d :: d in s.dependents ==> d !in b.members
  {
    hide Outcome, BranchNode, InSteps, RepsOf, LoopsOf, DraftFor;
    RegionIsDrawn(r, w, g, registry, maxDepth, rules, profiles, hash, region);
    var x, steps, rep, next, chains := w.x, w.plan.steps, w.plan.grouping.rep, NextMap(w.x, profiles), MembersOf(w.plan.analysis.units);
    var nodes := DrawnBranch(x, w.loops, steps, rep, next, chains, region, b);
    SettingLists(x, next, chains, rep, steps);
    StepOfSet(steps, rep, nodes, s);
    InStepsOrdered(steps, RepsOf(nodes, rep));
    StepWhole(steps, rep, next, chains, nodes, s);
    TableHolds(steps, rep, s);
  }

  lemma SettingLists(x: Graph, next: map<Id, Id>, chains: seq<seq<Id>>, rep: map<Id, Id>, steps: seq<ExecutionStep>)
    requires Setting(x, next, chains, rep, steps)
    ensures ListsHeads(steps, rep) && Classes(steps, rep)
    ensures WholeChains(chains, next) && Distinct(Flatten(chains)) && Represents(rep, chains)
    ensures forall k, l :: 0 <= k < l < |steps| ==> steps[k].nodeId != steps[l].nodeId
  {
  }

  lemma TableHolds(steps: seq<ExecutionStep>, rep: map<Id, Id>, s: ExecutionStep)
    requires ListsHeads(steps, rep) && s in steps
    ensures s.nodeId in StepTable(steps) && StepTable(steps)[s.nodeId] == s
  {
    var k :| 0 <= k < |steps| && steps[k] == s;
    TableAgrees(steps, rep, k);
  }

  /** A set that links do not tear apart has all members of a step or none. */
  lemma StepWhole(steps: seq<ExecutionStep>, rep: map<Id, Id>, next: map<Id, Id>, chains: seq<seq<Id>>, nodes: set<Id>, s: ExecutionStep)
    requires ListsHeads(steps, rep) && Classes(steps, rep) && s in steps && Saturated(nodes, next)
    requires WholeChains(chains, next) && Distinct(Flatten(chains)) && Represents(rep, chains)
    ensures Meets(s, nodes) <==> forall n :: n in s.members ==> n in nodes
  {
    hide Saturated, WholeChains, Represents, ListsHeads;
    MembersMapped(steps, rep, s);
    var k :| 0 <= k < |steps| && steps[k] == s;
    assert ClassOf(steps[k], rep);
    assert s.members[0] in s.members;
    if m :| m in s.members && m in nodes {
      forall n | n in s.members
        ensures n in nodes
      {
        SaturatedClass(nodes, chains, next, rep, m, n);
      }
    }
  }

  ghost predicate SomeInIterable(x: Graph, id: Id, s: ExecutionStep)
  {
    exists n :: n in s.members && ItemsNode(x, id, n)
  }

  ghost predicate SomeInBody(x: Graph, id: Id, s: ExecutionStep)
  {
    exists n :: n in s.members && BodyNode(x, id, n)
  }

  ghost predicate SomeInBoundary(x: Graph, id: Id, s: ExecutionStep)
  {
    exists n :: n in s.members && BoundaryNode(x, id, n)
  }

  lemma DrawnLoop(x: Graph, loops: map<Id, RawLoop>, steps: seq<ExecutionStep>, rep: map<Id, Id>, next: map<Id, Id>,
                  chains: seq<seq<Id>>, r: Region) returns (raw: RawLoop)
    requires Drawn(x, loops, steps, rep, next, chains, r) && r.isLoop
    ensures forall n :: n in raw.iterable <==> ItemsNode(x, r.controller, n)
    ensures forall n :: n in raw.body <==> BodyNode(x, r.controller, n)
    ensures forall n :: n in raw.boundaries <==> BoundaryNode(x, r.controller, n)
    ensures r.iterable == InSteps(steps, RepsOf(raw.iterable, rep)) && r.body == InSteps(steps, RepsOf(raw.body, rep))
    ensures r.boundary == InSteps(steps, RepsOf(raw.boundaries, rep))
  {
    hide InSteps, RepsOf, Classes, ListsHeads, DependenciesAgree, Acyclic, ItemsNode, BodyNode, BoundaryNode, InBody, InIterable, IsBoundary;
    raw := loops[r.controller];
    forall n
      ensures n in raw.iterable <==> ItemsNode(x, r.controller, n)
      ensures n in raw.body <==> BodyNode(x, r.controller, n)
      ensures n in raw.boundaries <==> BoundaryNode(x, r.controller, n)
    {
      ItemsIff(x, r.controller, raw, n);
      BodyIff(x, r.controller, raw, n);
      BoundaryIff(x, r.controller, n);
    }
  }

  /** A loop's iterable, body and boundary hold exactly the steps of their nodes, in plan order. */
  lemma LoopMembers(r: FullResult, w: Phases, g: Graph, registry: Registry, maxDepth: nat, rules: Rules, profiles: Profiles, hash: Hash,
                    region: Region, s: ExecutionStep)
    requires Outcome(r, w, g, registry, maxDepth, rules, profiles, hash) && r.Finished?
    requires region in r.full.regions && region.isLoop && s in r.full.plan.steps
    ensures s.nodeId in region.iterable <==> SomeInIterable(r.full.plan.analysis.graph, region.controller, s)
    ensures s.nodeId in region.body <==> SomeInBody(r.full.plan.analysis.graph, region.controller, s)
    ensures s.nodeId in region.boundary <==> SomeInBoundary(r.full.plan.analysis.graph, region.controller, s)
    ensures InPlanOrder(region.iterable, r.full.plan.steps) && InPlanOrder(region.body, r.full.plan.steps)
    ensures InPlanOrder(region.boundary, r.full.plan.steps)
  {
    hide Outcome, BodyNode, ItemsNode, BoundaryNode, InSteps, RepsOf, LoopsOf, DraftFor, InPlanOrder;
    RegionIsDrawn(r, w, g, registry, maxDepth, rules, profiles, hash, region);
    var x, steps, rep, next, chains := w.x, w.plan.steps, w.plan.grouping.rep, NextMap(w.x, profiles), MembersOf(w.plan.analysis.units);
    var raw := DrawnLoop(x, w.loops, steps, rep, next, chains, region);
    SettingLists(x, next, chains, rep, steps);
    StepOfSet(steps, rep, raw.iterable, s);
    StepOfSet(steps, rep, raw.body, s);
    StepOfSet(steps, rep, raw.boundaries, s);
    InStepsOrdered(steps, RepsOf(raw.iterable, rep));
    InStepsOrdered(steps, RepsOf(raw.body, rep));
    InStepsOrdered(steps, RepsOf(raw.boundaries, rep));
  }

  // ----- Controllers -----

  /** The region is of its controller's kind: a condition with one branch a value, or a loop that
      carries the bound its node declares. */
  ghost predicate FitsController(x: Graph, r: Region, n: Node)
  {
    && n in x.nodes && n.id == r.controller
    && (r.isLoop ==> n.typeId == "ng.control.for_each" && r.branches == [])
    && (r.isLoop && "items" in n.inputs && n.inputs["items"].Arr? ==> r.bound == Some(|n.inputs["items"].items|))
    && (r.isLoop && !("items" in n.inputs && n.inputs["items"].Arr?) ==>
          "max_iterations" in n.metadata && n.metadata["max_iterations"].Num? && r.bound == Some(n.metadata["max_iterations"].number))
    && (!r.isLoop ==>
          && n.typeId == "ng.control.switch" && |r.branches| == 2 && r.branches[0].name == "false_value" && r.branches[1].name == "true_value"
          && r.iterable == [] && r.body == [] && r.boundary == [] && r.bound == None)
  }

  lemma DrawnFits(x: Graph, rules: Rules, loops: map<Id, RawLoop>, steps: seq<ExecutionStep>, rep: map<Id, Id>, next: map<Id, Id>,
                  chains: seq<seq<Id>>, r: Region)
    requires Drawn(x, loops, steps, rep, next, chains, r) && Accepted(x, rules)
    ensures r.controller in NodeTable(x.nodes) && FitsController(x, r, NodeTable(x.nodes)[r.controller])
  {
    hide Setting, LoopsOf, BranchFor, InSteps, Accepted;
    var n := NodeTable(x.nodes)[r.controller];
    if r.isLoop {
      AcceptedLoop(x, rules, n);
    }
  }

  /** Every control node has exactly one region, of its kind, and nothing else has one. */
  lemma RegionPerControlNode(r: FullResult, w: Phases, g: Graph, registry: Registry, maxDepth: nat, rules: Rules, profiles: Profiles,
                             hash: Hash, n: Node)
    requires Outcome(r, w, g, registry, maxDepth, rules, profiles, hash) && r.Finished? && n in r.full.plan.analysis.graph.nodes
    ensures n.typeId == "ng.control.for_each" || n.typeId == "ng.control.switch" <==>
            exists region :: region in r.full.regions && region.controller == n.id
    ensures forall region :: region in r.full.regions && region.controller == n.id ==>
              FitsController(r.full.plan.analysis.graph, region, n)
    ensures forall i, j :: 0 <= i < j < |r.full.regions| ==> r.full.regions[i].controller != r.full.regions[j].controller
  {
    hide Runs, Accepted, ValidPlan, LoopsOf, ParentsFor, SomeMalformed, Cyclic, RegionsClash, FailsAt, Levelled, GroupsFor, Setting,
         DraftFor, FitsController, NodeTable, HasController;
    PlanSetting(w.plan, profiles, hash);
    DraftsMatch(w.x, NextMap(w.x, profiles), MembersOf(w.plan.analysis.units), w.plan.grouping.rep, w.plan.steps, w.loops, w.drafts,
                r.full.regions);
    SettingFormed(w, profiles, hash);
    UniqueNode(w.x, n, NodeTable(w.x.nodes)[n.id]);
    if IsControl(n) {
      RegionFound(w.x, r.full.regions, n.id);
    }
    forall region | region in r.full.regions && region.controller == n.id
      ensures FitsController(w.x, region, n) && IsControl(n)
    {
      RegionIsDrawn(r, w, g, registry, maxDepth, rules, profiles, hash, region);
      DrawnFits(w.x, rules, w.loops, w.plan.steps, w.plan.grouping.rep, NextMap(w.x, profiles), MembersOf(w.plan.analysis.units), region);
    }
  }

  lemma SettingFormed(w: Phases, profiles: Profiles, hash: Hash)
    requires Planned(w, profiles, hash)
    ensures WellFormed(w.x)
  {
  }

  lemma RegionFound(x: Graph, regions: seq<Region>, id: Id)
    requires RegionsMatch(x, regions) && id in NodeTable(x.nodes) && IsControl(NodeTable(x.nodes)[id])
    ensures exists region :: region in regions && region.controller == id
  {
    assert HasController(regions, id);
  }

  lemma {:induction false} HeadsAreSteps(nodes: map<Id, Node>, steps: seq<ExecutionStep>, heads: set<Id>)
    requires forall s :: s in steps ==> (IsControlStep(nodes, s) <==> s.nodeId in heads)
    ensures ControlHeads(nodes, steps) == InSteps(steps, heads)
  {
    if steps != [] {
      HeadsAreSteps(nodes, steps[..|steps| - 1], heads);
    }
  }

  /** The regions come in the order of their controllers' steps. */
  lemma RegionsInPlanOrder(r: FullResult, w: Phases, g: Graph, registry: Registry, maxDepth: nat, rules: Rules, profiles: Profiles, hash: Hash)
    requires Outcome(r, w, g, registry, maxDepth, rules, profiles, hash) && r.Finished?
    ensures InPlanOrder(ControllersOf(r.full.regions), r.full.plan.steps)
  {
    hide Runs, Accepted, ValidPlan, LoopsOf, ParentsFor, SomeMalformed, Cyclic, RegionsClash, FailsAt, GroupsFor, DraftFor, Levelled,
         InPlanOrder, IsControlStep, Setting, ControlHeads;
    PlanSetting(w.plan, profiles, hash);
    SettingLists(w.x, NextMap(w.x, profiles), MembersOf(w.plan.analysis.units), w.plan.grouping.rep, w.plan.steps);
    SameControllers(w.drafts, r.full.regions, NodeTable(w.x.nodes), w.plan.steps);
    HeadsOrdered(NodeTable(w.x.nodes), w.plan.steps);
  }

  lemma HeadsOrdered(nodes: map<Id, Node>, steps: seq<ExecutionStep>)
    requires forall k, l :: 0 <= k < l < |steps| ==> steps[k].nodeId != steps[l].nodeId
    ensures InPlanOrder(ControlHeads(nodes, steps), steps)
  {
    hide IsControlStep, InPlanOrder;
    var heads := set s | s in steps && IsControlStep(nodes, s) :: s.nodeId;
    HeadsAreSteps(nodes, steps, heads);
    InStepsOrdered(steps, heads);
  }

  // ----- Nesting -----

  /** The steps that a region lists. */
  predicate Lists(r: Region, id: Id)
  {
    || id in r.iterable || id in r.body || id in r.boundary
    || exists b :: b in r.branches && id in b.members
  }

  /** How many different steps a region lists. */
  function Size(steps: seq<ExecutionStep>, r: Region): nat
  {
    |set s | s in steps && Lists(r, s.nodeId) :: s.nodeId|
  }

  /** Another region lists this region's controller. */
  predicate Encloses(q: Region, r: Region)
  {
    q.controller != r.controller && Lists(q, r.controller)
  }

  /** The smallest enclosing region, and of several of one size the first in plan order. */
  ghost predicate TightestAround(steps: seq<ExecutionStep>, regions: seq<Region>, j: int, r: Region)
  {
    && 0 <= j < |regions| && Encloses(regions[j], r)
    && forall k :: 0 <= k < |regions| && Encloses(regions[k], r) ==>
         Size(steps, regions[j]) < Size(steps, regions[k]) || (Size(steps, regions[j]) == Size(steps, regions[k]) && j <= k)
  }

  lemma ListsIffInSteps(r: Region, id: Id)
    ensures Lists(r, id) <==> id in StepsOfRegion(r)
  {
  }

  lemma SizeCounts(x: Graph, steps: seq<ExecutionStep>, r: Region)
    requires RegionFits(x, steps, r)
    ensures Size(steps, r) == |StepsOfRegion(r)|
  {
    hide Lists, StepsOfRegion;
    var listed := set s | s in steps && Lists(r, s.nodeId) :: s.nodeId;
    forall id
      ensures id in listed <==> id in StepsOfRegion(r)
    {
      ListsIffInSteps(r, id);
      if id in StepsOfRegion(r) {
        var k :| StepAt(steps, k, id);
        assert steps[k] in steps && Lists(r, steps[k].nodeId);
      }
    }
    assert listed == StepsOfRegion(r);
  }

  lemma EnclosesIffOwns(drafts: seq<Region>, regions: seq<Region>, j: nat, i: nat)
    requires Settled(drafts, regions) && i < |drafts| && j < |drafts|
    ensures Owns(ClaimsOf(drafts), j, i) <==> Encloses(regions[j], regions[i])
  {
    hide Lists, StepsOfRegion;
    SameSteps(drafts[j], regions[j]);
    ListsIffInSteps(regions[j], regions[i].controller);
  }

  lemma InnermostIsTightest(x: Graph, steps: seq<ExecutionStep>, drafts: seq<Region>, regions: seq<Region>, i: nat, choice: Option<nat>)
    requires Settled(drafts, regions) && i < |drafts| && Innermost(ClaimsOf(drafts), i, choice)
    requires forall r :: r in regions ==> RegionFits(x, steps, r)
    ensures choice.None? ==> forall q :: q in regions ==> !Encloses(q, regions[i])
    ensures choice.Some? ==> TightestAround(steps, regions, choice.value, regions[i])
  {
    hide Encloses, StepsOfRegion, Size, RegionFits;
    var claims := ClaimsOf(drafts);
    forall j | 0 <= j < |regions|
      ensures Owns(claims, j, i) <==> Encloses(regions[j], regions[i])
      ensures |claims[j].members| == Size(steps, regions[j])
    {
      EnclosesIffOwns(drafts, regions, j, i);
      SameSteps(drafts[j], regions[j]);
      SizeCounts(x, steps, regions[j]);
    }
  }

  /** A region has no parent exactly when no region encloses it. Otherwise its parent is the
      tightest region around it, and lies one level above. */
  lemma ParentsAreTightest(r: FullResult, w: Phases, g: Graph, registry: Registry, maxDepth: nat, rules: Rules, profiles: Profiles,
                           hash: Hash, i: nat)
    requires Outcome(r, w, g, registry, maxDepth, rules, profiles, hash) && r.Finished? && i < |r.full.regions|
    ensures r.full.regions[i].parent == None <==> forall q :: q in r.full.regions ==> !Encloses(q, r.full.regions[i])
    ensures r.full.regions[i].parent == None ==> r.full.regions[i].depth == 0
    ensures r.full.regions[i].parent != None ==>
              exists j :: && TightestAround(r.full.plan.steps, r.full.regions, j, r.full.regions[i])
                          && r.full.regions[i].parent == Some(r.full.regions[j].controller)
                          && r.full.regions[i].depth == r.full.regions[j].depth + 1
  {
    hide Runs, Accepted, ValidPlan, LoopsOf, SomeMalformed, Cyclic, RegionsClash, FailsAt, GroupsFor, DraftFor,
         Encloses, RegionFits, TightestAround, ControlHeads, ParentsFor, Levelled, Settled;
    var regions := r.full.regions;
    AllFit(w.x, w.loops, w.plan.steps, w.plan.grouping.rep, w.drafts, regions);
    SameDistinct(w.drafts, regions);
    var choice := PlacedInside(w.x, w.plan.steps, w.drafts, regions, w.owner, i);
  }

  lemma SameDistinct(drafts: seq<Region>, regions: seq<Region>)
    requires Settled(drafts, regions)
    requires forall i, j :: 0 <= i < j < |drafts| ==> drafts[i].controller != drafts[j].controller
    ensures forall i, j :: 0 <= i < j < |regions| ==> regions[i].controller != regions[j].controller
  {
  }

  lemma PlacedInside(x: Graph, steps: seq<ExecutionStep>, drafts: seq<Region>, regions: seq<Region>, owner: map<Id, Option<Id>>, i: nat)
    returns (choice: Option<nat>)
    requires ParentsFor(ClaimsOf(drafts), owner) && Settled(drafts, regions) && i < |regions| && Levelled(regions)
    requires forall r :: r in regions ==> RegionFits(x, steps, r)
    requires forall r :: r in regions ==> r.controller in owner && r.parent == owner[r.controller]
    requires forall k, j :: 0 <= k < j < |regions| ==> regions[k].controller != regions[j].controller
    ensures regions[i].parent == None <==> forall q :: q in regions ==> !Encloses(q, regions[i])
    ensures regions[i].parent == None ==> regions[i].depth == 0
    ensures choice.Some? <==> regions[i].parent != None
    ensures choice.Some? ==> TightestAround(steps, regions, choice.value, regions[i])
                             && regions[i].parent == Some(regions[choice.value].controller)
                             && regions[i].depth == regions[choice.value].depth + 1
  {
    hide Encloses, RegionFits, TightestAround, ParentsFor, Settled, Innermost;
    assert regions[i] in regions;
    choice := OwnerChosen(drafts, regions, owner, i);
    InnermostIsTightest(x, steps, drafts, regions, i, choice) by { SameLength(drafts, regions); }
    if choice.Some? {
      TightestEncloses(steps, regions, choice.value, regions[i]);
      assert ParentAbove(regions[i], regions);
      var q :| q in regions && Some(q.controller) == regions[i].parent && regions[i].depth == q.depth + 1;
      var k :| 0 <= k < |regions| && regions[k] == q;
      assert k == choice.value;
    }
  }

  lemma SameLength(drafts: seq<Region>, regions: seq<Region>)
    requires Settled(drafts, regions)
    ensures |drafts| == |regions|
  {
  }

  lemma TightestEncloses(steps: seq<ExecutionStep>, regions: seq<Region>, j: int, r: Region)
    requires TightestAround(steps, regions, j, r)
    ensures 0 <= j < |regions| && regions[j] in regions && Encloses(regions[j], r)
  {
  }
}
