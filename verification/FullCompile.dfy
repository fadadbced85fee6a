/** The whole compiler, with its groups, its regions and every outcome, and the checks of the
    plan's constructor on what it builds (src/comfyng/graph/compiler.py:396-635, 1344-1579). */
module FullCompile {
  import opened Ids
  import opened Layering
  import opened Graphs
  import opened Topology
  import opened CriticalPath
  import opened Fusion
  import opened Contraction
  import opened CacheKeys
  import opened Validation
  import opened Expansion
  import opened Expand
  import opened ExpansionTheorems
  import opened Traces
  import opened Compile
  import opened PlanTheorems
  import opened ControlRegions
  import opened ControlNesting
  import opened ControlPlan

  // ----- Execution groups -----

  datatype ExecutionGroup = ExecutionGroup(index: nat, steps: seq<ExecutionStep>, dependencyGroups: seq<nat>)

  ghost predicate Rising(s: seq<nat>)
  {
    forall i, j :: 0 <= i < j < |s| ==> s[i] < s[j]
  }

  /** `sorted(...)` of a set of group indexes. */
  method SortIndexes(values: set<nat>) returns (sorted: seq<nat>)
    ensures Rising(sorted) && forall v :: v in sorted <==> v in values
  {
    sorted := [];
    var rest := values;
    while rest != {}
      invariant rest <= values && Rising(sorted) && (forall v :: v in sorted <==> v in values - rest)
      invariant forall v, w :: v in sorted && w in rest ==> v < w
    {
      var least := LeastIndex(rest);
      forall i | 0 <= i < |sorted|
        ensures sorted[i] < least
      {
        assert sorted[i] in sorted;
      }
      rest := rest - {least};
      sorted := sorted + [least];
    }
  }

  method LeastIndex(values: set<nat>) returns (least: nat)
    requires values != {}
    ensures least in values && forall v :: v in values ==> least <= v
  {
    least :| least in values;
    var rest := values - {least};
    while rest != {}
      invariant rest <= values && least in values && forall v :: v in values && v !in rest ==> least <= v
    {
      var v :| v in rest;
      rest := rest - {v};
      if v < least { least := v; }
    }
  }

  function NodeIdsOf(steps: seq<ExecutionStep>): (ids: seq<Id>)
    ensures |ids| == |steps| && forall k :: 0 <= k < |steps| ==> ids[k] == steps[k].nodeId
  {
    seq(|steps|, k requires 0 <= k < |steps| => steps[k].nodeId)
  }

  /** The groups that some step of the group reads from. */
  ghost predicate DependsOn(group: seq<ExecutionStep>, table: map<Id, ExecutionStep>, index: nat, other: nat)
  {
    exists s, d :: s in group && d in s.dependencies && d in table && table[d].group == other && other != index
  }

  ghost predicate GroupFor(group: ExecutionGroup, table: map<Id, ExecutionStep>, layer: seq<Id>, index: nat)
  {
    && group.index == index && NodeIdsOf(group.steps) == layer
    && (forall s :: s in group.steps ==> s.nodeId in table && table[s.nodeId] == s)
    && Rising(group.dependencyGroups)
    && (forall other :: other in group.dependencyGroups <==> DependsOn(group.steps, table, index, other))
  }

  ghost predicate GroupsFor(groups: seq<ExecutionGroup>, table: map<Id, ExecutionStep>, layers: seq<seq<Id>>)
  {
    |groups| == |layers| && forall i :: 0 <= i < |groups| ==> GroupFor(groups[i], table, layers[i], i)
  }

  /** The loop over the layers of the contracted graph. */
  method BuildGroups(steps: seq<ExecutionStep>, layers: seq<seq<Id>>) returns (groups: seq<ExecutionGroup>)
    requires forall i, n :: 0 <= i < |layers| && n in layers[i] ==> n in StepTable(steps)
    ensures GroupsFor(groups, StepTable(steps), layers)
  {
    var table := StepTable(steps);
    groups := [];
    for i := 0 to |layers|
      invariant |groups| == i && forall j :: 0 <= j < i ==> GroupFor(groups[j], table, layers[j], j)
    {
      var layer := layers[i];
      var group := seq(|layer|, k requires 0 <= k < |layer| => assert layer[k] in layer; table[layer[k]]);
      var others := set s, d | s in group && d in s.dependencies && d in table && table[d].group != i :: table[d].group;
      var sorted := SortIndexes(others);
      assert forall other :: other in others <==> DependsOn(group, table, i, other);
      groups := groups + [ExecutionGroup(i, group, sorted)];
    }
  }

  // ----- What the constructors check -----

  function StepsIn(groups: seq<ExecutionGroup>): seq<ExecutionStep>
  {
    if groups == [] then [] else StepsIn(groups[..|groups| - 1]) + groups[|groups| - 1].steps
  }

  /** `ExecutionGroup.__post_init__`. */
  ghost predicate GroupAccepted(group: ExecutionGroup)
  {
    && group.steps != [] && (forall s :: s in group.steps ==> s.group == group.index)
    && Rising(group.dependencyGroups) && (forall other :: other in group.dependencyGroups ==> other < group.index)
  }

  /** The groups cut the steps in order, and name exactly the groups they depend on. */
  ghost predicate GroupsAccepted(groups: seq<ExecutionGroup>, steps: seq<ExecutionStep>)
  {
    && (forall i :: 0 <= i < |groups| ==> groups[i].index == i && GroupAccepted(groups[i]))
    && StepsIn(groups) == steps
    && (forall i, other :: 0 <= i < |groups| ==>
          (other in groups[i].dependencyGroups <==> DependsOn(groups[i].steps, StepTable(steps), i, other)))
  }

  /** The checks of `ExecutionPlan.__post_init__` on control regions. */
  ghost predicate RegionsAccepted(x: Graph, steps: seq<ExecutionStep>, regions: seq<Region>)
  {
    && (forall r :: r in regions ==> RegionAccepted(r) && RegionFits(x, steps, r))
    && ControllersOf(regions) == ControlHeads(NodeTable(x.nodes), steps) && Distinct(ControllersOf(regions))
    && (forall r :: r in regions && r.parent.Some? ==> NestedIn(r, regions))
  }

  lemma LayerListed(group: ExecutionGroup, table: map<Id, ExecutionStep>, layer: seq<Id>, index: nat)
    requires GroupFor(group, table, layer, index)
    ensures NodeIdsOf(group.steps) == layer && forall s :: s in group.steps ==> s.nodeId in table && table[s.nodeId] == s
  {
  }

  /** The steps of the groups are the table's entries along the flattened layers. */
  lemma {:induction false} StepsAlongLayers(groups: seq<ExecutionGroup>, table: map<Id, ExecutionStep>, layers: seq<seq<Id>>)
    requires GroupsFor(groups, table, layers)
    ensures NodeIdsOf(StepsIn(groups)) == Flatten(layers)
    ensures forall s :: s in StepsIn(groups) ==> s.nodeId in table && table[s.nodeId] == s
  {
    hide GroupFor, StepTable;
    if groups != [] {
      var n := |groups| - 1;
      assert GroupFor(groups[n], table, layers[n], n);
      assert forall i :: 0 <= i < n ==> GroupFor(groups[i], table, layers[i], i);
      StepsAlongLayers(groups[..n], table, layers[..n]);
      FlattenAppend(layers[..n], layers[n]);
      assert layers == layers[..n] + [layers[n]];
      LayerListed(groups[n], table, layers[n], n);
      assert NodeIdsOf(StepsIn(groups)) == NodeIdsOf(StepsIn(groups[..n])) + NodeIdsOf(groups[n].steps);
    }
  }

  /** Step lists with the same ids, all taken from one table, are the same. */
  lemma SameListing(s: seq<ExecutionStep>, t: seq<ExecutionStep>, table: map<Id, ExecutionStep>)
    requires NodeIdsOf(s) == NodeIdsOf(t)
    requires forall a :: a in s ==> a.nodeId in table && table[a.nodeId] == a
    requires forall a :: a in t ==> a.nodeId in table && table[a.nodeId] == a
    ensures s == t
  {
    assert |s| == |NodeIdsOf(s)| == |NodeIdsOf(t)| == |t|;
    forall k | 0 <= k < |s|
      ensures s[k] == t[k]
    {
      assert NodeIdsOf(s)[k] == NodeIdsOf(t)[k];
      assert s[k] in s && t[k] in t;
    }
  }

  lemma StepsListed(steps: seq<ExecutionStep>, rep: map<Id, Id>)
    requires ListsHeads(steps, rep)
    ensures forall s :: s in steps ==> s.nodeId in StepTable(steps) && StepTable(steps)[s.nodeId] == s
  {
    forall s | s in steps
      ensures s.nodeId in StepTable(steps) && StepTable(steps)[s.nodeId] == s
    {
      var k :| 0 <= k < |steps| && steps[k] == s;
      TableAgrees(steps, rep, k);
    }
  }

  /** A step of a group carries the group's index. */
  lemma StepInItsGroup(s: ExecutionStep, layers: seq<seq<Id>>, i: nat)
    requires Distinct(Flatten(layers)) && i < |layers| && s.nodeId in layers[i]
    requires 0 <= s.group < |layers| && s.nodeId in layers[s.group]
    ensures s.group == i
  {
    var a :| 0 <= a < |layers[i]| && layers[i][a] == s.nodeId;
    var b :| 0 <= b < |layers[s.group]| && layers[s.group][b] == s.nodeId;
    ChainsApart(layers, i, a, s.group, b, s.nodeId);
  }

  /** What the steps of a plan satisfy, as far as groups are concerned. */
  ghost predicate Groupable(steps: seq<ExecutionStep>, layers: seq<seq<Id>>, rep: map<Id, Id>)
  {
    && ListsHeads(steps, rep) && DependenciesAgree(steps) && Distinct(Flatten(layers)) && NodeIdsOf(steps) == Flatten(layers)
    && (forall i :: 0 <= i < |layers| ==> layers[i] != [])
    && (forall s :: s in steps ==> 0 <= s.group < |layers| && s.nodeId in layers[s.group])
  }

  lemma PlanGrouping(p: Plan, profiles: Profiles, hash: Hash)
    requires ValidPlan(p, profiles, hash)
    ensures Groupable(p.steps, p.grouping.groups, p.grouping.rep)
    ensures forall i, n :: 0 <= i < |p.grouping.groups| && n in p.grouping.groups[i] ==> n in StepTable(p.steps)
  {
    hide Analysed, Grouped, UnitsCertified, StepsPartition, DependenciesAgree, ListsHeads;
    var next := NextMap(p.analysis.graph, profiles);
    AnalysedAcyclic(p.analysis, next, hash);
    HeadsOnce(p.analysis, p.grouping, next);
    StepsFitSetting(p.steps, p.analysis, p.grouping, next, hash);
    EndsAreMapped(p.analysis, p.grouping, next);
    forall s | s in p.steps
      ensures 0 <= s.group < |p.grouping.groups| && s.nodeId in p.grouping.groups[s.group]
    {
      var k :| 0 <= k < |p.steps| && p.steps[k] == s;
      assert StepOk(p.steps[k], p.analysis, p.grouping, hash);
    }
    forall i, n | 0 <= i < |p.grouping.groups| && n in p.grouping.groups[i]
      ensures n in StepTable(p.steps)
    {
      FlattenElements(p.grouping.groups, n);
      var k :| 0 <= k < |p.steps| && Flatten(p.grouping.groups)[k] == n;
      assert p.steps[k] in p.steps;
    }
  }

  lemma AnalysedAcyclic(a: Analysis, next: map<Id, Id>, hash: Hash)
    requires Analysed(a, next, hash)
    ensures Acyclic(Arcs(a.graph.edges))
  {
  }

  lemma EndsAreMapped(a: Analysis, q: Compile.Grouping, next: map<Id, Id>)
    requires Grouped(a, q, next)
    ensures EndsMapped(a.graph.edges, q.rep)
  {
  }

  lemma DependencyGroupEarlier(steps: seq<ExecutionStep>, layers: seq<seq<Id>>, rep: map<Id, Id>, s: ExecutionStep, d: Id)
    requires Groupable(steps, layers, rep) && s in steps && d in s.dependencies
    ensures d in StepTable(steps) && StepTable(steps)[d].group < s.group
  {
    var k :| 0 <= k < |steps| && steps[k] == s;
    assert GoodDependency(steps, k, d);
    var l :| StepAt(steps, l, d) && steps[l].group < steps[k].group;
    TableAgrees(steps, rep, l);
  }

  lemma GroupIsAccepted(group: ExecutionGroup, steps: seq<ExecutionStep>, layers: seq<seq<Id>>, rep: map<Id, Id>, i: nat)
    requires Groupable(steps, layers, rep) && i < |layers| && GroupFor(group, StepTable(steps), layers[i], i)
    ensures GroupAccepted(group)
  {
    hide Groupable, DependsOn;
    assert |group.steps| == |NodeIdsOf(group.steps)| == |layers[i]|;
    LayerNotEmpty(steps, layers, rep, i);
    forall s | s in group.steps
      ensures s.group == i && s in steps
    {
      GroupStep(group, steps, layers, rep, i, s);
    }
    forall other | other in group.dependencyGroups
      ensures other < i
    {
      DependedGroup(group, steps, layers, rep, i, other);
    }
  }

  lemma LayerNotEmpty(steps: seq<ExecutionStep>, layers: seq<seq<Id>>, rep: map<Id, Id>, i: nat)
    requires Groupable(steps, layers, rep) && i < |layers|
    ensures layers[i] != []
  {
  }

  lemma GroupStep(group: ExecutionGroup, steps: seq<ExecutionStep>, layers: seq<seq<Id>>, rep: map<Id, Id>, i: nat, s: ExecutionStep)
    requires Groupable(steps, layers, rep) && i < |layers| && GroupFor(group, StepTable(steps), layers[i], i) && s in group.steps
    ensures s.group == i && s in steps
  {
    hide DependsOn, ListsHeads, DependenciesAgree;
    var k :| 0 <= k < |group.steps| && group.steps[k] == s;
    assert NodeIdsOf(group.steps)[k] == s.nodeId;
    StepInItsGroup(s, layers, i);
  }

  lemma DependedGroup(group: ExecutionGroup, steps: seq<ExecutionStep>, layers: seq<seq<Id>>, rep: map<Id, Id>, i: nat, other: nat)
    requires Groupable(steps, layers, rep) && i < |layers| && GroupFor(group, StepTable(steps), layers[i], i)
    requires other in group.dependencyGroups
    ensures other < i
  {
    hide Groupable;
    var s, d :| s in group.steps && d in s.dependencies && d in StepTable(steps) && StepTable(steps)[d].group == other && other != i;
    GroupStep(group, steps, layers, rep, i, s);
    DependencyGroupEarlier(steps, layers, rep, s, d);
  }

  lemma GroupsAreAccepted(groups: seq<ExecutionGroup>, steps: seq<ExecutionStep>, layers: seq<seq<Id>>, rep: map<Id, Id>)
    requires Groupable(steps, layers, rep) && GroupsFor(groups, StepTable(steps), layers)
    ensures GroupsAccepted(groups, steps)
  {
    StepsAlongLayers(groups, StepTable(steps), layers);
    StepsListed(steps, rep);
    SameListing(StepsIn(groups), steps, StepTable(steps));
    forall i | 0 <= i < |groups|
      ensures GroupAccepted(groups[i])
    {
      GroupIsAccepted(groups[i], steps, layers, rep, i);
    }
  }

  // ----- All outcomes -----

  datatype FullPlan = FullPlan(plan: Plan, groups: seq<ExecutionGroup>, regions: seq<Region>)

  datatype FullResult =
    | Finished(full: FullPlan)
    | ExpansionError(code: string)
    | ValidationErrors(errors: seq<string>)
    | RegionErrors(errors: seq<string>)
    | RegionFailure(controller: Id)

  /** What the phases came to: the expansion, the plan, the loops, the regions before nesting
      and the innermost owners. */
  datatype Phases = Phases(d: Derivation, x: Graph, plan: Plan, loops: map<Id, RawLoop>, drafts: seq<Region>, owner: map<Id, Option<Id>>)

  /** The expansion was planned and its regions were derived. */
  ghost predicate Planned(w: Phases, profiles: Profiles, hash: Hash)
  {
    && w.plan.analysis.graph == w.x && w.plan.traces == TracesOf(w.d) && ValidPlan(w.plan, profiles, hash)
    && LoopsOf(w.x, w.loops) && Drafted(w.x, w.loops, w.plan.steps, w.plan.grouping.rep, w.drafts, |w.plan.steps|)
    && ParentsFor(ClaimsOf(w.drafts), w.owner)
  }

  /** A loop's body and boundary were fused. */
  ghost predicate RegionsClash(w: Phases, profiles: Profiles)
  {
    FusedAcrossBoundary(w.loops, NextMap(w.x, profiles))
  }

  /** A root lies at level zero, any other region one level below its parent. */
  ghost predicate Levelled(regions: seq<Region>)
  {
    forall r :: r in regions ==> if r.parent.None? then r.depth == 0 else ParentAbove(r, regions)
  }

  ghost predicate ParentAbove(r: Region, regions: seq<Region>)
  {
    exists p :: p in regions && Some(p.controller) == r.parent && r.depth == p.depth + 1
  }

  /** The finished plan: the groups cut the steps, the regions are the drafts with their owners
      as parents and their levels. */
  ghost predicate Finishes(full: FullPlan, w: Phases)
  {
    && full.plan == w.plan && GroupsFor(full.groups, StepTable(w.plan.steps), w.plan.grouping.groups)
    && Settled(w.drafts, full.regions) && Levelled(full.regions)
    && (forall r :: r in full.regions ==> r.controller in w.owner && r.parent == w.owner[r.controller])
  }

  /** Each outcome of a compilation, with the condition under which it arises. The conditions
      leave nothing out, and no two outcomes arise from one source. */
  ghost predicate Outcome(r: FullResult, w: Phases, g: Graph, registry: Registry, maxDepth: nat, rules: Rules, profiles: Profiles, hash: Hash)
  {
    if r.ExpansionError? then ExpansionFails(r.code, g, registry, [], maxDepth)
    else
      && Runs(w.d, g, registry, [], maxDepth, w.x)
      && (r.ValidationErrors? <==> !Accepted(w.x, rules))
      && (r.ValidationErrors? ==> r.errors != [])
      && (Accepted(w.x, rules) ==>
            && Planned(w, profiles, hash)
            && (r.RegionFailure? <==> RegionsClash(w, profiles))
            && (r.RegionFailure? ==> FailsAt(w.x, w.loops, NextMap(w.x, profiles), r.controller))
            && (r.RegionErrors? <==> !RegionsClash(w, profiles) && (SomeMalformed(w.x) || Cyclic(w.owner)))
            && (r.RegionErrors? ==> (MALFORMED in r.errors <==> SomeMalformed(w.x)) && (CYCLIC in r.errors <==> Cyclic(w.owner)))
            && (r.Finished? ==> Finishes(r.full, w)))
  }

  lemma AcceptedBounded(x: Graph, rules: Rules)
    requires Accepted(x, rules)
    ensures !Unbounded(x)
  {
    hide Accepted, NoBound, BoundOf, LoopBound;
    forall l | l in NodeTable(x.nodes) && TypeAt(NodeTable(x.nodes), l) == FOR_EACH
      ensures !NoBound(NodeTable(x.nodes)[l])
    {
      AcceptedLoop(x, rules, NodeTable(x.nodes)[l]);
    }
  }

  lemma AcceptedLoop(x: Graph, rules: Rules, n: Node)
    requires Accepted(x, rules) && n in x.nodes && n.typeId == FOR_EACH
    ensures !NoBound(n)
  {
    hide Known, LiteralsOk, RequiredOk, PortsOk, EdgeOk, InputOk, OutputOk;
    assert NodeOk(x, rules, n);
  }

  /** No reported error: nothing malformed, nothing cyclic. */
  lemma NoErrors(errors: seq<string>)
    requires forall e :: e in errors ==> e == MALFORMED || e == CYCLIC
    ensures errors == [] <==> MALFORMED !in errors && CYCLIC !in errors
  {
    if errors != [] { assert errors[0] in errors; }
  }

  /** `GraphCompiler.compile`, after the structural check of the parent and the registered
      graphs. */
  method CompileFully(g: Graph, registry: Registry, maxDepth: nat, rules: Rules, profiles: Profiles, hash: Hash)
    returns (r: FullResult, ghost w: Phases)
    ensures Outcome(r, w, g, registry, maxDepth, rules, profiles, hash)
  {
    hide Runs, ExpansionFails, Accepted, ValidPlan, LoopsOf, Drafted, ParentsFor, SomeMalformed, Cyclic, Setting,
         GroupsAccepted, RegionsAccepted, RegionsHold, FusedAcrossBoundary, FailsAt, GroupsFor, LoopBounded, Unbounded, Groupable;
    var compiled, d, x := CompileGraph(g, registry, maxDepth, rules, profiles, hash);
    w := NoPhases(d, x);
    if compiled.ExpansionFailed? {
      return ExpansionError(compiled.code), w;
    }
    if compiled.Rejected? {
      return ValidationErrors(compiled.errors), w;
    }
    var p := compiled.plan;
    PlanSetting(p, profiles, hash);
    AcceptedBounded(x, rules);
    var derived, loops, drafts, owner :=
      DeriveControlRegions(p.analysis.graph, p.steps, p.grouping.rep, NextMap(x, profiles), MembersOf(p.analysis.units));
    w := Phases(d, x, p, loops, drafts, owner);
    if derived.ConstructorFails? {
      return RegionFailure(derived.controller), w;
    }
    NoErrors(derived.errors);
    if derived.errors != [] {
      return RegionErrors(derived.errors), w;
    }
    PlanGrouping(p, profiles, hash);
    var groups := BuildGroups(p.steps, p.grouping.groups);
    RegionsLevelled(x, p.steps, derived.regions, owner);
    r := Finished(FullPlan(p, groups, derived.regions));
  }

  ghost function NoPhases(d: Derivation, x: Graph): Phases
  {
    var analysis := Analysis(x, [], [], map[], map[], []);
    Phases(d, x, Plan(analysis, Compile.Grouping(map[], []), [], "", []), map[], [], map[])
  }

  lemma RegionsLevelled(x: Graph, steps: seq<ExecutionStep>, regions: seq<Region>, owner: map<Id, Option<Id>>)
    requires RegionsHold(x, steps, regions, owner) && !Cyclic(owner)
    ensures Levelled(regions) && forall r :: r in regions ==> r.controller in owner && r.parent == owner[r.controller]
  {
    hide RegionFits, Cyclic;
    forall r | r in regions && r.parent.Some?
      ensures ParentAbove(r, regions)
    {
      assert NestedIn(r, regions);
    }
  }

  // ----- The constructor -----

  /** The innermost owner of a region, by its place among the regions. */
  lemma OwnerChosen(drafts: seq<Region>, regions: seq<Region>, owner: map<Id, Option<Id>>, i: nat) returns (choice: Option<nat>)
    requires ParentsFor(ClaimsOf(drafts), owner) && Settled(drafts, regions) && i < |regions|
    requires regions[i].controller in owner && regions[i].parent == owner[regions[i].controller]
    ensures Innermost(ClaimsOf(drafts), i, choice)
    ensures choice.None? ==> regions[i].parent == None
    ensures choice.Some? ==> choice.value < |regions| && regions[i].parent == Some(regions[choice.value].controller)
    ensures choice.Some? ==> Owns(ClaimsOf(drafts), choice.value, i)
  {
    hide StepsOfRegion, Tighter;
    var claims := ClaimsOf(drafts);
    assert ParentFor(claims, i, owner);
    choice :| Innermost(claims, i, choice) && owner[claims[i].controller] == ControllerOf(claims, choice);
    if choice.Some? {
      assert Owns(claims, choice.value, i);
    }
  }

  lemma OwnerLists(drafts: seq<Region>, regions: seq<Region>, j: nat, i: nat)
    requires Settled(drafts, regions) && i < |regions| && j < |regions| && Owns(ClaimsOf(drafts), j, i)
    ensures regions[j].controller != regions[i].controller && regions[i].controller in StepsOfRegion(regions[j])
  {
    hide StepsOfRegion;
    SameSteps(drafts[j], regions[j]);
  }

  lemma RegionOf(drafts: seq<Region>, regions: seq<Region>, p: Region, j: nat)
    requires Settled(drafts, regions) && p in regions && j < |regions| && p.controller == regions[j].controller
    requires forall i, j :: 0 <= i < j < |drafts| ==> drafts[i].controller != drafts[j].controller
    ensures p == regions[j]
  {
    var k :| 0 <= k < |regions| && regions[k] == p;
    assert k == j;
  }

  /** A parent is another region, and it owns the controller. */
  lemma ParentOwns(drafts: seq<Region>, regions: seq<Region>, owner: map<Id, Option<Id>>, r: Region)
    requires ParentsFor(ClaimsOf(drafts), owner) && Settled(drafts, regions) && r in regions && Levelled(regions)
    requires r.controller in owner && r.parent == owner[r.controller]
    requires forall i, j :: 0 <= i < j < |drafts| ==> drafts[i].controller != drafts[j].controller
    ensures r.parent != Some(r.controller) && (r.parent.Some? ==> NestedIn(r, regions))
  {
    hide StepsOfRegion, ParentsFor, Settled, Owns, Innermost;
    var i :| 0 <= i < |regions| && regions[i] == r;
    var choice := OwnerChosen(drafts, regions, owner, i);
    if choice.Some? {
      OwnerLists(drafts, regions, choice.value, i);
      assert ParentAbove(r, regions);
      var p :| p in regions && Some(p.controller) == r.parent && r.depth == p.depth + 1;
      RegionOf(drafts, regions, p, choice.value);
    }
  }

  /** What the constructor checks of regions, from what a finished compilation is. */
  lemma RegionsConstruct(w: Phases, regions: seq<Region>, rules: Rules, profiles: Profiles, hash: Hash)
    requires Planned(w, profiles, hash) && Accepted(w.x, rules) && !RegionsClash(w, profiles)
    requires Settled(w.drafts, regions) && Levelled(regions)
    requires forall r :: r in regions ==> r.controller in w.owner && r.parent == w.owner[r.controller]
    ensures RegionsAccepted(w.x, w.plan.steps, regions) && forall r :: r in regions ==> LoopBounded(r, rules)
  {
    hide Accepted, ValidPlan, LoopsOf, ParentsFor, Setting, RegionFits, RegionSound, DraftFor, FusedAcrossBoundary, NestedIn,
         Unbounded, LoopBounded, ControlRegions.Overlaps;
    var next, steps, rep := NextMap(w.x, profiles), w.plan.steps, w.plan.grouping.rep;
    var chains := MembersOf(w.plan.analysis.units);
    PlanSetting(w.plan, profiles, hash);
    forall r | r in regions
      ensures (r.parent.None? <==> r.depth == 0) && r.parent != Some(r.controller) && (r.parent.Some? ==> NestedIn(r, regions))
    {
      ParentOwns(w.drafts, regions, w.owner, r);
      if r.parent.Some? { assert ParentAbove(r, regions); }
    }
    RegionsSound(w.x, next, chains, rep, steps, w.loops, w.drafts, regions);
    AllFit(w.x, w.loops, steps, rep, w.drafts, regions);
    AcceptedBounded(w.x, rules);
    FailsIff(w.x, next, chains, rep, steps, w.loops, regions);
    AllAccepted(regions);
    SameControllers(w.drafts, regions, NodeTable(w.x.nodes), steps);
    ControllersDistinct(w.drafts, regions);
    forall r | r in regions
      ensures LoopBounded(r, rules)
    {
      AcceptedLoopsBounded(w.x, steps, rules, r);
    }
  }

  lemma ControllersDistinct(drafts: seq<Region>, regions: seq<Region>)
    requires Settled(drafts, regions)
    requires forall i, j :: 0 <= i < j < |drafts| ==> drafts[i].controller != drafts[j].controller
    ensures Distinct(ControllersOf(regions))
  {
    forall i, j | 0 <= i < j < |regions|
      ensures ControllersOf(regions)[i] != ControllersOf(regions)[j]
    {
      assert drafts[i].controller != drafts[j].controller;
    }
  }

  /** The plan constructor accepts the groups and regions that a finished compilation gives it.
      It accepts order, critical path, steps, dependencies and traces unless two traces share an
      id. */
  lemma FinishedPlanConstructs(r: FullResult, w: Phases, g: Graph, registry: Registry, maxDepth: nat, rules: Rules, profiles: Profiles, hash: Hash)
    requires Outcome(r, w, g, registry, maxDepth, rules, profiles, hash) && r.Finished?
    requires UniqueIds(g) && forall key :: key in registry ==> UniqueIds(registry[key])
    ensures ConstructorAccepts(r.full.plan) <==> !SomeSharedId(g, registry)
    ensures GroupsAccepted(r.full.groups, r.full.plan.steps)
    ensures RegionsAccepted(r.full.plan.analysis.graph, r.full.plan.steps, r.full.regions)
    ensures forall region :: region in r.full.regions ==> LoopBounded(region, rules)
  {
    hide Runs, Derives, Accepted, ValidPlan, LoopsOf, Drafted, ParentsFor, SomeMalformed, Cyclic, ConstructorAccepts,
         GroupsAccepted, RegionsAccepted, RegionsClash, SomeSharedId, GroupsFor, Groupable, Settled, Levelled, LoopBounded;
    RunDerives(w.d, g, registry, [], maxDepth, w.x);
    PlanConstructorAccepts(r.full.plan, profiles, hash, w.d, g, registry);
    var p := r.full.plan;
    PlanGrouping(p, profiles, hash);
    GroupsAreAccepted(r.full.groups, p.steps, p.grouping.groups, p.grouping.rep);
    RegionsConstruct(w, r.full.regions, rules, profiles, hash);
  }
}
