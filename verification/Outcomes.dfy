/** A source has one outcome: two compilations of the same graphs, stored in whatever order, fail
    at the same place or finish with the same steps, groups and regions
    (src/comfyng/graph/compiler.py:1344-1579). */
module Outcomes {
  import opened Ids
  import opened Layering
  import opened Graphs
  import opened Topology
  import opened CriticalPath
  import opened Reachability
  import opened Fusion
  import opened Contraction
  import opened CacheKeys
  import opened Validation
  import opened Expansion
  import opened Expand
  import opened ExpansionTheorems
  import opened CallChains
  import opened Determinism
  import opened Compile
  import opened Permutation
  import opened ControlRegions
  import opened ControlNesting
  import opened ControlPlan
  import opened FullCompile

  // ----- The same sources -----

  /** The same graph, stored in another order. */
  ghost predicate Restored(g: Graph, h: Graph)
  {
    g.id == h.id && Permuted(g, h)
  }

  ghost predicate SourcesRestored(g: Graph, g': Graph, registry: Registry, registry': Registry)
  {
    && Restored(g, g') && registry.Keys == registry'.Keys
    && forall key :: key in registry ==> Restored(registry[key], registry'[key])
  }

  lemma RestoredAlike(g: Graph, h: Graph)
    requires Restored(g, h) && UniqueIds(g) && UniqueIds(h)
    ensures Alike(g, h) && SameGraph(g, h)
  {
    PermutedBasics(g, h);
    forall n | n in g.nodes
      ensures HasTwin(n, h.nodes)
    {
      assert Twins(n, n);
    }
    forall n | n in h.nodes
      ensures HasTwin(n, g.nodes)
    {
      assert Twins(n, n);
    }
  }

  lemma SourcesAlike(g: Graph, g': Graph, registry: Registry, registry': Registry)
    requires SourcesRestored(g, g', registry, registry')
    requires SoundGraph(g, registry) && SoundRegistry(registry) && SoundGraph(g', registry') && SoundRegistry(registry')
    ensures Alike(g, g') && RegistriesAlike(registry, registry') && SameSources(g, g', registry, registry')
  {
    hide Restored, Alike, SameGraph;
    RestoredAlike(g, g');
    forall key | key in registry
      ensures Alike(registry[key], registry'[key]) && SameGraph(registry[key], registry'[key])
    {
      RestoredAlike(registry[key], registry'[key]);
    }
  }

  // ----- The same expansion -----

  lemma SameExpansion(d: Derivation, d': Derivation, g: Graph, g': Graph, registry: Registry, registry': Registry, maxDepth: nat,
                      x: Graph, x': Graph)
    requires SourcesRestored(g, g', registry, registry')
    requires SoundGraph(g, registry) && SoundRegistry(registry) && SoundGraph(g', registry') && SoundRegistry(registry')
    requires Runs(d, g, registry, [], maxDepth, x) && Runs(d', g', registry', [], maxDepth, x')
    ensures Permuted(x, x') && WellFormed(x) && WellFormed(x')
  {
    hide SourcesRestored, SoundGraph, SoundRegistry, Runs, RegistriesAlike, SameSources, UniqueIds, NodesAlike;
    SourcesAlike(g, g', registry, registry');
    RunDerives(d, g, registry, [], maxDepth, x);
    RunDerives(d', g', registry', [], maxDepth, x');
    OrderIndependent(d, d', g, g', registry, registry', x, x');
    RunsAlike(d, d', g, g', registry, registry', [], maxDepth, x, x');
    ExpansionSound(d, g, registry, x);
    ExpansionSound(d', g', registry', x');
    NodesDistinct(x);
    NodesDistinct(x');
    DistinctPermuted(x.nodes, x'.nodes);
  }

  // ----- The same verdict of validation -----

  lemma {:induction false} EdgeCountWithout(t: seq<Edge>, i: nat, id: Id, p: string)
    requires i < |t|
    ensures EdgeCount(t, id, p) == EdgeCount(Without(t, i), id, p) + if t[i].target == id && t[i].targetPort == p then 1 else 0
    decreases |t|
  {
    var init, u := t[..|t| - 1], Without(t, i);
    if i == |t| - 1 {
      assert u == init;
    } else {
      EdgeCountWithout(init, i, id, p);
      assert |u| == |t| - 1 && u[..|u| - 1] == Without(init, i) && u[|u| - 1] == t[|t| - 1];
    }
  }

  lemma {:induction false} SameEdgeCount(s: seq<Edge>, t: seq<Edge>, id: Id, p: string)
    requires multiset(s) == multiset(t)
    ensures EdgeCount(s, id, p) == EdgeCount(t, id, p)
    decreases |s|
  {
    hide Without, EdgeCount;
    if s == [] {
      assert |t| == |multiset(t)| == 0;
      assert t == s;
    } else {
      assert s[0] in multiset(t);
      var i :| 0 <= i < |t| && t[i] == s[0];
      WithoutCount(s, 0);
      WithoutCount(t, i);
      assert multiset(Without(s, 0)) == multiset(s) - multiset{s[0]} == multiset(Without(t, i));
      ShorterWithout(s, 0);
      SameEdgeCount(Without(s, 0), Without(t, i), id, p);
      EdgeCountWithout(s, 0, id, p);
      EdgeCountWithout(t, i, id, p);
    }
  }

  lemma SameNodeOk(x: Graph, y: Graph, rules: Rules, n: Node)
    requires Permuted(x, y) && NodeOk(x, rules, n)
    ensures NodeOk(y, rules, n)
  {
    hide Known, LiteralsOk, LoopOk, EdgeCount, DefinitionOf;
    forall p
      ensures SourceCount(x, n, p) == SourceCount(y, n, p)
    {
      SameEdgeCount(x.edges, y.edges, n.id, p);
    }
  }

  lemma AcceptedRestored(x: Graph, y: Graph, rules: Rules)
    requires Permuted(x, y) && WellFormed(x) && WellFormed(y) && Accepted(x, rules)
    ensures Accepted(y, rules)
  {
    hide NodeOk, EdgeOk, InputOk, OutputOk, NodeTable, Acyclic;
    PermutedBasics(x, y);
    SameTable(x, y);
    forall n | n in y.nodes
      ensures NodeOk(y, rules, n)
    {
      SameNodeOk(x, y, rules, n);
    }
  }

  lemma PermutedBack(x: Graph, y: Graph)
    requires Permuted(x, y)
    ensures Permuted(y, x)
  {
  }

  // ----- The same loops, drafts and owners -----

  lemma SameSourcesOf(x: Graph, y: Graph, id: Id, port: string)
    requires forall e :: e in x.edges <==> e in y.edges
    ensures SourcesOf(x.edges, id) == SourcesOf(y.edges, id) && PortSources(x.edges, id, port) == PortSources(y.edges, id, port)
  {
  }

  /** What region derivation sees of a graph. */
  ghost predicate SameView(x: Graph, y: Graph)
  {
    && NodeTable(x.nodes) == NodeTable(y.nodes) && Arcs(x.edges) == Arcs(y.edges)
    && (forall id :: SourcesOf(x.edges, id) == SourcesOf(y.edges, id))
    && (forall id, port :: PortSources(x.edges, id, port) == PortSources(y.edges, id, port))
  }

  lemma PermutedView(x: Graph, y: Graph)
    requires Permuted(x, y) && WellFormed(x) && WellFormed(y)
    ensures SameView(x, y)
  {
    PermutedBasics(x, y);
    SameTable(x, y);
    forall id
      ensures SourcesOf(x.edges, id) == SourcesOf(y.edges, id)
    {
      SameSourcesOf(x, y, id, "");
    }
    forall id, port
      ensures PortSources(x.edges, id, port) == PortSources(y.edges, id, port)
    {
      SameSourcesOf(x, y, id, port);
    }
  }

  lemma SameLoop(x: Graph, y: Graph, loop: Id, raw: RawLoop, raw': RawLoop)
    requires SameView(x, y) && LoopSets(x, loop, raw) && LoopSets(y, loop, raw')
    ensures raw == raw'
  {
    hide Below, LeadsInto, NodeTable;
    forall n
      ensures n in raw.boundaries <==> n in raw'.boundaries
      ensures n in raw.iterable <==> n in raw'.iterable
    {
      assert IsBoundary(x, loop, n) <==> IsBoundary(y, loop, n);
      assert InIterable(x, loop, n) <==> InIterable(y, loop, n);
    }
    assert raw.boundaries == raw'.boundaries;
    forall n
      ensures n in raw.body <==> n in raw'.body
    {
      assert InBody(x, loop, raw.boundaries, n) <==> InBody(y, loop, raw.boundaries, n);
    }
  }

  lemma SameLoops(x: Graph, y: Graph, loops: map<Id, RawLoop>, loops': map<Id, RawLoop>)
    requires SameView(x, y) && LoopsOf(x, loops) && LoopsOf(y, loops')
    ensures loops == loops'
  {
    hide LoopSets, SameView;
    assert NodeTable(x.nodes) == NodeTable(y.nodes) by { TablesOfView(x, y); }
    forall l | l in loops
      ensures loops[l] == loops'[l]
    {
      SameLoop(x, y, l, loops[l], loops'[l]);
    }
    SameMap(loops, loops');
  }

  lemma TablesOfView(x: Graph, y: Graph)
    requires SameView(x, y)
    ensures NodeTable(x.nodes) == NodeTable(y.nodes) && Arcs(x.edges) == Arcs(y.edges)
  {
  }

  lemma SameBranch(x: Graph, y: Graph, loops: map<Id, RawLoop>, steps: seq<ExecutionStep>, rep: map<Id, Id>, id: Id, b: Branch, c: Branch)
    requires SameView(x, y) && b.name == c.name && BranchFor(x, loops, steps, rep, id, b) && BranchFor(y, loops, steps, rep, id, c)
    ensures b == c
  {
    hide LeadsInto, InSteps, RepsOf, StepTable;
    var s :| BranchNodes(x, loops, id, b.name, s) && b.members == InSteps(steps, RepsOf(s, rep));
    var t :| BranchNodes(y, loops, id, c.name, t) && c.members == InSteps(steps, RepsOf(t, rep));
    forall n
      ensures n in s <==> n in t
    {
      assert InBranch(x, loops, id, b.name, n) <==> InBranch(y, loops, id, b.name, n);
    }
    assert s == t;
  }

  lemma SameDraft(x: Graph, y: Graph, loops: map<Id, RawLoop>, steps: seq<ExecutionStep>, rep: map<Id, Id>, d: Region, e: Region)
    requires SameView(x, y) && d.controller == e.controller
    requires DraftFor(x, loops, steps, rep, d) && DraftFor(y, loops, steps, rep, e)
    ensures d == e
  {
    hide SameView, BranchFor;
    TablesOfView(x, y);
    if !d.isLoop {
      assert d.branches[0] in d.branches && d.branches[1] in d.branches;
      assert e.branches[0] in e.branches && e.branches[1] in e.branches;
      SameBranch(x, y, loops, steps, rep, d.controller, d.branches[0], e.branches[0]);
      SameBranch(x, y, loops, steps, rep, d.controller, d.branches[1], e.branches[1]);
      assert d.branches == e.branches;
    }
  }

  lemma SameDrafts(x: Graph, y: Graph, loops: map<Id, RawLoop>, steps: seq<ExecutionStep>, rep: map<Id, Id>,
                   drafts: seq<Region>, drafts': seq<Region>)
    requires SameView(x, y) && Drafted(x, loops, steps, rep, drafts, |steps|) && Drafted(y, loops, steps, rep, drafts', |steps|)
    ensures drafts == drafts'
  {
    hide SameView, DraftFor, HasController;
    TablesOfView(x, y);
    assert ControllersOf(drafts) == ControllersOf(drafts');
    assert |drafts| == |ControllersOf(drafts)| == |drafts'|;
    forall i | 0 <= i < |drafts|
      ensures drafts[i] == drafts'[i]
    {
      assert drafts[i].controller == ControllersOf(drafts)[i] == drafts'[i].controller;
      assert drafts[i] in drafts && drafts'[i] in drafts';
      SameDraft(x, y, loops, steps, rep, drafts[i], drafts'[i]);
    }
  }

  lemma SameOwners(claims: seq<Claim>, owner: map<Id, Option<Id>>, owner': map<Id, Option<Id>>)
    requires ParentsFor(claims, owner) && ParentsFor(claims, owner')
    ensures owner == owner'
  {
    forall c | c in owner
      ensures c in owner' && owner[c] == owner'[c]
    {
      var i :| 0 <= i < |claims| && claims[i].controller == c;
      assert ParentFor(claims, i, owner) && ParentFor(claims, i, owner');
      var a: Option<nat> :| Innermost(claims, i, a) && owner[c] == ControllerOf(claims, a);
      var b: Option<nat> :| Innermost(claims, i, b) && owner'[c] == ControllerOf(claims, b);
      InnermostUnique(claims, i, a, b);
    }
    SameMap(owner, owner');
  }

  lemma SameMalformed(x: Graph, y: Graph)
    requires SameView(x, y)
    ensures SomeMalformed(x) <==> SomeMalformed(y)
  {
    hide NodeTable, Below;
    forall l
      ensures Malformed(x, l) <==> Malformed(y, l)
    {
      forall n
        ensures IsBoundary(x, l, n) <==> IsBoundary(y, l, n)
      {
      }
    }
  }

  // ----- The same phases -----

  /** Everything but stored order. */
  ghost predicate SamePhases(w: Phases, w': Phases)
  {
    && w.plan.steps == w'.plan.steps && w.plan.key == w'.plan.key && w.plan.grouping == w'.plan.grouping
    && w.plan.analysis.order == w'.plan.analysis.order && w.plan.analysis.criticalPath == w'.plan.analysis.criticalPath
    && w.loops == w'.loops && w.drafts == w'.drafts && w.owner == w'.owner
  }

  lemma PlannedSame(w: Phases, w': Phases, profiles: Profiles, hash: Hash)
    requires Permuted(w.x, w'.x) && WellFormed(w.x) && WellFormed(w'.x) && Planned(w, profiles, hash) && Planned(w', profiles, hash)
    ensures SamePhases(w, w')
    ensures RegionsClash(w, profiles) <==> RegionsClash(w', profiles)
    ensures SomeMalformed(w.x) <==> SomeMalformed(w'.x)
  {
    hide WellFormed, ValidPlan, LoopsOf, Drafted, ParentsFor, SomeMalformed, SameView, FusedAcrossBoundary, NextMap;
    StoredOrderIrrelevant(w.plan, w'.plan, profiles, hash);
    PermutedView(w.x, w'.x);
    SameLoops(w.x, w'.x, w.loops, w'.loops);
    SameDrafts(w.x, w'.x, w.loops, w.plan.steps, w.plan.grouping.rep, w.drafts, w'.drafts);
    SameOwners(ClaimsOf(w.drafts), w.owner, w'.owner);
    SameMalformed(w.x, w'.x);
    SameNextMap(w.x, w'.x, profiles);
  }

  // ----- The same finished plan -----

  lemma SomeLeft(s: seq<nat>, t: seq<nat>)
    requires t != [] && forall v :: v in s <==> v in t
    ensures s != []
  {
    assert t[0] in t;
  }

  lemma {:induction false} RisingUnique(s: seq<nat>, t: seq<nat>)
    requires Rising(s) && Rising(t) && forall v :: v in s <==> v in t
    ensures s == t
    decreases |s|
  {
    if t != [] {
      SomeLeft(s, t);
      var a, b := s[|s| - 1], t[|t| - 1];
      assert a in s && b in t;
      LastIsLargest(s, b);
      LastIsLargest(t, a);
      var init, init' := s[..|s| - 1], t[..|t| - 1];
      forall v
        ensures v in init <==> v in init'
      {
        AllButLast(s, v);
        AllButLast(t, v);
      }
      RisingUnique(init, init');
      assert s == init + [a] && t == init' + [b];
    } else if s != [] {
      SomeLeft(t, s);
    }
  }

  lemma LastIsLargest(s: seq<nat>, v: nat)
    requires Rising(s) && v in s
    ensures v <= s[|s| - 1]
  {
  }

  lemma AllButLast(s: seq<nat>, v: nat)
    requires Rising(s) && s != []
    ensures v in s[..|s| - 1] <==> v in s && v != s[|s| - 1]
  {
    assert s == s[..|s| - 1] + [s[|s| - 1]];
  }

  lemma SameGroupOf(group: ExecutionGroup, group': ExecutionGroup, table: map<Id, ExecutionStep>, layer: seq<Id>, index: nat)
    requires GroupFor(group, table, layer, index) && GroupFor(group', table, layer, index)
    ensures group == group'
  {
    hide DependsOn;
    SameListing(group.steps, group'.steps, table);
    RisingUnique(group.dependencyGroups, group'.dependencyGroups);
  }

  lemma SameGroups(groups: seq<ExecutionGroup>, groups': seq<ExecutionGroup>, table: map<Id, ExecutionStep>, layers: seq<seq<Id>>)
    requires GroupsFor(groups, table, layers) && GroupsFor(groups', table, layers)
    ensures groups == groups'
  {
    hide GroupFor;
    forall i | 0 <= i < |groups|
      ensures groups[i] == groups'[i]
    {
      SameGroupOf(groups[i], groups'[i], table, layers[i], i);
    }
  }

  lemma ParentIndex(regions: seq<Region>, i: nat) returns (j: nat)
    requires Levelled(regions) && i < |regions| && regions[i].parent.Some?
    ensures j < |regions| && Some(regions[j].controller) == regions[i].parent && regions[i].depth == regions[j].depth + 1
  {
    assert regions[i] in regions && ParentAbove(regions[i], regions);
    var p :| p in regions && Some(p.controller) == regions[i].parent && regions[i].depth == p.depth + 1;
    j :| 0 <= j < |regions| && regions[j] == p;
  }

  lemma ParentIndexes(regions: seq<Region>, regions': seq<Region>, i: nat) returns (j: nat, k: nat)
    requires Levelled(regions) && Levelled(regions') && |regions| == |regions'| && i < |regions|
    requires regions[i].parent == regions'[i].parent && regions[i].parent.Some?
    ensures j < |regions| && Some(regions[j].controller) == regions[i].parent && regions[i].depth == regions[j].depth + 1
    ensures k < |regions'| && Some(regions'[k].controller) == regions[i].parent && regions'[i].depth == regions'[k].depth + 1
  {
    hide Levelled;
    j := ParentIndex(regions, i);
    k := ParentIndex(regions', i);
  }

  lemma RootLevel(regions: seq<Region>, i: nat)
    requires Levelled(regions) && i < |regions| && regions[i].parent.None?
    ensures regions[i].depth == 0
  {
    assert regions[i] in regions;
  }

  /** Levels are determined by parents. */
  lemma {:induction false} SameLevel(regions: seq<Region>, regions': seq<Region>, i: nat)
    requires Levelled(regions) && Levelled(regions') && |regions| == |regions'| && i < |regions|
    requires forall j :: 0 <= j < |regions| ==> regions[j].controller == regions'[j].controller && regions[j].parent == regions'[j].parent
    requires forall j, k :: 0 <= j < k < |regions| ==> regions[j].controller != regions[k].controller
    ensures regions[i].depth == regions'[i].depth
    decreases regions[i].depth
  {
    hide Levelled;
    if regions[i].parent.Some? {
      var j, k := ParentIndexes(regions, regions', i);
      assert regions[j].controller == regions[k].controller;
      assert j == k;
      SameLevel(regions, regions', j);
    } else {
      RootLevel(regions, i);
      RootLevel(regions', i);
    }
  }

  lemma SameRegions(drafts: seq<Region>, regions: seq<Region>, regions': seq<Region>, owner: map<Id, Option<Id>>)
    requires Settled(drafts, regions) && Settled(drafts, regions') && Levelled(regions) && Levelled(regions')
    requires forall r :: r in regions ==> r.controller in owner && r.parent == owner[r.controller]
    requires forall r :: r in regions' ==> r.controller in owner && r.parent == owner[r.controller]
    requires forall i, j :: 0 <= i < j < |drafts| ==> drafts[i].controller != drafts[j].controller
    ensures regions == regions'
  {
    hide Levelled;
    forall i | 0 <= i < |regions|
      ensures regions[i].controller == regions'[i].controller && regions[i].parent == regions'[i].parent
    {
      assert regions[i] in regions && regions'[i] in regions';
    }
    forall i | 0 <= i < |regions|
      ensures regions[i] == regions'[i]
    {
      SameLevel(regions, regions', i);
    }
  }

  lemma SameFinish(full: FullPlan, full': FullPlan, w: Phases, w': Phases, profiles: Profiles, hash: Hash)
    requires Finishes(full, w) && Finishes(full', w') && SamePhases(w, w') && Planned(w, profiles, hash)
    ensures full.plan == w.plan && full'.plan == w'.plan && full.groups == full'.groups && full.regions == full'.regions
  {
    hide GroupsFor, Settled, Levelled, ValidPlan, LoopsOf, ParentsFor, DraftFor;
    SameGroups(full.groups, full'.groups, StepTable(w.plan.steps), w.plan.grouping.groups);
    SameRegions(w.drafts, full.regions, full'.regions, w.owner);
  }

  // ----- The theorem -----

  /** The same outcome: the same kind of error, with the same code if it is about call chains and
      the same region errors, or the same order, path, steps, keys, groups and regions. */
  ghost predicate SameOutcome(r: FullResult, r': FullResult)
  {
    match r
    case ExpansionError(code) => r'.ExpansionError? && (ChainError(code) || ChainError(r'.code) ==> code == r'.code)
    case ValidationErrors(_) => r'.ValidationErrors?
    case RegionFailure(_) => r'.RegionFailure?
    case RegionErrors(errors) =>
      r'.RegionErrors? && (MALFORMED in errors <==> MALFORMED in r'.errors) && (CYCLIC in errors <==> CYCLIC in r'.errors)
    case Finished(full) =>
      && r'.Finished? && full.groups == r'.full.groups && full.regions == r'.full.regions
      && full.plan.steps == r'.full.plan.steps && full.plan.key == r'.full.plan.key
      && full.plan.analysis.order == r'.full.plan.analysis.order
      && full.plan.analysis.criticalPath == r'.full.plan.analysis.criticalPath
  }

  lemma SameExpansionError(code: string, code': string, g: Graph, g': Graph, registry: Registry, registry': Registry, maxDepth: nat)
    requires Alike(g, g') && RegistriesAlike(registry, registry')
    requires ExpansionFails(code, g, registry, [], maxDepth) && ExpansionFails(code', g', registry', [], maxDepth)
    ensures ChainError(code) || ChainError(code') ==> code == code'
  {
    hide Stops, Alike, RegistriesAlike;
    var s :| Stops(s, g, registry, [], maxDepth, code);
    var t :| Stops(t, g', registry', [], maxDepth, code');
    StopMeansBadChain(s, g, registry, [], maxDepth, code);
    StopMeansBadChain(t, g', registry', [], maxDepth, code');
    StopsAtOnePlace(s, t, g, g', registry, registry', [], maxDepth, code, code');
    SamePlaceAtChain(s, t);
  }

  lemma {:induction false} SamePlaceAtChain(s: Stop, t: Stop)
    requires SamePlace(s, t)
    ensures AtChain(s) <==> AtChain(t)
    decreases s
  {
    match s
    case TooFarDown =>
    case Repeat(_) =>
    case Misfit(_, _, _) =>
    case Inside(_, below) =>
      SamePlaceAtChain(below, t.below);
    case Later(_, _, _, _, next) =>
      SamePlaceAtChain(next, t.next);
  }

  /** Whatever compiles the same sources, in whatever order they are stored, comes to the same
      outcome. */
  lemma OutcomeIgnoresStoredOrder(r: FullResult, r': FullResult, w: Phases, w': Phases, g: Graph, g': Graph,
                                  registry: Registry, registry': Registry, maxDepth: nat, rules: Rules, profiles: Profiles, hash: Hash)
    requires SourcesRestored(g, g', registry, registry')
    requires SoundGraph(g, registry) && SoundRegistry(registry) && SoundGraph(g', registry') && SoundRegistry(registry')
    requires Outcome(r, w, g, registry, maxDepth, rules, profiles, hash)
    requires Outcome(r', w', g', registry', maxDepth, rules, profiles, hash)
    ensures SameOutcome(r, r')
  {
    hide SourcesRestored, SoundGraph, SoundRegistry, Alike, RegistriesAlike, SameSources, Runs, ExpansionFails, Accepted, Planned, Permuted,
         WellFormed, RegionsClash, SomeMalformed, Cyclic, FailsAt, Finishes, ChainError;
    SourcesAlike(g, g', registry, registry');
    if r.ExpansionError? && r'.ExpansionError? {
      SameExpansionError(r.code, r'.code, g, g', registry, registry', maxDepth);
    } else if r.ExpansionError? {
      AlikeBack(g, g');
      RegistriesBack(registry, registry');
      SuccessIsNoFailure(w'.d, g', g, registry', registry, maxDepth, w'.x);
    } else if r'.ExpansionError? {
      SuccessIsNoFailure(w.d, g, g', registry, registry', maxDepth, w.x);
    } else {
      SameExpansion(w.d, w'.d, g, g', registry, registry', maxDepth, w.x, w'.x);
      if Accepted(w.x, rules) { AcceptedRestored(w.x, w'.x, rules); }
      PermutedBack(w.x, w'.x);
      if Accepted(w'.x, rules) { AcceptedRestored(w'.x, w.x, rules); }
      if Accepted(w.x, rules) {
        PlannedSame(w, w', profiles, hash);
        if r.Finished? { SameFinish(r.full, r'.full, w, w', profiles, hash); }
      }
    }
  }
}
