/** Deriving all control regions of a plan, and the compiler with that last phase
    (src/comfyng/graph/compiler.py:1094-1311, 1495-1511). */
module ControlPlan {
  import opened Ids
  import opened Layering
  import opened Graphs
  import opened Topology
  import opened CriticalPath
  import opened Reachability
  import opened Fusion
  import opened Contraction
  import opened CacheKeys
  import opened Validation
  import opened Expansion
  import opened Expand
  import opened Compile
  import opened PlanTheorems
  import opened ControlRegions
  import opened ControlNesting

  /** The loop table: one entry per for-each node. */
  ghost predicate LoopsOf(x: Graph, loops: map<Id, RawLoop>)
  {
    && (forall l :: l in loops <==> TypeAt(NodeTable(x.nodes), l) == FOR_EACH)
    && (forall l :: l in loops ==> LoopSets(x, l, loops[l]))
  }

  /** Something follows the loop, but no collect node does. */
  ghost predicate Malformed(x: Graph, loop: Id)
  {
    (exists n :: Below(loop, n, Arcs(x.edges))) && forall n :: !IsBoundary(x, loop, n)
  }

  /** The loops handled so far, and those among them without a boundary. */
  ghost predicate LoopsSoFar(x: Graph, loops: map<Id, RawLoop>, malformed: set<Id>)
  {
    && (forall l :: l in loops ==> LoopSets(x, l, loops[l]))
    && (forall l :: l in malformed <==> l in loops && Malformed(x, l))
  }

  lemma MalformedLoop(x: Graph, loop: Id, bad: bool)
    requires bad <==> (exists n :: Below(loop, n, Arcs(x.edges))) && forall n :: !IsBoundary(x, loop, n)
    ensures bad <==> Malformed(x, loop)
  {
  }

  lemma LoopAdded(x: Graph, loops: map<Id, RawLoop>, malformed: set<Id>, id: Id, raw: RawLoop, bad: bool)
    requires LoopsSoFar(x, loops, malformed) && LoopSets(x, id, raw) && (bad <==> Malformed(x, id)) && id !in loops
    ensures LoopsSoFar(x, loops[id := raw], if bad then malformed + {id} else malformed)
  {
  }

  method AllLoops(x: Graph, nodes: map<Id, Node>, incoming: map<Id, set<Id>>) returns (loops: map<Id, RawLoop>, malformed: set<Id>)
    requires WellFormed(x) && nodes == NodeTable(x.nodes)
    requires Describes(incoming, Flip(Arcs(x.edges))) && forall n :: Successors(incoming, n) == SourcesOf(x.edges, n)
    ensures LoopsOf(x, loops) && forall l :: l in malformed <==> l in loops && Malformed(x, l)
  {
    hide LoopSets, Malformed, NodeTable, Successors, SourcesOf;
    var outgoing := BuildSuccessors(x.edges);
    loops, malformed := map[], {};
    var rest := set id | id in nodes && TypeAt(nodes, id) == FOR_EACH;
    ghost var all := rest;
    while rest != {}
      invariant rest <= all && loops.Keys == all - rest && LoopsSoFar(x, loops, malformed)
    {
      var id := Least(rest);
      var raw, bad := RawLoopOf(x, nodes, id, outgoing, incoming);
      MalformedLoop(x, id, bad);
      LoopAdded(x, loops, malformed, id, raw, bad);
      loops := loops[id := raw];
      malformed := if bad then malformed + {id} else malformed;
      rest := rest - {id};
    }
  }

  /** The iteration bound an annotation carries. */
  function BoundOf(n: Node): Option<int>
  {
    if "items" in n.inputs && n.inputs["items"].Arr? then Some(|n.inputs["items"].items|)
    else if "max_iterations" in n.metadata && n.metadata["max_iterations"].Num? then Some(n.metadata["max_iterations"].number)
    else None
  }

  predicate IsControlStep(nodes: map<Id, Node>, s: ExecutionStep)
  {
    |s.members| == 1 && s.nodeId in nodes && IsControl(nodes[s.nodeId])
  }

  /** A region as derived from its controller, before nesting. */
  ghost predicate DraftFor(x: Graph, loops: map<Id, RawLoop>, steps: seq<ExecutionStep>, rep: map<Id, Id>, d: Region)
  {
    && d.parent.None? && d.depth == 0
    && d.controller in NodeTable(x.nodes) && IsControl(NodeTable(x.nodes)[d.controller])
    && (d.isLoop <==> TypeAt(NodeTable(x.nodes), d.controller) == FOR_EACH)
    && (!d.isLoop ==> ConditionFor(x, loops, steps, rep, d))
    && (d.isLoop ==>
          d.controller in loops && LoopFor(x, loops[d.controller], steps, rep, BoundOf(NodeTable(x.nodes)[d.controller]), d))
  }

  /** The controllers of control steps, in plan order. */
  function ControlHeads(nodes: map<Id, Node>, steps: seq<ExecutionStep>): seq<Id>
  {
    if steps == [] then []
    else
      var last := steps[|steps| - 1];
      ControlHeads(nodes, steps[..|steps| - 1]) + if IsControlStep(nodes, last) then [last.nodeId] else []
  }

  function ControllersOf(drafts: seq<Region>): (ids: seq<Id>)
    ensures |ids| == |drafts| && forall i :: 0 <= i < |drafts| ==> ids[i] == drafts[i].controller
  {
    seq(|drafts|, i requires 0 <= i < |drafts| => drafts[i].controller)
  }

  lemma HeadsGrow(nodes: map<Id, Node>, steps: seq<ExecutionStep>, k: nat)
    requires k < |steps|
    ensures ControlHeads(nodes, steps[..k + 1]) ==
            ControlHeads(nodes, steps[..k]) + if IsControlStep(nodes, steps[k]) then [steps[k].nodeId] else []
  {
    assert steps[..k + 1][..k] == steps[..k];
  }

  /** The drafts follow the control steps of the plan, one for one. */
  ghost predicate Drafted(x: Graph, loops: map<Id, RawLoop>, steps: seq<ExecutionStep>, rep: map<Id, Id>, drafts: seq<Region>, k: nat)
    requires k <= |steps|
  {
    && (forall d :: d in drafts ==> DraftFor(x, loops, steps, rep, d))
    && (forall d :: d in drafts ==> exists i :: StepAt(steps, i, d.controller) && i < k)
    && (forall i :: 0 <= i < k && IsControlStep(NodeTable(x.nodes), steps[i]) ==> HasController(drafts, steps[i].nodeId))
    && (forall i, j :: 0 <= i < j < |drafts| ==> drafts[i].controller != drafts[j].controller)
    && ControllersOf(drafts) == ControlHeads(NodeTable(x.nodes), steps[..k])
  }

  ghost predicate HasController(drafts: seq<Region>, id: Id)
  {
    exists d :: d in drafts && d.controller == id
  }

  method BuildDraft(x: Graph, loops: map<Id, RawLoop>, steps: seq<ExecutionStep>, table: map<Id, ExecutionStep>, rep: map<Id, Id>,
                    incoming: map<Id, set<Id>>, nodes: map<Id, Node>, id: Id) returns (d: Region)
    requires table == StepTable(steps) && Describes(incoming, Flip(Arcs(x.edges))) && LoopsOf(x, loops)
    requires nodes == NodeTable(x.nodes) && id in nodes && IsControl(nodes[id])
    ensures d.controller == id && DraftFor(x, loops, steps, rep, d)
  {
    if nodes[id].typeId == SWITCH {
      d := BuildCondition(x, loops, steps, table, rep, incoming, id);
    } else {
      d := BuildLoop(loops[id], steps, rep, id, BoundOf(nodes[id]), x);
    }
  }

  lemma DraftedStep(x: Graph, loops: map<Id, RawLoop>, steps: seq<ExecutionStep>, rep: map<Id, Id>, drafts: seq<Region>, k: nat, d: Region)
    requires ListsHeads(steps, rep) && k < |steps| && Drafted(x, loops, steps, rep, drafts, k)
    requires d.controller == steps[k].nodeId && DraftFor(x, loops, steps, rep, d) && IsControlStep(NodeTable(x.nodes), steps[k])
    ensures Drafted(x, loops, steps, rep, drafts + [d], k + 1)
  {
    HeadsGrow(NodeTable(x.nodes), steps, k);
    assert ControllersOf(drafts + [d]) == ControllersOf(drafts) + [d.controller];
    assert StepAt(steps, k, d.controller);
    forall e | e in drafts
      ensures e.controller != d.controller
    {
      var i :| StepAt(steps, i, e.controller) && i < k;
    }
    forall i | 0 <= i < k + 1 && IsControlStep(NodeTable(x.nodes), steps[i])
      ensures HasController(drafts + [d], steps[i].nodeId)
    {
      if i == k {
        assert d in drafts + [d];
      } else {
        assert HasController(drafts, steps[i].nodeId);
        var e :| e in drafts && e.controller == steps[i].nodeId;
        assert e in drafts + [d];
      }
    }
  }

  method BuildDrafts(x: Graph, loops: map<Id, RawLoop>, steps: seq<ExecutionStep>, rep: map<Id, Id>, incoming: map<Id, set<Id>>,
                     nodes: map<Id, Node>) returns (drafts: seq<Region>)
    requires Describes(incoming, Flip(Arcs(x.edges))) && LoopsOf(x, loops) && nodes == NodeTable(x.nodes)
    requires ListsHeads(steps, rep)
    ensures Drafted(x, loops, steps, rep, drafts, |steps|)
  {
    var table := StepTable(steps);
    drafts := [];
    for k := 0 to |steps|
      invariant Drafted(x, loops, steps, rep, drafts, k)
    {
      if IsControlStep(nodes, steps[k]) {
        var d := BuildDraft(x, loops, steps, table, rep, incoming, nodes, steps[k].nodeId);
        DraftedStep(x, loops, steps, rep, drafts, k, d);
        drafts := drafts + [d];
      } else {
        DraftedSkip(x, loops, steps, rep, drafts, k);
      }
    }
  }

  lemma DraftedSkip(x: Graph, loops: map<Id, RawLoop>, steps: seq<ExecutionStep>, rep: map<Id, Id>, drafts: seq<Region>, k: nat)
    requires k < |steps| && Drafted(x, loops, steps, rep, drafts, k) && !IsControlStep(NodeTable(x.nodes), steps[k])
    ensures Drafted(x, loops, steps, rep, drafts, k + 1)
  {
    HeadsGrow(NodeTable(x.nodes), steps, k);
    forall d | d in drafts
      ensures exists i :: StepAt(steps, i, d.controller) && i < k + 1
    {
      var i :| StepAt(steps, i, d.controller) && i < k;
    }
  }

  // ----- Nesting -----

  function StepsOfRegion(r: Region): set<Id>
  {
    Elements(r.iterable) + Elements(r.body) + Elements(r.boundary) + set b, m | b in r.branches && m in b.members :: m
  }

  function ClaimsOf(drafts: seq<Region>): (claims: seq<Claim>)
    ensures |claims| == |drafts|
    ensures forall i :: 0 <= i < |drafts| ==> claims[i] == Claim(drafts[i].controller, StepsOfRegion(drafts[i]))
  {
    seq(|drafts|, i requires 0 <= i < |drafts| => Claim(drafts[i].controller, StepsOfRegion(drafts[i])))
  }

  function Nested(drafts: seq<Region>, parent: map<Id, Option<Id>>, depths: map<Id, nat>): (regions: seq<Region>)
    requires forall d :: d in drafts ==> d.controller in parent && d.controller in depths
    ensures |regions| == |drafts|
    ensures forall i :: 0 <= i < |drafts| ==>
              regions[i] == drafts[i].(parent := parent[drafts[i].controller], depth := depths[drafts[i].controller])
  {
    seq(|drafts|, i requires 0 <= i < |drafts| =>
      drafts[i].(parent := parent[drafts[i].controller], depth := depths[drafts[i].controller]))
  }

  /** The parent exists, owns this controller and lies one level up. */
  ghost predicate NestedIn(r: Region, regions: seq<Region>)
  {
    exists p :: p in regions && Some(p.controller) == r.parent && r.controller in StepsOfRegion(p) && r.depth == p.depth + 1
  }

  lemma ControllersAreKeys(drafts: seq<Region>, parent: map<Id, Option<Id>>)
    requires ParentsFor(ClaimsOf(drafts), parent)
    ensures Elements(ControllersOf(drafts)) == parent.Keys
    ensures forall d :: d in drafts ==> d.controller in parent
  {
    var claims, order := ClaimsOf(drafts), ControllersOf(drafts);
    forall c
      ensures c in Elements(order) <==> c in parent
    {
      if c in parent {
        var i :| 0 <= i < |claims| && claims[i].controller == c;
        assert order[i] == c;
      }
      if c in order {
        var i :| 0 <= i < |order| && order[i] == c;
        assert claims[i].controller == c;
      }
    }
    forall d | d in drafts
      ensures d.controller in parent
    {
      var i :| 0 <= i < |drafts| && drafts[i] == d;
      assert claims[i].controller == d.controller;
    }
  }

  /** The regions are the drafts but for parent and depth. */
  ghost predicate Settled(drafts: seq<Region>, regions: seq<Region>)
  {
    |regions| == |drafts|
    && forall i :: 0 <= i < |drafts| ==> regions[i] == drafts[i].(parent := regions[i].parent, depth := regions[i].depth)
  }

  method Nest(drafts: seq<Region>) returns (regions: seq<Region>, cyclic: bool, ghost owner: map<Id, Option<Id>>)
    requires forall i, j :: 0 <= i < j < |drafts| ==> drafts[i].controller != drafts[j].controller
    ensures Settled(drafts, regions)
    ensures forall r :: r in regions ==> (r.parent.None? <==> r.depth == 0) && r.parent != Some(r.controller)
    ensures !cyclic ==> forall r :: r in regions && r.parent.Some? ==> NestedIn(r, regions)
    ensures ParentsFor(ClaimsOf(drafts), owner) && (cyclic <==> Cyclic(owner))
    ensures forall r :: r in regions ==> r.controller in owner && r.parent == owner[r.controller]
  {
    hide StepsOfRegion, NestedIn, ParentsFor, Cyclic;
    var claims := ClaimsOf(drafts);
    var parent := Parents(claims);
    owner := parent;
    var order := ControllersOf(drafts);
    ControllersAreKeys(drafts, parent);
    var depths;
    depths, cyclic := ResolveAll(parent, order);
    regions := Nested(drafts, parent, depths);
    forall i | 0 <= i < |regions|
      ensures regions[i].parent.None? <==> regions[i].depth == 0
      ensures regions[i].parent != Some(regions[i].controller)
      ensures !cyclic && regions[i].parent.Some? ==> NestedIn(regions[i], regions)
    {
      RegionNested(drafts, parent, depths, cyclic, regions, i);
    }
  }

  lemma SameSteps(d: Region, r: Region)
    requires r == d.(parent := r.parent, depth := r.depth)
    ensures StepsOfRegion(r) == StepsOfRegion(d)
  {
  }

  lemma RegionNested(drafts: seq<Region>, parent: map<Id, Option<Id>>, depths: map<Id, nat>, cyclic: bool, regions: seq<Region>, i: nat)
    requires ParentsFor(ClaimsOf(drafts), parent) && depths.Keys == parent.Keys && i < |drafts|
    requires forall d :: d in drafts ==> d.controller in parent
    requires regions == Nested(drafts, parent, depths)
    requires !cyclic ==> forall c :: c in parent ==> DepthOk(parent, depths, c)
    requires forall c :: c in parent ==> (depths[c] == 0 <==> parent[c].None?)
    ensures regions[i].parent.None? <==> regions[i].depth == 0
    ensures regions[i].parent != Some(regions[i].controller)
    ensures !cyclic && regions[i].parent.Some? ==> NestedIn(regions[i], regions)
  {
    hide StepsOfRegion;
    var claims, c := ClaimsOf(drafts), drafts[i].controller;
    assert claims[i].controller == c && drafts[i] in drafts;
    assert ParentFor(claims, i, parent);
    var choice: Option<nat> :| Innermost(claims, i, choice) && parent[c] == ControllerOf(claims, choice);
    if choice.Some? {
      assert Owns(claims, choice.value, i);
      assert regions[choice.value] in regions;
      SameSteps(drafts[choice.value], regions[choice.value]);
      if !cyclic {
        assert DepthOk(parent, depths, c);
        assert NestedIn(regions[i], regions);
      }
    }
  }

  // ----- The whole derivation -----

  datatype RegionsResult =
    | Regions(regions: seq<Region>, errors: seq<string>)
    | ConstructorFails(controller: Id)

  /** What makes a region's constructor fail. */
  predicate Fails(r: Region)
  {
    !Bounded(r) || Overlaps(r)
  }

  method FirstFailure(regions: seq<Region>) returns (found: Option<Id>)
    ensures found.None? <==> forall r :: r in regions ==> !Fails(r)
    ensures found.Some? ==> exists r :: r in regions && Fails(r) && r.controller == found.value
  {
    found := None;
    for k := 0 to |regions|
      invariant found.None? <==> forall r :: r in regions[..k] ==> !Fails(r)
      invariant found.Some? ==> exists r :: r in regions && Fails(r) && r.controller == found.value
    {
      assert regions[..k + 1] == regions[..k] + [regions[k]];
      if found.None? && Fails(regions[k]) { found := Some(regions[k].controller); }
    }
    assert regions[..|regions|] == regions;
  }

  /** A body node and a boundary node of some loop were fused into one step. */
  ghost predicate FusedAcrossBoundary(loops: map<Id, RawLoop>, next: map<Id, Id>)
  {
    exists l :: l in loops && LinkJoins(loops[l].body, loops[l].boundaries, next)
  }

  lemma DraftOverlaps(x: Graph, next: map<Id, Id>, chains: seq<seq<Id>>, rep: map<Id, Id>, steps: seq<ExecutionStep>,
                      loops: map<Id, RawLoop>, r: Region)
    requires Setting(x, next, chains, rep, steps) && LoopsOf(x, loops) && DraftFor(x, loops, steps, rep, r)
    ensures Overlaps(r) <==> r.isLoop && LinkJoins(loops[r.controller].body, loops[r.controller].boundaries, next)
  {
    if r.isLoop {
      OverlapIffFused(x, next, chains, rep, steps, loops[r.controller], BoundOf(NodeTable(x.nodes)[r.controller]), r);
      OverlapIsMeeting(r);
    }
  }

  lemma SingleMember(members: seq<Id>, id: Id)
    requires Distinct(members) && members != [] && forall m :: m in members ==> m == id
    ensures members == [id]
  {
    assert members[0] in members;
    DistinctCount(members);
    assert Elements(members) == {id};
  }

  /** Every for-each node leads a step of its own, so it has a region. */
  lemma ControlHasStep(x: Graph, next: map<Id, Id>, chains: seq<seq<Id>>, rep: map<Id, Id>, steps: seq<ExecutionStep>, id: Id)
    returns (k: nat)
    requires Setting(x, next, chains, rep, steps) && id in NodeTable(x.nodes) && IsControl(NodeTable(x.nodes)[id])
    ensures StepAt(steps, k, id) && IsControlStep(NodeTable(x.nodes), steps[k])
  {
    assert id in NodeIds(x);
    assert Unlinked(id, next);
    AloneMember(next, chains, rep, id, id);
    var i :| StepAt(steps, i, rep[id]);
    k := i;
    assert ClassOf(steps[k], rep);
    forall m | m in steps[k].members
      ensures m == id
    {
      AloneMember(next, chains, rep, id, m);
    }
    SingleMember(steps[k].members, id);
  }

  lemma OverlapsIffFused(x: Graph, next: map<Id, Id>, chains: seq<seq<Id>>, rep: map<Id, Id>, steps: seq<ExecutionStep>,
                         loops: map<Id, RawLoop>, drafts: seq<Region>)
    requires Setting(x, next, chains, rep, steps) && LoopsOf(x, loops) && Drafted(x, loops, steps, rep, drafts, |steps|)
    ensures (exists r :: r in drafts && Overlaps(r)) <==> FusedAcrossBoundary(loops, next)
  {
    if r :| r in drafts && Overlaps(r) {
      DraftOverlaps(x, next, chains, rep, steps, loops, r);
    }
    if l :| l in loops && LinkJoins(loops[l].body, loops[l].boundaries, next) {
      var k := ControlHasStep(x, next, chains, rep, steps, l);
      assert HasController(drafts, l);
      var d :| d in drafts && d.controller == l;
      DraftOverlaps(x, next, chains, rep, steps, loops, d);
    }
  }

  lemma RegionIsSound(x: Graph, next: map<Id, Id>, chains: seq<seq<Id>>, rep: map<Id, Id>, steps: seq<ExecutionStep>,
                         loops: map<Id, RawLoop>, d: Region, r: Region)
    requires Setting(x, next, chains, rep, steps) && LoopsOf(x, loops) && DraftFor(x, loops, steps, rep, d)
    requires r == d.(parent := r.parent, depth := r.depth)
    requires (r.parent.None? <==> r.depth == 0) && r.parent != Some(r.controller)
    ensures RegionSound(r)
  {
    assert d.controller in NodeIds(x) && Unlinked(d.controller, next);
    forall l | l in loops
      ensures Unlinked(l, next)
    {
      assert IsControl(NodeTable(x.nodes)[l]);
    }
    if r.isLoop {
      var bound := BoundOf(NodeTable(x.nodes)[d.controller]);
      assert LoopFor(x, loops[d.controller], steps, rep, bound, r);
      LoopSound(x, next, chains, rep, steps, loops[d.controller], bound, r);
    } else {
      SameCondition(x, loops, steps, rep, d, r);
      ConditionAccepted(x, next, chains, rep, steps, loops, r);
    }
  }

  lemma SameCondition(x: Graph, loops: map<Id, RawLoop>, steps: seq<ExecutionStep>, rep: map<Id, Id>, d: Region, r: Region)
    requires ConditionFor(x, loops, steps, rep, d) && r == d.(parent := r.parent, depth := r.depth)
    ensures ConditionFor(x, loops, steps, rep, r)
  {
  }

  /** One region per control node, in plan order. */
  ghost predicate RegionsMatch(x: Graph, regions: seq<Region>)
  {
    && (forall i, j :: 0 <= i < j < |regions| ==> regions[i].controller != regions[j].controller)
    && (forall r :: r in regions ==> r.controller in NodeTable(x.nodes) && IsControl(NodeTable(x.nodes)[r.controller]))
    && (forall id :: id in NodeTable(x.nodes) && IsControl(NodeTable(x.nodes)[id]) ==> HasController(regions, id))
  }

  lemma DraftsMatch(x: Graph, next: map<Id, Id>, chains: seq<seq<Id>>, rep: map<Id, Id>, steps: seq<ExecutionStep>,
                    loops: map<Id, RawLoop>, drafts: seq<Region>, regions: seq<Region>)
    requires Setting(x, next, chains, rep, steps) && Drafted(x, loops, steps, rep, drafts, |steps|)
    requires |regions| == |drafts| && forall i :: 0 <= i < |drafts| ==> regions[i].controller == drafts[i].controller
    ensures RegionsMatch(x, regions)
  {
    forall id | id in NodeTable(x.nodes) && IsControl(NodeTable(x.nodes)[id])
      ensures HasController(regions, id)
    {
      var k := ControlHasStep(x, next, chains, rep, steps, id);
      assert HasController(drafts, id);
      var i :| 0 <= i < |drafts| && drafts[i].controller == id;
      assert regions[i] in regions;
    }
    forall r | r in regions
      ensures r.controller in NodeTable(x.nodes) && IsControl(NodeTable(x.nodes)[r.controller])
    {
      var i :| 0 <= i < |regions| && regions[i] == r;
      assert DraftFor(x, loops, steps, rep, drafts[i]);
    }
  }

  /** The drafts of all control steps, with the loop sets behind them. */
  method DeriveDrafts(x: Graph, steps: seq<ExecutionStep>, rep: map<Id, Id>)
    returns (drafts: seq<Region>, loops: map<Id, RawLoop>, malformed: set<Id>)
    requires WellFormed(x) && ListsHeads(steps, rep)
    ensures LoopsOf(x, loops) && Drafted(x, loops, steps, rep, drafts, |steps|)
    ensures forall l :: l in malformed <==> l in loops && Malformed(x, l)
  {
    var nodes := NodeTable(x.nodes);
    var incoming := BuildPredecessors(x.edges);
    loops, malformed := AllLoops(x, nodes, incoming);
    drafts := BuildDrafts(x, loops, steps, rep, incoming, nodes);
  }

  const MALFORMED := "malformed_loop_region"
  const CYCLIC := "invalid_control_nesting"

  function ErrorsOf(malformed: bool, cyclic: bool): (errors: seq<string>)
    ensures MALFORMED in errors <==> malformed
    ensures CYCLIC in errors <==> cyclic
    ensures forall e :: e in errors ==> e == MALFORMED || e == CYCLIC
  {
    (if malformed then [MALFORMED] else []) + if cyclic then [CYCLIC] else []
  }

  /** Something follows some loop, but no collect node does. */
  ghost predicate SomeMalformed(x: Graph)
  {
    exists l :: TypeAt(NodeTable(x.nodes), l) == FOR_EACH && Malformed(x, l)
  }

  /** A region names steps of the plan only, is of its controller's kind and carries its bound. */
  ghost predicate RegionFits(x: Graph, steps: seq<ExecutionStep>, r: Region)
  {
    && r.controller in NodeTable(x.nodes)
    && (r.isLoop <==> TypeAt(NodeTable(x.nodes), r.controller) == FOR_EACH)
    && (r.isLoop ==> r.bound == BoundOf(NodeTable(x.nodes)[r.controller]))
    && (forall m :: m in StepsOfRegion(r) ==> exists k :: StepAt(steps, k, m))
  }

  lemma DraftFits(x: Graph, loops: map<Id, RawLoop>, steps: seq<ExecutionStep>, rep: map<Id, Id>, d: Region, r: Region)
    requires DraftFor(x, loops, steps, rep, d) && r == d.(parent := r.parent, depth := r.depth)
    ensures RegionFits(x, steps, r)
  {
    forall m | m in StepsOfRegion(r)
      ensures exists k :: StepAt(steps, k, m)
    {
      if r.isLoop {
        var raw := loops[d.controller];
        InStepsMembers(steps, RepsOf(raw.iterable, rep), m);
        InStepsMembers(steps, RepsOf(raw.body, rep), m);
        InStepsMembers(steps, RepsOf(raw.boundaries, rep), m);
      } else {
        var b :| b in r.branches && m in b.members;
        var s :| BranchNodes(x, loops, d.controller, b.name, s) && b.members == InSteps(steps, RepsOf(s, rep));
        InStepsMembers(steps, RepsOf(s, rep), m);
      }
    }
  }

  lemma AllFit(x: Graph, loops: map<Id, RawLoop>, steps: seq<ExecutionStep>, rep: map<Id, Id>, drafts: seq<Region>, regions: seq<Region>)
    requires (forall d :: d in drafts ==> DraftFor(x, loops, steps, rep, d)) && Settled(drafts, regions)
    ensures forall r :: r in regions ==> RegionFits(x, steps, r)
  {
    hide DraftFor, RegionFits;
    forall r | r in regions
      ensures RegionFits(x, steps, r)
    {
      var i :| 0 <= i < |regions| && regions[i] == r;
      DraftFits(x, loops, steps, rep, drafts[i], r);
    }
  }

  /** A loop of an accepted graph has a bound within the limit. */
  ghost predicate LoopBounded(r: Region, rules: Rules)
  {
    r.isLoop ==> r.bound.Some? && 0 <= r.bound.value <= rules.maxLoopIterations
  }

  lemma AcceptedLoopsBounded(x: Graph, steps: seq<ExecutionStep>, rules: Rules, r: Region)
    requires Accepted(x, rules) && RegionFits(x, steps, r)
    ensures LoopBounded(r, rules)
  {
    var n := NodeTable(x.nodes)[r.controller];
    assert n in x.nodes && NodeOk(x, rules, n);
  }

  /** A for-each node whose annotation carries no usable bound. */
  ghost predicate Unbounded(x: Graph)
  {
    exists l :: TypeAt(NodeTable(x.nodes), l) == FOR_EACH && l in NodeTable(x.nodes) && NoBound(NodeTable(x.nodes)[l])
  }

  predicate NoBound(n: Node)
  {
    BoundOf(n).None? || BoundOf(n).value < 0
  }

  /** Some region of the plan cannot be constructed: a loop without a bound, or one whose body
      was fused with its boundary. */
  ghost predicate Unbuildable(x: Graph, loops: map<Id, RawLoop>, next: map<Id, Id>)
  {
    Unbounded(x) || FusedAcrossBoundary(loops, next)
  }

  /** The region of this controller is one that cannot be constructed. */
  ghost predicate FailsAt(x: Graph, loops: map<Id, RawLoop>, next: map<Id, Id>, controller: Id)
  {
    && controller in NodeTable(x.nodes) && controller in loops
    && (NoBound(NodeTable(x.nodes)[controller]) || LinkJoins(loops[controller].body, loops[controller].boundaries, next))
  }

  lemma FailureIsReal(x: Graph, next: map<Id, Id>, chains: seq<seq<Id>>, rep: map<Id, Id>, steps: seq<ExecutionStep>,
                      loops: map<Id, RawLoop>, drafts: seq<Region>, regions: seq<Region>, controller: Id)
    requires Setting(x, next, chains, rep, steps) && LoopsOf(x, loops) && Settled(drafts, regions)
    requires forall d :: d in drafts ==> DraftFor(x, loops, steps, rep, d)
    requires exists r :: r in regions && Fails(r) && r.controller == controller
    ensures FailsAt(x, loops, next, controller)
  {
    hide Setting, LoopsOf;
    var r :| r in regions && Fails(r) && r.controller == controller;
    var i :| 0 <= i < |regions| && regions[i] == r;
    assert drafts[i] in drafts && Overlaps(drafts[i]) == Overlaps(r);
    DraftOverlaps(x, next, chains, rep, steps, loops, drafts[i]);
  }

  /** What the regions of a plan are, once they are constructed. */
  ghost predicate RegionsHold(x: Graph, steps: seq<ExecutionStep>, regions: seq<Region>, owner: map<Id, Option<Id>>)
  {
    && (forall g :: g in regions ==> RegionAccepted(g) && RegionFits(x, steps, g))
    && (forall g :: g in regions ==> g.controller in owner && g.parent == owner[g.controller])
    && ControllersOf(regions) == ControlHeads(NodeTable(x.nodes), steps)
    && RegionsMatch(x, regions)
    && (!Cyclic(owner) ==> forall g :: g in regions && g.parent.Some? ==> NestedIn(g, regions))
  }

  /** `_derive_control_regions`: it fails exactly when some region cannot be constructed.
      Otherwise it gives one accepted region per control node, in plan order, as drafted from the
      graph and each with its innermost owner as parent; it reports exactly malformed loops and
      cyclic nesting. */
  method DeriveControlRegions(x: Graph, steps: seq<ExecutionStep>, rep: map<Id, Id>, ghost next: map<Id, Id>, ghost chains: seq<seq<Id>>)
    returns (r: RegionsResult, ghost loops: map<Id, RawLoop>, ghost drafts: seq<Region>, ghost owner: map<Id, Option<Id>>)
    requires Setting(x, next, chains, rep, steps)
    ensures LoopsOf(x, loops) && Drafted(x, loops, steps, rep, drafts, |steps|) && ParentsFor(ClaimsOf(drafts), owner)
    ensures r.ConstructorFails? <==> Unbuildable(x, loops, next)
    ensures r.ConstructorFails? ==> FailsAt(x, loops, next, r.controller)
    ensures r.Regions? ==> RegionsHold(x, steps, r.regions, owner) && Settled(drafts, r.regions)
    ensures r.Regions? ==> (MALFORMED in r.errors <==> SomeMalformed(x)) && (CYCLIC in r.errors <==> Cyclic(owner))
    ensures r.Regions? ==> forall e :: e in r.errors ==> e == MALFORMED || e == CYCLIC
  {
    hide LoopsOf, Malformed, NestedIn, ParentsFor, Cyclic, RegionAccepted, Setting, FusedAcrossBoundary, RegionSound, FailsAt;
    var drafted, table, malformed := DeriveDrafts(x, steps, rep) by { SettingSteps(x, next, chains, rep, steps); }
    loops, drafts := table, drafted;
    SomeLoopMalformed(x, loops, malformed);
    var regions, cyclic, parents := Nest(drafted);
    owner := parents;
    RegionsSound(x, next, chains, rep, steps, loops, drafts, regions);
    AllFit(x, loops, steps, rep, drafts, regions);
    FailsIff(x, next, chains, rep, steps, loops, regions);
    SameControllers(drafts, regions, NodeTable(x.nodes), steps);
    var failure := FirstFailure(regions);
    if failure.Some? {
      FailureIsReal(x, next, chains, rep, steps, loops, drafts, regions, failure.value);
      return ConstructorFails(failure.value), loops, drafts, owner;
    }
    AllAccepted(regions);
    r := Regions(regions, ErrorsOf(malformed != {}, cyclic));
  }

  lemma SettingSteps(x: Graph, next: map<Id, Id>, chains: seq<seq<Id>>, rep: map<Id, Id>, steps: seq<ExecutionStep>)
    requires Setting(x, next, chains, rep, steps)
    ensures WellFormed(x) && ListsHeads(steps, rep)
  {
  }

  lemma SomeLoopMalformed(x: Graph, loops: map<Id, RawLoop>, malformed: set<Id>)
    requires LoopsOf(x, loops) && forall l :: l in malformed <==> l in loops && Malformed(x, l)
    ensures malformed != {} <==> SomeMalformed(x)
  {
    hide Malformed;
    if l :| TypeAt(NodeTable(x.nodes), l) == FOR_EACH && Malformed(x, l) {
      assert l in malformed;
    }
  }

  lemma SameControllers(drafts: seq<Region>, regions: seq<Region>, nodes: map<Id, Node>, steps: seq<ExecutionStep>)
    requires Settled(drafts, regions) && ControllersOf(drafts) == ControlHeads(nodes, steps[..|steps|])
    ensures ControllersOf(regions) == ControlHeads(nodes, steps)
  {
    assert steps[..|steps|] == steps;
    assert ControllersOf(regions) == ControllersOf(drafts);
  }

  lemma AllAccepted(regions: seq<Region>)
    requires forall r :: r in regions ==> RegionSound(r) && !Fails(r)
    ensures forall r :: r in regions ==> RegionAccepted(r)
  {
  }

  /** Some region fails exactly when the plan is unbuildable. */
  lemma FailsIff(x: Graph, next: map<Id, Id>, chains: seq<seq<Id>>, rep: map<Id, Id>, steps: seq<ExecutionStep>,
                 loops: map<Id, RawLoop>, regions: seq<Region>)
    requires Setting(x, next, chains, rep, steps) && RegionsMatch(x, regions)
    requires (exists r :: r in regions && Overlaps(r)) <==> FusedAcrossBoundary(loops, next)
    requires forall r :: r in regions ==> RegionFits(x, steps, r)
    ensures (exists r :: r in regions && Fails(r)) <==> Unbuildable(x, loops, next)
  {
    hide FusedAcrossBoundary, Overlaps, Setting;
    if r :| r in regions && !Bounded(r) {
      assert NoBound(NodeTable(x.nodes)[r.controller]);
    }
    if l :| TypeAt(NodeTable(x.nodes), l) == FOR_EACH && l in NodeTable(x.nodes) && NoBound(NodeTable(x.nodes)[l]) {
      assert HasController(regions, l);
      var r :| r in regions && r.controller == l;
      assert Fails(r);
    }
  }

  lemma RegionsSound(x: Graph, next: map<Id, Id>, chains: seq<seq<Id>>, rep: map<Id, Id>, steps: seq<ExecutionStep>,
                     loops: map<Id, RawLoop>, drafts: seq<Region>, regions: seq<Region>)
    requires Setting(x, next, chains, rep, steps) && LoopsOf(x, loops) && Drafted(x, loops, steps, rep, drafts, |steps|)
    requires Settled(drafts, regions)
    requires forall r :: r in regions ==> (r.parent.None? <==> r.depth == 0) && r.parent != Some(r.controller)
    ensures forall r :: r in regions ==> RegionSound(r)
    ensures (exists r :: r in regions && Overlaps(r)) <==> FusedAcrossBoundary(loops, next)
    ensures RegionsMatch(x, regions)
  {
    OverlapsIffFused(x, next, chains, rep, steps, loops, drafts);
    DraftsMatch(x, next, chains, rep, steps, loops, drafts, regions);
    SameOverlaps(drafts, regions);
    forall r | r in regions
      ensures RegionSound(r)
    {
      var i :| 0 <= i < |regions| && regions[i] == r;
      assert drafts[i] in drafts;
      RegionIsSound(x, next, chains, rep, steps, loops, drafts[i], r);
    }
  }

  lemma SameOverlaps(drafts: seq<Region>, regions: seq<Region>)
    requires Settled(drafts, regions)
    ensures (exists r :: r in regions && Overlaps(r)) <==> (exists d :: d in drafts && Overlaps(d))
  {
    if r :| r in regions && Overlaps(r) {
      var i :| 0 <= i < |regions| && regions[i] == r;
      assert drafts[i] in drafts && Overlaps(drafts[i]);
    }
    if d :| d in drafts && Overlaps(d) {
      var i :| 0 <= i < |drafts| && drafts[i] == d;
      assert regions[i] in regions && Overlaps(regions[i]);
    }
  }

  // ----- The last phase of the compiler -----

  /** Control nodes are never fused. */
  lemma ControlsUnlinked(x: Graph, profiles: Profiles, n: Node)
    requires WellFormed(x) && n in x.nodes && IsControl(n)
    ensures Unlinked(n.id, NextMap(x, profiles))
  {
    var next := NextMap(x, profiles);
    if n.id in next {
      LinkSafety(x, profiles, n.id);
      UniqueNode(x, n, NodeAt(x, n.id));
    }
    forall a | a in next
      ensures next[a] != n.id
    {
      LinkSafety(x, profiles, a);
      if next[a] == n.id { UniqueNode(x, n, NodeAt(x, n.id)); }
    }
  }

  lemma StepsFitSetting(steps: seq<ExecutionStep>, a: Analysis, q: Grouping, next: map<Id, Id>, hash: Hash)
    requires Analysed(a, next, hash) && Grouped(a, q, next) && StepsFor(steps, Flatten(q.groups), a, q, hash)
    ensures ListsHeads(steps, q.rep) && Classes(steps, q.rep) && DependenciesAgree(steps)
  {
    HeadsOnce(a, q, next);
    StepsListHeads(steps, Flatten(q.groups), q.rep);
    StepsAreClasses(steps, Flatten(q.groups), a, q, next, hash);
    DependenciesHold(steps, Flatten(q.groups), a, q, next, hash);
  }

  lemma PlanSetting(p: Plan, profiles: Profiles, hash: Hash)
    requires ValidPlan(p, profiles, hash)
    ensures Setting(p.analysis.graph, NextMap(p.analysis.graph, profiles), MembersOf(p.analysis.units), p.grouping.rep, p.steps)
  {
    var x := p.analysis.graph;
    StepsFitSetting(p.steps, p.analysis, p.grouping, NextMap(x, profiles), hash);
    forall n | n in x.nodes && IsControl(n)
      ensures Unlinked(n.id, NextMap(x, profiles))
    {
      ControlsUnlinked(x, profiles, n);
    }
  }
}
