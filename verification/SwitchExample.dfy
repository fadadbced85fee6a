/** A switch whose two values are computed by one node each, from a node they share
    (src/comfyng/graph/compiler.py:1159-1213). */
module SwitchExample {
  import opened Ids
  import opened Layering
  import opened Graphs
  import opened Topology
  import opened CriticalPath
  import opened Reachability
  import opened Fusion
  import opened Contraction
  import opened CacheKeys
  import opened Validation
  import opened Acceptance
  import opened Expansion
  import opened Expand
  import opened Compile
  import opened PlanTheorems
  import opened PlanSteps
  import opened ControlRegions
  import opened ControlNesting
  import opened ControlPlan
  import opened FullCompile
  import opened ControlExamples
  import opened RegionMembers

  const TRUTH := Arr([Str("boolean")])

  /** The shipped switch (schemas/nodes/control_switch.input.json), a node that makes something, one
      that decides and one that works. */
  function SwitchRules(): Rules
  {
    Rules(map[(SWITCH, "1.0.0") := Definition(map["condition" := TRUTH, "true_value" := ANYTHING, "false_value" := ANYTHING],
                                              map["value" := ANYTHING], {"condition", "true_value", "false_value"}),
              ("make", "1.0.0") := Definition(map[], map["out" := ANYTHING], {}),
              ("decide", "1.0.0") := Definition(map[], map["out" := TRUTH], {}),
              ("work", "1.0.0") := Definition(map["in" := ANYTHING], map["out" := ANYTHING], {"in"})],
          LiteralFits, TypesFit, 1)
  }

  function Plainly(n: nat, typeId: string): Node
  {
    Node(Base(n), typeId, "1.0.0", map[], map[])
  }

  const SHARED := Plainly(0, "make")
  const LOW := Plainly(1, "work")
  const HIGH := Plainly(2, "work")
  const DECIDER := Plainly(3, "decide")
  const SELECTOR := Plainly(4, SWITCH)

  const TO_LOW := Edge(Base(0), "out", Base(1), "in")
  const TO_HIGH := Edge(Base(0), "out", Base(2), "in")
  const FALSE_SIDE := Edge(Base(1), "out", Base(4), "false_value")
  const TRUE_SIDE := Edge(Base(2), "out", Base(4), "true_value")
  const DECISION := Edge(Base(3), "out", Base(4), "condition")

  const WIRES := [TO_LOW, TO_HIGH, FALSE_SIDE, TRUE_SIDE, DECISION]

  function SwitchGraph(): Graph
  {
    Graph(0, 1, [SHARED, LOW, HIGH, DECIDER, SELECTOR], WIRES, map[], map[])
  }

  // ----- It is accepted -----

  lemma WireAt(id: Id, p: string)
    ensures EdgesAt(WIRES, id, p) ==
            if id == Base(1) && p == "in" then {0} else if id == Base(2) && p == "in" then {1}
            else if id == Base(4) && p == "false_value" then {2} else if id == Base(4) && p == "true_value" then {3}
            else if id == Base(4) && p == "condition" then {4} else {}
  {
  }

  lemma SwitchNodeFits(n: Node)
    requires n in SwitchGraph().nodes
    ensures Catalogued(SwitchRules(), n) && NodeFits(SwitchGraph(), SwitchRules(), n)
  {
    hide EdgesAt;
    var g := SwitchGraph();
    forall p
      ensures Ways(g, n, p) == |EdgesAt(WIRES, n.id, p)|
    {
      assert NamesAt(g.inputs, n.id, p) == {};
    }
    forall p
      ensures Ways(g, n, p) <= 1
      ensures p in Entry(SwitchRules(), n).required ==> Ways(g, n, p) == 1
    {
      WireAt(n.id, p);
    }
  }

  lemma WireFits(e: Edge)
    requires e in WIRES
    ensures Connected(SwitchGraph(), SwitchRules(), e)
  {
    var g, rules := SwitchGraph(), SwitchRules();
    assert g.nodes[0] == SHARED && g.nodes[1] == LOW && g.nodes[2] == HIGH && g.nodes[3] == DECIDER && g.nodes[4] == SELECTOR;
    assert rules.compatible(ANYTHING, ANYTHING) == TypesFit(ANYTHING, ANYTHING);
    assert rules.compatible(TRUTH, TRUTH) == TypesFit(TRUTH, TRUTH);
    if e == TO_LOW {
      assert Connects(g, rules, e, SHARED, LOW);
    } else if e == TO_HIGH {
      assert Connects(g, rules, e, SHARED, HIGH);
    } else if e == FALSE_SIDE {
      assert Connects(g, rules, e, LOW, SELECTOR);
    } else if e == TRUE_SIDE {
      assert Connects(g, rules, e, HIGH, SELECTOR);
    } else {
      assert Connects(g, rules, e, DECIDER, SELECTOR);
    }
  }

  lemma RisingHasNoRoundTrip(edges: seq<Edge>)
    requires forall e :: e in edges ==> Rises(e)
    ensures NoRoundTrip(edges)
  {
    var ends := (set e | e in edges :: e.source) + set e | e in edges :: e.target;
    var rank := map id: Id | id in ends :: if id.Base? then id.n else 0;
    RankedIsAcyclic(ends, Arcs(edges), rank);
    RoundTripsAreCycles(edges);
  }

  lemma InOrderAccepted(g: Graph, rules: Rules)
    requires forall i, j :: 0 <= i < j < |g.nodes| ==> g.nodes[i].id != g.nodes[j].id
    requires forall n :: n in g.nodes ==> Catalogued(rules, n) && NodeFits(g, rules, n)
    requires forall e :: e in g.edges ==> Connected(g, rules, e) && Rises(e)
    requires g.inputs == map[] && g.outputs == map[]
    ensures Accepted(g, rules)
  {
    hide NoRoundTrip, Connected, Catalogued, NodeFits, Rises;
    RisingHasNoRoundTrip(g.edges);
    AcceptedIff(g, rules);
  }

  lemma SwitchAccepted()
    ensures Accepted(SwitchGraph(), SwitchRules())
  {
    hide Accepted, Connected, Catalogued, NodeFits, SwitchRules;
    var g := SwitchGraph();
    forall n | n in g.nodes
      ensures Catalogued(SwitchRules(), n) && NodeFits(g, SwitchRules(), n)
    {
      SwitchNodeFits(n);
    }
    forall e | e in g.edges
      ensures Connected(g, SwitchRules(), e) && Rises(e)
    {
      WireFits(e);
    }
    InOrderAccepted(g, SwitchRules());
  }

  // ----- Which nodes lead where -----

  /** A set that no edge leaves holds every walk that starts in it. */
  lemma {:induction false} WalkStays(edges: seq<Edge>, p: seq<Id>, inside: set<Id>)
    requires Walk(edges, p) && p[0] in inside
    requires forall e :: e in edges && e.source in inside ==> e.target in inside
    ensures p[|p| - 1] in inside
    decreases |p|
  {
    if |p| > 1 {
      var front := p[..|p| - 1];
      forall i | 0 <= i < |front| - 1
        ensures Joined(edges, front[i], front[i + 1])
      {
        assert Joined(edges, p[i], p[i + 1]);
      }
      WalkStays(edges, front, inside);
      var last := |p| - 2;
      assert Joined(edges, p[last], p[last + 1]);
    }
  }

  lemma Unreached(edges: seq<Edge>, a: Id, b: Id, inside: set<Id>)
    requires a in inside && b !in inside
    requires forall e :: e in edges && e.source in inside ==> e.target in inside
    ensures !WalksTo(edges, a, b)
  {
    if p :| WalkBetween(edges, p, a, b) {
      WalkStays(edges, p, inside);
    }
  }

  lemma StandsAt(edges: seq<Edge>, a: Id)
    ensures WalksTo(edges, a, a)
  {
    assert WalkBetween(edges, [a], a, a);
  }

  lemma StepsTo(edges: seq<Edge>, e: Edge)
    requires e in edges
    ensures WalksTo(edges, e.source, e.target)
  {
    assert Joined(edges, e.source, e.target);
    assert WalkBetween(edges, [e.source, e.target], e.source, e.target);
  }

  /** Which nodes lead to the nodes that feed the switch. */
  lemma WhoFeeds()
    ensures WalksTo(WIRES, Base(1), Base(1)) && WalksTo(WIRES, Base(0), Base(1))
    ensures WalksTo(WIRES, Base(2), Base(2)) && WalksTo(WIRES, Base(0), Base(2)) && WalksTo(WIRES, Base(3), Base(3))
    ensures !WalksTo(WIRES, Base(2), Base(1)) && !WalksTo(WIRES, Base(3), Base(1)) && !WalksTo(WIRES, Base(4), Base(1))
    ensures !WalksTo(WIRES, Base(1), Base(2)) && !WalksTo(WIRES, Base(3), Base(2)) && !WalksTo(WIRES, Base(4), Base(2))
    ensures !WalksTo(WIRES, Base(1), Base(3)) && !WalksTo(WIRES, Base(2), Base(3))
  {
    hide WalksTo;
    StandsAt(WIRES, Base(1));
    StandsAt(WIRES, Base(2));
    StandsAt(WIRES, Base(3));
    assert WIRES[0] == TO_LOW && WIRES[1] == TO_HIGH;
    StepsTo(WIRES, TO_LOW);
    StepsTo(WIRES, TO_HIGH);
    Unreached(WIRES, Base(2), Base(1), {Base(2), Base(4)});
    Unreached(WIRES, Base(3), Base(1), {Base(3), Base(4)});
    Unreached(WIRES, Base(4), Base(1), {Base(4)});
    Unreached(WIRES, Base(1), Base(2), {Base(1), Base(4)});
    Unreached(WIRES, Base(3), Base(2), {Base(3), Base(4)});
    Unreached(WIRES, Base(4), Base(2), {Base(4)});
    Unreached(WIRES, Base(1), Base(3), {Base(1), Base(4)});
    Unreached(WIRES, Base(2), Base(3), {Base(2), Base(4)});
  }

  lemma PortsFed(n: Id)
    ensures FeedsPort(WIRES, n, Base(4), "false_value") <==> WalksTo(WIRES, n, Base(1))
    ensures FeedsPort(WIRES, n, Base(4), "true_value") <==> WalksTo(WIRES, n, Base(2))
    ensures FeedsPort(WIRES, n, Base(4), "condition") <==> WalksTo(WIRES, n, Base(3))
  {
    hide WalksTo;
    assert WIRES[2] == FALSE_SIDE && WIRES[3] == TRUE_SIDE && WIRES[4] == DECISION;
    assert FALSE_SIDE in WIRES && TRUE_SIDE in WIRES && DECISION in WIRES;
  }

  /** One node is left to each value. The shared one belongs to neither. */
  lemma SideOf(n: Id)
    requires n in NodeIds(SwitchGraph())
    ensures BranchNode(SwitchGraph(), Base(4), "false_value", n) <==> n == Base(1)
    ensures BranchNode(SwitchGraph(), Base(4), "true_value", n) <==> n == Base(2)
  {
    hide FeedsPort, WalksTo, BodyNode;
    WhoFeeds();
    PortsFed(n);
    var m :| m in SwitchGraph().nodes && m.id == n;
    assert !OfType(SwitchGraph(), Base(1), "ng.control.for_each") && !OfType(SwitchGraph(), Base(2), "ng.control.for_each");
  }

  // ----- What its compilation finds -----

  lemma NoLoops(x: Graph, loops: map<Id, RawLoop>, next: map<Id, Id>)
    requires LoopsOf(x, loops) && forall n :: n in x.nodes ==> n.typeId != FOR_EACH
    ensures !FusedAcrossBoundary(loops, next) && !SomeMalformed(x)
  {
    hide LoopSets, Malformed, LinkJoins;
    forall l
      ensures TypeAt(NodeTable(x.nodes), l) != FOR_EACH
    {
      if l in NodeTable(x.nodes) {
        assert NodeTable(x.nodes)[l] in x.nodes;
      }
    }
  }

  /** The only control node cannot lie inside another region. */
  lemma NothingNested(w: Phases, profiles: Profiles, hash: Hash)
    requires Planned(w, profiles, hash) && w.x == SwitchGraph()
    ensures !Cyclic(w.owner)
  {
    hide ValidPlan, LoopsOf, StepsOfRegion, ControlHeads;
    forall d | d in w.drafts
      ensures d.controller == Base(4)
    {
      OnlySelector(w.x, w.loops, w.plan.steps, w.plan.grouping.rep, d);
    }
    OneControllerNoParent(w.drafts, w.owner, Base(4));
  }

  lemma OneControllerNoParent(drafts: seq<Region>, owner: map<Id, Option<Id>>, only: Id)
    requires ParentsFor(ClaimsOf(drafts), owner) && forall d :: d in drafts ==> d.controller == only
    ensures !Cyclic(owner)
  {
    hide StepsOfRegion;
    var claims := ClaimsOf(drafts);
    forall i | 0 <= i < |claims|
      ensures claims[i].controller == only
    {
      assert drafts[i] in drafts;
    }
    forall c | c in owner
      ensures owner[c].None?
    {
      var i :| 0 <= i < |claims| && claims[i].controller == c;
      assert ParentFor(claims, i, owner);
    }
    forall p: seq<Id>
      ensures !(Ascent(p, owner) && |p| >= 2)
    {
      if |p| >= 2 && p[0] in owner {
        assert owner[p[0]] != Some(p[0 + 1]);
      }
    }
  }

  lemma OnlySelector(x: Graph, loops: map<Id, RawLoop>, steps: seq<ExecutionStep>, rep: map<Id, Id>, d: Region)
    requires x == SwitchGraph() && DraftFor(x, loops, steps, rep, d)
    ensures d.controller == Base(4)
  {
    hide ConditionFor, LoopFor;
    assert NodeTable(x.nodes)[d.controller] in x.nodes;
  }

  /** A branch whose nodes are one node holds just that node's step. */
  lemma OneStep(r: FullResult, w: Phases, g: Graph, maxDepth: nat, profiles: Profiles, hash: Hash, region: Region, b: Branch, only: Id)
    requires Outcome(r, w, g, map[], maxDepth, SwitchRules(), profiles, hash) && r.Finished? && w.x == SwitchGraph()
    requires region in r.full.regions && b in region.branches && only in NodeIds(SwitchGraph())
    requires forall n :: n in NodeIds(SwitchGraph()) ==> (BranchNode(SwitchGraph(), region.controller, b.name, n) <==> n == only)
    ensures forall id :: id in b.members <==> id == only
  {
    hide Outcome, BranchNode, InPlanOrder, WellFormed, Acyclic;
    var x, steps, rep := SwitchGraph(), r.full.plan.steps, r.full.plan.grouping.rep;
    RegionIsDrawn(r, w, g, map[], maxDepth, SwitchRules(), profiles, hash, region);
    SettingMembers(x, NextMap(x, profiles), MembersOf(w.plan.analysis.units), rep, steps);
    var t := StepOfNode(steps, rep, only);
    forall s | s in steps
      ensures s.nodeId in b.members ==> s.nodeId == only
      ensures only in s.members ==> s.nodeId in b.members
      ensures InPlanOrder(b.members, steps)
    {
      BranchMembers(r, w, g, map[], maxDepth, SwitchRules(), profiles, hash, region, b, s);
    }
    assert t.nodeId in b.members;
    forall id | id in b.members
      ensures id == only
    {
      OrderedIsStep(b.members, steps, id);
    }
  }

  lemma OrderedIsStep(ids: seq<Id>, steps: seq<ExecutionStep>, id: Id)
    requires InPlanOrder(ids, steps) && id in ids
    ensures exists s :: s in steps && s.nodeId == id
  {
    assert IsStep(steps, id);
  }

  lemma SettingMembers(x: Graph, next: map<Id, Id>, chains: seq<seq<Id>>, rep: map<Id, Id>, steps: seq<ExecutionStep>)
    requires Setting(x, next, chains, rep, steps)
    ensures ListsHeads(steps, rep) && rep.Keys == NodeIds(x)
    ensures forall s, m :: s in steps && m in s.members ==> m in NodeIds(x)
    ensures forall s :: s in steps ==> s.nodeId in s.members
    ensures forall s, m :: s in steps && m in rep && rep[m] == s.nodeId ==> m in s.members
  {
    hide WellFormed, Acyclic, DependenciesAgree;
    forall s | s in steps
      ensures ClassOf(s, rep)
    {
      var k :| 0 <= k < |steps| && steps[k] == s;
      assert ClassOf(steps[k], rep);
    }
  }

  /** Whatever compiles this graph, fused or not, finds one condition. Its branch "false_value"
      holds the node that feeds that port, and "true_value" the other. The node shared by both,
      and the one that decides, are in neither. */
  lemma SwitchCompiles(r: FullResult, w: Phases, maxDepth: nat, profiles: Profiles, hash: Hash)
    requires Outcome(r, w, SwitchGraph(), map[], maxDepth, SwitchRules(), profiles, hash)
    ensures r.Finished? && |r.full.regions| == 1
    ensures var c := r.full.regions[0];
            && c.controller == Base(4) && !c.isLoop && |c.branches| == 2
            && c.branches[0].name == "false_value" && (forall id :: id in c.branches[0].members <==> id == Base(1))
            && c.branches[1].name == "true_value" && (forall id :: id in c.branches[1].members <==> id == Base(2))
  {
    hide Accepted, Planned, SwitchRules, BranchNode, FailsAt, Finishes;
    SwitchAccepted();
    NothingToExpand(r, w, SwitchGraph(), maxDepth, SwitchRules(), profiles, hash);
    PlannedLoops(w, profiles, hash);
    NoLoops(w.x, w.loops, NextMap(w.x, profiles));
    NothingNested(w, profiles, hash);
    assert r.Finished?;
    var region := TheRegion(r, w, maxDepth, profiles, hash);
    forall n | n in NodeIds(SwitchGraph())
      ensures BranchNode(SwitchGraph(), Base(4), "false_value", n) <==> n == Base(1)
      ensures BranchNode(SwitchGraph(), Base(4), "true_value", n) <==> n == Base(2)
    {
      SideOf(n);
    }
    assert LOW in SwitchGraph().nodes && HIGH in SwitchGraph().nodes;
    OneStep(r, w, SwitchGraph(), maxDepth, profiles, hash, region, region.branches[0], LOW.id);
    OneStep(r, w, SwitchGraph(), maxDepth, profiles, hash, region, region.branches[1], HIGH.id);
  }

  lemma PlannedLoops(w: Phases, profiles: Profiles, hash: Hash)
    requires Planned(w, profiles, hash)
    ensures LoopsOf(w.x, w.loops)
  {
  }

  lemma TheRegion(r: FullResult, w: Phases, maxDepth: nat, profiles: Profiles, hash: Hash) returns (region: Region)
    requires Outcome(r, w, SwitchGraph(), map[], maxDepth, SwitchRules(), profiles, hash) && r.Finished? && w.x == SwitchGraph()
    ensures |r.full.regions| == 1 && region == r.full.regions[0] && FitsController(SwitchGraph(), region, SELECTOR)
  {
    hide Outcome, SwitchRules, FitsController;
    var g, regions := SwitchGraph(), r.full.regions;
    GraphKept(r, w, g, maxDepth, profiles, hash);
    assert SELECTOR in g.nodes;
    forall n | n in g.nodes
      ensures n.typeId == "ng.control.for_each" || n.typeId == "ng.control.switch" <==>
              exists region :: region in regions && region.controller == n.id
      ensures forall region :: region in regions && region.controller == n.id ==> FitsController(g, region, n)
      ensures forall i, j :: 0 <= i < j < |regions| ==> regions[i].controller != regions[j].controller
    {
      RegionPerControlNode(r, w, g, map[], maxDepth, SwitchRules(), profiles, hash, n);
    }
    region :| region in regions && region.controller == SELECTOR.id;
    assert |regions| > 1 ==> regions[0].controller != regions[1].controller && regions[0] in regions && regions[1] in regions;
    forall q | q in regions
      ensures q.controller == SELECTOR.id
    {
      RegionIsDrawn(r, w, g, map[], maxDepth, SwitchRules(), profiles, hash, q);
      OnlySelector(g, w.loops, w.plan.steps, w.plan.grouping.rep, q.(parent := None, depth := 0));
    }
  }

  lemma GraphKept(r: FullResult, w: Phases, g: Graph, maxDepth: nat, profiles: Profiles, hash: Hash)
    requires Outcome(r, w, g, map[], maxDepth, SwitchRules(), profiles, hash) && r.Finished?
    ensures r.full.plan.analysis.graph == w.x
  {
    hide Accepted, ValidPlan, Runs;
  }
}
