/** When two loops own each other's controllers, said of the graph, and when that is reported
    (src/comfyng/graph/compiler.py:1114-1159, 1246-1311). */
module LoopNesting {
  import opened Ids
  import opened Layering
  import opened Graphs
  import opened Topology
  import opened Reachability
  import opened Fusion
  import opened Contraction
  import opened CacheKeys
  import opened Validation
  import opened Expansion
  import opened Expand
  import opened Compile
  import opened PlanTheorems
  import opened ControlRegions
  import opened ControlNesting
  import opened ControlPlan
  import opened FullCompile

  // ----- Ownership in terms of the graph -----

  /** The loop owns this node: it is upstream of its items, or in its body. */
  predicate Holds(raw: RawLoop, n: Id)
  {
    n in raw.iterable || n in raw.body
  }

  /** Some collect node comes after the loop. */
  ghost predicate HasCollect(x: Graph, loop: Id)
  {
    exists c :: IsBoundary(x, loop, c)
  }

  /** The first loop feeds the second one's items, and the second is followed by a collect node. */
  ghost predicate Feeds(x: Graph, a: Id, b: Id)
  {
    InIterable(x, b, a) && HasCollect(x, b)
  }

  lemma BelowThrough(a: Id, b: Id, c: Id, arcs: set<Arc>)
    requires Below(a, b, arcs) && Leads(b, c, arcs)
    ensures Below(a, c, arcs)
  {
    var t :| (a, t) in arcs && Leads(t, b, arcs);
    LeadsThrough(t, b, c, arcs);
  }

  lemma BelowLeads(a: Id, b: Id, arcs: set<Arc>)
    requires Below(a, b, arcs)
    ensures Leads(a, b, arcs)
  {
    var t :| (a, t) in arcs && Leads(t, b, arcs);
    LeadsArc(a, t, arcs);
    LeadsThrough(a, t, b, arcs);
  }

  lemma NotBelowBoth(a: Id, b: Id, arcs: set<Arc>)
    requires Acyclic(arcs) && Below(a, b, arcs)
    ensures !Below(b, a, arcs)
  {
    if Below(b, a, arcs) {
      var t :| (a, t) in arcs && Leads(t, b, arcs);
      BelowLeads(b, a, arcs);
      LeadsThrough(t, b, a, arcs);
      NoWayBack(a, t, arcs);
    }
  }

  /** What leads to a source of a node lies above the node. */
  lemma AboveTarget(x: Graph, n: Id, c: Id, sources: set<Id>)
    requires LeadsInto(n, sources, Arcs(x.edges)) && forall s :: s in sources ==> (s, c) in Arcs(x.edges)
    ensures Below(n, c, Arcs(x.edges))
  {
    var arcs := Arcs(x.edges);
    var s :| s in sources && Leads(n, s, arcs);
    LeadsFirst(n, s, arcs);
    LeadsArc(s, c, arcs);
    if n == s {
      LeadsSelf(c, arcs);
    } else {
      BelowThrough(n, s, c, arcs);
    }
  }

  lemma SourcesAreArcs(x: Graph, c: Id, port: string)
    ensures forall s :: s in SourcesOf(x.edges, c) ==> (s, c) in Arcs(x.edges)
    ensures forall s :: s in PortSources(x.edges, c, port) ==> (s, c) in Arcs(x.edges)
    ensures forall s :: (s, c) in Arcs(x.edges) ==> s in SourcesOf(x.edges, c)
  {
  }

  /** Whatever lies above a node leads into one of its sources. */
  lemma LeadsIntoSources(x: Graph, n: Id, c: Id)
    requires Below(n, c, Arcs(x.edges)) && n != c
    ensures LeadsInto(n, SourcesOf(x.edges, c), Arcs(x.edges))
  {
    BelowLeads(n, c, Arcs(x.edges));
    var s := LeadsLast(n, c, Arcs(x.edges));
    SourcesAreArcs(x, c, "");
  }

  /** What a loop holds of another loop. */
  lemma HoldsLoop(x: Graph, a: Id, b: Id, raw: RawLoop)
    requires LoopSets(x, a, raw) && a != b && TypeAt(NodeTable(x.nodes), b) == FOR_EACH
    ensures b in raw.iterable ==> Below(b, a, Arcs(x.edges))
    ensures b in raw.body <==> Below(a, b, Arcs(x.edges)) && HasCollect(x, b)
  {
    var arcs := Arcs(x.edges);
    if b in raw.iterable {
      assert InIterable(x, a, b);
      SourcesAreArcs(x, a, "items");
      AboveTarget(x, b, a, PortSources(x.edges, a, "items"));
    }
    if b in raw.body {
      assert InBody(x, a, raw.boundaries, b);
      var c :| c in raw.boundaries && LeadsInto(b, SourcesOf(x.edges, c), arcs);
      SourcesAreArcs(x, c, "");
      AboveTarget(x, b, c, SourcesOf(x.edges, c));
      assert IsBoundary(x, a, c);
      assert IsBoundary(x, b, c);
    }
    if c :| Below(a, b, arcs) && IsBoundary(x, b, c) {
      BelowLeads(b, c, arcs);
      BelowThrough(a, b, c, arcs);
      assert IsBoundary(x, a, c) && c in raw.boundaries;
      LeadsIntoSources(x, b, c);
      assert b !in raw.boundaries by { assert !IsBoundary(x, a, b); }
      assert InBody(x, a, raw.boundaries, b);
    }
  }

  /** Two loops hold each other exactly when one feeds the other's items and the other is followed
      by a collect node. Loops that merely come one after the other do so. */
  lemma MutualIffFeeds(x: Graph, a: Id, b: Id, rawA: RawLoop, rawB: RawLoop)
    requires Acyclic(Arcs(x.edges)) && LoopSets(x, a, rawA) && LoopSets(x, b, rawB) && a != b
    requires TypeAt(NodeTable(x.nodes), a) == FOR_EACH && TypeAt(NodeTable(x.nodes), b) == FOR_EACH
    ensures Holds(rawA, b) && Holds(rawB, a) <==> Feeds(x, a, b) || Feeds(x, b, a)
  {
    hide InBody, LeadsInto, IsBoundary, NodeTable, Below, HasCollect;
    var arcs := Arcs(x.edges);
    HoldsLoop(x, a, b, rawA);
    HoldsLoop(x, b, a, rawB);
    if Below(a, b, arcs) { NotBelowBoth(a, b, arcs); }
    if Below(b, a, arcs) { NotBelowBoth(b, a, arcs); }
    assert a in rawB.iterable <==> InIterable(x, b, a);
    assert b in rawA.iterable <==> InIterable(x, a, b);
  }

  // ----- Ownership in the plan -----

  /** The region of a loop owns another loop's step exactly when the loop holds that loop. */
  lemma OwnsIffHolds(x: Graph, next: map<Id, Id>, chains: seq<seq<Id>>, rep: map<Id, Id>, steps: seq<ExecutionStep>,
                     loops: map<Id, RawLoop>, d: Region, b: Id)
    requires Setting(x, next, chains, rep, steps) && LoopsOf(x, loops) && DraftFor(x, loops, steps, rep, d)
    requires d.isLoop && b in NodeTable(x.nodes) && TypeAt(NodeTable(x.nodes), b) == FOR_EACH
    ensures b in StepsOfRegion(d) <==> Holds(loops[d.controller], b)
  {
    hide Setting, LoopsOf, DraftFor, StepsOfRegion, InSteps, RepsOf, NodeTable, WholeChains, Represents;
    DraftSteps(x, loops, steps, rep, d, b);
    var raw := loops[d.controller];
    LoopRep(x, next, chains, rep, steps, b);
    OwnStep(x, next, chains, rep, steps, b, raw.iterable);
    OwnStep(x, next, chains, rep, steps, b, raw.body);
    OwnStep(x, next, chains, rep, steps, b, raw.boundaries);
    NoLoopBoundary(x, loops, d.controller, b);
  }

  lemma DraftSteps(x: Graph, loops: map<Id, RawLoop>, steps: seq<ExecutionStep>, rep: map<Id, Id>, d: Region, b: Id)
    requires DraftFor(x, loops, steps, rep, d) && d.isLoop
    ensures d.controller in loops
    ensures var raw := loops[d.controller];
            b in StepsOfRegion(d) <==> b in InSteps(steps, RepsOf(raw.iterable, rep)) || b in InSteps(steps, RepsOf(raw.body, rep))
                                       || b in InSteps(steps, RepsOf(raw.boundaries, rep))
  {
    hide InSteps, RepsOf, NodeTable;
  }

  lemma NoLoopBoundary(x: Graph, loops: map<Id, RawLoop>, a: Id, b: Id)
    requires LoopsOf(x, loops) && a in loops && TypeAt(NodeTable(x.nodes), b) == FOR_EACH
    ensures b !in loops[a].boundaries
  {
    assert !IsBoundary(x, a, b);
  }

  lemma LoopRep(x: Graph, next: map<Id, Id>, chains: seq<seq<Id>>, rep: map<Id, Id>, steps: seq<ExecutionStep>, b: Id)
    requires Setting(x, next, chains, rep, steps) && b in NodeTable(x.nodes) && TypeAt(NodeTable(x.nodes), b) == FOR_EACH
    ensures b in rep && Unlinked(b, next) && WholeChains(chains, next) && Distinct(Flatten(chains)) && Represents(rep, chains)
    ensures exists k :: StepAt(steps, k, b)
  {
    assert b in NodeIds(x);
    var k := ControlHasStep(x, next, chains, rep, steps, b);
  }

  lemma OwnStep(x: Graph, next: map<Id, Id>, chains: seq<seq<Id>>, rep: map<Id, Id>, steps: seq<ExecutionStep>, b: Id, s: set<Id>)
    requires b in rep && Unlinked(b, next) && WholeChains(chains, next) && Distinct(Flatten(chains)) && Represents(rep, chains)
    requires exists k :: StepAt(steps, k, b)
    ensures b in InSteps(steps, RepsOf(s, rep)) <==> b in s
  {
    InStepsMembers(steps, RepsOf(s, rep), b);
    AloneMember(next, chains, rep, b, b);
    if n :| n in s && n in rep && rep[n] == b {
      AloneMember(next, chains, rep, b, n);
    }
  }

  // ----- When it is reported -----

  /** The region of a loop in a list of drafts. */
  ghost predicate LoopAt(x: Graph, drafts: seq<Region>, i: nat, loop: Id)
  {
    i < |drafts| && drafts[i].controller == loop && TypeAt(NodeTable(x.nodes), loop) == FOR_EACH && loop in NodeTable(x.nodes)
  }

  /** No other owner of the region is tighter than this one. */
  ghost predicate Tightest(claims: seq<Claim>, i: nat, j: nat)
    requires j < |claims|
  {
    forall k :: Owns(claims, k, i) ==> Tighter(claims, j, k)
  }

  /** Two loops of an accepted graph become each other's parents exactly when one feeds the other,
      the other has a collect node, and no region that owns either of them is tighter. */
  lemma LoopsParentEachOther(w: Phases, rules: Rules, profiles: Profiles, hash: Hash, i: nat, j: nat, a: Id, b: Id)
    requires Planned(w, profiles, hash) && Accepted(w.x, rules) && a != b
    requires LoopAt(w.x, w.drafts, i, a) && LoopAt(w.x, w.drafts, j, b)
    ensures a in w.owner && b in w.owner
    ensures w.owner[a] == Some(b) && w.owner[b] == Some(a) <==>
            && (Feeds(w.x, a, b) || Feeds(w.x, b, a))
            && Tightest(ClaimsOf(w.drafts), i, j) && Tightest(ClaimsOf(w.drafts), j, i)
    ensures w.owner[a] == Some(b) && w.owner[b] == Some(a) ==> Cyclic(w.owner)
  {
    hide Accepted, ValidPlan, LoopsOf, Drafted, ParentsFor, Setting, StepsOfRegion, Feeds, Cyclic, LoopSets, NodeTable, Tighter, Tightest;
    var next, steps, rep := NextMap(w.x, profiles), w.plan.steps, w.plan.grouping.rep;
    var chains, claims := MembersOf(w.plan.analysis.units), ClaimsOf(w.drafts);
    PlanSetting(w.plan, profiles, hash);
    AcceptedAcyclic(w.x, rules);
    DraftedLoop(w.x, w.loops, steps, rep, w.drafts, i, a);
    DraftedLoop(w.x, w.loops, steps, rep, w.drafts, j, b);
    OwnsIffHolds(w.x, next, chains, rep, steps, w.loops, w.drafts[i], b);
    OwnsIffHolds(w.x, next, chains, rep, steps, w.loops, w.drafts[j], a);
    MutualIffFeeds(w.x, a, b, w.loops[a], w.loops[b]);
    ClaimsDistinct(w.x, w.loops, steps, rep, w.drafts);
    MutualParentsIff(claims, w.owner, i, j);
    InnermostIff(claims, i, j);
    InnermostIff(claims, j, i);
  }

  lemma InnermostIff(claims: seq<Claim>, i: nat, j: nat)
    requires j < |claims|
    ensures Innermost(claims, i, Some(j)) <==> Owns(claims, j, i) && Tightest(claims, i, j)
  {
  }

  lemma DraftedLoop(x: Graph, loops: map<Id, RawLoop>, steps: seq<ExecutionStep>, rep: map<Id, Id>, drafts: seq<Region>, i: nat, a: Id)
    requires LoopsOf(x, loops) && Drafted(x, loops, steps, rep, drafts, |steps|) && LoopAt(x, drafts, i, a)
    ensures DraftFor(x, loops, steps, rep, drafts[i]) && drafts[i].isLoop && a in loops && LoopSets(x, a, loops[a])
  {
    assert drafts[i] in drafts;
  }

  lemma ClaimsDistinct(x: Graph, loops: map<Id, RawLoop>, steps: seq<ExecutionStep>, rep: map<Id, Id>, drafts: seq<Region>)
    requires Drafted(x, loops, steps, rep, drafts, |steps|)
    ensures Distinctly(ClaimsOf(drafts))
  {
  }

  /** Compiling a graph in which one loop feeds another, bounded by a collect node, fails, unless
      a tighter region owns one of the two. */
  lemma FeedingLoopsAreReported(r: FullResult, w: Phases, g: Graph, registry: Registry, maxDepth: nat, rules: Rules, profiles: Profiles,
                                hash: Hash, i: nat, j: nat, a: Id, b: Id)
    requires Outcome(r, w, g, registry, maxDepth, rules, profiles, hash) && !r.ExpansionError? && Accepted(w.x, rules) && a != b
    requires LoopAt(w.x, w.drafts, i, a) && LoopAt(w.x, w.drafts, j, b) && Feeds(w.x, a, b)
    requires Tightest(ClaimsOf(w.drafts), i, j) && Tightest(ClaimsOf(w.drafts), j, i)
    ensures r.RegionFailure? || (r.RegionErrors? && CYCLIC in r.errors)
  {
    hide Runs, Accepted, Feeds, Tightest, LoopAt, Planned, Cyclic, SomeMalformed, FailsAt, Finishes, RegionsClash;
    LoopsParentEachOther(w, rules, profiles, hash, i, j, a, b);
  }
}
