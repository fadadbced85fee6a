/** Two loops one after the other, made of shipped control nodes only, are reported as cyclic
    nesting; a third loop beside the second, with nothing behind it, makes the same graph pass
    (src/comfyng/graph/compiler.py:1246-1311). */
module NestingExamples {
  import opened Ids
  import opened Layering
  import opened Graphs
  import opened Topology
  import opened CriticalPath
  import opened Reachability
  import opened Fusion
  import opened Contraction
  import opened CacheKeys
  import opened Validation
  import opened Expansion
  import opened Compile
  import opened PlanTheorems
  import opened ControlRegions
  import opened ControlNesting
  import opened ControlPlan
  import opened FullCompile
  import opened LoopNesting
  import opened ControlExamples

  const A := Base(0)
  const MID := Base(1)
  const B := Base(2)
  const END := Base(3)
  const C := Base(4)

  /** Loop A and its collect node feed loop B and its collect node; with the third loop, they feed
      that one too. */
  function LoopsInTurn(third: bool): Graph
  {
    Graph(0, 1, FourNodes() + (if third then [FedLoop(4)] else []),
          FiveEdges() + (if third then [Edge(MID, "items", C, "items")] else []), map[], map[])
  }

  function FiveEdges(): seq<Edge>
  {
    [Edge(A, "item", MID, "item"), Edge(A, "index", MID, "index"), Edge(MID, "items", B, "items"),
     Edge(B, "item", END, "item"), Edge(B, "index", END, "index")]
  }

  function Table(third: bool): map<Id, Node>
  {
    var four: map<Id, Node> := map[A := Loop(0)][MID := Collector(1)][B := FedLoop(2)][END := Collector(3)];
    if third then four[C := FedLoop(4)] else four
  }

  function ArcSet(third: bool): set<Arc>
  {
    {(A, MID), (MID, B), (B, END)} + (if third then {(MID, C)} else {})
  }

  lemma TableGrows(nodes: seq<Node>, last: Node, table: map<Id, Node>)
    requires NodeTable(nodes) == table
    ensures NodeTable(nodes + [last]) == table[last.id := last]
  {
    assert (nodes + [last])[..|nodes|] == nodes;
  }

  lemma TableOfTwo(a: Node, b: Node)
    ensures NodeTable([a, b]) == map[a.id := a][b.id := b]
  {
    assert [a, b][..1] == [a] && [a][..0] == [];
  }

  lemma TableOfFour(a: Node, b: Node, c: Node, d: Node)
    ensures NodeTable([a, b, c, d]) == map[a.id := a][b.id := b][c.id := c][d.id := d]
  {
    var two := [a, b];
    TableOfTwo(a, b);
    TableGrows(two, c, map[a.id := a][b.id := b]);
    TableGrows(two + [c], d, map[a.id := a][b.id := b][c.id := c]);
    assert two + [c] + [d] == [a, b, c, d];
  }

  function FourNodes(): seq<Node>
  {
    [Loop(0), Collector(1), FedLoop(2), Collector(3)]
  }

  lemma TableOf(third: bool)
    ensures NodeTable(LoopsInTurn(third).nodes) == Table(third)
  {
    hide NodeTable;
    TableOfFour(Loop(0), Collector(1), FedLoop(2), Collector(3));
    if third {
      TableGrows(FourNodes(), FedLoop(4), Table(false));
    } else {
      assert FourNodes() + [] == FourNodes();
    }
  }

  lemma EdgesAre(third: bool, e: Edge)
    ensures e in LoopsInTurn(third).edges <==> e in FiveEdges() || (third && e == Edge(MID, "items", C, "items"))
    ensures e in FiveEdges() <==>
            || e == Edge(A, "item", MID, "item") || e == Edge(A, "index", MID, "index") || e == Edge(MID, "items", B, "items")
            || e == Edge(B, "item", END, "item") || e == Edge(B, "index", END, "index")
  {
    var five := FiveEdges();
    assert five[0] in five && five[1] in five && five[2] in five && five[3] in five && five[4] in five;
  }

  lemma ArcsAre(third: bool)
    ensures Arcs(LoopsInTurn(third).edges) == ArcSet(third)
  {
    hide LoopsInTurn, FiveEdges;
    forall e
      ensures e in LoopsInTurn(third).edges <==>
              || e == Edge(A, "item", MID, "item") || e == Edge(A, "index", MID, "index") || e == Edge(MID, "items", B, "items")
              || e == Edge(B, "item", END, "item") || e == Edge(B, "index", END, "index")
              || (third && e == Edge(MID, "items", C, "items"))
    {
      EdgesAre(third, e);
    }
    forall a | a in ArcSet(third)
      ensures a in Arcs(LoopsInTurn(third).edges)
    {
      var e := if a == (A, MID) then Edge(A, "item", MID, "item") else if a == (MID, B) then Edge(MID, "items", B, "items")
               else if a == (B, END) then Edge(B, "item", END, "item") else Edge(MID, "items", C, "items");
      assert e in LoopsInTurn(third).edges;
    }
  }

  lemma NodesListed(third: bool, n: Node)
    requires n in LoopsInTurn(third).nodes
    ensures n == Loop(0) || n == Collector(1) || n == FedLoop(2) || n == Collector(3) || (third && n == FedLoop(4))
  {
  }

  lemma NodeFed(third: bool, n: Node)
    requires n in LoopsInTurn(third).nodes
    ensures AllFed(LoopsInTurn(third), n)
  {
    hide LoopsInTurn, FiveEdges;
    NodesListed(third, n);
    var edges := LoopsInTurn(third).edges;
    forall e
      ensures e in edges <==>
              || e == Edge(A, "item", MID, "item") || e == Edge(A, "index", MID, "index") || e == Edge(MID, "items", B, "items")
              || e == Edge(B, "item", END, "item") || e == Edge(B, "index", END, "index")
              || (third && e == Edge(MID, "items", C, "items"))
    {
      EdgesAre(third, e);
    }
    assert Edge(A, "item", MID, "item") in edges && Edge(A, "index", MID, "index") in edges && Edge(MID, "items", B, "items") in edges;
    assert Edge(B, "item", END, "item") in edges && Edge(B, "index", END, "index") in edges;
    assert third ==> Edge(MID, "items", C, "items") in edges;
  }

  lemma EdgeIsOk(third: bool, e: Edge)
    requires e in LoopsInTurn(third).edges
    ensures Rises(e) && EdgeOk(NodeTable(LoopsInTurn(third).nodes), ExampleRules(), e)
  {
    hide LoopsInTurn, FiveEdges, ExampleRules, NodeTable, EdgeOk;
    EdgesAre(third, e);
    TableOf(third);
    var nodes := NodeTable(LoopsInTurn(third).nodes);
    if e.source == MID {
      EdgeFits(nodes, e, COLLECT, FOR_EACH);
    } else {
      EdgeFits(nodes, e, FOR_EACH, COLLECT);
    }
  }

  lemma GraphAccepted(third: bool)
    ensures Accepted(LoopsInTurn(third), ExampleRules())
  {
    hide Accepted, ExampleRules, AllFed, EdgeOk, Rises, NodeTable;
    var g := LoopsInTurn(third);
    forall n | n in g.nodes
      ensures PlainNode(n) && AllFed(g, n)
    {
      NodesListed(third, n);
      NodeFed(third, n);
    }
    forall e | e in g.edges
      ensures Rises(e) && EdgeOk(NodeTable(g.nodes), ExampleRules(), e)
    {
      EdgeIsOk(third, e);
    }
    PlainAccepted(g);
  }

  // ----- Reachability, in full -----

  /** Where a node leads. */
  function Down(third: bool, n: Id): set<Id>
  {
    if n == A then {A, MID, B, END} + (if third then {C} else {})
    else if n == MID then {MID, B, END} + (if third then {C} else {})
    else if n == B then {B, END}
    else {n}
  }

  lemma LeadsDown(third: bool, m: Id, n: Id)
    ensures Leads(m, n, ArcSet(third)) <==> n in Down(third, m)
  {
    var arcs := ArcSet(third);
    if p :| Joins(p, m, n, arcs) {
      ClosedHoldsPaths(Down(third, m), p, m, n, arcs);
    }
    if n in Down(third, m) {
      LeadsSelf(n, arcs);
      LeadsArc(A, MID, arcs);
      LeadsArc(MID, B, arcs);
      LeadsArc(B, END, arcs);
      LeadsThrough(MID, B, END, arcs);
      LeadsThrough(A, MID, B, arcs);
      LeadsThrough(A, MID, END, arcs);
      if third {
        LeadsArc(MID, C, arcs);
        LeadsThrough(A, MID, C, arcs);
      }
    }
  }

  lemma BelowIs(third: bool, m: Id, n: Id)
    ensures Below(m, n, ArcSet(third)) <==> n in Down(third, m) - {m}
  {
    var arcs := ArcSet(third);
    if t :| (m, t) in arcs && Leads(t, n, arcs) {
      LeadsDown(third, t, n);
    }
    if n in Down(third, m) - {m} {
      LeadsDown(third, m, n);
      LeadsFirst(m, n, arcs);
    }
  }

  lemma LeadsToOne(third: bool, n: Id, s: Id)
    ensures LeadsInto(n, {s}, ArcSet(third)) <==> s in Down(third, n)
  {
    LeadsDown(third, n, s);
  }

  lemma LeadsToNone(third: bool, n: Id)
    ensures !LeadsInto(n, {}, ArcSet(third))
  {
  }

  // ----- The loops -----

  lemma SourcesAre(third: bool)
    ensures SourcesOf(LoopsInTurn(third).edges, MID) == {A} && SourcesOf(LoopsInTurn(third).edges, END) == {B}
    ensures PortSources(LoopsInTurn(third).edges, A, "items") == {}
    ensures PortSources(LoopsInTurn(third).edges, B, "items") == {MID}
    ensures third ==> PortSources(LoopsInTurn(third).edges, C, "items") == {MID}
  {
    hide LoopsInTurn, FiveEdges;
    var edges := LoopsInTurn(third).edges;
    forall e
      ensures e in edges <==>
              || e == Edge(A, "item", MID, "item") || e == Edge(A, "index", MID, "index") || e == Edge(MID, "items", B, "items")
              || e == Edge(B, "item", END, "item") || e == Edge(B, "index", END, "index")
              || (third && e == Edge(MID, "items", C, "items"))
    {
      EdgesAre(third, e);
    }
    assert Edge(A, "item", MID, "item") in edges && Edge(MID, "items", B, "items") in edges && Edge(B, "item", END, "item") in edges;
    assert third ==> Edge(MID, "items", C, "items") in edges;
  }

  function LoopOfA(): RawLoop { RawLoop({B}, {MID, END}, {}) }
  function LoopOfB(): RawLoop { RawLoop({}, {END}, {A, MID}) }
  function LoopOfC(): RawLoop { RawLoop({}, {}, {A, MID}) }

  function RawOf(loop: Id): RawLoop
  {
    if loop == A then LoopOfA() else if loop == B then LoopOfB() else LoopOfC()
  }

  lemma BoundariesAre(third: bool, loop: Id, n: Id)
    requires loop in {A, B, C}
    ensures IsBoundary(LoopsInTurn(third), loop, n) <==> n in RawOf(loop).boundaries
  {
    hide LoopsInTurn, NodeTable, ArcSet, Below;
    TableOf(third);
    ArcsAre(third);
    BelowIs(third, loop, n);
  }

  lemma BodyIs(third: bool, loop: Id, n: Id)
    requires loop in {A, B} || (third && loop == C)
    ensures InBody(LoopsInTurn(third), loop, RawOf(loop).boundaries, n) <==> n in RawOf(loop).body
  {
    hide LoopsInTurn, ArcSet, Below, LeadsInto;
    ArcsAre(third);
    SourcesAre(third);
    BelowIs(third, loop, n);
    LeadsToOne(third, n, A);
    LeadsToOne(third, n, B);
    assert END in {END} && END in {MID, END};
  }

  lemma IterableIs(third: bool, loop: Id, n: Id)
    requires loop in {A, B} || (third && loop == C)
    ensures InIterable(LoopsInTurn(third), loop, n) <==> n in RawOf(loop).iterable
  {
    hide LoopsInTurn;
    ArcsAre(third);
    SourcesAre(third);
    LeadsToOne(third, n, MID);
    LeadsToNone(third, n);
  }

  lemma RawLoopsAre(third: bool, loop: Id, raw: RawLoop)
    requires LoopSets(LoopsInTurn(third), loop, raw) && (loop in {A, B} || (third && loop == C))
    ensures raw == RawOf(loop)
  {
    hide IsBoundary, InBody, InIterable, LoopsInTurn, RawOf;
    forall n
      ensures n in raw.boundaries <==> n in RawOf(loop).boundaries
      ensures n in raw.iterable <==> n in RawOf(loop).iterable
    {
      BoundariesAre(third, loop, n);
      IterableIs(third, loop, n);
    }
    assert raw.boundaries == RawOf(loop).boundaries && raw.iterable == RawOf(loop).iterable;
    forall n
      ensures n in raw.body <==> n in RawOf(loop).body
    {
      BodyIs(third, loop, n);
    }
    assert raw.body == RawOf(loop).body;
  }

  /** The condition under which two loops hold each other, at work. */
  lemma LoopsInTurnFeed(third: bool)
    ensures Feeds(LoopsInTurn(third), A, B)
  {
    hide LoopsInTurn, InIterable, IsBoundary;
    IterableIs(third, B, A);
    BoundariesAre(third, B, END);
    assert IsBoundary(LoopsInTurn(third), B, END);
  }

  // ----- Nothing is fused -----

  lemma NoLinks(x: Graph)
    ensures NextMap(x, map[]) == map[]
  {
  }

  lemma NoClash(loops: map<Id, RawLoop>)
    ensures !FusedAcrossBoundary(loops, map[])
  {
  }

  /** Without links every node leads its own step. */
  lemma RepIsIdentity(chains: seq<seq<Id>>, rep: map<Id, Id>)
    requires WholeChains(chains, map[]) && Represents(rep, chains)
    ensures forall n :: n in rep ==> rep[n] == n
  {
    forall n | n in rep
      ensures rep[n] == n
    {
      var u, i :| InChain(chains, u, i, n);
      if i > 0 { ChainLink(chains, map[], u, i - 1); }
    }
  }

  lemma RepsAreTheSet(s: set<Id>, rep: map<Id, Id>)
    requires s <= rep.Keys && forall n :: n in rep ==> rep[n] == n
    ensures RepsOf(s, rep) == s
  {
    forall n | n in s
      ensures n in RepsOf(s, rep)
    {
      assert n in rep && rep[n] == n;
    }
  }

  lemma StepsOfSet(steps: seq<ExecutionStep>, rep: map<Id, Id>, s: set<Id>)
    requires ListsHeads(steps, rep) && s <= rep.Keys && forall n :: n in rep ==> rep[n] == n
    ensures Elements(InSteps(steps, RepsOf(s, rep))) == s
  {
    RepsAreTheSet(s, rep);
    StepsOfReps(steps, rep, s);
  }

  // ----- What the regions own -----

  /** The steps a loop's region owns. */
  function Owned(loop: Id): set<Id>
  {
    if loop == A then {B, MID, END} else if loop == B then {A, MID, END} else {A, MID}
  }

  function Controllers(third: bool): set<Id>
  {
    {A, B} + (if third then {C} else {})
  }

  lemma ControllerIsLoop(third: bool, id: Id)
    ensures id in NodeTable(LoopsInTurn(third).nodes) && IsControl(NodeTable(LoopsInTurn(third).nodes)[id]) <==> id in Controllers(third)
    ensures id in Controllers(third) ==> TypeAt(NodeTable(LoopsInTurn(third).nodes), id) == FOR_EACH
    ensures TypeAt(NodeTable(LoopsInTurn(third).nodes), id) == FOR_EACH ==> id in Controllers(third)
  {
    hide LoopsInTurn, NodeTable;
    TableOf(third);
  }

  lemma NodesAre(third: bool)
    ensures NodeIds(LoopsInTurn(third)) == Table(third).Keys
  {
    var g := LoopsInTurn(third);
    TableOf(third);
    forall n | n in g.nodes
      ensures n.id in Table(third)
    {
    }
    forall id | id in Table(third)
      ensures id in NodeIds(g)
    {
      assert NodeTable(g.nodes)[id] in g.nodes && NodeTable(g.nodes)[id].id == id;
    }
  }

  /** Everything the lemmas below need of a plan of this graph. */
  ghost predicate Derived(third: bool, loops: map<Id, RawLoop>, steps: seq<ExecutionStep>, rep: map<Id, Id>, drafts: seq<Region>)
  {
    && LoopsOf(LoopsInTurn(third), loops) && ListsHeads(steps, rep)
    && rep.Keys == Table(third).Keys && (forall n :: n in rep ==> rep[n] == n)
    && Drafted(LoopsInTurn(third), loops, steps, rep, drafts, |steps|)
    && (forall id :: id in Controllers(third) ==> HasController(drafts, id))
  }

  lemma DraftOwns(third: bool, loops: map<Id, RawLoop>, steps: seq<ExecutionStep>, rep: map<Id, Id>, drafts: seq<Region>, d: Region)
    requires Derived(third, loops, steps, rep, drafts) && d in drafts
    ensures d.controller in Controllers(third) && StepsOfRegion(d) == Owned(d.controller)
  {
    hide Drafted, LoopSets, HasController, ListsHeads, LoopsInTurn, NodeTable, IsControl, ConditionFor, InSteps, RepsOf;
    DraftIsFor(LoopsInTurn(third), loops, steps, rep, drafts, d);
    ControllerIsLoop(third, d.controller);
    var raw := loops[d.controller];
    RawLoopsAre(third, d.controller, raw);
    assert A in Table(third) && B in Table(third) && MID in Table(third) && END in Table(third);
    StepsOfSet(steps, rep, raw.iterable);
    StepsOfSet(steps, rep, raw.body);
    StepsOfSet(steps, rep, raw.boundaries);
  }

  lemma DraftIsFor(x: Graph, loops: map<Id, RawLoop>, steps: seq<ExecutionStep>, rep: map<Id, Id>, drafts: seq<Region>, d: Region)
    requires Drafted(x, loops, steps, rep, drafts, |steps|) && d in drafts
    ensures DraftFor(x, loops, steps, rep, d)
  {
  }

  /** The claims on which nesting is decided. */
  ghost predicate Claimed(third: bool, claims: seq<Claim>)
  {
    && Distinctly(claims)
    && (forall i :: 0 <= i < |claims| ==> claims[i].controller in Controllers(third) && claims[i].members == Owned(claims[i].controller))
    && (forall id :: id in Controllers(third) ==> exists i :: 0 <= i < |claims| && claims[i].controller == id)
  }

  lemma DraftsClaim(third: bool, loops: map<Id, RawLoop>, steps: seq<ExecutionStep>, rep: map<Id, Id>, drafts: seq<Region>)
    requires Derived(third, loops, steps, rep, drafts)
    ensures Claimed(third, ClaimsOf(drafts))
  {
    var claims := ClaimsOf(drafts);
    forall i | 0 <= i < |claims|
      ensures claims[i].controller in Controllers(third) && claims[i].members == Owned(claims[i].controller)
    {
      assert drafts[i] in drafts;
      DraftOwns(third, loops, steps, rep, drafts, drafts[i]);
    }
    forall id | id in Controllers(third)
      ensures exists i :: 0 <= i < |claims| && claims[i].controller == id
    {
      assert HasController(drafts, id);
      var i :| 0 <= i < |drafts| && drafts[i].controller == id;
      assert claims[i].controller == id;
    }
  }

  // ----- Nesting -----

  /** With two loops only, each is the other's innermost owner. */
  lemma TwoLoopsAreCyclic(claims: seq<Claim>, owner: map<Id, Option<Id>>)
    requires Claimed(false, claims) && ParentsFor(claims, owner)
    ensures Cyclic(owner)
  {
    assert A in Controllers(false) && B in Controllers(false);
    var i :| 0 <= i < |claims| && claims[i].controller == A;
    var j :| 0 <= j < |claims| && claims[j].controller == B;
    forall k
      ensures Owns(claims, k, i) ==> k == j
      ensures Owns(claims, k, j) ==> k == i
    {
    }
    assert Owns(claims, j, i) && Owns(claims, i, j);
    MutualParentsIff(claims, owner, i, j);
  }

  /** The third loop owns less than B, so it becomes A's parent, and nothing is reported: A and
      B still own each other's controllers. */
  lemma ThirdLoopHidesTheCircle(claims: seq<Claim>, owner: map<Id, Option<Id>>)
    requires Claimed(true, claims) && ParentsFor(claims, owner)
    ensures B in Owned(A) && A in Owned(B) && !Cyclic(owner)
    ensures A in owner && owner[A] == Some(C) && B in owner && owner[B] == Some(A) && C in owner && owner[C] == None
  {
    assert A in Controllers(true) && B in Controllers(true) && C in Controllers(true);
    var i :| 0 <= i < |claims| && claims[i].controller == A;
    var j :| 0 <= j < |claims| && claims[j].controller == B;
    var k :| 0 <= k < |claims| && claims[k].controller == C;
    hide Claimed, Owned, Innermost;
    InnermostOwners(claims, i, j, k);
    ParentIsInnermost(claims, owner, i, k);
    ParentIsInnermost(claims, owner, j, i);
    NoParent(claims, owner, k);
    forall c | c in owner
      ensures c in Controllers(true)
    {
      var l :| 0 <= l < |claims| && claims[l].controller == c;
    }
    FallingIsNotCyclic(owner, map[C := 0, A := 1, B := 2]);
  }

  lemma InnermostOwners(claims: seq<Claim>, i: nat, j: nat, k: nat)
    requires Claimed(true, claims) && i < |claims| && j < |claims| && k < |claims|
    requires claims[i].controller == A && claims[j].controller == B && claims[k].controller == C
    ensures Innermost(claims, i, Some(k)) && Innermost(claims, j, Some(i)) && Innermost(claims, k, None)
    ensures B in Owned(A) && A in Owned(B)
  {
    OwnersOf(claims, i, j, k);
    OwnedSizes();
  }

  lemma OwnedSizes()
    ensures |Owned(A)| == 3 && |Owned(B)| == 3 && |Owned(C)| == 2
  {
  }

  lemma OwnersOf(claims: seq<Claim>, i: nat, j: nat, k: nat)
    requires Claimed(true, claims) && i < |claims| && j < |claims| && k < |claims|
    requires claims[i].controller == A && claims[j].controller == B && claims[k].controller == C
    ensures forall l :: Owns(claims, l, i) <==> l == j || l == k
    ensures forall l :: Owns(claims, l, j) <==> l == i
    ensures forall l :: !Owns(claims, l, k)
  {
  }

  lemma NoParent(claims: seq<Claim>, owner: map<Id, Option<Id>>, i: nat)
    requires ParentsFor(claims, owner) && i < |claims| && Innermost(claims, i, None)
    ensures claims[i].controller in owner && owner[claims[i].controller] == None
  {
    assert ParentFor(claims, i, owner);
    var choice: Option<nat> :| Innermost(claims, i, choice) && owner[claims[i].controller] == ControllerOf(claims, choice);
    InnermostUnique(claims, i, choice, None);
  }

  // ----- Compiling the two graphs -----

  lemma PlanDerives(third: bool, w: Phases, hash: Hash)
    requires Planned(w, map[], hash) && w.x == LoopsInTurn(third)
    ensures Claimed(third, ClaimsOf(w.drafts)) && ParentsFor(ClaimsOf(w.drafts), w.owner)
  {
    hide Drafted, LoopsOf, ParentsFor, ValidPlan, Claimed, LoopsInTurn, NodeTable, IsControl, WholeChains, Represents, ListsHeads, HasController, ClaimsOf, IsControlStep, NextMap, Setting;
    var p, rep := w.plan, w.plan.grouping.rep;
    var chains := MembersOf(p.analysis.units);
    PlanSetting(p, map[], hash);
    NoLinks(w.x);
    SettingParts(w.x, map[], chains, rep, p.steps);
    RepIsIdentity(chains, rep);
    NodesAre(third);
    forall id | id in Controllers(third)
      ensures HasController(w.drafts, id)
    {
      ControllerIsLoop(third, id);
      var k := ControlHasStep(w.x, map[], chains, rep, p.steps, id);
      DraftedHas(w.x, w.loops, p.steps, rep, w.drafts, k);
    }
    assert Derived(third, w.loops, p.steps, rep, w.drafts);
    DraftsClaim(third, w.loops, p.steps, rep, w.drafts);
  }

  lemma SettingParts(x: Graph, next: map<Id, Id>, chains: seq<seq<Id>>, rep: map<Id, Id>, steps: seq<ExecutionStep>)
    requires Setting(x, next, chains, rep, steps)
    ensures WholeChains(chains, next) && Represents(rep, chains) && ListsHeads(steps, rep) && rep.Keys == NodeIds(x)
  {
  }

  lemma DraftedHas(x: Graph, loops: map<Id, RawLoop>, steps: seq<ExecutionStep>, rep: map<Id, Id>, drafts: seq<Region>, k: nat)
    requires Drafted(x, loops, steps, rep, drafts, |steps|) && k < |steps| && IsControlStep(NodeTable(x.nodes), steps[k])
    ensures HasController(drafts, steps[k].nodeId)
  {
  }

  lemma NothingMalformed(third: bool)
    ensures !SomeMalformed(LoopsInTurn(third))
  {
    hide LoopsInTurn, NodeTable, ArcSet, Below, IsBoundary, ExampleRules;
    var x := LoopsInTurn(third);
    forall l | TypeAt(NodeTable(x.nodes), l) == FOR_EACH
      ensures !Malformed(x, l)
    {
      ControllerIsLoop(third, l);
      BoundariesAre(third, l, END);
      ArcsAre(third);
      forall n
        ensures l == C ==> !Below(l, n, Arcs(x.edges))
      {
        BelowIs(third, l, n);
      }
    }
  }

  /** Two loops in turn are an error, and the only one. */
  lemma LoopsInTurnAreReported(r: FullResult, w: Phases, maxDepth: nat, hash: Hash)
    requires Outcome(r, w, LoopsInTurn(false), map[], maxDepth, ExampleRules(), map[], hash)
    ensures r.RegionErrors? && CYCLIC in r.errors && MALFORMED !in r.errors
  {
    hide Accepted, Planned, Claimed, ParentsFor, Cyclic, SomeMalformed;
    GraphAccepted(false);
    NothingToExpand(r, w, LoopsInTurn(false), maxDepth, ExampleRules(), map[], hash);
    NoLinks(w.x);
    NoClash(w.loops);
    NothingMalformed(false);
    PlanDerives(false, w, hash);
    TwoLoopsAreCyclic(ClaimsOf(w.drafts), w.owner);
  }

  /** With the third loop the compilation finishes, A nested in C and B in A. */
  lemma ThirdLoopIsAccepted(r: FullResult, w: Phases, maxDepth: nat, hash: Hash)
    requires Outcome(r, w, LoopsInTurn(true), map[], maxDepth, ExampleRules(), map[], hash)
    ensures r.Finished?
    ensures forall g :: g in r.full.regions ==>
              (g.controller == A ==> g.parent == Some(C)) && (g.controller == B ==> g.parent == Some(A)) && (g.controller == C ==> g.parent == None)
  {
    hide Accepted, Planned, Claimed, ParentsFor, Cyclic, SomeMalformed, GroupsAccepted, RegionsAccepted, LoopBounded;
    GraphAccepted(true);
    NothingToExpand(r, w, LoopsInTurn(true), maxDepth, ExampleRules(), map[], hash);
    NoLinks(w.x);
    NoClash(w.loops);
    NothingMalformed(true);
    PlanDerives(true, w, hash);
    ThirdLoopHidesTheCircle(ClaimsOf(w.drafts), w.owner);
  }
}
