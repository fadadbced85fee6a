/** Small accepted graphs, and one whose collect node is fused into the loop's body, so that its
    region cannot be constructed (src/comfyng/graph/compiler.py:1094-1311). */
module ControlExamples {
  import opened Ids
  import opened Layering
  import opened Graphs
  import opened Topology
  import opened CriticalPath
  import opened Reachability
  import opened Fusion
  import opened Contraction
  import opened CacheKeys
  import opened Validation
  import opened Expansion
  import opened Expand
  import opened Compile
  import opened PlanTheorems
  import opened ControlRegions
  import opened ControlNesting
  import opened ControlPlan
  import opened FullCompile

  // ----- Small graphs of loops, work and collect nodes -----

  const ARRAY := Arr([Str("array")])
  const INTEGER := Arr([Str("integer")])
  const ANYTHING := Arr([Str("null"), Str("boolean"), Str("object"), Str("array"), Str("number"), Str("string"), Str("integer")])

  /** Ports without type references, given as lists of JSON types. */
  predicate TypesFit(from: Json, to: Json)
  {
    && from.Arr? && to.Arr?
    && forall t :: t in from.items ==> t in to.items || (t == Str("integer") && Str("number") in to.items)
  }

  predicate LiteralFits(schema: Json, value: Json)
  {
    schema.Arr? && Str(match value
                       case Null => "null"
                       case Bool(_) => "boolean"
                       case Num(_) => "integer"
                       case Str(_) => "string"
                       case Arr(_) => "array"
                       case Obj(_) => "object") in schema.items
  }

  /** The ports of the shipped control nodes (runtimes/control/ng-node.toml:53-65), and of one
      node that does some work. */
  function ExampleRules(): Rules
  {
    Rules(map[(FOR_EACH, "1.0.0") := Definition(map["items" := ARRAY], map["item" := ANYTHING, "index" := INTEGER, "count" := INTEGER], {"items"}),
              (COLLECT, "1.0.0") := Definition(map["item" := ANYTHING, "index" := INTEGER], map["items" := ARRAY], {"item", "index"}),
              ("work", "1.0.0") := Definition(map["in" := ANYTHING], map["out" := ANYTHING], {"in"})],
          LiteralFits, TypesFit, 1)
  }

  /** A loop over one literal item. */
  function Loop(n: nat): Node
  {
    Node(Base(n), FOR_EACH, "1.0.0", map["items" := Arr([Null])], map[])
  }

  /** A loop over what another node computes. */
  function FedLoop(n: nat): Node
  {
    Node(Base(n), FOR_EACH, "1.0.0", map[], map["max_iterations" := Num(1)])
  }

  function Worker(n: nat): Node
  {
    Node(Base(n), "work", "1.0.0", map[], map[])
  }

  function Collector(n: nat): Node
  {
    Node(Base(n), COLLECT, "1.0.0", map[], map[])
  }

  /** A collect node with a literal index. */
  function IndexedCollector(n: nat): Node
  {
    Node(Base(n), COLLECT, "1.0.0", map["index" := Num(0)], map[])
  }

  predicate PlainNode(n: Node)
  {
    && n.id.Base?
    && (n == Loop(n.id.n) || n == FedLoop(n.id.n) || n == Worker(n.id.n) || n == Collector(n.id.n) || n == IndexedCollector(n.id.n))
  }

  predicate Rises(e: Edge)
  {
    e.source.Base? && e.target.Base? && e.source.n < e.target.n
  }

  ghost predicate Fed(edges: seq<Edge>, id: Id, p: string)
  {
    exists e :: e in edges && e.target == id && e.targetPort == p
  }

  /** Every port has a literal or an edge. */
  ghost predicate AllFed(g: Graph, n: Node)
  {
    Known(ExampleRules(), n) && forall p :: p in DefinitionOf(ExampleRules(), n).inputPorts ==> (p in n.inputs <==> !Fed(g.edges, n.id, p))
  }

  ghost predicate PortsOnce(edges: seq<Edge>)
  {
    forall i, j :: 0 <= i < j < |edges| ==> (edges[i].target, edges[i].targetPort) != (edges[j].target, edges[j].targetPort)
  }

  /** Nodes of these kinds, edges that run upwards and fit, every port bound once. */
  ghost predicate Plain(g: Graph)
  {
    && (forall i, j :: 0 <= i < j < |g.nodes| ==> g.nodes[i].id != g.nodes[j].id)
    && (forall n :: n in g.nodes ==> PlainNode(n) && AllFed(g, n))
    && (forall e :: e in g.edges ==> Rises(e) && EdgeOk(NodeTable(g.nodes), ExampleRules(), e))
    && PortsOnce(g.edges) && g.inputs == map[] && g.outputs == map[]
  }

  lemma {:induction false} FedOnce(edges: seq<Edge>, id: Id, p: string)
    requires PortsOnce(edges)
    ensures EdgeCount(edges, id, p) == if Fed(edges, id, p) then 1 else 0
  {
    if edges != [] {
      var init, last := edges[..|edges| - 1], edges[|edges| - 1];
      FedOnce(init, id, p);
      assert edges == init + [last];
      if last.target == id && last.targetPort == p {
        forall e | e in init
          ensures e.target != id || e.targetPort != p
        {
          var i :| 0 <= i < |init| && init[i] == e;
          assert (edges[i].target, edges[i].targetPort) != (last.target, last.targetPort);
        }
      }
    }
  }

  lemma PlainAcyclic(g: Graph)
    requires Plain(g)
    ensures Acyclic(Arcs(g.edges))
  {
    var ends := (set e | e in g.edges :: e.source) + set e | e in g.edges :: e.target;
    var rank := map id: Id | id in ends :: if id.Base? then id.n else 0;
    assert Within(ends, Arcs(g.edges));
    RankedIsAcyclic(ends, Arcs(g.edges), rank);
  }

  lemma PlainKind(n: Node)
    requires PlainNode(n)
    ensures Known(ExampleRules(), n) && LiteralsOk(ExampleRules(), n) && LoopOk(ExampleRules(), n)
    ensures DefinitionOf(ExampleRules(), n).required == DefinitionOf(ExampleRules(), n).inputPorts.Keys
  {
    assert Str("array") in ARRAY.items && Str("integer") in INTEGER.items by {
      assert ARRAY.items[0] == Str("array") && INTEGER.items[0] == Str("integer");
    }
  }

  lemma PlainNodeOk(g: Graph, n: Node)
    requires Plain(g) && n in g.nodes
    ensures NodeOk(g, ExampleRules(), n)
  {
    hide ExampleRules, EdgeOk, LoopOk, LiteralsOk;
    PlainKind(n);
    forall p | p in DefinitionOf(ExampleRules(), n).inputPorts
      ensures SourceCount(g, n, p) == 1
    {
      FedOnce(g.edges, n.id, p);
      assert InputNames(g, n.id, p) == {};
    }
  }

  /** Such graphs are accepted. */
  lemma PlainAccepted(g: Graph)
    requires Plain(g)
    ensures Accepted(g, ExampleRules())
  {
    hide NodeOk, EdgeOk, PlainNode, AllFed, ExampleRules, Acyclic, PortsOnce;
    PlainAcyclic(g);
    forall n | n in g.nodes
      ensures NodeOk(g, ExampleRules(), n)
    {
      PlainNodeOk(g, n);
    }
  }

  // ----- Edges that fit -----

  /** Whatever is sent to a port that takes anything fits. */
  lemma IntoAnything(from: Json)
    requires from == ARRAY || from == INTEGER || from == ANYTHING
    ensures TypesFit(from, ANYTHING)
  {
    assert ANYTHING.items[3] == Str("array") && ANYTHING.items[6] == Str("integer");
  }

  /** The edges between the kinds of nodes. */
  lemma EdgeFits(nodes: map<Id, Node>, e: Edge, s: string, t: string)
    requires e.source in nodes && nodes[e.source].typeId == s && nodes[e.source].typeVersion == "1.0.0"
    requires e.target in nodes && nodes[e.target].typeId == t && nodes[e.target].typeVersion == "1.0.0"
    requires || (s == FOR_EACH && t == COLLECT && e.sourcePort == e.targetPort == "item")
             || (s == FOR_EACH && t == COLLECT && e.sourcePort == e.targetPort == "index")
             || (s == FOR_EACH && t == "work" && e.sourcePort == "item" && e.targetPort == "in")
             || (s == "work" && t == COLLECT && e.sourcePort == "out" && e.targetPort == "item")
             || (s == COLLECT && t == FOR_EACH && e.sourcePort == e.targetPort == "items")
    ensures EdgeOk(nodes, ExampleRules(), e)
  {
    IntoAnything(ANYTHING);
    assert TypesFit(INTEGER, INTEGER) && TypesFit(ARRAY, ARRAY);
  }

  // ----- Compiling without subgraphs -----

  /** Without registered types there is nothing to expand. */
  lemma NothingToExpand(r: FullResult, w: Phases, g: Graph, maxDepth: nat, rules: Rules, profiles: Profiles, hash: Hash)
    requires Outcome(r, w, g, map[], maxDepth, rules, profiles, hash) && Accepted(g, rules)
    ensures !r.ExpansionError? && !r.ValidationErrors? && w.x == g && Planned(w, profiles, hash)
  {
    hide Accepted, Planned;
    if r.ExpansionError? {
      NothingStops(g, maxDepth, r.code);
    } else {
      NothingInlined(w.d, g, maxDepth, w.x);
    }
  }

  lemma NothingStops(g: Graph, maxDepth: nat, code: string)
    ensures !ExpansionFails(code, g, map[], [], maxDepth)
  {
    forall s
      ensures !Stops(s, g, map[], [], maxDepth, code)
    {
    }
  }

  lemma NothingInlined(d: Derivation, g: Graph, maxDepth: nat, x: Graph)
    requires Runs(d, g, map[], [], maxDepth, x)
    ensures x == g
  {
  }

  // ----- A loop whose collect node is fused into its body -----

  function WorkProfile(): Profile
  {
    Profile(Some("k"), true, true, false, false, "runtime", map["in" := Null], map["out" := Null])
  }

  function CollectProfile(): Profile
  {
    Profile(Some("k"), true, true, false, false, "runtime", map["item" := Null, "index" := Null], map["items" := Null])
  }

  /** A catalogue in which collect nodes may be fused. The shipped one declares no fusion kind. */
  function OverlapProfiles(): Profiles
  {
    map[("work", "1.0.0") := WorkProfile(), (COLLECT, "1.0.0") := CollectProfile()]
  }

  function OverlapGraph(): Graph
  {
    Graph(0, 1, [Loop(0), Worker(1), IndexedCollector(2)],
          [Edge(Base(0), "item", Base(1), "in"), Edge(Base(1), "out", Base(2), "item")], map[], map[])
  }

  lemma OverlapTable()
    ensures NodeTable(OverlapGraph().nodes) == map[Base(0) := Loop(0), Base(1) := Worker(1), Base(2) := IndexedCollector(2)]
  {
    var nodes := OverlapGraph().nodes;
    assert nodes[..2] == [Loop(0), Worker(1)] && nodes[..2][..1] == [Loop(0)] && nodes[..2][..1][..0] == [];
    assert NodeTable(nodes[..2][..1]) == map[Base(0) := Loop(0)];
    assert NodeTable(nodes[..2]) == map[Base(0) := Loop(0), Base(1) := Worker(1)];
  }

  lemma OverlapFed(n: Node)
    requires n in OverlapGraph().nodes
    ensures AllFed(OverlapGraph(), n)
  {
    var edges := OverlapGraph().edges;
    assert edges[0] in edges && edges[1] in edges;
    assert Fed(edges, Base(1), "in") && Fed(edges, Base(2), "item");
  }

  lemma OverlapAccepted()
    ensures Accepted(OverlapGraph(), ExampleRules())
  {
    hide Accepted, ExampleRules, NodeTable, AllFed, EdgeOk;
    var g := OverlapGraph();
    OverlapTable();
    forall n | n in g.nodes
      ensures AllFed(g, n)
    {
      OverlapFed(n);
    }
    EdgeFits(NodeTable(g.nodes), g.edges[0], FOR_EACH, "work");
    EdgeFits(NodeTable(g.nodes), g.edges[1], "work", COLLECT);
    PlainAccepted(g);
  }

  lemma OverlapLink()
    ensures OutOf(OverlapGraph().edges, Base(1)) == [Edge(Base(1), "out", Base(2), "item")]
    ensures IntoOf(OverlapGraph().edges, Base(2)) == [Edge(Base(1), "out", Base(2), "item")]
  {
    var edges := OverlapGraph().edges;
    assert edges[..1] == [edges[0]] && edges[..1][..0] == [];
    assert OutOf(edges[..1], Base(1)) == [];
    assert IntoOf(edges[..1], Base(2)) == [];
  }

  /** The work node and the collect node that bounds the loop are fused into one step. */
  lemma CollectMayFuse()
    ensures var next := NextMap(OverlapGraph(), OverlapProfiles()); Base(1) in next && next[Base(1)] == Base(2)
    ensures Below(Base(0), Base(1), Arcs(OverlapGraph().edges)) && TypeAt(NodeTable(OverlapGraph().nodes), Base(1)) != COLLECT
    ensures IsBoundary(OverlapGraph(), Base(0), Base(2))
    ensures LeadsInto(Base(1), SourcesOf(OverlapGraph().edges, Base(2)), Arcs(OverlapGraph().edges))
  {
    var g := OverlapGraph();
    var arcs := Arcs(g.edges);
    OverlapTable();
    OverlapLink();
    assert Worker(1) in g.nodes && Worker(1).id in NodeIds(g);
    assert LinkEvidence(g, NodeTable(g.nodes), OverlapProfiles(), g.edges[1]).Some?;
    assert Linked(g, OverlapProfiles(), Base(1));
    assert g.edges[0] in g.edges && g.edges[1] in g.edges;
    assert (Base(0), Base(1)) in arcs && (Base(1), Base(2)) in arcs;
    LeadsSelf(Base(1), arcs);
    LeadsArc(Base(1), Base(2), arcs);
    assert Base(1) in SourcesOf(g.edges, Base(2));
  }

  /** A body node linked to a boundary makes the loop's last check fail. */
  lemma LinkedAcross(x: Graph, loops: map<Id, RawLoop>, next: map<Id, Id>, loop: Id, a: Id, c: Id)
    requires LoopsOf(x, loops) && TypeAt(NodeTable(x.nodes), loop) == FOR_EACH && a in next && next[a] == c && a != loop
    requires Below(loop, a, Arcs(x.edges)) && TypeAt(NodeTable(x.nodes), a) != COLLECT && IsBoundary(x, loop, c)
    requires LeadsInto(a, SourcesOf(x.edges, c), Arcs(x.edges))
    ensures FusedAcrossBoundary(loops, next)
  {
    var raw := loops[loop];
    assert c in raw.boundaries && !IsBoundary(x, loop, a);
    assert InBody(x, loop, raw.boundaries, a);
  }

  lemma LoopFirst()
    ensures TypeAt(NodeTable(OverlapGraph().nodes), Base(0)) == FOR_EACH
  {
    OverlapTable();
  }

  /** Whatever compiles this accepted graph ends with a region that cannot be constructed. */
  lemma OverlapHappens(r: FullResult, w: Phases, maxDepth: nat, hash: Hash)
    requires Outcome(r, w, OverlapGraph(), map[], maxDepth, ExampleRules(), OverlapProfiles(), hash)
    ensures r.RegionFailure?
  {
    hide Accepted;
    OverlapAccepted();
    NothingToExpand(r, w, OverlapGraph(), maxDepth, ExampleRules(), OverlapProfiles(), hash);
    CollectMayFuse();
    LoopFirst();
    LinkedAcross(w.x, w.loops, NextMap(w.x, OverlapProfiles()), Base(0), Base(1), Base(2));
  }
}
