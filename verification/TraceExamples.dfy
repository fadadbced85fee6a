/** A graph whose expansion has two traces with one call id: its second call is stored under the
    id that the first call's child gives to its own call. And a graph that only expands in an
    order the loop does not take. */
module TraceExamples {
  import opened Ids
  import opened Graphs
  import opened Inlining
  import opened Expansion
  import opened Expand
  import opened ExpansionTheorems
  import opened Traces
  import opened InlineCall
  import opened CallChains
  import opened Determinism

  function Bare(id: Id, typeId: string): Node
  {
    Node(id, typeId, "1", map[], map[])
  }

  function Single(graph: nat, n: Node): Graph
  {
    Graph(graph, 1, [n], [], map[], map[])
  }

  const LEAF := Bare(Base(0), "leaf")
  const MIDDLE := Bare(Base(2), "middle")
  const OUTER := Bare(Base(3), "outer")
  const TWIN := Bare(Clone(Base(3), 8, 1, Base(2)), "middle")

  /** "middle" stands for one ordinary node, "outer" for one call of "middle". */
  function TwinRegistry(): Registry
  {
    map[("middle", "1") := Single(9, LEAF), ("outer", "1") := Single(8, MIDDLE)]
  }

  function TwinGraph(): Graph
  {
    Graph(1, 1, [OUTER, TWIN], [], map[], map[])
  }

  function CloneBare(call: Node, child: Graph, n: Node): Node
  {
    Bare(CloneId(call, child, n.id), n.typeId)
  }

  /** A graph without edges and bindings. */
  predicate Loose(g: Graph)
  {
    g.edges == [] && g.inputs == map[] && g.outputs == map[]
  }

  predicate IsBare(n: Node)
  {
    n == Bare(n.id, n.typeId)
  }

  lemma CloneIsBare(call: Node, child: Graph, n: Node)
    requires IsBare(call) && IsBare(n)
    ensures CloneOf(call, child, n, CloneBare(call, child, n))
  {
  }

  lemma BareInlinable(g: Graph, call: Node, graph: nat, n: Node)
    requires Loose(g) && IsBare(call) && CloneId(call, Single(graph, n), n.id) !in NodeIds(g)
    ensures Inlinable(g, call, Single(graph, n))
  {
    hide CloneId;
    var child := Single(graph, n);
    assert child.nodes == [n];
    assert NodeIds(child) == {n.id};
    assert CloneIds(call, child) == {CloneId(call, child, n.id)};
  }

  /** Inlining in a loose graph, of a child with one node. */
  lemma BareInlining(g: Graph, call: Node, graph: nat, n: Node, after: Graph)
    requires Loose(g) && IsBare(call) && IsBare(n)
    requires after == g.(nodes := Others(g.nodes, call) + [CloneBare(call, Single(graph, n), n)])
    ensures IsInlining(g, call, Single(graph, n), after)
  {
    hide CloneOf;
    var child := Single(graph, n);
    CloneIsBare(call, child, n);
    var clones := [CloneBare(call, child, n)];
    assert forall k :: 0 <= k < |clones| ==> CloneOf(call, child, child.nodes[k], clones[k]);
    assert after.nodes == Others(g.nodes, call) + clones;
  }

  lemma OthersOfOne(a: Node)
    ensures Others([a], a) == []
  {
  }

  lemma OthersOfTwo(a: Node, b: Node)
    requires a.id != b.id
    ensures Others([a, b], a) == [b]
  {
    assert [a, b][..1] == [a];
    OthersOfOne(a);
  }

  /** An expansion whose first step inlines a child with one node. */
  lemma BareStep(g: Graph, call: Node, inner: Derivation, graph: nat, n: Node, after: Graph, rest: Derivation, x: Graph)
    requires Loose(g) && IsBare(call) && IsBare(n) && CloneId(call, Single(graph, n), n.id) !in NodeIds(g)
    requires after == g.(nodes := Others(g.nodes, call) + [CloneBare(call, Single(graph, n), n)])
    requires call in g.nodes && KeyOf(call) in TwinRegistry()
    requires Derives(inner, TwinRegistry()[KeyOf(call)], TwinRegistry(), Single(graph, n)) && Derives(rest, after, TwinRegistry(), x)
    ensures Derives(Inline(call, inner, Single(graph, n), after, rest), g, TwinRegistry(), x)
  {
    hide Inlinable, IsInlining, CloneId, TwinRegistry;
    BareInlinable(g, call, graph, n);
    BareInlining(g, call, graph, n, after);
  }

  /** The node that each call of "middle" leaves. */
  function LeafOf(call: Node): Node
  {
    CloneBare(call, Single(9, LEAF), LEAF)
  }

  function MiddleChild(): Graph
  {
    Single(8, LeafOf(MIDDLE))
  }

  function TwinAfter(): Graph
  {
    Graph(1, 1, [TWIN, CloneBare(OUTER, MiddleChild(), LeafOf(MIDDLE))], [], map[], map[])
  }

  function TwinExpanded(): Graph
  {
    Graph(1, 1, [CloneBare(OUTER, MiddleChild(), LeafOf(MIDDLE)), LeafOf(TWIN)], [], map[], map[])
  }

  lemma LeafDerives()
    ensures Derives(Done, Single(9, LEAF), TwinRegistry(), Single(9, LEAF))
  {
  }

  lemma MiddleDerives() returns (inner: Derivation)
    ensures Derives(inner, Single(8, MIDDLE), TwinRegistry(), MiddleChild())
  {
    inner := Inline(MIDDLE, Done, Single(9, LEAF), MiddleChild(), Done);
    LeafDerives();
    OthersOfOne(MIDDLE);
    assert NodeIds(Single(8, MIDDLE)) == {Base(2)} by { assert Single(8, MIDDLE).nodes == [MIDDLE]; }
    assert NoCalls(MiddleChild(), TwinRegistry());
    BareStep(Single(8, MIDDLE), MIDDLE, Done, 9, LEAF, MiddleChild(), Done, MiddleChild());
  }

  lemma TwinDerives() returns (rest: Derivation)
    ensures Derives(rest, TwinAfter(), TwinRegistry(), TwinExpanded())
  {
    rest := Inline(TWIN, Done, Single(9, LEAF), TwinExpanded(), Done);
    LeafDerives();
    OthersOfTwo(TWIN, CloneBare(OUTER, MiddleChild(), LeafOf(MIDDLE)));
    assert NoCalls(TwinExpanded(), TwinRegistry());
    BareStep(TwinAfter(), TWIN, Done, 9, LEAF, TwinExpanded(), Done, TwinExpanded());
  }

  lemma TwinShares()
    ensures SomeSharedId(TwinGraph(), TwinRegistry())
  {
    assert Called(Single(8, MIDDLE), TwinRegistry(), Base(2)) by {
      assert MIDDLE in Single(8, MIDDLE).nodes && KeyOf(MIDDLE) in TwinRegistry();
    }
    assert Below(OUTER, TwinRegistry(), TWIN.id);
    assert OUTER in TwinGraph().nodes && TWIN in TwinGraph().nodes;
    SharedIdHere(TwinGraph(), TwinRegistry());
  }

  lemma TwinUnique()
    ensures UniqueIds(TwinGraph()) && forall key :: key in TwinRegistry() ==> UniqueIds(TwinRegistry()[key])
  {
  }

  lemma OuterStep(inner: Derivation, rest: Derivation)
    requires Derives(inner, Single(8, MIDDLE), TwinRegistry(), MiddleChild())
    requires Derives(rest, TwinAfter(), TwinRegistry(), TwinExpanded())
    ensures Derives(Inline(OUTER, inner, MiddleChild(), TwinAfter(), rest), TwinGraph(), TwinRegistry(), TwinExpanded())
  {
    hide Derives;
    OthersOfTwo(OUTER, TWIN);
    BareStep(TwinGraph(), OUTER, inner, 8, LeafOf(MIDDLE), TwinAfter(), rest, TwinExpanded());
  }

  /** The expansion succeeds, and two of its traces carry the id of the second call. */
  lemma TracesShareAnId() returns (d: Derivation)
    ensures Derives(d, TwinGraph(), TwinRegistry(), TwinExpanded())
    ensures SomeSharedId(TwinGraph(), TwinRegistry()) && !Forest(TracesOf(d), NodeIds(TwinExpanded()))
  {
    hide Derives, SomeSharedId, Forest, UniqueIds, TwinGraph, TwinRegistry, TwinAfter, TwinExpanded;
    var inner := MiddleDerives();
    var rest := TwinDerives();
    d := Inline(OUTER, inner, MiddleChild(), TwinAfter(), rest);
    OuterStep(inner, rest);
    TwinShares();
    TwinUnique();
    TracesFormForest(d, TwinGraph(), TwinRegistry(), TwinExpanded());
  }

  // ----- The order of the loop decides whether there is an error -----

  /** A call stored under the id that the node below OUTER will be cloned to. */
  const SQUATTER := Bare(Clone(Base(3), 8, 1, Clone(Base(2), 9, 1, Base(0))), "middle")

  function ClashGraph(): Graph
  {
    Graph(1, 1, [SQUATTER, OUTER], [], map[], map[])
  }

  function ClashAfter(): Graph
  {
    Graph(1, 1, [OUTER, LeafOf(SQUATTER)], [], map[], map[])
  }

  function ClashExpanded(): Graph
  {
    Graph(1, 1, [LeafOf(SQUATTER), CloneBare(OUTER, MiddleChild(), LeafOf(MIDDLE))], [], map[], map[])
  }

  /** Inlining the larger id first, all ids stay apart. */
  lemma ClashDerives() returns (d: Derivation)
    ensures Derives(d, ClashGraph(), TwinRegistry(), ClashExpanded())
  {
    hide Derives, TwinRegistry, ClashGraph, ClashAfter, ClashExpanded;
    LeafDerives();
    var inner := MiddleDerives();
    var rest := Inline(OUTER, inner, MiddleChild(), ClashExpanded(), Done);
    OuterLater(inner);
    d := Inline(SQUATTER, Done, Single(9, LEAF), ClashAfter(), rest);
    SquatterFirst(rest);
  }

  lemma OuterLater(inner: Derivation)
    requires Derives(inner, Single(8, MIDDLE), TwinRegistry(), MiddleChild())
    ensures Derives(Inline(OUTER, inner, MiddleChild(), ClashExpanded(), Done), ClashAfter(), TwinRegistry(), ClashExpanded())
  {
    hide Derives, NodeIds, CloneId, Others;
    OuterApart();
    OthersOfTwo(OUTER, LeafOf(SQUATTER));
    NothingLeft();
    CloneIsNew();
    BareStep(ClashAfter(), OUTER, inner, 8, LeafOf(MIDDLE), ClashExpanded(), Done, ClashExpanded());
  }

  lemma OuterApart()
    ensures LeafOf(SQUATTER).id != OUTER.id
  {
  }

  lemma CloneIsNew()
    ensures CloneId(OUTER, Single(8, LeafOf(MIDDLE)), LeafOf(MIDDLE).id) !in NodeIds(ClashAfter())
  {
    assert NodeIds(ClashAfter()) == {OUTER.id, LeafOf(SQUATTER).id} by {
      assert ClashAfter().nodes[0] == OUTER && ClashAfter().nodes[1] == LeafOf(SQUATTER);
    }
  }

  lemma NothingLeft()
    ensures Derives(Done, ClashExpanded(), TwinRegistry(), ClashExpanded())
  {
  }

  lemma LeafIsNew()
    ensures CloneId(SQUATTER, Single(9, LEAF), LEAF.id) !in NodeIds(ClashGraph())
  {
    assert NodeIds(ClashGraph()) == {SQUATTER.id, OUTER.id} by {
      assert ClashGraph().nodes[0] == SQUATTER && ClashGraph().nodes[1] == OUTER;
    }
  }

  lemma SquatterFirst(rest: Derivation)
    requires Derives(rest, ClashAfter(), TwinRegistry(), ClashExpanded())
    ensures Derives(Inline(SQUATTER, Done, Single(9, LEAF), ClashAfter(), rest), ClashGraph(), TwinRegistry(), ClashExpanded())
  {
    hide Derives, NodeIds, CloneId, CloneBare, Others;
    LeafDerives();
    OthersOfTwo(SQUATTER, OUTER);
    LeafIsNew();
    BareStep(ClashGraph(), SQUATTER, Done, 9, LEAF, ClashAfter(), rest, ClashExpanded());
  }

  /** The recursion's own expansion of "outer". */
  lemma MiddleRuns(maxDepth: nat) returns (inner: Derivation)
    requires maxDepth >= 2
    ensures Runs(inner, Single(8, MIDDLE), TwinRegistry(), [KeyOf(OUTER)], maxDepth, MiddleChild())
  {
    inner := Inline(MIDDLE, Done, Single(9, LEAF), MiddleChild(), Done);
    OthersOfOne(MIDDLE);
    assert NodeIds(Single(8, MIDDLE)) == {Base(2)} by { assert Single(8, MIDDLE).nodes == [MIDDLE]; }
    BareInlinable(Single(8, MIDDLE), MIDDLE, 9, LEAF);
    BareInlining(Single(8, MIDDLE), MIDDLE, 9, LEAF, MiddleChild());
    MiddleEnters();
    NothingBelow(maxDepth);
    assert Replaced(Single(8, MIDDLE), MIDDLE, Single(9, LEAF), MiddleChild());
  }

  lemma MiddleEnters()
    ensures Enters(MIDDLE, Single(8, MIDDLE), TwinRegistry(), [KeyOf(OUTER)])
  {
    assert Single(8, MIDDLE).nodes == [MIDDLE];
  }

  lemma NothingBelow(maxDepth: nat)
    requires maxDepth >= 2
    ensures Runs(Done, Single(9, LEAF), TwinRegistry(), [KeyOf(OUTER)] + [KeyOf(MIDDLE)], maxDepth, Single(9, LEAF))
    ensures Runs(Done, MiddleChild(), TwinRegistry(), [KeyOf(OUTER)], maxDepth, MiddleChild())
  {
  }

  lemma OuterIsFirst()
    ensures Enters(OUTER, ClashGraph(), TwinRegistry(), [])
  {
    assert ClashGraph().nodes[1] == OUTER;
  }

  lemma SquatterClashes()
    ensures Unfit(ClashGraph(), OUTER, MiddleChild(), "subgraph_node_collision")
  {
    var child := MiddleChild();
    assert child.nodes[0] == LeafOf(MIDDLE) && LeafOf(MIDDLE) in child.nodes;
    assert LeafOf(MIDDLE).id in NodeIds(child);
    assert SQUATTER.id == CloneId(OUTER, child, LeafOf(MIDDLE).id) && SQUATTER.id in CloneIds(OUTER, child);
    assert ClashGraph().nodes[0] == SQUATTER && SQUATTER.id in NodeIds(ClashGraph()) - {OUTER.id};
    assert !NoCollision(ClashGraph(), OUTER, child);
  }

  /** One order of inlining succeeds, but the loop takes the smallest id first and fails. */
  lemma OrderDecides(maxDepth: nat) returns (d: Derivation)
    requires maxDepth >= 2
    ensures Derives(d, ClashGraph(), TwinRegistry(), ClashExpanded())
    ensures ExpansionFails("subgraph_node_collision", ClashGraph(), TwinRegistry(), [], maxDepth)
    ensures forall e, x :: !Runs(e, ClashGraph(), TwinRegistry(), [], maxDepth, x)
  {
    hide Derives, Runs, ExpansionFails, Alike, RegistriesAlike, ClashGraph, TwinRegistry, ClashExpanded;
    d := ClashDerives();
    ClashStops(maxDepth);
    forall e, x
      ensures !Runs(e, ClashGraph(), TwinRegistry(), [], maxDepth, x)
    {
      ClashNeverRuns(maxDepth, e, x);
    }
  }

  lemma ClashNeverRuns(maxDepth: nat, e: Derivation, x: Graph)
    requires ExpansionFails("subgraph_node_collision", ClashGraph(), TwinRegistry(), [], maxDepth)
    ensures !Runs(e, ClashGraph(), TwinRegistry(), [], maxDepth, x)
  {
    hide Derives, Runs, ExpansionFails, Alike, RegistriesAlike, ClashGraph, TwinRegistry, ClashExpanded;
    ClashIsAlike();
    if Runs(e, ClashGraph(), TwinRegistry(), [], maxDepth, x) {
      SuccessIsNoFailure(e, ClashGraph(), ClashGraph(), TwinRegistry(), TwinRegistry(), maxDepth, x);
    }
  }

  lemma ClashStops(maxDepth: nat)
    requires maxDepth >= 2
    ensures ExpansionFails("subgraph_node_collision", ClashGraph(), TwinRegistry(), [], maxDepth)
  {
    hide Runs, Unfit, Enters;
    var inner := MiddleRuns(maxDepth);
    OuterIsFirst();
    SquatterClashes();
    assert TwinRegistry()[KeyOf(OUTER)] == Single(8, MIDDLE);
    assert [] + [KeyOf(OUTER)] == [KeyOf(OUTER)];
    assert Stops(Misfit(OUTER, inner, MiddleChild()), ClashGraph(), TwinRegistry(), [], maxDepth, "subgraph_node_collision");
  }

  lemma ClashIsAlike()
    ensures Alike(ClashGraph(), ClashGraph()) && RegistriesAlike(TwinRegistry(), TwinRegistry())
  {
    AlikeItself(ClashGraph());
    TwinUnique();
    AlikeItself(Single(9, LEAF));
    AlikeItself(Single(8, MIDDLE));
  }
}
