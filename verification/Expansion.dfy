/** Expanding every subgraph call, recursively (src/comfyng/graph/subgraphs.py:340-406). */
module Expansion {
  import opened Ids
  import opened Layering
  import opened Graphs
  import opened Semantics
  import opened Inlining

  type Registry = map<NodeKey, Graph>

  function KeyOf(n: Node): NodeKey
  {
    (n.typeId, n.typeVersion)
  }

  /** No two input names of a graph are bound to the same port. */
  ghost predicate InputsApart(g: Graph)
  {
    forall a, b | a in g.inputs && b in g.inputs :: g.inputs[a] == g.inputs[b] ==> a == b
  }

  ghost predicate NoCalls(g: Graph, registry: Registry)
  {
    forall n :: n in g.nodes ==> KeyOf(n) !in registry
  }

  // ----- What one inlining keeps -----

  lemma {:induction false} OthersUnique(nodes: seq<Node>, call: Node)
    requires Distinct(IdsOf(nodes))
    ensures Distinct(IdsOf(Others(nodes, call)))
  {
    if nodes != [] {
      var init, last := nodes[..|nodes| - 1], nodes[|nodes| - 1];
      assert forall i :: 0 <= i < |init| ==> IdsOf(init)[i] == IdsOf(nodes)[i];
      OthersUnique(init, call);
      var front := Others(init, call);
      forall i | 0 <= i < |front|
        ensures front[i].id != last.id
      {
        OthersMembers(init, call, front[i]);
        var k :| 0 <= k < |init| && init[k] == front[i];
        assert IdsOf(nodes)[k] != IdsOf(nodes)[|nodes| - 1];
      }
      assert forall i :: 0 <= i < |front| ==> IdsOf(front)[i] == IdsOf(front + [last])[i];
    }
  }

  lemma InliningIdsUnique(g: Graph, call: Node, child: Graph, r: Graph)
    requires Distinct(IdsOf(g.nodes)) && Distinct(IdsOf(child.nodes))
    requires NoCollision(g, call, child) && IsInlining(g, call, child, r)
    ensures Distinct(IdsOf(r.nodes))
  {
    var clones: seq<Node> :|
      && |clones| == |child.nodes|
      && (forall k :: 0 <= k < |clones| ==> CloneOf(call, child, child.nodes[k], clones[k]))
      && r.nodes == Others(g.nodes, call) + clones;
    OthersUnique(g.nodes, call);
    CloneIdsUnique(call, child, clones);
    forall n, m | n in Others(g.nodes, call) && m in clones
      ensures n.id != m.id
    {
      OthersMembers(g.nodes, call, n);
      assert n.id in NodeIds(g) - {call.id} && m.id in CloneIds(call, child);
    }
    IdsJoin(Others(g.nodes, call), clones);
  }

  lemma CloneIdsUnique(call: Node, child: Graph, clones: seq<Node>)
    requires Distinct(IdsOf(child.nodes)) && |clones| == |child.nodes|
    requires forall k :: 0 <= k < |clones| ==> CloneOf(call, child, child.nodes[k], clones[k])
    ensures Distinct(IdsOf(clones))
    ensures forall m :: m in clones ==> m.id in CloneIds(call, child)
  {
    forall i, j | 0 <= i < j < |clones|
      ensures IdsOf(clones)[i] != IdsOf(clones)[j]
    {
      assert IdsOf(child.nodes)[i] != IdsOf(child.nodes)[j];
    }
    forall m | m in clones
      ensures m.id in CloneIds(call, child)
    {
      var k :| 0 <= k < |clones| && clones[k] == m;
      assert child.nodes[k].id in NodeIds(child);
    }
  }

  lemma IdsJoin(a: seq<Node>, b: seq<Node>)
    requires Distinct(IdsOf(a)) && Distinct(IdsOf(b))
    requires forall n, m :: n in a && m in b ==> n.id != m.id
    ensures Distinct(IdsOf(a + b))
  {
    assert IdsOf(a + b) == IdsOf(a) + IdsOf(b);
  }

  lemma InliningWellFormed(g: Graph, call: Node, child: Graph, r: Graph)
    requires CallSite(g, call, child, r)
    ensures WellFormed(r)
  {
    InliningIdsUnique(g, call, child, r);
    IdsOfInlining(g, call, child, r);
    EdgesOfInlining(g, call, child, r);
    forall e | e in r.edges
      ensures e.source in NodeIds(r) && e.target in NodeIds(r)
    {
      if FromParent(g, call, child, e) {
        var f :| f in g.edges && e == RewriteEdge(call, child, f);
        ParentEnds(g, call, child, f);
      } else {
        var f :| f in child.edges && e == CloneEdge(call, child, f);
        assert f.source in NodeIds(child) && f.target in NodeIds(child);
      }
    }
    forall name | name in r.inputs
      ensures r.inputs[name].node in NodeIds(r)
    {
      BoundInside(g, call, child, g.inputs[name], r.inputs[name], child.inputs);
    }
    forall name | name in r.outputs
      ensures r.outputs[name].node in NodeIds(r)
    {
      BoundInside(g, call, child, g.outputs[name], r.outputs[name], child.outputs);
    }
  }

  /** An edge from the call to itself is the one thing that spoils an inlining: only its target
      is rewritten, so its source dangles. */
  lemma InliningWellFormedIff(g: Graph, call: Node, child: Graph, r: Graph)
    requires WellFormed(g) && WellFormed(child) && call in g.nodes
    requires Inlinable(g, call, child) && IsInlining(g, call, child, r)
    ensures WellFormed(r) <==> forall e :: e in g.edges ==> !(e.source == call.id && e.target == call.id)
  {
    if e :| e in g.edges && e.source == call.id && e.target == call.id {
      EdgesOfInlining(g, call, child, r);
      IdsOfInlining(g, call, child, r);
      assert RewriteEdge(call, child, e) in r.edges && RewriteEdge(call, child, e).source == call.id;
      assert call.id !in CloneIds(call, child);
    } else {
      InliningWellFormed(g, call, child, r);
    }
  }

  lemma ParentEnds(g: Graph, call: Node, child: Graph, f: Edge)
    requires WellFormed(g) && WellFormed(child) && f in g.edges
    requires EdgesInKnown(g, call, child) && EdgesOutKnown(g, call, child)
    requires !(f.source == call.id && f.target == call.id)
    ensures RewriteEdge(call, child, f).source in NodeIds(g) - {call.id} + CloneIds(call, child)
    ensures RewriteEdge(call, child, f).target in NodeIds(g) - {call.id} + CloneIds(call, child)
  {
    if f.target == call.id {
      assert child.inputs[f.targetPort].node in NodeIds(child);
    } else if f.source == call.id {
      assert child.outputs[f.sourcePort].node in NodeIds(child);
    }
  }

  lemma BoundInside(g: Graph, call: Node, child: Graph, b: Binding, c: Binding, inner: map<string, Binding>)
    requires b.node in NodeIds(g)
    requires b.node == call.id ==> b.port in inner && inner[b.port].node in NodeIds(child)
    requires c == if b.node != call.id then b else Binding(CloneId(call, child, inner[b.port].node), inner[b.port].port)
    ensures c.node in NodeIds(g) - {call.id} + CloneIds(call, child)
  {
  }

  // ----- Acyclicity -----

  lemma Lexicographic(a: nat, b: nat, c: nat, k: nat)
    requires a < b && c < k
    ensures a * k + c < b * k
  {
    assert (a + 1) * k <= b * k;
  }

  /** A bound above every rank. */
  lemma RankBound(rank: map<Id, nat>) returns (k: nat)
    ensures forall id :: id in rank ==> rank[id] < k
  {
    k := 0;
    var rest := rank.Keys;
    while rest != {}
      invariant rest <= rank.Keys
      invariant forall id :: id in rank && id !in rest ==> rank[id] < k
    {
      var id :| id in rest;
      rest := rest - {id};
      if rank[id] >= k { k := rank[id] + 1; }
    }
  }

  /** Rank survivors by the parent, clones within the slot of the call. */
  ghost function NestedRank(outer: map<Id, nat>, inner: map<Id, nat>, call: Node, child: Graph, k: nat): map<Id, nat>
    requires call.id in outer
  {
    (map id | id in outer && id != call.id :: outer[id] * k) +
    (map id | id in inner :: CloneId(call, child, id) := outer[call.id] * k + inner[id])
  }

  lemma NestedRankAt(outer: map<Id, nat>, inner: map<Id, nat>, call: Node, child: Graph, k: nat, ids: set<Id>)
    requires call.id in outer && inner.Keys == ids
    requires (outer.Keys - {call.id}) !! set id | id in ids :: CloneId(call, child, id)
    ensures forall id :: id in outer && id != call.id ==>
              id in NestedRank(outer, inner, call, child, k) && NestedRank(outer, inner, call, child, k)[id] == outer[id] * k
    ensures forall id :: id in inner ==>
              CloneId(call, child, id) in NestedRank(outer, inner, call, child, k) &&
              NestedRank(outer, inner, call, child, k)[CloneId(call, child, id)] == outer[call.id] * k + inner[id]
  {
    var clones := map id | id in inner :: CloneId(call, child, id) := outer[call.id] * k + inner[id];
    assert clones.Keys == set id | id in ids :: CloneId(call, child, id);
  }

  lemma ParentEdgeClimbs(g: Graph, call: Node, child: Graph, outer: map<Id, nat>, inner: map<Id, nat>, k: nat, f: Edge,
                         rank: map<Id, nat>)
    requires call.id in outer && f.source in outer && f.target in outer && outer[f.source] < outer[f.target]
    requires forall id :: id in inner ==> inner[id] < k
    requires k > 0
    requires forall id :: id in outer && id != call.id ==> id in rank && rank[id] == outer[id] * k
    requires forall id :: id in inner ==>
               CloneId(call, child, id) in rank && rank[CloneId(call, child, id)] == outer[call.id] * k + inner[id]
    requires f.target == call.id ==> InnerInput(child, f.targetPort).node in inner
    requires f.source == call.id ==> InnerOutput(child, f.sourcePort).node in inner
    ensures var e := RewriteEdge(call, child, f); e.source in rank && e.target in rank && rank[e.source] < rank[e.target]
  {
    Lexicographic(outer[f.source], outer[f.target], 0, k);
    if f.target == call.id {
      assert CloneId(call, child, InnerInput(child, f.targetPort).node) in rank;
    } else if f.source == call.id {
      var b := InnerOutput(child, f.sourcePort);
      assert CloneId(call, child, b.node) in rank;
      Lexicographic(outer[f.source], outer[f.target], inner[b.node], k);
    }
  }

  /** An acyclic child in an acyclic parent gives an acyclic graph. */
  lemma InliningAcyclic(g: Graph, call: Node, child: Graph, r: Graph)
    requires CallSite(g, call, child, r) && WellFormed(r)
    requires Acyclic(Arcs(g.edges)) && Acyclic(Arcs(child.edges))
    ensures Acyclic(Arcs(r.edges))
  {
    var outer := AcyclicRanking(g);
    var inner := AcyclicRanking(child);
    var bound := RankBound(inner);
    var rank := NestedRank(outer, inner, call, child, bound + 1);
    NestedRankAt(outer, inner, call, child, bound + 1, NodeIds(child));
    IdsOfInlining(g, call, child, r);
    EdgesOfInlining(g, call, child, r);
    forall e | e in r.edges
      ensures e.source in rank && e.target in rank && rank[e.source] < rank[e.target]
    {
      RankedEdge(g, call, child, r, outer, inner, bound + 1, rank, e);
    }
    RankedGraphAcyclic(r, rank);
  }

  lemma AcyclicRanking(g: Graph) returns (rank: map<Id, nat>)
    requires WellFormed(g) && Acyclic(Arcs(g.edges))
    ensures Ranking(rank, NodeIds(g), Arcs(g.edges)) && rank.Keys == NodeIds(g)
  {
    WellFormedWithin(g);
    StuckIffCycle(NodeIds(g), Arcs(g.edges));
    rank := LayerRanking(NodeIds(g), Arcs(g.edges));
  }

  lemma RankedGraphAcyclic(r: Graph, rank: map<Id, nat>)
    requires WellFormed(r)
    requires forall e :: e in r.edges ==> e.source in rank && e.target in rank && rank[e.source] < rank[e.target]
    ensures Acyclic(Arcs(r.edges))
  {
    assert Within(rank.Keys, Arcs(r.edges));
    RankedIsAcyclic(rank.Keys, Arcs(r.edges), rank);
  }

  lemma RankedEdge(g: Graph, call: Node, child: Graph, r: Graph, outer: map<Id, nat>, inner: map<Id, nat>, k: nat,
                   rank: map<Id, nat>, e: Edge)
    requires CallSite(g, call, child, r) && EdgeView(g, call, child, r) && e in r.edges && k > 0
    requires Ranking(outer, NodeIds(g), Arcs(g.edges)) && Ranking(inner, NodeIds(child), Arcs(child.edges))
    requires outer.Keys == NodeIds(g) && inner.Keys == NodeIds(child)
    requires forall id :: id in inner ==> inner[id] < k
    requires forall id :: id in outer && id != call.id ==> id in rank && rank[id] == outer[id] * k
    requires forall id :: id in inner ==>
               CloneId(call, child, id) in rank && rank[CloneId(call, child, id)] == outer[call.id] * k + inner[id]
    ensures e.source in rank && e.target in rank && rank[e.source] < rank[e.target]
  {
    if FromParent(g, call, child, e) {
      var f :| f in g.edges && e == RewriteEdge(call, child, f);
      assert (f.source, f.target) in Arcs(g.edges);
      ParentEdgeClimbs(g, call, child, outer, inner, k, f, rank);
    } else {
      var f :| f in child.edges && e == CloneEdge(call, child, f);
      assert (f.source, f.target) in Arcs(child.edges);
      assert CloneId(call, child, f.source) in rank && CloneId(call, child, f.target) in rank;
    }
  }

  lemma InliningInputsApart(g: Graph, call: Node, child: Graph, r: Graph)
    requires CallSite(g, call, child, r) && InputsApart(g) && InputsApart(child)
    ensures InputsApart(r)
  {
    forall a, b | a in r.inputs && b in r.inputs && r.inputs[a] == r.inputs[b]
      ensures a == b
    {
      InputsStayApart(g, call, child, g.inputs[a], g.inputs[b]);
    }
  }

  lemma InputsStayApart(g: Graph, call: Node, child: Graph, b: Binding, c: Binding)
    requires NoCollision(g, call, child) && InputsApart(child) && WellFormed(child)
    requires b.node in NodeIds(g) && c.node in NodeIds(g)
    requires b.node == call.id ==> b.port in child.inputs
    requires c.node == call.id ==> c.port in child.inputs
    requires RewriteInput(call, child, b) == RewriteInput(call, child, c)
    ensures b == c
  {
    if b.node == call.id {
      assert CloneId(call, child, child.inputs[b.port].node) in CloneIds(call, child);
    }
    if c.node == call.id {
      assert CloneId(call, child, child.inputs[c.port].node) in CloneIds(call, child);
    }
  }

  // ----- Whole expansions -----

  /** How an expansion went: which calls were inlined, in which order, and how each child
      was itself expanded. The order is free; the source takes the smallest id first. */
  datatype Derivation =
    | Done
    | Inline(call: Node, inner: Derivation, child: Graph, after: Graph, rest: Derivation)

  ghost predicate Derives(d: Derivation, g: Graph, registry: Registry, x: Graph)
  {
    match d
    case Done => x == g && NoCalls(g, registry)
    case Inline(call, inner, child, after, rest) =>
      && call in g.nodes && KeyOf(call) in registry
      && Derives(inner, registry[KeyOf(call)], registry, child)
      && child.nodes != [] && TraceKind(call).Some?
      && Inlinable(g, call, child) && IsInlining(g, call, child, after)
      && Derives(rest, after, registry, x)
  }

  /** `_trace_kind`: the declared kind of a call, if it is a valid one. */
  function TraceKind(call: Node): Option<string>
  {
    if "construct_kind" !in call.metadata then Some("subgraph")
    else match call.metadata["construct_kind"]
         case Str(kind) => if kind in ["subgraph", "function", "macro"] then Some(kind) else None
         case _ => None
  }

  /** No call has an edge to itself. */
  ghost predicate NoSelfCalls(g: Graph, registry: Registry)
  {
    forall n, e | n in g.nodes && e in g.edges :: KeyOf(n) in registry ==> !(e.source == n.id && e.target == n.id)
  }

  /** What the theorems ask of a graph before it is expanded. It may well be cyclic: a cycle
      through a call can vanish when the call is replaced. */
  ghost predicate SoundGraph(g: Graph, registry: Registry)
  {
    WellFormed(g) && NoSelfCalls(g, registry)
  }

  ghost predicate SoundRegistry(registry: Registry)
  {
    forall key :: key in registry ==> SoundGraph(registry[key], registry) && InputsApart(registry[key])
  }

  lemma InliningSound(g: Graph, call: Node, child: Graph, r: Graph, registry: Registry)
    requires SoundGraph(g, registry) && WellFormed(child) && NoCalls(child, registry)
    requires call in g.nodes && KeyOf(call) in registry
    requires Inlinable(g, call, child) && IsInlining(g, call, child, r)
    ensures CallSite(g, call, child, r) && SoundGraph(r, registry)
    ensures InputsApart(g) && InputsApart(child) ==> InputsApart(r)
  {
    hide IsInlining, WellFormed, InputsApart;
    SelfCallsStayAway(g, call, child, r, registry);
    InliningWellFormed(g, call, child, r);
    if InputsApart(g) && InputsApart(child) {
      InliningInputsApart(g, call, child, r);
    }
  }

  lemma SelfCallsStayAway(g: Graph, call: Node, child: Graph, r: Graph, registry: Registry)
    requires WellFormed(g) && NoSelfCalls(g, registry) && NoCalls(child, registry)
    requires call in g.nodes && KeyOf(call) in registry
    requires NoCollision(g, call, child) && EdgesInKnown(g, call, child) && EdgesOutKnown(g, call, child)
    requires ChildEdgesInside(child) && IsInlining(g, call, child, r)
    ensures NoSelfCalls(r, registry)
  {
    EdgesOfInlining(g, call, child, r);
    forall n, e | n in r.nodes && e in r.edges && KeyOf(n) in registry && e.target == n.id
      ensures e.source != n.id
    {
      NodesOfInlining(g, call, child, r, n);
      assert n.id in NodeIds(g) - {call.id};
      if FromChild(call, child, e) {
        ChildEdgeEnds(call, child, e);
      } else {
        var f :| f in g.edges && e == RewriteEdge(call, child, f);
        ParentEndKept(g, call, child, f, n.id);
      }
    }
  }

  lemma ChildEdgeEnds(call: Node, child: Graph, e: Edge)
    requires FromChild(call, child, e) && ChildEdgesInside(child)
    ensures e.source in CloneIds(call, child) && e.target in CloneIds(call, child)
  {
    var f :| f in child.edges && e == CloneEdge(call, child, f);
  }

  /** An end of a rewritten edge at a surviving node was there before. */
  lemma ParentEndKept(g: Graph, call: Node, child: Graph, f: Edge, id: Id)
    requires NoCollision(g, call, child) && f in g.edges && id in NodeIds(g) && id != call.id
    requires EdgesInKnown(g, call, child) && EdgesOutKnown(g, call, child)
    ensures RewriteEdge(call, child, f).target == id ==> f.target == id
    ensures f.target == id && RewriteEdge(call, child, f).source == id ==> f.source == id
  {
    if f.target == call.id {
      assert CloneId(call, child, InnerInput(child, f.targetPort).node) in CloneIds(call, child);
    } else if f.source == call.id {
      assert CloneId(call, child, InnerOutput(child, f.sourcePort).node) in CloneIds(call, child);
    }
  }

  /** Expansion of sound graphs gives a sound graph without any call left in it. */
  lemma {:induction false} ExpansionSound(d: Derivation, g: Graph, registry: Registry, x: Graph)
    requires Derives(d, g, registry, x) && SoundGraph(g, registry) && SoundRegistry(registry)
    ensures WellFormed(x) && NoCalls(x, registry) && (InputsApart(g) ==> InputsApart(x))
    decreases d
  {
    hide WellFormed, InputsApart, Inlinable, IsInlining, NoCalls, NoSelfCalls;
    match d
    case Done =>
    case Inline(call, inner, child, after, rest) =>
      ExpansionSound(inner, registry[KeyOf(call)], registry, child);
      InliningSound(g, call, child, after, registry);
      ExpansionSound(rest, after, registry, x);
  }
}
