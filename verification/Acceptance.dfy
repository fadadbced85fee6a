/** What acceptance means, said of the stored graph and the catalogue alone
    (src/comfyng/graph/validation.py:421-710). */
module Acceptance {
  import opened Ids
  import opened Layering
  import opened Graphs
  import opened Topology
  import opened Semantics
  import opened CacheKeys
  import opened Fusion
  import opened Validation

  // ----- The reading -----

  predicate Catalogued(rules: Rules, n: Node)
  {
    (n.typeId, n.typeVersion) in rules.catalogue
  }

  function Entry(rules: Rules, n: Node): Definition
    requires Catalogued(rules, n)
  {
    rules.catalogue[(n.typeId, n.typeVersion)]
  }

  /** Both ends are stored nodes, the ports exist there, and the types fit. */
  ghost predicate Connects(g: Graph, rules: Rules, e: Edge, n: Node, m: Node)
  {
    && n in g.nodes && m in g.nodes && n.id == e.source && m.id == e.target
    && Catalogued(rules, n) && Catalogued(rules, m)
    && e.sourcePort in Entry(rules, n).outputPorts && e.targetPort in Entry(rules, m).inputPorts
    && rules.compatible(Entry(rules, n).outputPorts[e.sourcePort], Entry(rules, m).inputPorts[e.targetPort])
  }

  ghost predicate EntersAt(g: Graph, rules: Rules, b: Binding, n: Node)
  {
    n in g.nodes && n.id == b.node && Catalogued(rules, n) && b.port in Entry(rules, n).inputPorts
  }

  ghost predicate LeavesAt(g: Graph, rules: Rules, b: Binding, n: Node)
  {
    n in g.nodes && n.id == b.node && Catalogued(rules, n) && b.port in Entry(rules, n).outputPorts
  }

  ghost predicate Connected(g: Graph, rules: Rules, e: Edge)
  {
    exists n, m :: Connects(g, rules, e, n, m)
  }

  ghost predicate Enters(g: Graph, rules: Rules, b: Binding)
  {
    exists n :: EntersAt(g, rules, b, n)
  }

  ghost predicate Leaves(g: Graph, rules: Rules, b: Binding)
  {
    exists n :: LeavesAt(g, rules, b, n)
  }

  /** The stored edges into a port, by position. */
  function EdgesAt(edges: seq<Edge>, id: Id, p: string): set<int>
  {
    set i | 0 <= i < |edges| && edges[i].target == id && edges[i].targetPort == p
  }

  function NamesAt(inputs: map<string, Binding>, id: Id, p: string): set<string>
  {
    set name | name in inputs && inputs[name].node == id && inputs[name].port == p
  }

  /** In how many ways a port is bound: by a literal, by edges, by graph inputs. */
  function Ways(g: Graph, n: Node, p: string): nat
  {
    (if p in n.inputs then 1 else 0) + |EdgesAt(g.edges, n.id, p)| + |NamesAt(g.inputs, n.id, p)|
  }

  /** A for-each node's iterations: as many as its literal items, else as its metadata says. */
  predicate IterationsWithin(n: Node, limit: nat)
  {
    if "items" in n.inputs && n.inputs["items"].Arr? then |n.inputs["items"].items| <= limit
    else
      "max_iterations" in n.metadata && n.metadata["max_iterations"].Num? && 0 < n.metadata["max_iterations"].number <= limit
  }

  predicate NodeFits(g: Graph, rules: Rules, n: Node)
    requires Catalogued(rules, n)
  {
    && (forall p :: p in n.inputs ==> p in Entry(rules, n).inputPorts && rules.literalOk(Entry(rules, n).inputPorts[p], n.inputs[p]))
    && (forall p :: p in Entry(rules, n).required ==> Ways(g, n, p) == 1)
    && (forall p :: p in Entry(rules, n).inputPorts ==> Ways(g, n, p) <= 1)
    && (n.typeId == "ng.control.for_each" ==> IterationsWithin(n, rules.maxLoopIterations))
  }

  ghost predicate Joined(edges: seq<Edge>, a: Id, b: Id)
  {
    exists e :: e in edges && e.source == a && e.target == b
  }

  /** Nodes each of which some stored edge joins to the next. */
  ghost predicate Walk(edges: seq<Edge>, p: seq<Id>)
  {
    p != [] && forall i :: 0 <= i < |p| - 1 ==> Joined(edges, p[i], p[i + 1])
  }

  ghost predicate NoRoundTrip(edges: seq<Edge>)
  {
    forall p :: Walk(edges, p) && |p| >= 2 ==> p[0] != p[|p| - 1]
  }

  ghost predicate Acceptable(g: Graph, rules: Rules)
  {
    && (forall i, j :: 0 <= i < j < |g.nodes| ==> g.nodes[i].id != g.nodes[j].id)
    && (forall n :: n in g.nodes ==> Catalogued(rules, n) && NodeFits(g, rules, n))
    && (forall e :: e in g.edges ==> Connected(g, rules, e))
    && (forall name :: name in g.inputs ==> Enters(g, rules, g.inputs[name]))
    && (forall name :: name in g.outputs ==> Leaves(g, rules, g.outputs[name]))
    && NoRoundTrip(g.edges)
  }

  // ----- It is what validation accepts -----

  lemma JoinedIsArc(edges: seq<Edge>, a: Id, b: Id)
    ensures Joined(edges, a, b) <==> (a, b) in Arcs(edges)
  {
  }

  lemma WalkIsPath(edges: seq<Edge>, p: seq<Id>)
    ensures Walk(edges, p) <==> Path(p, Arcs(edges))
  {
    forall i | 0 <= i < |p| - 1
      ensures Joined(edges, p[i], p[i + 1]) <==> (p[i], p[i + 1]) in Arcs(edges)
    {
      JoinedIsArc(edges, p[i], p[i + 1]);
    }
  }

  lemma RoundTripsAreCycles(edges: seq<Edge>)
    ensures NoRoundTrip(edges) <==> Acyclic(Arcs(edges))
  {
    hide Walk, Path;
    if Acyclic(Arcs(edges)) {
      forall p | Walk(edges, p) && |p| >= 2
        ensures p[0] != p[|p| - 1]
      {
        WalkIsPath(edges, p);
        assert !Cycle(p, Arcs(edges));
      }
    }
    if NoRoundTrip(edges) {
      forall p
        ensures !Cycle(p, Arcs(edges))
      {
        WalkIsPath(edges, p);
      }
    }
  }

  lemma {:induction false} EdgesCounted(edges: seq<Edge>, id: Id, p: string)
    ensures EdgeCount(edges, id, p) == |EdgesAt(edges, id, p)|
  {
    if edges == [] {
      assert EdgesAt(edges, id, p) == {};
    } else {
      var init, last := edges[..|edges| - 1], edges[|edges| - 1];
      EdgesCounted(init, id, p);
      OneMoreEdge(init, last, id, p);
      assert edges == init + [last];
    }
  }

  lemma OneMoreEdge(init: seq<Edge>, last: Edge, id: Id, p: string)
    ensures |EdgesAt(init + [last], id, p)| == |EdgesAt(init, id, p)| + if last.target == id && last.targetPort == p then 1 else 0
  {
    var edges := init + [last];
    if last.target == id && last.targetPort == p {
      assert EdgesAt(edges, id, p) == EdgesAt(init, id, p) + {|init|};
    } else {
      assert EdgesAt(edges, id, p) == EdgesAt(init, id, p);
    }
  }

  lemma WaysCounted(g: Graph, n: Node, p: string)
    ensures SourceCount(g, n, p) == Ways(g, n, p)
  {
    EdgesCounted(g.edges, n.id, p);
    assert InputNames(g, n.id, p) == NamesAt(g.inputs, n.id, p);
  }

  lemma NodesAgree(g: Graph, rules: Rules, n: Node)
    ensures NodeOk(g, rules, n) <==> Catalogued(rules, n) && NodeFits(g, rules, n)
  {
    forall p
      ensures SourceCount(g, n, p) == Ways(g, n, p)
    {
      WaysCounted(g, n, p);
    }
    hide SourceCount, Ways;
    if Catalogued(rules, n) && NodeFits(g, rules, n) {
      assert LoopOk(rules, n);
    }
    if NodeOk(g, rules, n) {
      forall p | p in Entry(rules, n).inputPorts
        ensures Ways(g, n, p) <= 1
      {
        if p in Entry(rules, n).required { assert SourceCount(g, n, p) == 1; }
      }
    }
  }

  lemma EndNode(g: Graph, id: Id, n: Node)
    requires Distinct(IdsOf(g.nodes)) && n in g.nodes && n.id == id
    ensures id in NodeTable(g.nodes) && NodeTable(g.nodes)[id] == n
  {
    UniqueNode(g, NodeTable(g.nodes)[id], n);
  }

  lemma EdgesAgree(g: Graph, rules: Rules, e: Edge)
    requires Distinct(IdsOf(g.nodes))
    ensures EdgeOk(NodeTable(g.nodes), rules, e) <==> Connected(g, rules, e)
  {
    hide NodeTable;
    TableStored(g);
    if EdgeOk(NodeTable(g.nodes), rules, e) {
      assert Connects(g, rules, e, NodeTable(g.nodes)[e.source], NodeTable(g.nodes)[e.target]);
    }
    if n, m :| Connects(g, rules, e, n, m) {
      EndNode(g, e.source, n);
      EndNode(g, e.target, m);
    }
  }

  lemma TableStored(g: Graph)
    ensures forall id :: id in NodeTable(g.nodes) ==> NodeTable(g.nodes)[id] in g.nodes && NodeTable(g.nodes)[id].id == id
  {
  }

  lemma BindingsAgree(g: Graph, rules: Rules, b: Binding)
    requires Distinct(IdsOf(g.nodes))
    ensures InputOk(NodeTable(g.nodes), rules, b) <==> Enters(g, rules, b)
    ensures OutputOk(NodeTable(g.nodes), rules, b) <==> Leaves(g, rules, b)
  {
    hide NodeTable;
    TableStored(g);
    if n :| n in g.nodes && n.id == b.node {
      EndNode(g, b.node, n);
    }
    if InputOk(NodeTable(g.nodes), rules, b) { assert EntersAt(g, rules, b, NodeTable(g.nodes)[b.node]); }
    if OutputOk(NodeTable(g.nodes), rules, b) { assert LeavesAt(g, rules, b, NodeTable(g.nodes)[b.node]); }
  }

  lemma DistinctNodes(g: Graph)
    ensures Distinct(IdsOf(g.nodes)) <==> forall i, j :: 0 <= i < j < |g.nodes| ==> g.nodes[i].id != g.nodes[j].id
  {
    if Distinct(IdsOf(g.nodes)) {
      forall i, j | 0 <= i < j < |g.nodes|
        ensures g.nodes[i].id != g.nodes[j].id
      {
        assert IdsOf(g.nodes)[i] != IdsOf(g.nodes)[j];
      }
    }
  }

  /** Validation accepts exactly the acceptable graphs: nodes of the catalogue with unique ids;
      edges between existing ports of fitting types; literals in order; required ports bound in
      exactly one way and others in at most one; boundary bindings to existing ports; loops
      within the limit; no way back. */
  lemma AcceptedIff(g: Graph, rules: Rules)
    ensures Accepted(g, rules) <==> Acceptable(g, rules)
  {
    hide NodeOk, EdgeOk, InputOk, OutputOk, NodeFits, Catalogued, Connected, Enters, Leaves, NodeTable, NoRoundTrip, Acyclic, Distinct;
    DistinctNodes(g);
    RoundTripsAreCycles(g.edges);
    if Distinct(IdsOf(g.nodes)) {
      forall n
        ensures NodeOk(g, rules, n) <==> Catalogued(rules, n) && NodeFits(g, rules, n)
      {
        NodesAgree(g, rules, n);
      }
      forall e
        ensures EdgeOk(NodeTable(g.nodes), rules, e) <==> Connected(g, rules, e)
      {
        EdgesAgree(g, rules, e);
      }
      forall b
        ensures InputOk(NodeTable(g.nodes), rules, b) <==> Enters(g, rules, b)
        ensures OutputOk(NodeTable(g.nodes), rules, b) <==> Leaves(g, rules, b)
      {
        BindingsAgree(g, rules, b);
      }
    }
  }

  /** In an accepted graph the types of connected ports are compatible, whichever stored nodes
      carry the ends' ids. */
  lemma AcceptedEdgesFit(g: Graph, rules: Rules, e: Edge, n: Node, m: Node)
    requires Accepted(g, rules) && e in g.edges && n in g.nodes && m in g.nodes && n.id == e.source && m.id == e.target
    ensures Connects(g, rules, e, n, m)
  {
    hide NodeOk, NodeFits, EdgeOk, InputOk, OutputOk, Acyclic, NoRoundTrip;
    AcceptedIff(g, rules);
    var k, l :| Connects(g, rules, e, k, l);
    UniqueNode(g, n, k);
    UniqueNode(g, m, l);
  }
}
