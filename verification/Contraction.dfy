/** Contracting fused chains to their first members: the contracted graph is acyclic, has
    no more layers than the original, and running it layer by layer computes the graph
    (src/comfyng/graph/compiler.py:919-974). */
module Contraction {
  import opened Ids
  import opened Layering
  import opened Graphs
  import opened Topology
  import opened CriticalPath
  import opened Semantics
  import opened Fusion

  /** A link is the only edge out of its source and the only edge into its target. */
  ghost predicate LinksAlone(edges: seq<Edge>, next: map<Id, Id>)
  {
    && (forall a :: a in next ==> (a, next[a]) in Arcs(edges))
    && (forall e :: e in edges && e.source in next ==> e.target == next[e.source])
    && (forall e, a :: e in edges && a in next && e.target == next[a] ==> e.source == a)
  }

  lemma FusedLinksAlone(g: Graph, profiles: Profiles)
    requires WellFormed(g)
    ensures LinksAlone(g.edges, NextMap(g, profiles))
  {
    hide NextMap, WellFormed;
    var next := NextMap(g, profiles);
    forall a | a in next
      ensures (a, next[a]) in Arcs(g.edges)
      ensures forall e :: e in g.edges && e.source == a ==> e.target == next[a]
      ensures forall e :: e in g.edges && e.target == next[a] ==> e.source == a
    {
      var f := LinkFacts(g, profiles, a);
      OnlyEdge(g.edges, f);
    }
  }

  lemma OnlyEdge(edges: seq<Edge>, f: Edge)
    requires f in edges && OutOf(edges, f.source) == [f] && IntoOf(edges, f.target) == [f]
    ensures (f.source, f.target) in Arcs(edges)
    ensures forall e :: e in edges && e.source == f.source ==> e == f
    ensures forall e :: e in edges && e.target == f.target ==> e == f
  {
    hide OutOf, IntoOf;
    forall e | e in edges && e.source == f.source ensures e == f { OutOfMembers(edges, f.source, e); }
    forall e | e in edges && e.target == f.target ensures e == f { IntoOfMembers(edges, f.target, e); }
  }

  ghost predicate InChain(chains: seq<seq<Id>>, u: int, i: int, n: Id)
  {
    0 <= u < |chains| && 0 <= i < |chains[u]| && chains[u][i] == n
  }

  /** `representative_for`: every member maps to the first member of its chain. */
  ghost predicate Represents(rep: map<Id, Id>, chains: seq<seq<Id>>)
  {
    && (forall u, i, n :: InChain(chains, u, i, n) ==> n in rep && rep[n] == chains[u][0])
    && (forall n :: n in rep ==> exists u, i :: InChain(chains, u, i, n))
  }

  /** The setting of this module: a graph cut into whole chains of fusible links. */
  ghost predicate Contracted(nodes: set<Id>, edges: seq<Edge>, next: map<Id, Id>, chains: seq<seq<Id>>, rep: map<Id, Id>)
  {
    && Within(nodes, Arcs(edges)) && LinksAlone(edges, next)
    && WholeChains(chains, next) && Distinct(Flatten(chains))
    && Represents(rep, chains) && rep.Keys == nodes
  }

  lemma ChainLink(chains: seq<seq<Id>>, next: map<Id, Id>, u: int, i: int)
    requires WholeChains(chains, next) && 0 <= u < |chains| && 0 <= i < |chains[u]|
    ensures chains[u][i] in next <==> i + 1 < |chains[u]|
    ensures i + 1 < |chains[u]| ==> next[chains[u][i]] == chains[u][i + 1]
  {
    assert Chain(chains[u], next);
  }

  /** A linked pair shares its representative. */
  lemma LinkInsideChain(nodes: set<Id>, edges: seq<Edge>, next: map<Id, Id>, chains: seq<seq<Id>>, rep: map<Id, Id>, a: Id)
    requires Contracted(nodes, edges, next, chains, rep) && a in next
    ensures a in nodes && next[a] in nodes && rep[next[a]] == rep[a]
  {
    assert (a, next[a]) in Arcs(edges);
    var u, i :| InChain(chains, u, i, a);
    ChainLink(chains, next, u, i);
    assert InChain(chains, u, i + 1, next[a]);
  }

  /** An edge between two chains enters at the head: inner members have no other edge. */
  lemma ExternalEntersAtHead(nodes: set<Id>, edges: seq<Edge>, next: map<Id, Id>, chains: seq<seq<Id>>, rep: map<Id, Id>, e: Edge)
    requires Contracted(nodes, edges, next, chains, rep) && e in edges
    requires e.source in rep && e.target in rep && rep[e.source] != rep[e.target]
    ensures rep[e.target] == e.target && e.source !in next
  {
    if e.source in next {
      LinkInsideChain(nodes, edges, next, chains, rep, e.source);
    }
    var u, i :| InChain(chains, u, i, e.target);
    if i > 0 {
      ChainLink(chains, next, u, i - 1);
    }
  }

  /** Ranks grow along a chain. */
  lemma {:induction false} ChainRank(nodes: set<Id>, edges: seq<Edge>, next: map<Id, Id>, chains: seq<seq<Id>>, rep: map<Id, Id>,
                                     rank: map<Id, nat>, u: int, i: int, j: int)
    requires Contracted(nodes, edges, next, chains, rep) && Ranking(rank, nodes, Arcs(edges))
    requires 0 <= u < |chains| && 0 <= i <= j < |chains[u]|
    ensures chains[u][i] in nodes && chains[u][j] in nodes && rank[chains[u][i]] + j - i <= rank[chains[u][j]]
    decreases j
  {
    assert InChain(chains, u, j, chains[u][j]);
    if i < j {
      ChainRank(nodes, edges, next, chains, rep, rank, u, i, j - 1);
      ChainLink(chains, next, u, j - 1);
      assert (chains[u][j - 1], chains[u][j]) in Arcs(edges);
    }
  }

  lemma RepRank(nodes: set<Id>, edges: seq<Edge>, next: map<Id, Id>, chains: seq<seq<Id>>, rep: map<Id, Id>,
                rank: map<Id, nat>, n: Id)
    requires Contracted(nodes, edges, next, chains, rep) && n in nodes && Ranking(rank, nodes, Arcs(edges))
    ensures rep[n] in nodes && rank[rep[n]] <= rank[n]
  {
    var u, i :| InChain(chains, u, i, n);
    ChainRank(nodes, edges, next, chains, rep, rank, u, 0, i);
  }

  // ----- The contracted graph -----

  /** The edges between chains, moved to the representatives. */
  function SyntheticEdges(edges: seq<Edge>, rep: map<Id, Id>): seq<Edge>
    requires forall e :: e in edges ==> e.source in rep && e.target in rep
  {
    if edges == [] then []
    else
      var e := edges[|edges| - 1];
      SyntheticEdges(edges[..|edges| - 1], rep) +
      if rep[e.source] != rep[e.target]
      then [Edge(rep[e.source], e.sourcePort, rep[e.target], e.targetPort)] else []
  }

  ghost predicate Crosses(e: Edge, edges: seq<Edge>, rep: map<Id, Id>, a: Arc)
  {
    e in edges && e.source in rep && e.target in rep && rep[e.source] != rep[e.target] && a == (rep[e.source], rep[e.target])
  }

  lemma {:induction false} SyntheticArcs(edges: seq<Edge>, rep: map<Id, Id>, a: Arc)
    requires forall e :: e in edges ==> e.source in rep && e.target in rep
    ensures a in Arcs(SyntheticEdges(edges, rep)) <==> exists e :: Crosses(e, edges, rep, a)
  {
    if edges != [] {
      var init, e := edges[..|edges| - 1], edges[|edges| - 1];
      SyntheticArcs(init, rep, a);
      assert edges == init + [e];
      var more := if rep[e.source] != rep[e.target]
                  then [Edge(rep[e.source], e.sourcePort, rep[e.target], e.targetPort)] else [];
      assert Arcs(SyntheticEdges(init, rep) + more) == Arcs(SyntheticEdges(init, rep)) + Arcs(more);
      if f :| Crosses(f, init, rep, a) {
        assert Crosses(f, edges, rep, a);
      }
      if a in Arcs(more) {
        assert Crosses(e, edges, rep, a);
      }
      if f :| Crosses(f, edges, rep, a) {
        assert f == e || Crosses(f, init, rep, a);
      }
    }
  }

  ghost function Heads(rep: map<Id, Id>): set<Id>
  {
    rep.Values
  }

  /** Any ranking of the graph ranks the contracted graph. */
  lemma ContractionRanked(nodes: set<Id>, edges: seq<Edge>, next: map<Id, Id>, chains: seq<seq<Id>>, rep: map<Id, Id>,
                          rank: map<Id, nat>)
    requires Contracted(nodes, edges, next, chains, rep) && Ranking(rank, nodes, Arcs(edges))
    requires forall e :: e in edges ==> e.source in rep && e.target in rep
    ensures Heads(rep) <= nodes
    ensures Within(Heads(rep), Arcs(SyntheticEdges(edges, rep)))
    ensures Ranking(rank, Heads(rep), Arcs(SyntheticEdges(edges, rep)))
  {
    forall n | n in nodes
      ensures rep[n] in nodes
    {
      RepRank(nodes, edges, next, chains, rep, rank, n);
    }
    forall a | a in Arcs(SyntheticEdges(edges, rep))
      ensures a.0 in Heads(rep) && a.1 in Heads(rep) && rank[a.0] < rank[a.1]
    {
      SyntheticArcs(edges, rep, a);
      var e :| Crosses(e, edges, rep, a);
      ExternalEntersAtHead(nodes, edges, next, chains, rep, e);
      RepRank(nodes, edges, next, chains, rep, rank, e.source);
      assert (e.source, e.target) in Arcs(edges);
    }
  }

  /** The second layering never fails, and it has at most as many groups as the graph has
      layers. */
  lemma ContractionLayers(nodes: set<Id>, edges: seq<Edge>, next: map<Id, Id>, chains: seq<seq<Id>>, rep: map<Id, Id>)
    requires Contracted(nodes, edges, next, chains, rep) && Acyclic(Arcs(edges))
    requires forall e :: e in edges ==> e.source in rep && e.target in rep
    ensures Within(Heads(rep), Arcs(SyntheticEdges(edges, rep)))
    ensures Acyclic(Arcs(SyntheticEdges(edges, rep))) && Stuck(Heads(rep), Arcs(SyntheticEdges(edges, rep))) == {}
    ensures |Layers(Heads(rep), Arcs(SyntheticEdges(edges, rep)))| <= |Layers(nodes, Arcs(edges))|
  {
    var arcs := Arcs(edges);
    StuckIffCycle(nodes, arcs);
    var rank := LayerRanking(nodes, arcs);
    ContractionRanked(nodes, edges, next, chains, rep, rank);
    var heads, synthetic := Heads(rep), Arcs(SyntheticEdges(edges, rep));
    RankedIsAcyclic(heads, synthetic, rank);
    FewerLayers(nodes, arcs, heads, synthetic, rank);
  }

  lemma FewerLayers(nodes: set<Id>, arcs: set<Arc>, heads: set<Id>, synthetic: set<Arc>, rank: map<Id, nat>)
    requires Ranking(rank, heads, synthetic) && heads <= nodes
    requires forall n :: n in nodes ==> n in rank && InLayer(Layers(nodes, arcs), rank[n], n)
    ensures |Layers(heads, synthetic)| <= |Layers(nodes, arcs)|
  {
    var groups := Layers(heads, synthetic);
    if groups != [] {
      var last := |groups| - 1;
      LayersNonEmpty(heads, synthetic);
      assert groups[last] != {};
      var n :| n in groups[last];
      assert InLayer(groups, last, n);
      LayersAreLeastRanking(heads, synthetic, rank, last, n);
      assert InLayer(Layers(nodes, arcs), rank[n], n);
    }
  }

  // ----- Running the plan -----

  /** A schedule of the plan: groups one after the other, fused members in sequence, and
      otherwise any interleaving of the steps of a group. */
  ghost predicate PlanSchedule(schedule: seq<Id>, nodes: set<Id>, chains: seq<seq<Id>>, rep: map<Id, Id>, groups: seq<set<Id>>)
  {
    && Distinct(schedule) && Elements(schedule) == nodes && nodes <= rep.Keys
    && (forall p, q | 0 <= p < |schedule| && 0 <= q < |schedule| ::
          EarlierGroup(groups, rep[schedule[p]], rep[schedule[q]]) ==> p < q)
    && (forall p, q | 0 <= p < |schedule| && 0 <= q < |schedule| ::
          EarlierMember(chains, schedule[p], schedule[q]) ==> p < q)
  }

  ghost predicate EarlierGroup(groups: seq<set<Id>>, m: Id, n: Id)
  {
    exists i, j :: InLayer(groups, i, m) && InLayer(groups, j, n) && i < j
  }

  ghost predicate EarlierMember(chains: seq<seq<Id>>, m: Id, n: Id)
  {
    exists u, i, j :: InChain(chains, u, i, m) && InChain(chains, u, j, n) && i < j
  }

  /** Every edge of the graph points forwards in every schedule of the plan. */
  lemma PlanScheduleIsTopological(nodes: set<Id>, edges: seq<Edge>, next: map<Id, Id>, chains: seq<seq<Id>>, rep: map<Id, Id>,
                                  schedule: seq<Id>)
    requires Contracted(nodes, edges, next, chains, rep) && Acyclic(Arcs(edges))
    requires forall e :: e in edges ==> e.source in rep && e.target in rep
    requires PlanSchedule(schedule, nodes, chains, rep, Layers(Heads(rep), Arcs(SyntheticEdges(edges, rep))))
    ensures TopologicalOrder(schedule, nodes, Arcs(edges))
  {
    forall p, q | 0 <= p < |schedule| && 0 <= q < |schedule| && (schedule[p], schedule[q]) in Arcs(edges)
      ensures p < q
    {
      var e :| e in edges && e.source == schedule[p] && e.target == schedule[q];
      if rep[e.source] == rep[e.target] {
        InternalEdge(nodes, edges, next, chains, rep, e);
      } else {
        GroupsOf(nodes, edges, next, chains, rep, e);
      }
    }
  }

  /** An edge inside a chain joins a member to a later one. */
  lemma InternalEdge(nodes: set<Id>, edges: seq<Edge>, next: map<Id, Id>, chains: seq<seq<Id>>, rep: map<Id, Id>, e: Edge)
    requires Contracted(nodes, edges, next, chains, rep) && e in edges && Acyclic(Arcs(edges))
    requires e.source in rep && e.target in rep && rep[e.source] == rep[e.target]
    ensures EarlierMember(chains, e.source, e.target)
  {
    var u, i :| InChain(chains, u, i, e.source);
    var w, j :| InChain(chains, w, j, e.target);
    SameHead(chains, u, w);
    StuckIffCycle(nodes, Arcs(edges));
    var rank := LayerRanking(nodes, Arcs(edges));
    assert (e.source, e.target) in Arcs(edges);
    if j <= i {
      ChainRank(nodes, edges, next, chains, rep, rank, u, j, i);
    }
  }

  lemma {:induction false} SameHead(chains: seq<seq<Id>>, u: nat, w: nat)
    requires Distinct(Flatten(chains)) && u < |chains| && w < |chains|
    requires chains[u] != [] && chains[w] != [] && chains[u][0] == chains[w][0]
    ensures u == w
  {
    var head, tail := chains[0], chains[1..];
    DistinctParts(head, Flatten(tail));
    if u > 0 && w > 0 {
      SameHead(tail, u - 1, w - 1);
    } else if u > 0 {
      FlattenElements(tail, tail[u - 1][0]);
    } else if w > 0 {
      FlattenElements(tail, tail[w - 1][0]);
    }
  }

  lemma DistinctParts(s: seq<Id>, t: seq<Id>)
    requires Distinct(s + t)
    ensures Distinct(s) && Distinct(t) && forall x :: x in s ==> x !in t
  {
    assert forall i :: 0 <= i < |s| ==> s[i] == (s + t)[i];
    assert forall i :: 0 <= i < |t| ==> t[i] == (s + t)[|s| + i];
  }

  /** The ends of an edge between chains lie in groups in the right order. */
  lemma GroupsOf(nodes: set<Id>, edges: seq<Edge>, next: map<Id, Id>, chains: seq<seq<Id>>, rep: map<Id, Id>, e: Edge)
    requires Contracted(nodes, edges, next, chains, rep) && e in edges && Acyclic(Arcs(edges))
    requires forall f :: f in edges ==> f.source in rep && f.target in rep
    requires rep[e.source] != rep[e.target]
    ensures EarlierGroup(Layers(Heads(rep), Arcs(SyntheticEdges(edges, rep))), rep[e.source], rep[e.target])
  {
    ContractionLayers(nodes, edges, next, chains, rep);
    var heads, arcs := Heads(rep), Arcs(SyntheticEdges(edges, rep));
    assert Crosses(e, edges, rep, (rep[e.source], rep[e.target]));
    SyntheticArcs(edges, rep, (rep[e.source], rep[e.target]));
    LayersCover(heads, arcs, rep[e.target]);
    var b :| InLayer(Layers(heads, arcs), b, rep[e.target]);
    SourceLayer(heads, arcs, b, rep[e.source], rep[e.target]);
  }

  /** Whatever the interleaving, running the plan gives every node the value it has when the
      graph is evaluated directly, and so every plan output too. */
  lemma PlanRunsAsGraph(g: Graph, next: map<Id, Id>, chains: seq<seq<Id>>, rep: map<Id, Id>,
                        schedule: seq<Id>, sem: Sem, ext: Env, direct: Valuation)
    requires WellFormed(g) && Acyclic(Arcs(g.edges))
    requires Contracted(NodeIds(g), g.edges, next, chains, rep)
    requires PlanSchedule(schedule, NodeIds(g), chains, rep, Layers(Heads(rep), Arcs(SyntheticEdges(g.edges, rep))))
    requires Solves(g, sem, ext, direct)
    ensures Run(g, sem, ext, schedule) == direct
    ensures OutputsOf(g, Run(g, sem, ext, schedule)) == OutputsOf(g, direct)
  {
    PlanScheduleIsTopological(NodeIds(g), g.edges, next, chains, rep, schedule);
    RunSolves(g, sem, ext, schedule);
    SolutionUnique(g, sem, ext, Run(g, sem, ext, schedule), direct);
  }
}
