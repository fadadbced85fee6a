/** Deterministic Kahn layering and critical paths (src/comfyng/graph/topology.py). */
module Topology {
  import opened Ids
  import opened Layering
  import opened Graphs

  datatype LayeringResult =
    | Layered(layers: seq<seq<Id>>)
    | CycleError(nodeIds: seq<Id>)
    | InvalidInput

  function SetsOf(layers: seq<seq<Id>>): (sets: seq<set<Id>>)
    ensures |sets| == |layers|
    ensures forall i :: 0 <= i < |layers| ==> sets[i] == Elements(layers[i])
  {
    seq(|layers|, i requires 0 <= i < |layers| => Elements(layers[i]))
  }

  function Flatten(layers: seq<seq<Id>>): seq<Id>
  {
    if layers == [] then [] else layers[0] + Flatten(layers[1..])
  }

  /** The layers are the mathematical ones, each listed in id order. */
  ghost predicate IsLayering(layers: seq<seq<Id>>, nodes: set<Id>, arcs: set<Arc>)
  {
    && SetsOf(layers) == Layers(nodes, arcs)
    && forall i :: 0 <= i < |layers| ==> Ascending(layers[i])
  }

  /** How many edges run from `from` into `t`. */
  ghost function CountInto(edges: seq<Edge>, t: Id, from: set<Id>): nat
  {
    if edges == [] then 0
    else
      var e := edges[|edges| - 1];
      CountInto(edges[..|edges| - 1], t, from) + if e.target == t && e.source in from then 1 else 0
  }

  ghost function TargetsOf(edges: seq<Edge>, x: Id): seq<Id>
  {
    if edges == [] then []
    else
      var e := edges[|edges| - 1];
      TargetsOf(edges[..|edges| - 1], x) + if e.source == x then [e.target] else []
  }

  lemma {:induction false} CountIntoZero(edges: seq<Edge>, t: Id, from: set<Id>)
    ensures CountInto(edges, t, from) == 0 <==> forall m :: m in from ==> (m, t) !in Arcs(edges)
  {
    if edges != [] {
      var e, rest := edges[|edges| - 1], edges[..|edges| - 1];
      CountIntoZero(rest, t, from);
      assert edges == rest + [e];
      assert Arcs(edges) == Arcs(rest) + {(e.source, e.target)};
    }
  }

  lemma {:induction false} CountIntoSplit(edges: seq<Edge>, t: Id, from: set<Id>, x: Id)
    requires x in from
    ensures CountInto(edges, t, from) == CountInto(edges, t, from - {x}) + multiset(TargetsOf(edges, x))[t]
  {
    if edges != [] {
      CountIntoSplit(edges[..|edges| - 1], t, from, x);
    }
  }

  lemma {:induction false} TargetsAreArcs(edges: seq<Edge>, x: Id)
    ensures forall t :: t in TargetsOf(edges, x) ==> (x, t) in Arcs(edges)
  {
    if edges != [] {
      var e, rest := edges[|edges| - 1], edges[..|edges| - 1];
      TargetsAreArcs(rest, x);
      assert edges == rest + [e];
      assert Arcs(edges) == Arcs(rest) + {(e.source, e.target)};
    }
  }

  function Outgoing(table: map<Id, seq<Id>>, x: Id): seq<Id>
  {
    if x in table then table[x] else []
  }

  /** The in-degree and successor tables. The source also sorts each successor list;
      every list built from them is sorted again, so that sort has no effect. */
  method BuildTables(nodes: set<Id>, edges: seq<Edge>)
    returns (ok: bool, indegree: map<Id, nat>, outgoing: map<Id, seq<Id>>)
    ensures ok <==> Within(nodes, Arcs(edges))
    ensures ok ==> indegree.Keys == nodes
    ensures ok ==> forall t :: t in nodes ==> indegree[t] == CountInto(edges, t, nodes)
    ensures ok ==> forall x :: Outgoing(outgoing, x) == TargetsOf(edges, x)
  {
    ok, indegree, outgoing := true, map n | n in nodes :: 0, map[];
    for k := 0 to |edges|
      invariant Within(nodes, Arcs(edges[..k]))
      invariant indegree.Keys == nodes
      invariant forall t :: t in nodes ==> indegree[t] == CountInto(edges[..k], t, nodes)
      invariant forall x :: Outgoing(outgoing, x) == TargetsOf(edges[..k], x)
    {
      var e := edges[k];
      assert edges[..k + 1] == edges[..k] + [e];
      assert edges[..k + 1][..k] == edges[..k];
      if e.source !in nodes || e.target !in nodes {
        assert (e.source, e.target) in Arcs(edges);
        ok := false;
        return;
      }
      outgoing := outgoing[e.source := Outgoing(outgoing, e.source) + [e.target]];
      indegree := indegree[e.target := indegree[e.target] + 1];
    }
    assert edges[..|edges|] == edges;
  }

  /** `next` lists, once each, the nodes of `rest` whose in-degree has reached zero. */
  ghost predicate Released(indegree: map<Id, nat>, rest: set<Id>, next: seq<Id>)
  {
    && rest <= indegree.Keys && Distinct(next)
    && (forall t :: t in next ==> t in rest && indegree[t] == 0)
    && (forall t :: t in rest && indegree[t] == 0 ==> t in next)
  }

  /** The working tables of Kahn's loop once the arcs out of all but `pending` are gone. */
  ghost predicate Peeling(indegree: map<Id, nat>, edges: seq<Edge>, nodes: set<Id>, rest: set<Id>, pending: set<Id>)
  {
    && indegree.Keys == nodes && rest <= pending <= nodes
    && (forall t :: t in nodes ==> indegree[t] == CountInto(edges, t, pending))
    && (forall t :: t in nodes - rest ==> indegree[t] == 0)
  }

  /** The innermost loop: drop the arcs out of one node of the current layer. */
  method ReleaseTargets(indegree0: map<Id, nat>, ghost rest: set<Id>, next0: seq<Id>, targets: seq<Id>)
    returns (indegree: map<Id, nat>, next: seq<Id>)
    requires forall t :: t in targets ==> t in rest
    requires Released(indegree0, rest, next0)
    requires forall t :: t in rest ==> multiset(targets)[t] <= indegree0[t]
    ensures indegree.Keys == indegree0.Keys
    ensures forall t :: t in rest ==> indegree[t] + multiset(targets)[t] == indegree0[t]
    ensures forall t :: t in indegree.Keys - rest ==> indegree[t] == indegree0[t]
    ensures Released(indegree, rest, next)
  {
    indegree, next := indegree0, next0;
    assert targets[..0] == [];
    for k := 0 to |targets|
      invariant indegree.Keys == indegree0.Keys
      invariant forall t :: t in rest ==> indegree[t] + multiset(targets[..k])[t] == indegree0[t]
      invariant forall t :: t in indegree.Keys - rest ==> indegree[t] == indegree0[t]
      invariant Released(indegree, rest, next)
    {
      var t := targets[k];
      assert targets[..k + 1] == targets[..k] + [t];
      assert targets == targets[..k + 1] + targets[k + 1..];
      assert multiset(targets[..k])[t] < multiset(targets)[t];
      ghost var before := next;
      indegree := indegree[t := indegree[t] - 1];
      if indegree[t] == 0 {
        assert t !in next;
        next := next + [t];
        assert forall u :: u in next <==> u in before || u == t;
      }
    }
    assert targets[..|targets|] == targets;
  }

  /** Releasing the targets of `x` is exactly removing `x` from the pending nodes. */
  lemma ReleaseCounts(edges: seq<Edge>, nodes: set<Id>, rest: set<Id>, pending: set<Id>, x: Id, indegree: map<Id, nat>)
    requires Within(nodes, Arcs(edges)) && x in pending - rest
    requires Peeling(indegree, edges, nodes, rest, pending)
    ensures forall t :: t in TargetsOf(edges, x) ==> t in rest
    ensures forall t :: t in nodes ==>
              indegree[t] == CountInto(edges, t, pending - {x}) + multiset(TargetsOf(edges, x))[t]
  {
    TargetsAreArcs(edges, x);
    forall t | t in nodes
      ensures indegree[t] == CountInto(edges, t, pending - {x}) + multiset(TargetsOf(edges, x))[t]
    {
      CountIntoSplit(edges, t, pending, x);
    }
    forall t | t in TargetsOf(edges, x)
      ensures t in rest
    {
      assert (x, t) in Arcs(edges);
      CountIntoZero(edges, t, pending);
    }
  }

  /** One round of Kahn's loop: drop the arcs out of a whole layer. */
  method PeelLayer(indegree0: map<Id, nat>, outgoing: map<Id, seq<Id>>, edges: seq<Edge>,
                   ghost nodes: set<Id>, ghost remaining: set<Id>, layer: seq<Id>)
    returns (indegree: map<Id, nat>, next: seq<Id>)
    requires Within(nodes, Arcs(edges))
    requires Distinct(layer) && Elements(layer) == Ready(remaining, Arcs(edges))
    requires Peeling(indegree0, edges, nodes, remaining, remaining)
    requires forall x :: Outgoing(outgoing, x) == TargetsOf(edges, x)
    ensures Peeling(indegree, edges, nodes, remaining - Elements(layer), remaining - Elements(layer))
    ensures Released(indegree, remaining - Elements(layer), next)
  {
    hide CountInto, TargetsOf, Outgoing, Within, Arcs;
    indegree, next := indegree0, [];
    ghost var rest := remaining - Elements(layer);
    LayerStart(indegree, edges, nodes, remaining, layer);
    assert layer[0..] == layer;
    assert rest + Elements(layer[0..]) == remaining;
    for k := 0 to |layer|
      invariant Peeling(indegree, edges, nodes, rest, rest + Elements(layer[k..]))
      invariant Released(indegree, rest, next)
    {
      ghost var pending := rest + Elements(layer[k..]);
      PendingShrinks(layer, k, rest);
      ReleaseCounts(edges, nodes, rest, pending, layer[k], indegree);
      indegree, next := ReleaseTargets(indegree, rest, next, Outgoing(outgoing, layer[k]));
    }
    assert rest + Elements(layer[|layer|..]) == rest;
  }

  lemma PendingShrinks(layer: seq<Id>, k: nat, rest: set<Id>)
    requires k < |layer| && Distinct(layer) && rest !! Elements(layer)
    ensures layer[k] in rest + Elements(layer[k..]) && layer[k] !in rest
    ensures rest + Elements(layer[k..]) - {layer[k]} == rest + Elements(layer[k + 1..])
  {
    assert layer[k..] == [layer[k]] + layer[k + 1..];
    assert layer[k] !in Elements(layer[k + 1..]);
    assert layer[k] in Elements(layer);
  }

  /** Exactly the nodes of the layer have nothing left in front of them. */
  lemma LayerStart(indegree: map<Id, nat>, edges: seq<Edge>, nodes: set<Id>, remaining: set<Id>, layer: seq<Id>)
    requires Elements(layer) == Ready(remaining, Arcs(edges)) && Peeling(indegree, edges, nodes, remaining, remaining)
    ensures forall t :: t in remaining ==> (indegree[t] == 0 <==> t in Elements(layer))
    ensures Peeling(indegree, edges, nodes, remaining - Elements(layer), remaining)
  {
    forall t | t in remaining
      ensures indegree[t] == 0 <==> t in Elements(layer)
    {
      CountIntoZero(edges, t, remaining);
    }
  }

  lemma ReleasedIsReady(indegree: map<Id, nat>, edges: seq<Edge>, nodes: set<Id>, rest: set<Id>, next: seq<Id>)
    requires Peeling(indegree, edges, nodes, rest, rest) && Released(indegree, rest, next)
    ensures Elements(next) == Ready(rest, Arcs(edges)) && Distinct(next)
  {
    forall t | t in rest
      ensures indegree[t] == 0 <==> t in Ready(rest, Arcs(edges))
    {
      CountIntoZero(edges, t, rest);
    }
  }

  lemma {:induction false} DistinctCount<T>(s: seq<T>)
    ensures Distinct(s) <==> |Elements(s)| == |s|
    ensures |Elements(s)| <= |s|
  {
    if s != [] {
      var init, last := s[..|s| - 1], s[|s| - 1];
      DistinctCount(init);
      assert s == init + [last];
      assert Elements(s) == Elements(init) + {last};
      assert Distinct(s) <==> Distinct(init) && last !in Elements(init);
    }
  }

  lemma PeelStep(layers: seq<seq<Id>>, ready: seq<Id>, nodes: set<Id>, remaining: set<Id>, arcs: set<Arc>)
    requires Layers(nodes, arcs) == SetsOf(layers) + Layers(remaining, arcs)
    requires Stuck(nodes, arcs) == Stuck(remaining, arcs)
    requires ready != [] && Distinct(ready) && Elements(ready) == Ready(remaining, arcs)
    ensures Layers(nodes, arcs) == SetsOf(layers + [ready]) + Layers(remaining - Elements(ready), arcs)
    ensures Stuck(nodes, arcs) == Stuck(remaining - Elements(ready), arcs)
    ensures |remaining - Elements(ready)| == |remaining| - |ready|
    ensures remaining - Elements(ready) < remaining
  {
    hide Layers, Stuck, Ready, SetsOf, Distinct;
    assert ready[0] in Elements(ready);
    DistinctCount(ready);
    LayersUnfold(remaining, arcs);
    AppendAssoc(SetsOf(layers), Elements(ready), Layers(remaining - Elements(ready), arcs));
    SetsAppend(layers, ready);
    ReadyWithin(remaining, arcs);
    TakenAway(remaining, Elements(ready));
  }

  lemma SetsAppend(layers: seq<seq<Id>>, layer: seq<Id>)
    ensures SetsOf(layers + [layer]) == SetsOf(layers) + [Elements(layer)]
  {
  }

  lemma ReadyWithin(rest: set<Id>, arcs: set<Arc>)
    ensures Ready(rest, arcs) <= rest
  {
  }

  lemma TakenAway(all: set<Id>, part: set<Id>)
    requires part <= all && part != {}
    ensures |all - part| == |all| - |part| && all - part < all
  {
  }

  lemma AppendAssoc<T>(a: seq<T>, x: T, b: seq<T>)
    ensures a + ([x] + b) == (a + [x]) + b
  {
  }

  lemma LayersUnfold(rest: set<Id>, arcs: set<Arc>)
    requires Ready(rest, arcs) != {}
    ensures Layers(rest, arcs) == [Ready(rest, arcs)] + Layers(rest - Ready(rest, arcs), arcs)
    ensures Stuck(rest, arcs) == Stuck(rest - Ready(rest, arcs), arcs)
  {
  }

  /** Kahn's loop over the prepared tables. */
  method PeelAll(indegree0: map<Id, nat>, outgoing: map<Id, seq<Id>>, edges: seq<Edge>,
                 ghost nodes: set<Id>, ready0: seq<Id>)
    returns (layers: seq<seq<Id>>, visited: nat, indegree: map<Id, nat>)
    requires Within(nodes, Arcs(edges))
    requires Peeling(indegree0, edges, nodes, nodes, nodes) && Released(indegree0, nodes, ready0) && Ascending(ready0)
    requires forall x :: Outgoing(outgoing, x) == TargetsOf(edges, x)
    ensures IsLayering(layers, nodes, Arcs(edges))
    ensures visited == |nodes| - |Stuck(nodes, Arcs(edges))|
    ensures indegree.Keys == nodes
    ensures forall n :: n in nodes ==> (indegree[n] == 0 <==> n !in Stuck(nodes, Arcs(edges)))
  {
    hide Peeling, Released, IsLayering, Layers, Stuck, Ready, Within, Arcs;
    ghost var arcs := Arcs(edges);
    var ready := ready0;
    layers, visited, indegree := [], 0, indegree0;
    ghost var remaining := nodes;
    StartPeeling(nodes, arcs);
    ReleasedIsReady(indegree, edges, nodes, nodes, ready);
    while ready != []
      invariant Ascending(ready) && Elements(ready) == Ready(remaining, arcs)
      invariant visited == |nodes| - |remaining|
      invariant Peeling(indegree, edges, nodes, remaining, remaining)
      invariant Layers(nodes, arcs) == SetsOf(layers) + Layers(remaining, arcs)
      invariant Stuck(nodes, arcs) == Stuck(remaining, arcs)
      invariant forall i :: 0 <= i < |layers| ==> Ascending(layers[i])
      decreases remaining
    {
      AscendingDistinct(ready);
      PeelStep(layers, ready, nodes, remaining, arcs);
      var next;
      indegree, next := PeelLayer(indegree, outgoing, edges, nodes, remaining, ready);
      layers := layers + [ready];
      visited := visited + |ready|;
      remaining := remaining - Elements(ready);
      ReleasedIsReady(indegree, edges, nodes, remaining, next);
      ready := Sort(next);
    }
    assert Elements(ready) == {};
    LayeringDone(layers, nodes, remaining, arcs);
    IndegreesDone(indegree, edges, nodes, remaining);
  }

  lemma StartPeeling(nodes: set<Id>, arcs: set<Arc>)
    ensures Layers(nodes, arcs) == SetsOf([]) + Layers(nodes, arcs)
  {
    assert SetsOf([]) == [];
  }

  lemma LayeringDone(layers: seq<seq<Id>>, nodes: set<Id>, remaining: set<Id>, arcs: set<Arc>)
    requires Layers(nodes, arcs) == SetsOf(layers) + Layers(remaining, arcs) && Stuck(nodes, arcs) == Stuck(remaining, arcs)
    requires Ready(remaining, arcs) == {} && forall i :: 0 <= i < |layers| ==> Ascending(layers[i])
    ensures IsLayering(layers, nodes, arcs) && Stuck(nodes, arcs) == remaining
  {
    assert SetsOf(layers) + [] == SetsOf(layers);
  }

  lemma IndegreesDone(indegree: map<Id, nat>, edges: seq<Edge>, nodes: set<Id>, remaining: set<Id>)
    requires Peeling(indegree, edges, nodes, remaining, remaining) && Ready(remaining, Arcs(edges)) == {}
    ensures indegree.Keys == nodes && forall n :: n in nodes ==> (indegree[n] == 0 <==> n !in remaining)
  {
    forall n | n in remaining
      ensures indegree[n] > 0
    {
      assert n !in Ready(remaining, Arcs(edges));
      CountIntoZero(edges, n, remaining);
    }
  }

  /** `topological_layers`: an exact answer for every input. Success gives the Kahn layers,
      each in id order; a cycle error lists exactly the nodes on or downstream of a cycle. */
  method TopologicalLayers(nodeIds: seq<Id>, edges: seq<Edge>) returns (r: LayeringResult)
    ensures r.InvalidInput? <==> !Distinct(nodeIds) || !Within(Elements(nodeIds), Arcs(edges))
    ensures !r.InvalidInput? ==> (r.CycleError? <==> !Acyclic(Arcs(edges)))
    ensures r.Layered? ==> IsLayering(r.layers, Elements(nodeIds), Arcs(edges))
    ensures r.CycleError? ==> Ascending(r.nodeIds) && forall n :: n in r.nodeIds <==> BelowCycle(n, Arcs(edges))
  {
    var nodes := Elements(nodeIds);
    DistinctCount(nodeIds);
    if |nodes| != |nodeIds| {
      return InvalidInput;
    }
    var ok, indegree, outgoing := BuildTables(nodes, edges);
    if !ok {
      return InvalidInput;
    }
    var roots := Select(nodeIds, indegree, true);
    var ready := Sort(roots);
    AscendingDistinct(ready);
    assert forall t :: t in ready <==> t in Elements(roots);
    var layers, visited;
    layers, visited, indegree := PeelAll(indegree, outgoing, edges, nodes, ready);
    ghost var left := Stuck(nodes, Arcs(edges));
    StuckIffCycle(nodes, Arcs(edges));
    if visited != |nodeIds| {
      var blocked := Select(nodeIds, indegree, false);
      var listed := Sort(blocked);
      assert forall n :: n in listed <==> n in Elements(blocked);
      forall n
        ensures n in left <==> BelowCycle(n, Arcs(edges))
      {
        if n in left { StuckHasCycle(nodes, Arcs(edges), n); }
        if BelowCycle(n, Arcs(edges)) { CycleIsStuck(nodes, Arcs(edges), n); }
      }
      return CycleError(listed);
    }
    return Layered(layers);
  }

  /** The ids whose in-degree is zero, or is positive, in stored order. */
  method Select(nodeIds: seq<Id>, indegree: map<Id, nat>, zero: bool) returns (chosen: seq<Id>)
    requires Distinct(nodeIds) && Elements(nodeIds) <= indegree.Keys
    ensures Distinct(chosen)
    ensures Elements(chosen) == set n | n in nodeIds && (indegree[n] == 0 <==> zero)
  {
    chosen := [];
    for k := 0 to |nodeIds|
      invariant Distinct(chosen)
      invariant forall n :: n in chosen <==> n in nodeIds[..k] && (indegree[n] == 0 <==> zero)
    {
      assert nodeIds[..k + 1] == nodeIds[..k] + [nodeIds[k]];
      assert nodeIds[k] in Elements(nodeIds);
      if indegree[nodeIds[k]] == 0 <==> zero {
        assert nodeIds[k] !in nodeIds[..k];
        chosen := chosen + [nodeIds[k]];
      }
    }
    assert nodeIds[..|nodeIds|] == nodeIds;
  }
}
