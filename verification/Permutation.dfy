/** The order in which a graph stores its nodes and edges does not show in its plan
    (src/comfyng/graph/compiler.py:1376-1446, 1548-1562, src/comfyng/graph/topology.py:58-77). */
module Permutation {
  import opened Ids
  import opened Layering
  import opened Graphs
  import opened Topology
  import opened CriticalPath
  import opened Fusion
  import opened Contraction
  import opened CacheKeys
  import opened Validation
  import opened Expansion
  import opened ExpansionTheorems
  import opened Compile
  import opened PlanTheorems

  /** The same nodes, edges and bindings, stored in any order. */
  ghost predicate Permuted(g: Graph, h: Graph)
  {
    && g.version == h.version && g.inputs == h.inputs && g.outputs == h.outputs
    && multiset(g.nodes) == multiset(h.nodes) && multiset(g.edges) == multiset(h.edges)
  }

  lemma SameElements<T>(s: seq<T>, t: seq<T>)
    requires multiset(s) == multiset(t)
    ensures forall x :: x in s <==> x in t
  {
    forall x
      ensures x in s <==> x in t
    {
      assert x in s <==> x in multiset(s);
      assert x in t <==> x in multiset(t);
    }
  }

  lemma PermutedBasics(g: Graph, h: Graph)
    requires Permuted(g, h)
    ensures NodeIds(g) == NodeIds(h) && Arcs(g.edges) == Arcs(h.edges)
    ensures forall n :: n in g.nodes <==> n in h.nodes
    ensures forall e :: e in g.edges <==> e in h.edges
  {
    SameElements(g.nodes, h.nodes);
    SameElements(g.edges, h.edges);
  }

  // ----- The topological order -----

  lemma SameLayering(layers: seq<seq<Id>>, layers': seq<seq<Id>>, nodes: set<Id>, arcs: set<Arc>)
    requires IsLayering(layers, nodes, arcs) && IsLayering(layers', nodes, arcs)
    ensures layers == layers'
  {
    assert |SetsOf(layers)| == |layers| == |layers'|;
    forall i | 0 <= i < |layers|
      ensures layers[i] == layers'[i]
    {
      assert SetsOf(layers)[i] == Elements(layers[i]) && SetsOf(layers')[i] == Elements(layers'[i]);
      SortedListingUnique(layers[i], layers'[i]);
    }
  }

  lemma SameOrder(g: Graph, h: Graph, order: seq<Id>, order': seq<Id>)
    requires Permuted(g, h) && Ordered(order, g) && Ordered(order', h)
    ensures order == order'
  {
    PermutedBasics(g, h);
    var layers :| IsLayering(layers, NodeIds(g), Arcs(g.edges)) && order == Flatten(layers);
    var layers' :| IsLayering(layers', NodeIds(h), Arcs(h.edges)) && order' == Flatten(layers');
    SameLayering(layers, layers', NodeIds(g), Arcs(g.edges));
  }

  // ----- Cache keys and constant flags -----

  lemma SameRecord(g: Graph, h: Graph, keys: map<Id, string>, keys': map<Id, string>, id: Id,
                   up: map<string, Upstream>, up': map<string, Upstream>)
    requires Records(g, keys, id, up) && Records(h, keys', id, up')
    requires g.inputs == h.inputs && forall e :: e in g.edges <==> e in h.edges
    requires forall e :: e in g.edges && e.target == id && e.source in keys && e.source in keys' ==> keys[e.source] == keys'[e.source]
    ensures up == up'
  {
    forall e, p | EdgeInto(g, e, id, p)
      ensures p in up && p in up' && up[p] == up'[p]
    {
      assert EdgeInto(h, e, id, p);
    }
    forall name, p | InputInto(g, name, id, p)
      ensures p in up && p in up' && up[p] == up'[p]
    {
      assert InputInto(h, name, id, p);
    }
    forall p
      ensures p in up <==> p in up'
      ensures p in up ==> up[p] == up'[p]
    {
      if p in up' {
        if e :| EdgeInto(h, e, id, p) {
          assert EdgeInto(g, e, id, p);
        } else {
          var name :| InputInto(h, name, id, p);
          assert InputInto(g, name, id, p);
        }
      }
    }
  }

  lemma {:induction false} SameKey(g: Graph, h: Graph, hash: Hash, keys: map<Id, string>, keys': map<Id, string>,
                                   rank: map<Id, nat>, n: Node)
    requires Permuted(g, h) && KeysOf(g, hash, keys) && KeysOf(h, hash, keys')
    requires WellFormed(g) && Ranking(rank, NodeIds(g), Arcs(g.edges)) && n in g.nodes
    ensures n.id in keys && n.id in keys' && keys[n.id] == keys'[n.id]
    decreases rank[n.id]
  {
    PermutedBasics(g, h);
    forall e | e in g.edges && e.target == n.id
      ensures e.source in keys && e.source in keys' && keys[e.source] == keys'[e.source]
    {
      assert (e.source, e.target) in Arcs(g.edges);
      SameKey(g, h, hash, keys, keys', rank, NodeAt(g, e.source));
    }
    assert KeyOk(g, hash, keys, n) && KeyOk(h, hash, keys', n);
    var up :| Records(g, keys, n.id, up) && keys[n.id] == hash(ContentOf(n, up));
    var up' :| Records(h, keys', n.id, up') && keys'[n.id] == hash(ContentOf(n, up'));
    SameRecord(g, h, keys, keys', n.id, up, up');
  }

  lemma SameKeys(g: Graph, h: Graph, hash: Hash, keys: map<Id, string>, keys': map<Id, string>)
    requires Permuted(g, h) && WellFormed(g) && Acyclic(Arcs(g.edges))
    requires KeysOf(g, hash, keys) && KeysOf(h, hash, keys')
    ensures keys == keys'
  {
    hide WellFormed, Acyclic;
    PermutedBasics(g, h);
    var rank := AcyclicRanking(g);
    forall id | id in keys
      ensures id in keys' && keys[id] == keys'[id]
    {
      SameKey(g, h, hash, keys, keys', rank, NodeAt(g, id));
    }
  }

  lemma {:induction false} SameConstant(g: Graph, h: Graph, constants: map<Id, bool>, constants': map<Id, bool>,
                                        rank: map<Id, nat>, id: Id)
    requires Permuted(g, h) && ConstantsOf(g, constants) && ConstantsOf(h, constants')
    requires WellFormed(g) && Ranking(rank, NodeIds(g), Arcs(g.edges)) && id in NodeIds(g)
    ensures id in constants && id in constants' && constants[id] == constants'[id]
    decreases rank[id]
  {
    PermutedBasics(g, h);
    forall e | e in g.edges && e.target == id
      ensures e.source in constants && e.source in constants' && constants[e.source] == constants'[e.source]
    {
      assert (e.source, e.target) in Arcs(g.edges);
      SameConstant(g, h, constants, constants', rank, e.source);
    }
    assert ConstantOk(g, constants, id) && ConstantOk(h, constants', id);
    assert HasExternalInput(g, id) <==> HasExternalInput(h, id);
  }

  lemma SameConstantAt(g: Graph, h: Graph, constants: map<Id, bool>, constants': map<Id, bool>, rank: map<Id, nat>, id: Id)
    requires Permuted(g, h) && ConstantsOf(g, constants) && ConstantsOf(h, constants')
    requires WellFormed(g) && Ranking(rank, NodeIds(g), Arcs(g.edges))
    ensures (id in constants <==> id in constants') && (id in constants ==> constants[id] == constants'[id])
  {
    PermutedBasics(g, h);
    if id in NodeIds(g) {
      SameConstant(g, h, constants, constants', rank, id);
    }
  }

  lemma SameConstants(g: Graph, h: Graph, constants: map<Id, bool>, constants': map<Id, bool>)
    requires Permuted(g, h) && WellFormed(g) && Acyclic(Arcs(g.edges))
    requires ConstantsOf(g, constants) && ConstantsOf(h, constants')
    ensures constants == constants'
  {
    hide Permuted, WellFormed, ConstantsOf;
    var rank := AcyclicRanking(g);
    forall id
      ensures (id in constants <==> id in constants') && (id in constants ==> constants[id] == constants'[id])
    {
      SameConstantAt(g, h, constants, constants', rank, id);
    }
    SameMap(constants, constants');
  }

  // ----- Fusible links -----

  lemma {:induction false} OutOfCount(edges: seq<Edge>, id: Id, e: Edge)
    ensures multiset(OutOf(edges, id))[e] == if e.source == id then multiset(edges)[e] else 0
  {
    if edges != [] {
      var init, last := edges[..|edges| - 1], edges[|edges| - 1];
      OutOfCount(init, id, e);
      assert edges == init + [last];
      assert multiset(edges) == multiset(init) + multiset([last]);
      assert OutOf(edges, id) == OutOf(init, id) + if last.source == id then [last] else [];
    }
  }

  lemma {:induction false} IntoOfCount(edges: seq<Edge>, id: Id, e: Edge)
    ensures multiset(IntoOf(edges, id))[e] == if e.target == id then multiset(edges)[e] else 0
  {
    if edges != [] {
      var init, last := edges[..|edges| - 1], edges[|edges| - 1];
      IntoOfCount(init, id, e);
      assert edges == init + [last];
      assert multiset(edges) == multiset(init) + multiset([last]);
      assert IntoOf(edges, id) == IntoOf(init, id) + if last.target == id then [last] else [];
    }
  }

  lemma SameLength<T>(s: seq<T>, t: seq<T>)
    requires forall x :: multiset(s)[x] == multiset(t)[x]
    ensures |s| == |t| && (|s| == 1 ==> s == t)
  {
    assert multiset(s) == multiset(t);
    assert |multiset(s)| == |s| && |multiset(t)| == |t|;
    if |s| == 1 {
      assert s[0] in multiset(t);
      assert s[0] in t;
    }
  }

  lemma SameNeighbours(g: Graph, h: Graph, id: Id)
    requires Permuted(g, h)
    ensures |OutOf(g.edges, id)| == |OutOf(h.edges, id)| && |IntoOf(g.edges, id)| == |IntoOf(h.edges, id)|
    ensures |OutOf(g.edges, id)| == 1 ==> OutOf(g.edges, id) == OutOf(h.edges, id)
  {
    forall e
      ensures multiset(OutOf(g.edges, id))[e] == multiset(OutOf(h.edges, id))[e]
    {
      OutOfCount(g.edges, id, e);
      OutOfCount(h.edges, id, e);
    }
    forall e
      ensures multiset(IntoOf(g.edges, id))[e] == multiset(IntoOf(h.edges, id))[e]
    {
      IntoOfCount(g.edges, id, e);
      IntoOfCount(h.edges, id, e);
    }
    SameLength(OutOf(g.edges, id), OutOf(h.edges, id));
    SameLength(IntoOf(g.edges, id), IntoOf(h.edges, id));
  }

  lemma SameTable(g: Graph, h: Graph)
    requires Permuted(g, h) && WellFormed(g) && WellFormed(h)
    ensures NodeTable(g.nodes) == NodeTable(h.nodes)
  {
    PermutedBasics(g, h);
    var a, b := NodeTable(g.nodes), NodeTable(h.nodes);
    forall id
      ensures id in a <==> id in b
      ensures id in a && id in b ==> a[id] == b[id]
    {
      if id in a && id in b { UniqueNode(g, a[id], b[id]); }
    }
  }

  lemma SameEvidence(g: Graph, h: Graph, nodes: map<Id, Node>, profiles: Profiles, e: Edge)
    requires Permuted(g, h) && e.source in nodes && e.target in nodes
    ensures LinkEvidence(g, nodes, profiles, e) == LinkEvidence(h, nodes, profiles, e)
  {
    SameNeighbours(g, h, e.source);
    SameNeighbours(g, h, e.target);
  }

  lemma SameLinked(g: Graph, h: Graph, profiles: Profiles, id: Id)
    requires Permuted(g, h) && NodeTable(g.nodes) == NodeTable(h.nodes)
    ensures Linked(g, profiles, id) <==> Linked(h, profiles, id)
    ensures Linked(g, profiles, id) ==> OutOf(g.edges, id)[0] == OutOf(h.edges, id)[0]
  {
    SameNeighbours(g, h, id);
    if |OutOf(g.edges, id)| == 1 {
      var e := OutOf(g.edges, id)[0];
      if e.source in NodeTable(g.nodes) && e.target in NodeTable(g.nodes) {
        SameEvidence(g, h, NodeTable(g.nodes), profiles, e);
      }
    }
  }

  lemma SameNextMap(g: Graph, h: Graph, profiles: Profiles)
    requires Permuted(g, h) && WellFormed(g) && WellFormed(h)
    ensures NextMap(g, profiles) == NextMap(h, profiles)
  {
    PermutedBasics(g, h);
    SameTable(g, h);
    forall id
      ensures id in NextMap(g, profiles) <==> id in NextMap(h, profiles)
      ensures id in NextMap(g, profiles) ==> NextMap(g, profiles)[id] == NextMap(h, profiles)[id]
    {
      SameNext(g, h, profiles, id);
    }
    SameMap(NextMap(g, profiles), NextMap(h, profiles));
  }

  lemma SameNext(g: Graph, h: Graph, profiles: Profiles, id: Id)
    requires Permuted(g, h) && NodeTable(g.nodes) == NodeTable(h.nodes) && NodeIds(g) == NodeIds(h)
    ensures id in NextMap(g, profiles) <==> id in NextMap(h, profiles)
    ensures id in NextMap(g, profiles) ==> NextMap(g, profiles)[id] == NextMap(h, profiles)[id]
  {
    SameLinked(g, h, profiles, id);
  }

  lemma SameMap<V>(a: map<Id, V>, b: map<Id, V>)
    requires forall id :: (id in a <==> id in b) && (id in a && id in b ==> a[id] == b[id])
    ensures a == b
  {
  }

  // ----- Maximal chains are unique -----

  ghost predicate Climbing(at: seq<nat>)
  {
    forall i, j :: 0 <= i < j < |at| ==> at[i] < at[j]
  }

  lemma {:induction false} ClimbingUnique(s: seq<nat>, t: seq<nat>)
    requires Climbing(s) && Climbing(t) && forall x :: x in s <==> x in t
    ensures s == t
  {
    if s != [] { assert s[0] in t; }
    if t != [] { assert t[0] in s; }
    if s != [] {
      assert s[0] == t[0];
      forall x | x in s[1..]
        ensures x in t[1..]
      {
        assert x in t;
        var i :| 0 <= i < |t| && t[i] == x;
        assert i > 0 && t[1..][i - 1] == x;
      }
      forall x | x in t[1..]
        ensures x in s[1..]
      {
        assert x in s;
        var i :| 0 <= i < |s| && s[i] == x;
        assert i > 0 && s[1..][i - 1] == x;
      }
      ClimbingUnique(s[1..], t[1..]);
    }
  }

  /** A whole chain is determined by its head. */
  lemma {:induction false} ChainsAgree(c: seq<Id>, d: seq<Id>, next: map<Id, Id>)
    requires Chain(c, next) && Chain(d, next) && c[0] == d[0]
    requires c[|c| - 1] !in next && d[|d| - 1] !in next
    ensures c == d
    decreases |c|
  {
    if |c| > 1 && |d| > 1 {
      assert next[c[0]] == c[0 + 1] && next[d[0]] == d[0 + 1];
      TailChain(c, next);
      TailChain(d, next);
      ChainsAgree(c[1..], d[1..], next);
      assert c == [c[0]] + c[1..] && d == [d[0]] + d[1..];
    }
  }

  lemma TailChain(c: seq<Id>, next: map<Id, Id>)
    requires Chain(c, next) && |c| > 1
    ensures Chain(c[1..], next)
  {
    assert forall i :: 0 <= i < |c| - 2 ==> c[1..][i] == c[i + 1] && next[c[i + 1]] == c[i + 1 + 1];
  }

  lemma InnerIsLinked(c: seq<Id>, next: map<Id, Id>, i: nat)
    requires Chain(c, next) && 0 < i < |c|
    ensures c[i] in next.Values
  {
    assert next[c[i - 1]] == c[i - 1 + 1];
  }

  /** The positions of chain heads are the positions of nodes no link enters. */
  lemma HeadPositions(chains: seq<seq<Id>>, order: seq<Id>, next: map<Id, Id>, at: seq<nat>, k: nat)
    requires WholeChains(chains, next) && HeadsAt(chains, order, at) && Distinct(order)
    requires Elements(Flatten(chains)) == Elements(order)
    ensures k in at <==> k < |order| && order[k] !in next.Values
  {
    if k in at {
      var u :| 0 <= u < |at| && at[u] == k;
      assert chains[u][0] == order[k];
    }
    if k < |order| && order[k] !in next.Values {
      assert order[k] in Elements(order);
      FlattenElements(chains, order[k]);
      var u :| 0 <= u < |chains| && order[k] in chains[u];
      var i :| 0 <= i < |chains[u]| && chains[u][i] == order[k];
      assert Chain(chains[u], next);
      if i > 0 {
        InnerIsLinked(chains[u], next, i);
      }
      assert order[at[u]] == order[k];
    }
  }

  lemma MaximalChainsUnique(chains: seq<seq<Id>>, chains': seq<seq<Id>>, order: seq<Id>, next: map<Id, Id>)
    requires MaximalChains(chains, order, next) && MaximalChains(chains', order, next) && Distinct(order)
    ensures chains == chains'
  {
    var at :| HeadsAt(chains, order, at);
    var at' :| HeadsAt(chains', order, at');
    forall k: nat
      ensures k in at <==> k in at'
    {
      HeadPositions(chains, order, next, at, k);
      HeadPositions(chains', order, next, at', k);
    }
    ClimbingUnique(at, at');
    forall u | 0 <= u < |chains|
      ensures chains[u] == chains'[u]
    {
      assert Chain(chains[u], next) && Chain(chains'[u], next);
      ChainsAgree(chains[u], chains'[u], next);
    }
  }

  // ----- Units, representatives, groups and steps -----

  lemma SameLinkAt(g: Graph, h: Graph, profiles: Profiles, e: Edge, f: Edge, kind: string, kind': string,
                   runtime: string, runtime': string, schema: Json, schema': Json)
    requires Permuted(g, h) && NodeTable(g.nodes) == NodeTable(h.nodes) && e.source == f.source
    requires LinkAt(g, profiles, e, kind, runtime, schema) && LinkAt(h, profiles, f, kind', runtime', schema')
    ensures e == f && kind == kind' && runtime == runtime' && schema == schema'
  {
    SameNeighbours(g, h, e.source);
    assert [e][0] == [f][0];
    SameEvidence(g, h, NodeTable(g.nodes), profiles, e);
  }

  lemma SameUnit(g: Graph, h: Graph, profiles: Profiles, u: Unit, w: Unit)
    requires Permuted(g, h) && NodeTable(g.nodes) == NodeTable(h.nodes)
    requires ValidUnit(u) && ValidUnit(w) && u.members == w.members
    requires UnitCertified(g, profiles, u) && UnitCertified(h, profiles, w)
    ensures u == w
  {
    if u.evidence.Some? {
      var a, b := u.evidence.value, w.evidence.value;
      forall i | 0 <= i < |a.links|
        ensures a.links[i] == b.links[i] && a.schemas[i] == b.schemas[i] && a.kind == b.kind && a.runtime == b.runtime
      {
        SameLinkAt(g, h, profiles, a.links[i], b.links[i], a.kind, b.kind, a.runtime, b.runtime, a.schemas[i], b.schemas[i]);
      }
      assert a.links[0] == b.links[0];
      assert a.links == b.links && a.schemas == b.schemas;
    }
  }

  lemma SameUnits(a: Analysis, b: Analysis, profiles: Profiles, next: map<Id, Id>)
    requires Permuted(a.graph, b.graph) && NodeTable(a.graph.nodes) == NodeTable(b.graph.nodes)
    requires a.order == b.order && Distinct(a.order) && Cut(a.units, a.order, next) && Cut(b.units, b.order, next)
    requires UnitsCertified(a, profiles) && UnitsCertified(b, profiles)
    ensures a.units == b.units
  {
    MaximalChainsUnique(MembersOf(a.units), MembersOf(b.units), a.order, next);
    forall u | 0 <= u < |a.units|
      ensures a.units[u] == b.units[u]
    {
      assert MembersOf(a.units)[u] == MembersOf(b.units)[u];
      SameUnit(a.graph, b.graph, profiles, a.units[u], b.units[u]);
    }
  }

  lemma SameAnalysis(a: Analysis, b: Analysis, profiles: Profiles, hash: Hash)
    requires Permuted(a.graph, b.graph)
    requires Analysed(a, NextMap(a.graph, profiles), hash) && Analysed(b, NextMap(b.graph, profiles), hash)
    requires UnitsCertified(a, profiles) && UnitsCertified(b, profiles)
    ensures a.order == b.order && a.keys == b.keys && a.constants == b.constants && a.units == b.units
    ensures a.criticalPath == b.criticalPath
    ensures NextMap(a.graph, profiles) == NextMap(b.graph, profiles)
  {
    SameOrder(a.graph, b.graph, a.order, b.order);
    SameKeys(a.graph, b.graph, hash, a.keys, b.keys);
    SameConstants(a.graph, b.graph, a.constants, b.constants);
    SameNextMap(a.graph, b.graph, profiles);
    SameTable(a.graph, b.graph);
    OrderIsTopological(a.order, a.graph);
    SameUnits(a, b, profiles, NextMap(a.graph, profiles));
    SamePath(a, b, NextMap(a.graph, profiles), NextMap(b.graph, profiles), hash);
  }

  lemma SamePath(a: Analysis, b: Analysis, next: map<Id, Id>, next': map<Id, Id>, hash: Hash)
    requires Permuted(a.graph, b.graph) && a.order == b.order && Analysed(a, next, hash) && Analysed(b, next', hash)
    ensures a.criticalPath == b.criticalPath
  {
    hide LeastCritical, Cut, KeysOf, ConstantsOf, WellFormed, BoundOnce, Acyclic, Ordered;
    PermutedBasics(a.graph, b.graph);
    if a.order != [] {
      LeastCriticalUnique(a.criticalPath, b.criticalPath, NodeIds(a.graph), Arcs(a.graph.edges));
    }
  }

  lemma SameRep(rep: map<Id, Id>, rep': map<Id, Id>, chains: seq<seq<Id>>)
    requires Represents(rep, chains) && Represents(rep', chains)
    ensures rep == rep'
  {
    forall n
      ensures n in rep <==> n in rep'
      ensures n in rep && n in rep' ==> rep[n] == rep'[n]
    {
      if n in rep {
        var u, i :| InChain(chains, u, i, n);
      }
      if n in rep' {
        var u, i :| InChain(chains, u, i, n);
      }
    }
  }

  lemma SameSyntheticArcs(edges: seq<Edge>, edges': seq<Edge>, rep: map<Id, Id>)
    requires EndsMapped(edges, rep) && EndsMapped(edges', rep) && forall e :: e in edges <==> e in edges'
    ensures Arcs(SyntheticEdges(edges, rep)) == Arcs(SyntheticEdges(edges', rep))
  {
    forall a
      ensures a in Arcs(SyntheticEdges(edges, rep)) <==> a in Arcs(SyntheticEdges(edges', rep))
    {
      SyntheticArcs(edges, rep, a);
      SyntheticArcs(edges', rep, a);
      if e :| Crosses(e, edges, rep, a) {
        assert Crosses(e, edges', rep, a);
      }
      if e :| Crosses(e, edges', rep, a) {
        assert Crosses(e, edges, rep, a);
      }
    }
  }

  lemma SameGrouping(a: Analysis, b: Analysis, q: Grouping, r: Grouping, next: map<Id, Id>)
    requires Permuted(a.graph, b.graph) && a.units == b.units
    requires Grouped(a, q, next) && Grouped(b, r, next)
    ensures q == r
  {
    PermutedBasics(a.graph, b.graph);
    SameRep(q.rep, r.rep, MembersOf(a.units));
    SameSyntheticArcs(a.graph.edges, b.graph.edges, q.rep);
    SameLayering(q.groups, r.groups, Heads(q.rep), Arcs(SyntheticEdges(a.graph.edges, q.rep)));
  }

  lemma SameUnitOfHead(chains: seq<seq<Id>>, u: int, w: int, head: Id)
    requires Distinct(Flatten(chains)) && 0 <= u < |chains| && 0 <= w < |chains|
    requires chains[u] != [] && chains[w] != [] && chains[u][0] == head == chains[w][0]
    ensures u == w
  {
    SameHead(chains, u, w);
  }

  /** A head lies in one group only. */
  lemma SameGroup(groups: seq<seq<Id>>, i: nat, j: nat, n: Id)
    requires Distinct(Flatten(groups)) && i < |groups| && j < |groups| && n in groups[i] && n in groups[j]
    ensures i == j
  {
    var x :| 0 <= x < |groups[i]| && groups[i][x] == n;
    var y :| 0 <= y < |groups[j]| && groups[j][y] == n;
    ChainsApart(groups, i, x, j, y, n);
  }

  lemma SameStep(s: ExecutionStep, t: ExecutionStep, a: Analysis, b: Analysis, q: Grouping, hash: Hash)
    requires Permuted(a.graph, b.graph) && a.units == b.units && a.keys == b.keys && a.constants == b.constants
    requires EndsMapped(a.graph.edges, q.rep) && EndsMapped(b.graph.edges, q.rep)
    requires StepOk(s, a, q, hash) && StepOk(t, b, q, hash) && s.index == t.index && s.nodeId == t.nodeId
    requires Distinct(Flatten(MembersOf(a.units))) && Distinct(Flatten(q.groups))
    ensures s == t
  {
    PermutedBasics(a.graph, b.graph);
    var u :| UnitOfStep(s, a, hash, u);
    var w :| UnitOfStep(t, b, hash, w);
    SameUnitOfHead(MembersOf(a.units), u, w, s.nodeId);
    SameGroup(q.groups, s.group, t.group, s.nodeId);
    assert DependencySet(a.graph.edges, q.rep, s.nodeId) == DependencySet(b.graph.edges, q.rep, s.nodeId);
    assert DependentSet(a.graph.edges, q.rep, s.nodeId) == DependentSet(b.graph.edges, q.rep, s.nodeId);
    SortedListingUnique(s.dependencies, t.dependencies);
    SortedListingUnique(s.dependents, t.dependents);
  }

  lemma SameSteps(steps: seq<ExecutionStep>, steps': seq<ExecutionStep>, heads: seq<Id>, a: Analysis, b: Analysis, q: Grouping, hash: Hash)
    requires Permuted(a.graph, b.graph) && a.units == b.units && a.keys == b.keys && a.constants == b.constants
    requires EndsMapped(a.graph.edges, q.rep) && EndsMapped(b.graph.edges, q.rep)
    requires StepsFor(steps, heads, a, q, hash) && StepsFor(steps', heads, b, q, hash)
    requires Distinct(Flatten(MembersOf(a.units))) && Distinct(Flatten(q.groups))
    ensures steps == steps'
  {
    forall k | 0 <= k < |steps|
      ensures steps[k] == steps'[k]
    {
      SameStep(steps[k], steps'[k], a, b, q, hash);
    }
  }

  /** Plans of the same graph in two stored orders agree on the topological order, the critical
      path, on every step with its key, members, group and dependencies, and on the plan key. */
  lemma StoredOrderIrrelevant(p: Plan, r: Plan, profiles: Profiles, hash: Hash)
    requires Permuted(p.analysis.graph, r.analysis.graph)
    requires ValidPlan(p, profiles, hash) && ValidPlan(r, profiles, hash)
    ensures p.analysis.order == r.analysis.order && p.analysis.keys == r.analysis.keys
    ensures p.analysis.units == r.analysis.units && p.grouping == r.grouping
    ensures p.analysis.criticalPath == r.analysis.criticalPath
    ensures p.steps == r.steps && p.key == r.key
  {
    var next := NextMap(p.analysis.graph, profiles);
    SameAnalysis(p.analysis, r.analysis, profiles, hash);
    SameGrouping(p.analysis, r.analysis, p.grouping, r.grouping, next);
    HeadsOnce(p.analysis, p.grouping, next);
    SameSteps(p.steps, r.steps, Flatten(p.grouping.groups), p.analysis, r.analysis, p.grouping, hash);
  }

  // ----- From stored sources to plans -----

  lemma {:induction false} DistinctOnce<T>(s: seq<T>, x: T)
    requires Distinct(s)
    ensures multiset(s)[x] == if x in s then 1 else 0
  {
    if s != [] {
      var init, last := s[..|s| - 1], s[|s| - 1];
      assert s == init + [last];
      assert multiset(s) == multiset(init) + multiset([last]);
      DistinctOnce(init, x);
      assert x in s <==> x in init || x == last;
    }
  }

  lemma DistinctPermuted<T>(s: seq<T>, t: seq<T>)
    requires Distinct(s) && Distinct(t) && forall x :: x in s <==> x in t
    ensures multiset(s) == multiset(t)
  {
    forall x
      ensures multiset(s)[x] == multiset(t)[x]
    {
      DistinctOnce(s, x);
      DistinctOnce(t, x);
    }
  }

  lemma NodesDistinct(g: Graph)
    requires Distinct(IdsOf(g.nodes))
    ensures Distinct(g.nodes)
  {
    forall i, j | 0 <= i < j < |g.nodes|
      ensures g.nodes[i] != g.nodes[j]
    {
      assert IdsOf(g.nodes)[i] != IdsOf(g.nodes)[j];
    }
  }

  lemma AcceptedPermuted(x: Graph, y: Graph, rules: Rules)
    requires SameGraph(x, y) && Accepted(x, rules) && Accepted(y, rules)
    ensures Permuted(x, y)
  {
    NodesDistinct(x);
    NodesDistinct(y);
    AcceptedEdgesDistinct(x, rules);
    AcceptedEdgesDistinct(y, rules);
    DistinctPermuted(x.nodes, y.nodes);
    DistinctPermuted(x.edges, y.edges);
  }

  /** Compiling the same graph and registry in two stored orders gives the same order, critical path,
      steps and keys: expansion, layering, key derivation, fusion and grouping together. */
  lemma CompilationIgnoresStoredOrder(p: Plan, p': Plan, d: Derivation, d': Derivation, g: Graph, g': Graph,
                                      registry: Registry, registry': Registry, rules: Rules, profiles: Profiles, hash: Hash)
    requires SameSources(g, g', registry, registry')
    requires SoundGraph(g, registry) && SoundRegistry(registry) && SoundGraph(g', registry') && SoundRegistry(registry')
    requires Derives(d, g, registry, p.analysis.graph) && Derives(d', g', registry', p'.analysis.graph)
    requires Accepted(p.analysis.graph, rules) && Accepted(p'.analysis.graph, rules)
    requires ValidPlan(p, profiles, hash) && ValidPlan(p', profiles, hash)
    ensures p.analysis.order == p'.analysis.order && p.analysis.criticalPath == p'.analysis.criticalPath
    ensures p.steps == p'.steps && p.key == p'.key
  {
    OrderIndependent(d, d', g, g', registry, registry', p.analysis.graph, p'.analysis.graph);
    AcceptedPermuted(p.analysis.graph, p'.analysis.graph, rules);
    StoredOrderIrrelevant(p, p', profiles, hash);
  }
}
