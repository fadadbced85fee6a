/** Two equal chains in one graph: their nodes have equal keys, their fused steps do not,
    because the evidence names the members (src/comfyng/graph/compiler.py:1004-1011). */
module KeyExamples {
  import opened Ids
  import opened Layering
  import opened Graphs
  import opened Topology
  import opened Semantics
  import opened Fusion
  import opened Contraction
  import opened CacheKeys
  import opened Compile
  import opened ControlExamples

  function TwinGraph(): Graph
  {
    Graph(0, 1, [Worker(0), Worker(1), Worker(2), Worker(3)],
          [Edge(Base(0), "out", Base(1), "in"), Edge(Base(2), "out", Base(3), "in")], map[], map[])
  }

  function TwinProfiles(): Profiles
  {
    map[("work", "1.0.0") := WorkProfile()]
  }

  lemma TwinEdges(e: Edge)
    ensures e in TwinGraph().edges <==> e == Edge(Base(0), "out", Base(1), "in") || e == Edge(Base(2), "out", Base(3), "in")
  {
    assert TwinGraph().edges[0] in TwinGraph().edges && TwinGraph().edges[1] in TwinGraph().edges;
  }

  lemma TwinEnds(id: Id)
    ensures OutOf(TwinGraph().edges, id) == if id == Base(0) then [Edge(Base(0), "out", Base(1), "in")]
                                            else if id == Base(2) then [Edge(Base(2), "out", Base(3), "in")] else []
    ensures IntoOf(TwinGraph().edges, id) == if id == Base(1) then [Edge(Base(0), "out", Base(1), "in")]
                                             else if id == Base(3) then [Edge(Base(2), "out", Base(3), "in")] else []
  {
    var edges := TwinGraph().edges;
    assert edges[..1] == [edges[0]] && edges[..1][..0] == [];
    assert OutOf(edges[..1], id) == if edges[0].source == id then [edges[0]] else [];
    assert IntoOf(edges[..1], id) == if edges[0].target == id then [edges[0]] else [];
  }

  lemma TwinNode(n: nat)
    requires n < 4
    ensures Base(n) in NodeTable(TwinGraph().nodes) && NodeTable(TwinGraph().nodes)[Base(n)] == Worker(n)
    ensures Worker(n) in TwinGraph().nodes && Base(n) in NodeIds(TwinGraph())
  {
    var g := TwinGraph();
    assert g.nodes[n] == Worker(n);
    assert Worker(n) in g.nodes;
    assert NodeTable(g.nodes)[Base(n)] in g.nodes && NodeTable(g.nodes)[Base(n)].id == Base(n);
  }

  /** The links of the two chains, and no others. */
  lemma TwinLinks()
    ensures var next := NextMap(TwinGraph(), TwinProfiles());
            && Base(0) in next && next[Base(0)] == Base(1) && Base(1) !in next
            && Base(2) in next && next[Base(2)] == Base(3) && Base(3) !in next
  {
    hide NodeTable, NodeIds, TwinGraph, OutOf, IntoOf, NextMap;
    forall n: nat | n < 4
      ensures Base(n) in NextMap(TwinGraph(), TwinProfiles()) <==> n == 0 || n == 2
      ensures n == 0 || n == 2 ==> NextMap(TwinGraph(), TwinProfiles())[Base(n)] == Base(n + 1)
    {
      TwinLink(n);
    }
  }

  lemma TwinLink(n: nat)
    requires n < 4
    ensures Base(n) in NextMap(TwinGraph(), TwinProfiles()) <==> n == 0 || n == 2
    ensures n == 0 || n == 2 ==> NextMap(TwinGraph(), TwinProfiles())[Base(n)] == Base(n + 1)
  {
    hide NodeTable, OutOf, IntoOf;
    TwinEnds(Base(n));
    TwinNode(n);
    if n == 0 || n == 2 {
      TwinEnds(Base(n + 1));
      TwinNode(n + 1);
      assert LinkEvidence(TwinGraph(), NodeTable(TwinGraph().nodes), TwinProfiles(), OutOf(TwinGraph().edges, Base(n))[0]).Some?;
    }
  }

  /** A chain that starts at 0 or 2 ends one node later. */
  lemma TwinChain(chains: seq<seq<Id>>, u: nat, n: nat)
    requires WholeChains(chains, NextMap(TwinGraph(), TwinProfiles())) && u < |chains|
    requires (n == 0 || n == 2) && chains[u] != [] && chains[u][0] == Base(n)
    ensures chains[u] == [Base(n), Base(n + 1)]
  {
    hide NextMap, WholeChains;
    var next := NextMap(TwinGraph(), TwinProfiles());
    TwinLinks();
    ChainLink(chains, next, u, 0);
    ChainLink(chains, next, u, 1);
  }

  lemma NoUpstream(keys: map<Id, string>, n: nat, up: map<string, Upstream>)
    requires Records(TwinGraph(), keys, Base(n), up) && (n == 0 || n == 2)
    ensures up == map[]
  {
    forall p
      ensures p !in up
    {
      forall e
        ensures !EdgeInto(TwinGraph(), e, Base(n), p)
      {
        TwinEdges(e);
      }
      forall name
        ensures !InputInto(TwinGraph(), name, Base(n), p)
      {
      }
    }
  }

  /** A node behind another has one bound port. */
  lemma OnePort(id: Id, p: string)
    requires id == Base(1) || id == Base(3)
    requires (exists e :: EdgeInto(TwinGraph(), e, id, p)) || exists name :: InputInto(TwinGraph(), name, id, p)
    ensures p == "in"
  {
    if e :| EdgeInto(TwinGraph(), e, id, p) {
      TwinEdges(e);
    }
  }

  lemma OneUpstream(keys: map<Id, string>, n: nat, up: map<string, Upstream>)
    requires Records(TwinGraph(), keys, Base(n + 1), up) && (n == 0 || n == 2)
    ensures Base(n) in keys && up == map["in" := FromNode(keys[Base(n)], "out")]
  {
    var edge := Edge(Base(n), "out", Base(n + 1), "in");
    TwinEdges(edge);
    assert EdgeInto(TwinGraph(), edge, Base(n + 1), "in");
    forall p | p in up
      ensures p == "in"
    {
      OnePort(Base(n + 1), p);
    }
  }

  /** Equal chains have equal node keys. */
  lemma TwinKeys(hash: Hash, keys: map<Id, string>)
    requires KeysOf(TwinGraph(), hash, keys)
    ensures Base(0) in keys && Base(1) in keys && Base(2) in keys && Base(3) in keys
    ensures keys[Base(0)] == keys[Base(2)] && keys[Base(1)] == keys[Base(3)]
  {
    hide Records;
    forall n: nat | n < 4
      ensures Base(n) in keys
    {
      TwinNode(n);
    }
    forall n: nat | n == 0 || n == 2
      ensures keys[Base(n)] == hash(ContentOf(Worker(n), map[]))
      ensures keys[Base(n + 1)] == hash(ContentOf(Worker(n + 1), map["in" := FromNode(keys[Base(n)], "out")]))
    {
      TwinNode(n);
      TwinNode(n + 1);
      assert KeyOk(TwinGraph(), hash, keys, Worker(n)) && KeyOk(TwinGraph(), hash, keys, Worker(n + 1));
      var up :| Records(TwinGraph(), keys, Base(n), up) && keys[Base(n)] == hash(ContentOf(Worker(n), up));
      NoUpstream(keys, n, up);
      var more :| Records(TwinGraph(), keys, Base(n + 1), more) && keys[Base(n + 1)] == hash(ContentOf(Worker(n + 1), more));
      OneUpstream(keys, n, more);
    }
  }

  /** But their fused steps have different keys. */
  lemma TwinStepsApart(a: Analysis, hash: Hash, u: nat, w: nat)
    requires CollisionFree(hash) && a.graph == TwinGraph() && Analysed(a, NextMap(TwinGraph(), TwinProfiles()), hash)
    requires HeadOf(a.units, u, Base(0)) && HeadOf(a.units, w, Base(2))
    ensures a.units[u].members == [Base(0), Base(1)] && a.units[w].members == [Base(2), Base(3)]
    ensures Base(0) in a.keys && Base(1) in a.keys && Base(2) in a.keys && Base(3) in a.keys
    ensures MemberKeys(a.units[u].members, a.keys) == MemberKeys(a.units[w].members, a.keys)
    ensures StepKey(a.units[u], a.keys, hash) != StepKey(a.units[w], a.keys, hash)
  {
    hide NextMap, KeysOf, ConstantsOf, BoundOnce, Ordered, StepKey, MemberKeys, TwinGraph, CollisionFree;
    TwinKeys(hash, a.keys);
    TwinChain(MembersOf(a.units), u, 0);
    TwinChain(MembersOf(a.units), w, 2);
    assert a.units[u] in a.units && a.units[w] in a.units;
    assert a.units[u].members == [Base(0), Base(1)] && a.units[w].members == [Base(2), Base(3)];
    SameMemberKeys(a.keys);
    StepKeysEqualIff(a.units[u], a.units[w], a.keys, a.keys, hash);
  }

  lemma SameMemberKeys(keys: map<Id, string>)
    requires Base(0) in keys && Base(1) in keys && Base(2) in keys && Base(3) in keys
    requires keys[Base(0)] == keys[Base(2)] && keys[Base(1)] == keys[Base(3)]
    ensures MemberKeys([Base(0), Base(1)], keys) == MemberKeys([Base(2), Base(3)], keys)
  {
  }
}
