/** What a graph means, independently of any execution order: the unique assignment of
    outputs to nodes that satisfies every node's equation.

    A node type is an uninterpreted function of its type, version, metadata and the values
    bound to its input ports. Values are bound by literals, by edges and by graph inputs. */
module Semantics {
  import opened Ids
  import opened Layering
  import opened Graphs

  /** Port (or graph input) names with the values bound to them. */
  type Env = set<(string, Json)>

  type Outputs = map<string, Json>

  type Sem = (string, string, map<string, Json>, Env) -> Outputs

  type Valuation = map<Id, Outputs>

  ghost function Literals(n: Node): Env
  {
    set p | p in n.inputs :: (p, n.inputs[p])
  }

  ghost predicate Carries(e: Edge, v: Valuation)
  {
    e.source in v && e.sourcePort in v[e.source]
  }

  ghost function Fed(g: Graph, v: Valuation, id: Id): Env
  {
    set e | e in g.edges && e.target == id && Carries(e, v) :: (e.targetPort, v[e.source][e.sourcePort])
  }

  ghost function External(g: Graph, ext: Env, id: Id): Env
  {
    set b | b in ext && b.0 in g.inputs && g.inputs[b.0].node == id :: (g.inputs[b.0].port, b.1)
  }

  ghost function EnvOf(g: Graph, ext: Env, v: Valuation, n: Node): Env
  {
    Literals(n) + Fed(g, v, n.id) + External(g, ext, n.id)
  }

  ghost function Eval(g: Graph, sem: Sem, ext: Env, v: Valuation, n: Node): Outputs
  {
    sem(n.typeId, n.typeVersion, n.metadata, EnvOf(g, ext, v, n))
  }

  /** Every node's outputs are what its type makes of the values bound to its ports. */
  ghost predicate Solves(g: Graph, sem: Sem, ext: Env, v: Valuation)
  {
    v.Keys == NodeIds(g) &&
    forall n {:trigger Eval(g, sem, ext, v, n)} :: n in g.nodes ==> v[n.id] == Eval(g, sem, ext, v, n)
  }

  /** The named graph outputs under a valuation. */
  ghost function OutputsOf(g: Graph, v: Valuation): Outputs
  {
    map name | name in g.outputs && g.outputs[name].node in v && g.outputs[name].port in v[g.outputs[name].node] ::
      v[g.outputs[name].node][g.outputs[name].port]
  }

  /** What a node reads at a port: its literal, the output at the other end of an edge into the
      port, or the graph input bound to it. */
  ghost predicate Reads(g: Graph, ext: Env, v: Valuation, n: Node, p: string, x: Json)
  {
    || (p in n.inputs && n.inputs[p] == x)
    || (exists e :: e in g.edges && e.target == n.id && e.targetPort == p && Sends(e, v, x))
    || (exists name :: name in g.inputs && g.inputs[name] == Binding(n.id, p) && (name, x) in ext)
  }

  ghost predicate Sends(e: Edge, v: Valuation, x: Json)
  {
    e.source in v && e.sourcePort in v[e.source] && v[e.source][e.sourcePort] == x
  }

  /** In a solution every node's outputs are what its type makes of exactly what it reads, and
      every graph output is the output it is bound to. */
  lemma SolutionReads(g: Graph, sem: Sem, ext: Env, v: Valuation, n: Node, env: Env)
    requires Solves(g, sem, ext, v) && n in g.nodes
    requires forall p, x :: (p, x) in env <==> Reads(g, ext, v, n, p, x)
    ensures v[n.id] == sem(n.typeId, n.typeVersion, n.metadata, env)
    ensures forall name :: name in g.outputs && g.outputs[name].node == n.id && g.outputs[name].port in v[n.id] ==>
              name in OutputsOf(g, v) && OutputsOf(g, v)[name] == v[n.id][g.outputs[name].port]
  {
    forall b
      ensures b in env <==> b in EnvOf(g, ext, v, n)
    {
      ReadsIsBound(g, ext, v, n, b.0, b.1);
      assert b == (b.0, b.1);
    }
    assert env == EnvOf(g, ext, v, n);
    assert v[n.id] == Eval(g, sem, ext, v, n);
  }

  lemma ReadsIsBound(g: Graph, ext: Env, v: Valuation, n: Node, p: string, x: Json)
    ensures Reads(g, ext, v, n, p, x) <==> (p, x) in EnvOf(g, ext, v, n)
  {
    if name :| name in g.inputs && g.inputs[name] == Binding(n.id, p) && (name, x) in ext {
      var b := (name, x);
      assert (g.inputs[b.0].port, b.1) in External(g, ext, n.id);
    }
    if e :| e in g.edges && e.target == n.id && e.targetPort == p && Sends(e, v, x) {
      assert (e.targetPort, v[e.source][e.sourcePort]) in Fed(g, v, n.id);
    }
  }

  // ----- Acyclic graphs have at most one solution -----

  lemma {:induction false} SolutionsAgree(g: Graph, sem: Sem, ext: Env, v: Valuation, w: Valuation,
                                          rank: map<Id, nat>, n: Node)
    requires WellFormed(g) && Solves(g, sem, ext, v) && Solves(g, sem, ext, w)
    requires Ranking(rank, NodeIds(g), Arcs(g.edges)) && n in g.nodes
    ensures v[n.id] == w[n.id]
    decreases rank[n.id]
  {
    forall e | e in g.edges && e.target == n.id
      ensures v[e.source] == w[e.source]
    {
      assert (e.source, e.target) in Arcs(g.edges);
      var m := NodeAt(g, e.source);
      SolutionsAgree(g, sem, ext, v, w, rank, m);
    }
    FedDependsOnSources(g, v, w, n.id);
    assert v[n.id] == Eval(g, sem, ext, v, n) == Eval(g, sem, ext, w, n) == w[n.id];
  }

  /** The values fed to a node depend only on the outputs of its sources. */
  lemma FedDependsOnSources(g: Graph, v: Valuation, w: Valuation, id: Id)
    requires forall e :: e in g.edges && e.target == id ==>
               (e.source in v <==> e.source in w) && (e.source in v ==> v[e.source] == w[e.source])
    ensures Fed(g, v, id) == Fed(g, w, id)
  {
    forall e | e in g.edges && e.target == id
      ensures Carries(e, v) <==> Carries(e, w)
    {
    }
  }

  lemma SolutionUnique(g: Graph, sem: Sem, ext: Env, v: Valuation, w: Valuation)
    requires WellFormed(g) && Acyclic(Arcs(g.edges))
    requires Solves(g, sem, ext, v) && Solves(g, sem, ext, w)
    ensures v == w
  {
    WellFormedWithin(g);
    StuckIffCycle(NodeIds(g), Arcs(g.edges));
    var rank := LayerRanking(NodeIds(g), Arcs(g.edges));
    forall id | id in NodeIds(g)
      ensures v[id] == w[id]
    {
      SolutionsAgree(g, sem, ext, v, w, rank, NodeAt(g, id));
    }
  }

  // ----- Executing nodes one at a time -----

  ghost function Execute(g: Graph, sem: Sem, ext: Env, v: Valuation, id: Id): Valuation
    requires id in NodeIds(g)
  {
    v[id := Eval(g, sem, ext, v, NodeAt(g, id))]
  }

  /** The values stored after executing the scheduled nodes in sequence. */
  ghost function Run(g: Graph, sem: Sem, ext: Env, schedule: seq<Id>): Valuation
    requires Elements(schedule) <= NodeIds(g)
    decreases |schedule|
  {
    if schedule == [] then map[]
    else
      var last := |schedule| - 1;
      assert Elements(schedule[..last]) <= Elements(schedule);
      Execute(g, sem, ext, Run(g, sem, ext, schedule[..last]), schedule[last])
  }

  /** A partial run: executed nodes satisfy their equation and have executed sources. */
  ghost predicate PartlySolves(g: Graph, sem: Sem, ext: Env, v: Valuation)
  {
    && (forall n {:trigger Eval(g, sem, ext, v, n)} ::
          n in g.nodes && n.id in v ==> v[n.id] == Eval(g, sem, ext, v, n))
    && (forall e :: e in g.edges && e.target in v ==> e.source in v)
  }

  lemma ExecuteExtends(g: Graph, sem: Sem, ext: Env, v: Valuation, id: Id)
    requires WellFormed(g) && PartlySolves(g, sem, ext, v)
    requires id in NodeIds(g) && id !in v
    requires forall e :: e in g.edges && e.target == id ==> e.source in v
    ensures PartlySolves(g, sem, ext, Execute(g, sem, ext, v, id))
    ensures Execute(g, sem, ext, v, id).Keys == v.Keys + {id}
  {
    var w := Execute(g, sem, ext, v, id);
    forall n | n in g.nodes && n.id in w
      ensures w[n.id] == Eval(g, sem, ext, w, n)
    {
      FedDependsOnSources(g, v, w, n.id);
      if n.id == id {
        UniqueNode(g, n, NodeAt(g, id));
      } else {
        assert v[n.id] == Eval(g, sem, ext, v, n);
      }
    }
  }

  lemma {:induction false} RunPartlySolves(g: Graph, sem: Sem, ext: Env, order: seq<Id>, k: nat)
    requires WellFormed(g) && TopologicalOrder(order, NodeIds(g), Arcs(g.edges)) && k <= |order|
    ensures Elements(order[..k]) <= NodeIds(g)
    ensures Run(g, sem, ext, order[..k]).Keys == Elements(order[..k])
    ensures PartlySolves(g, sem, ext, Run(g, sem, ext, order[..k]))
  {
    hide PartlySolves, Execute, WellFormed, TopologicalOrder;
    OrderPrefix(g, order, k);
    if k > 0 {
      RunPartlySolves(g, sem, ext, order, k - 1);
      var id := order[k - 1];
      assert order[..k][..k - 1] == order[..k - 1];
      OrderPrefix(g, order, k - 1);
      NextHasSources(g, order, k - 1);
      ExecuteExtends(g, sem, ext, Run(g, sem, ext, order[..k - 1]), id);
    } else {
      assert PartlySolves(g, sem, ext, map[]) by { NothingRun(g, sem, ext); }
    }
  }

  lemma NothingRun(g: Graph, sem: Sem, ext: Env)
    ensures PartlySolves(g, sem, ext, map[])
  {
  }

  lemma OrderPrefix(g: Graph, order: seq<Id>, k: nat)
    requires TopologicalOrder(order, NodeIds(g), Arcs(g.edges)) && k <= |order|
    ensures Elements(order[..k]) <= NodeIds(g)
    ensures k < |order| ==> order[k] in NodeIds(g) && order[k] !in Elements(order[..k])
    ensures k < |order| ==> Elements(order[..k + 1]) == Elements(order[..k]) + {order[k]}
  {
    assert forall x :: x in order[..k] ==> x in Elements(order);
    if k < |order| {
      assert order[k] in Elements(order) && order[..k + 1] == order[..k] + [order[k]];
    }
  }

  /** The sources of the next node come before it. */
  lemma NextHasSources(g: Graph, order: seq<Id>, k: nat)
    requires WellFormed(g) && TopologicalOrder(order, NodeIds(g), Arcs(g.edges)) && k < |order|
    ensures forall e :: e in g.edges && e.target == order[k] ==> e.source in Elements(order[..k])
  {
    forall e | e in g.edges && e.target == order[k]
      ensures e.source in Elements(order[..k])
    {
      assert e.source in Elements(order) && (e.source, e.target) in Arcs(g.edges);
      var j :| 0 <= j < |order| && order[j] == e.source;
      assert (order[j], order[k]) in Arcs(g.edges);
      assert order[..k][j] == e.source;
    }
  }

  /** Executing the nodes in any topological order solves the graph. */
  lemma RunSolves(g: Graph, sem: Sem, ext: Env, order: seq<Id>)
    requires WellFormed(g) && TopologicalOrder(order, NodeIds(g), Arcs(g.edges))
    ensures Elements(order) <= NodeIds(g) && Solves(g, sem, ext, Run(g, sem, ext, order))
  {
    RunPartlySolves(g, sem, ext, order, |order|);
    assert order[..|order|] == order;
  }

  // ----- Nodes listed by rank, to show that a solution exists -----

  ghost predicate Solvable(g: Graph, sem: Sem, ext: Env)
  {
    exists v :: Solves(g, sem, ext, v)
  }

  /** Any prefix-closed set of a ranked graph can be listed topologically. */
  lemma {:induction false} OrderOf(nodes: set<Id>, arcs: set<Arc>, rank: map<Id, nat>, part: set<Id>) returns (order: seq<Id>)
    requires Ranking(rank, nodes, arcs) && part <= nodes
    ensures TopologicalOrder(order, part, arcs)
    decreases part
  {
    if part == {} {
      order := [];
      assert Elements(order) == {};
    } else {
      var top := Highest(rank, part);
      var front := OrderOf(nodes, arcs, rank, part - {top});
      order := front + [top];
      assert Elements(order) == Elements(front) + {top};
      assert top !in Elements(front);
      forall i, j | 0 <= i < |order| && 0 <= j < |order| && (order[i], order[j]) in arcs
        ensures i < j
      {
        assert i < |front| ==> order[i] == front[i] && front[i] in Elements(front);
        assert j < |front| ==> order[j] == front[j] && front[j] in Elements(front);
      }
    }
  }

  lemma {:induction false} Highest(rank: map<Id, nat>, part: set<Id>) returns (top: Id)
    requires part != {} && part <= rank.Keys
    ensures top in part && forall n :: n in part ==> rank[n] <= rank[top]
    decreases part
  {
    var n :| n in part;
    if part == {n} {
      top := n;
    } else {
      var other := Highest(rank, part - {n});
      top := if rank[n] >= rank[other] then n else other;
    }
  }

  /** An acyclic graph has a meaning, whatever its node types compute. */
  lemma AcyclicSolvable(g: Graph, sem: Sem, ext: Env)
    requires WellFormed(g) && Acyclic(Arcs(g.edges))
    ensures Solvable(g, sem, ext)
  {
    WellFormedWithin(g);
    StuckIffCycle(NodeIds(g), Arcs(g.edges));
    var rank := LayerRanking(NodeIds(g), Arcs(g.edges));
    var order := OrderOf(NodeIds(g), Arcs(g.edges), rank, NodeIds(g));
    RunSolves(g, sem, ext, order);
  }
}
