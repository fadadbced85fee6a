/** Replacing one subgraph call by its child graph (src/comfyng/graph/subgraphs.py:148-300). */
module Inlining {
  import opened Ids
  import opened Layering
  import opened Graphs
  import opened Semantics

  function CloneId(call: Node, child: Graph, inner: Id): Id
  {
    Clone(call.id, child.id, child.version, inner)
  }

  /** Where a value sent to the call's input port goes. Only used when the port exists. */
  function InnerInput(child: Graph, port: string): Binding
  {
    if port in child.inputs then child.inputs[port] else Binding(Base(0), port)
  }

  function InnerOutput(child: Graph, port: string): Binding
  {
    if port in child.outputs then child.outputs[port] else Binding(Base(0), port)
  }

  /** An edge of the parent after inlining. As in the source, an edge into the call has only
      its target rewritten, whatever its source is. */
  function RewriteEdge(call: Node, child: Graph, e: Edge): Edge
  {
    if e.target == call.id then
      var b := InnerInput(child, e.targetPort);
      Edge(e.source, e.sourcePort, CloneId(call, child, b.node), b.port)
    else if e.source == call.id then
      var b := InnerOutput(child, e.sourcePort);
      Edge(CloneId(call, child, b.node), b.port, e.target, e.targetPort)
    else e
  }

  function CloneEdge(call: Node, child: Graph, e: Edge): Edge
  {
    Edge(CloneId(call, child, e.source), e.sourcePort, CloneId(call, child, e.target), e.targetPort)
  }

  function RewriteInput(call: Node, child: Graph, b: Binding): Binding
  {
    if b.node != call.id then b
    else Binding(CloneId(call, child, InnerInput(child, b.port).node), InnerInput(child, b.port).port)
  }

  function RewriteOutput(call: Node, child: Graph, b: Binding): Binding
  {
    if b.node != call.id then b
    else Binding(CloneId(call, child, InnerOutput(child, b.port).node), InnerOutput(child, b.port).port)
  }

  /** A literal on the call's port `q` lands on port `p` of the child's node `inner`. */
  predicate LandsOn(call: Node, child: Graph, q: string, inner: Id, p: string)
  {
    q in call.inputs && q in child.inputs && child.inputs[q] == Binding(inner, p)
  }

  /** `n` is the clone of the child's node `m`: same node, new id, and the call's literals on
      the ports they land on. Of several literals for one port, one is kept. */
  ghost predicate CloneOf(call: Node, child: Graph, m: Node, n: Node)
  {
    && n.id == CloneId(call, child, m.id)
    && n.typeId == m.typeId && n.typeVersion == m.typeVersion && n.metadata == m.metadata
    && (forall p :: p in n.inputs <==> p in m.inputs || exists q :: LandsOn(call, child, q, m.id, p))
    && (forall p :: p in m.inputs ==> n.inputs[p] == m.inputs[p])
    && (forall p :: p in n.inputs && p !in m.inputs ==>
          exists q :: LandsOn(call, child, q, m.id, p) && n.inputs[p] == call.inputs[q])
  }

  ghost function CloneIds(call: Node, child: Graph): set<Id>
  {
    set id | id in NodeIds(child) :: CloneId(call, child, id)
  }

  ghost predicate LiteralsKnown(call: Node, child: Graph)
  {
    forall p :: p in call.inputs ==> p in child.inputs
  }

  ghost predicate NoClash(call: Node, child: Graph, m: Node)
  {
    forall p, q :: LandsOn(call, child, q, m.id, p) ==> p !in m.inputs
  }

  ghost predicate LiteralsFit(call: Node, child: Graph)
  {
    forall m :: m in child.nodes ==> NoClash(call, child, m)
  }

  predicate PortsFree(g: Graph, call: Node)
  {
    forall e :: e in g.edges && e.target == call.id ==> e.targetPort !in call.inputs
  }

  /** A boundary name of the child that leads to one of its nodes. */
  predicate BoundInChild(bindings: map<string, Binding>, child: Graph, port: string)
  {
    port in bindings && bindings[port].node in NodeIds(child)
  }

  predicate EdgesInKnown(g: Graph, call: Node, child: Graph)
  {
    forall e :: e in g.edges && e.target == call.id ==> BoundInChild(child.inputs, child, e.targetPort)
  }

  predicate EdgesOutKnown(g: Graph, call: Node, child: Graph)
  {
    forall e :: e in g.edges && e.target != call.id && e.source == call.id ==> BoundInChild(child.outputs, child, e.sourcePort)
  }

  predicate ChildEdgesInside(child: Graph)
  {
    forall e :: e in child.edges ==> e.source in NodeIds(child) && e.target in NodeIds(child)
  }

  predicate InputsKnown(g: Graph, call: Node, child: Graph)
  {
    forall name :: name in g.inputs && g.inputs[name].node == call.id ==> BoundInChild(child.inputs, child, g.inputs[name].port)
  }

  predicate OutputsKnown(g: Graph, call: Node, child: Graph)
  {
    forall name :: name in g.outputs && g.outputs[name].node == call.id ==> BoundInChild(child.outputs, child, g.outputs[name].port)
  }

  /** The checks of the source; each failure raises an expansion error. */
  ghost predicate Inlinable(g: Graph, call: Node, child: Graph)
  {
    && NoCollision(g, call, child) && LiteralsKnown(call, child) && LiteralsFit(call, child) && PortsFree(g, call)
    && EdgesInKnown(g, call, child) && EdgesOutKnown(g, call, child) && ChildEdgesInside(child)
    && InputsKnown(g, call, child) && OutputsKnown(g, call, child)
  }

  ghost predicate NoCollision(g: Graph, call: Node, child: Graph)
  {
    (NodeIds(g) - {call.id}) !! CloneIds(call, child)
  }

  function Others(nodes: seq<Node>, call: Node): seq<Node>
  {
    if nodes == [] then []
    else
      var last := nodes[|nodes| - 1];
      Others(nodes[..|nodes| - 1], call) + if last.id != call.id then [last] else []
  }

  /** The graph with the call replaced by clones of the child's nodes. */
  ghost predicate IsInlining(g: Graph, call: Node, child: Graph, r: Graph)
  {
    && r.id == g.id && r.version == g.version
    && (exists clones: seq<Node> ::
          && |clones| == |child.nodes|
          && (forall k :: 0 <= k < |clones| ==> CloneOf(call, child, child.nodes[k], clones[k]))
          && r.nodes == Others(g.nodes, call) + clones)
    && |r.edges| == |g.edges| + |child.edges|
    && (forall k :: 0 <= k < |g.edges| ==> r.edges[k] == RewriteEdge(call, child, g.edges[k]))
    && (forall k :: 0 <= k < |child.edges| ==> r.edges[|g.edges| + k] == CloneEdge(call, child, child.edges[k]))
    && r.inputs == (map name | name in g.inputs :: RewriteInput(call, child, g.inputs[name]))
    && r.outputs == (map name | name in g.outputs :: RewriteOutput(call, child, g.outputs[name]))
  }

  // ----- Membership views of an inlining -----

  lemma {:induction false} OthersMembers(nodes: seq<Node>, call: Node, n: Node)
    ensures n in Others(nodes, call) <==> n in nodes && n.id != call.id
  {
    if nodes != [] {
      OthersMembers(nodes[..|nodes| - 1], call, n);
      assert nodes == nodes[..|nodes| - 1] + [nodes[|nodes| - 1]];
    }
  }

  /** Where a node of the result comes from. */
  ghost predicate CameFrom(call: Node, child: Graph, m: Node, n: Node)
  {
    m in child.nodes && CloneOf(call, child, m, n)
  }

  lemma NodesOfInlining(g: Graph, call: Node, child: Graph, r: Graph, n: Node)
    requires IsInlining(g, call, child, r)
    ensures n in r.nodes ==> (n in g.nodes && n.id != call.id) || exists m :: CameFrom(call, child, m, n)
    ensures n in g.nodes && n.id != call.id ==> n in r.nodes
  {
    var clones: seq<Node> :|
      && |clones| == |child.nodes|
      && (forall k :: 0 <= k < |clones| ==> CloneOf(call, child, child.nodes[k], clones[k]))
      && r.nodes == Others(g.nodes, call) + clones;
    OthersMembers(g.nodes, call, n);
    if n in clones {
      var k :| 0 <= k < |clones| && clones[k] == n;
      assert CameFrom(call, child, child.nodes[k], n);
    }
  }

  lemma CloneInInlining(g: Graph, call: Node, child: Graph, r: Graph, m: Node) returns (n: Node)
    requires IsInlining(g, call, child, r) && m in child.nodes
    ensures n in r.nodes && CameFrom(call, child, m, n)
  {
    var clones: seq<Node> :|
      && |clones| == |child.nodes|
      && (forall k :: 0 <= k < |clones| ==> CloneOf(call, child, child.nodes[k], clones[k]))
      && r.nodes == Others(g.nodes, call) + clones;
    var k :| 0 <= k < |child.nodes| && child.nodes[k] == m;
    n := clones[k];
  }

  lemma IdsOfInlining(g: Graph, call: Node, child: Graph, r: Graph)
    requires IsInlining(g, call, child, r)
    ensures NodeIds(r) == NodeIds(g) - {call.id} + CloneIds(call, child)
  {
    forall id | id in NodeIds(r)
      ensures id in NodeIds(g) - {call.id} + CloneIds(call, child)
    {
      var n := NodeAt(r, id);
      NodesOfInlining(g, call, child, r, n);
    }
    forall id | id in NodeIds(g) - {call.id}
      ensures id in NodeIds(r)
    {
      NodesOfInlining(g, call, child, r, NodeAt(g, id));
    }
    forall id | id in NodeIds(child)
      ensures CloneId(call, child, id) in NodeIds(r)
    {
      var n := CloneInInlining(g, call, child, r, NodeAt(child, id));
    }
  }

  lemma EdgesOfInlining(g: Graph, call: Node, child: Graph, r: Graph)
    requires IsInlining(g, call, child, r)
    ensures EdgeView(g, call, child, r)
  {
    forall e | e in g.edges
      ensures RewriteEdge(call, child, e) in r.edges
    {
      var k :| 0 <= k < |g.edges| && g.edges[k] == e;
      assert r.edges[k] == RewriteEdge(call, child, e);
    }
    forall e | e in child.edges
      ensures CloneEdge(call, child, e) in r.edges
    {
      var k :| 0 <= k < |child.edges| && child.edges[k] == e;
      assert r.edges[|g.edges| + k] == CloneEdge(call, child, e);
    }
    forall e | e in r.edges
      ensures FromParent(g, call, child, e) || FromChild(call, child, e)
    {
      var k :| 0 <= k < |r.edges| && r.edges[k] == e;
      if k < |g.edges| {
        assert g.edges[k] in g.edges && e == RewriteEdge(call, child, g.edges[k]);
      } else {
        var f := child.edges[k - |g.edges|];
        assert r.edges[|g.edges| + (k - |g.edges|)] == CloneEdge(call, child, f);
        assert f in child.edges;
      }
    }
  }

  // ----- Inlining preserves meaning -----

  /** Literals of the call that land on the same inner port carry the same value. */
  ghost predicate LiteralsAgree(call: Node, child: Graph)
  {
    forall q, r | q in call.inputs && r in call.inputs && q in child.inputs && r in child.inputs ::
      child.inputs[q] == child.inputs[r] ==> call.inputs[q] == call.inputs[r]
  }

  ghost predicate LiteralsAgreeOn(call: Node, child: Graph, id: Id)
  {
    forall q, r, p :: LandsOn(call, child, q, id, p) && LandsOn(call, child, r, id, p) ==> call.inputs[q] == call.inputs[r]
  }

  /** The setting: a call node of a well-formed graph, and its well-formed child. */
  ghost predicate CallSite(g: Graph, call: Node, child: Graph, r: Graph)
  {
    && WellFormed(g) && WellFormed(child) && call in g.nodes
    && Inlinable(g, call, child) && IsInlining(g, call, child, r)
    && (forall e :: e in g.edges ==> !(e.source == call.id && e.target == call.id))
  }

  /** `v` solves the parent, `w` solves the child on the values that reach the call, and the
      call's outputs are the child's. */
  ghost predicate CallMeans(g: Graph, call: Node, child: Graph, sem: Sem, ext: Env, v: Valuation, w: Valuation)
  {
    && Solves(g, sem, ext, v) && call.id in v
    && Solves(child, sem, EnvOf(g, ext, v, call), w)
    && v[call.id] == OutputsOf(child, w)
  }

  ghost function Kept(call: Node, v: Valuation): Valuation
  {
    map id | id in v && id != call.id :: v[id]
  }

  ghost function Cloned(call: Node, child: Graph, w: Valuation): Valuation
  {
    map id | id in w :: CloneId(call, child, id) := w[id]
  }

  /** The parent's values on surviving nodes and the child's on clones. */
  ghost function Combined(call: Node, child: Graph, v: Valuation, w: Valuation): Valuation
  {
    Kept(call, v) + Cloned(call, child, w)
  }

  /** `u` takes the parent's values on surviving nodes and the child's on clones. */
  ghost predicate Glued(g: Graph, call: Node, child: Graph, v: Valuation, w: Valuation, u: Valuation)
  {
    && v.Keys == NodeIds(g) && w.Keys == NodeIds(child)
    && (forall id :: id in v && id != call.id ==> id in u && u[id] == v[id])
    && (forall id :: id in w ==> CloneId(call, child, id) in u && u[CloneId(call, child, id)] == w[id])
  }

  lemma ClonedAt(call: Node, child: Graph, w: Valuation, ids: set<Id>)
    requires w.Keys == ids
    ensures Cloned(call, child, w).Keys == set id | id in ids :: CloneId(call, child, id)
    ensures forall id :: id in w ==> CloneId(call, child, id) in Cloned(call, child, w)
    ensures forall id :: id in w ==> Cloned(call, child, w)[CloneId(call, child, id)] == w[id]
  {
  }

  lemma CombinedGlued(g: Graph, call: Node, child: Graph, v: Valuation, w: Valuation)
    requires NoCollision(g, call, child) && v.Keys == NodeIds(g) && w.Keys == NodeIds(child)
    ensures Combined(call, child, v, w).Keys == NodeIds(g) - {call.id} + CloneIds(call, child)
    ensures Glued(g, call, child, v, w, Combined(call, child, v, w))
  {
    ClonedAt(call, child, w, NodeIds(child));
    assert Kept(call, v).Keys == NodeIds(g) - {call.id};
  }

  /** Literals of a clone: the inner node's own, and the call's that land on it. */
  lemma CloneLiterals(call: Node, child: Graph, m: Node, n: Node)
    requires CloneOf(call, child, m, n) && LiteralsAgreeOn(call, child, m.id) && NoClash(call, child, m)
    ensures Literals(n) == Literals(m) + External(child, Literals(call), m.id)
  {
    forall x | x in Literals(n)
      ensures x in Literals(m) + External(child, Literals(call), m.id)
    {
      if x.0 !in m.inputs {
        var q :| LandsOn(call, child, q, m.id, x.0) && n.inputs[x.0] == call.inputs[q];
        assert (q, call.inputs[q]) in Literals(call);
      }
    }
    forall x | x in External(child, Literals(call), m.id)
      ensures x in Literals(n)
    {
      var b :| b in Literals(call) && b.0 in child.inputs && child.inputs[b.0].node == m.id
               && x == (child.inputs[b.0].port, b.1);
      assert LandsOn(call, child, b.0, m.id, x.0);
      var q :| LandsOn(call, child, q, m.id, x.0) && n.inputs[x.0] == call.inputs[q];
    }
  }

  /** A clone receives every literal sent to it exactly when those for one port agree: of two
      different ones the source drops the first without an error. */
  lemma LiteralsKeptIff(call: Node, child: Graph, m: Node, n: Node)
    requires CloneOf(call, child, m, n) && NoClash(call, child, m)
    ensures Literals(n) == Literals(m) + External(child, Literals(call), m.id) <==> LiteralsAgreeOn(call, child, m.id)
  {
    if LiteralsAgreeOn(call, child, m.id) {
      CloneLiterals(call, child, m, n);
    }
    if Literals(n) == Literals(m) + External(child, Literals(call), m.id) {
      forall q, r, p | LandsOn(call, child, q, m.id, p) && LandsOn(call, child, r, m.id, p)
        ensures call.inputs[q] == call.inputs[r]
      {
        LandedLiteral(call, child, q, m.id, p);
        LandedLiteral(call, child, r, m.id, p);
      }
    }
  }

  lemma LandedLiteral(call: Node, child: Graph, q: string, id: Id, p: string)
    requires LandsOn(call, child, q, id, p)
    ensures (p, call.inputs[q]) in External(child, Literals(call), id)
  {
    var b := (q, call.inputs[q]);
    assert b in Literals(call);
    assert (child.inputs[b.0].port, b.1) == (p, call.inputs[q]);
  }

  lemma ExternalSplit(child: Graph, a: Env, b: Env, id: Id)
    ensures External(child, a + b, id) == External(child, a, id) + External(child, b, id)
  {
  }

  ghost predicate FedBy(edges: seq<Edge>, v: Valuation, id: Id, e: Edge, x: (string, Json))
  {
    e in edges && e.target == id && Carries(e, v) && x == (e.targetPort, v[e.source][e.sourcePort])
  }

  lemma FedMembers(g: Graph, v: Valuation, id: Id, x: (string, Json))
    ensures x in Fed(g, v, id) <==> exists e :: FedBy(g.edges, v, id, e, x)
  {
    if x in Fed(g, v, id) {
      var e :| e in g.edges && e.target == id && Carries(e, v) && x == (e.targetPort, v[e.source][e.sourcePort]);
      assert FedBy(g.edges, v, id, e, x);
    }
  }

  /** What the edges of an inlining are. */
  ghost predicate EdgeView(g: Graph, call: Node, child: Graph, r: Graph)
  {
    && (forall e :: e in g.edges ==> RewriteEdge(call, child, e) in r.edges)
    && (forall e :: e in child.edges ==> CloneEdge(call, child, e) in r.edges)
    && (forall e :: e in r.edges ==> FromParent(g, call, child, e) || FromChild(call, child, e))
  }

  ghost predicate FromParent(g: Graph, call: Node, child: Graph, e: Edge)
  {
    exists f :: f in g.edges && e == RewriteEdge(call, child, f)
  }

  ghost predicate FromChild(call: Node, child: Graph, e: Edge)
  {
    exists f :: f in child.edges && e == CloneEdge(call, child, f)
  }

  /** An edge into a surviving node carries the same value before and after. */
  lemma SurvivorEdge(g: Graph, call: Node, child: Graph, v: Valuation, w: Valuation, u: Valuation, e: Edge)
    requires Glued(g, call, child, v, w, u) && call.id in v && v[call.id] == OutputsOf(child, w)
    requires e.source in v && e.target != call.id
    requires e.source == call.id ==> e.sourcePort in child.outputs && child.outputs[e.sourcePort].node in w
    ensures var f := RewriteEdge(call, child, e);
            && f.target == e.target && f.targetPort == e.targetPort
            && (Carries(f, u) <==> Carries(e, v))
            && (Carries(e, v) ==> u[f.source][f.sourcePort] == v[e.source][e.sourcePort])
  {
    if e.source == call.id {
      assert CloneId(call, child, child.outputs[e.sourcePort].node) in u;
    }
  }

  /** A surviving node is fed the same values before and after. */
  lemma SurvivorFed(g: Graph, call: Node, child: Graph, r: Graph, v: Valuation, w: Valuation, u: Valuation, id: Id)
    requires CallSite(g, call, child, r) && EdgeView(g, call, child, r)
    requires Glued(g, call, child, v, w, u) && call.id in v && v[call.id] == OutputsOf(child, w)
    requires id in NodeIds(g) && id != call.id
    ensures Fed(r, u, id) == Fed(g, v, id)
  {
    forall e | e in g.edges && e.target == id
      ensures var f := RewriteEdge(call, child, e);
              && f in r.edges && f.target == id && f.targetPort == e.targetPort
              && (Carries(f, u) <==> Carries(e, v))
              && (Carries(e, v) ==> u[f.source][f.sourcePort] == v[e.source][e.sourcePort])
    {
      SurvivorEdge(g, call, child, v, w, u, e);
    }
    forall f | f in r.edges && f.target == id
      ensures exists e :: e in g.edges && e.target == id && f == RewriteEdge(call, child, e)
    {
      IntoSurvivor(g, call, child, r, f);
    }
  }

  /** Edges into surviving nodes come from the parent. */
  lemma IntoSurvivor(g: Graph, call: Node, child: Graph, r: Graph, f: Edge)
    requires CallSite(g, call, child, r) && EdgeView(g, call, child, r)
    requires f in r.edges && f.target in NodeIds(g) && f.target != call.id
    ensures exists e :: e in g.edges && e.target == f.target && f == RewriteEdge(call, child, e)
  {
    forall e | e in child.edges
      ensures CloneEdge(call, child, e).target in CloneIds(call, child)
    {
      assert e.target in NodeIds(child);
    }
    forall e | e in g.edges && e.target == call.id
      ensures RewriteEdge(call, child, e).target in CloneIds(call, child)
    {
      assert child.inputs[e.targetPort].node in NodeIds(child);
    }
    assert f.target !in CloneIds(call, child);
    var e :| e in g.edges && f == RewriteEdge(call, child, e);
  }

  /** Edges into clones come from the child, or from edges into the call. */
  lemma IntoClone(g: Graph, call: Node, child: Graph, r: Graph, f: Edge, id: Id)
    requires CallSite(g, call, child, r) && EdgeView(g, call, child, r)
    requires f in r.edges && id in NodeIds(child) && f.target == CloneId(call, child, id)
    ensures (exists e :: e in child.edges && e.target == id && f == CloneEdge(call, child, e)) ||
            (exists e :: e in g.edges && e.target == call.id && child.inputs[e.targetPort].node == id
                         && f == RewriteEdge(call, child, e))
  {
    assert f.target in CloneIds(call, child);
    if FromChild(call, child, f) {
      var e :| e in child.edges && f == CloneEdge(call, child, e);
    } else {
      var e :| e in g.edges && f == RewriteEdge(call, child, e);
      assert e.target in NodeIds(g);
    }
  }

  /** A clone is fed what the inner node is fed, and what reaches the call by edges. */
  lemma CloneFed(g: Graph, call: Node, child: Graph, r: Graph, v: Valuation, w: Valuation, u: Valuation, id: Id)
    requires CallSite(g, call, child, r) && EdgeView(g, call, child, r)
    requires Glued(g, call, child, v, w, u) && id in NodeIds(child)
    ensures Fed(r, u, CloneId(call, child, id)) == Fed(child, w, id) + External(child, Fed(g, v, call.id), id)
  {
    var cid := CloneId(call, child, id);
    forall x | x in Fed(child, w, id) + External(child, Fed(g, v, call.id), id)
      ensures x in Fed(r, u, cid)
    {
      CloneFedFrom(g, call, child, r, v, w, u, id, x);
    }
    forall x | x in Fed(r, u, cid)
      ensures x in Fed(child, w, id) + External(child, Fed(g, v, call.id), id)
    {
      CloneFedBack(g, call, child, r, v, w, u, id, x);
    }
  }

  lemma CloneFedFrom(g: Graph, call: Node, child: Graph, r: Graph, v: Valuation, w: Valuation, u: Valuation, id: Id, x: (string, Json))
    requires CallSite(g, call, child, r) && EdgeView(g, call, child, r)
    requires Glued(g, call, child, v, w, u) && id in NodeIds(child)
    requires x in Fed(child, w, id) || x in External(child, Fed(g, v, call.id), id)
    ensures x in Fed(r, u, CloneId(call, child, id))
  {
    var cid := CloneId(call, child, id);
    FedMembers(r, u, cid, x);
    if x in Fed(child, w, id) {
      FedMembers(child, w, id, x);
      var e :| FedBy(child.edges, w, id, e, x);
      assert FedBy(r.edges, u, cid, CloneEdge(call, child, e), x);
    } else {
      var b :| b in Fed(g, v, call.id) && b.0 in child.inputs && child.inputs[b.0].node == id && x == (child.inputs[b.0].port, b.1);
      FedMembers(g, v, call.id, b);
      var e :| FedBy(g.edges, v, call.id, e, b);
      assert e.source != call.id;
      assert FedBy(r.edges, u, cid, RewriteEdge(call, child, e), x);
    }
  }

  lemma CloneFedBack(g: Graph, call: Node, child: Graph, r: Graph, v: Valuation, w: Valuation, u: Valuation, id: Id, x: (string, Json))
    requires CallSite(g, call, child, r) && EdgeView(g, call, child, r)
    requires Glued(g, call, child, v, w, u) && id in NodeIds(child)
    requires x in Fed(r, u, CloneId(call, child, id))
    ensures x in Fed(child, w, id) || x in External(child, Fed(g, v, call.id), id)
  {
    var cid := CloneId(call, child, id);
    FedMembers(r, u, cid, x);
    FedMembers(child, w, id, x);
    var f :| FedBy(r.edges, u, cid, f, x);
    IntoClone(g, call, child, r, f, id);
    if e :| e in child.edges && e.target == id && f == CloneEdge(call, child, e) {
      assert e.source in w;
      assert FedBy(child.edges, w, id, e, x);
    } else {
      var e :| e in g.edges && e.target == call.id && child.inputs[e.targetPort].node == id
               && f == RewriteEdge(call, child, e);
      assert e.source in v && e.source != call.id;
      var b := (e.targetPort, v[e.source][e.sourcePort]);
      FedMembers(g, v, call.id, b);
      assert FedBy(g.edges, v, call.id, e, b);
    }
  }

  lemma SurvivorExternal(g: Graph, call: Node, child: Graph, r: Graph, ext: Env, id: Id)
    requires CallSite(g, call, child, r) && id in NodeIds(g) && id != call.id
    ensures External(r, ext, id) == External(g, ext, id)
  {
    forall name | name in g.inputs
      ensures r.inputs[name].node == id <==> g.inputs[name].node == id
      ensures g.inputs[name].node == id ==> r.inputs[name] == g.inputs[name]
    {
      if g.inputs[name].node == call.id {
        assert child.inputs[g.inputs[name].port].node in NodeIds(child);
        assert r.inputs[name].node in CloneIds(call, child);
      }
    }
  }

  lemma CloneExternal(g: Graph, call: Node, child: Graph, r: Graph, ext: Env, id: Id)
    requires CallSite(g, call, child, r) && id in NodeIds(child)
    ensures External(r, ext, CloneId(call, child, id)) == External(child, External(g, ext, call.id), id)
  {
    var cid := CloneId(call, child, id);
    assert cid in CloneIds(call, child);
    forall x | x in External(r, ext, cid)
      ensures x in External(child, External(g, ext, call.id), id)
    {
      var b :| b in ext && b.0 in r.inputs && r.inputs[b.0].node == cid && x == (r.inputs[b.0].port, b.1);
      assert g.inputs[b.0].node == call.id;
      assert (g.inputs[b.0].port, b.1) in External(g, ext, call.id);
    }
    forall x | x in External(child, External(g, ext, call.id), id)
      ensures x in External(r, ext, cid)
    {
      var c :| c in External(g, ext, call.id) && c.0 in child.inputs && child.inputs[c.0].node == id
               && x == (child.inputs[c.0].port, c.1);
      var b :| b in ext && b.0 in g.inputs && g.inputs[b.0].node == call.id && c == (g.inputs[b.0].port, b.1);
      assert r.inputs[b.0] == Binding(cid, child.inputs[c.0].port);
    }
  }

  lemma SurvivorEnv(g: Graph, call: Node, child: Graph, r: Graph, ext: Env, v: Valuation, w: Valuation, u: Valuation, n: Node)
    requires CallSite(g, call, child, r) && EdgeView(g, call, child, r)
    requires Glued(g, call, child, v, w, u) && call.id in v && v[call.id] == OutputsOf(child, w)
    requires n in g.nodes && n.id != call.id
    ensures EnvOf(r, ext, u, n) == EnvOf(g, ext, v, n)
  {
    SurvivorFed(g, call, child, r, v, w, u, n.id);
    SurvivorExternal(g, call, child, r, ext, n.id);
  }

  lemma CloneEnv(g: Graph, call: Node, child: Graph, r: Graph, ext: Env, v: Valuation, w: Valuation, u: Valuation, m: Node, n: Node)
    requires CallSite(g, call, child, r) && EdgeView(g, call, child, r)
    requires Glued(g, call, child, v, w, u) && LiteralsAgree(call, child)
    requires CameFrom(call, child, m, n)
    ensures EnvOf(r, ext, u, n) == EnvOf(child, EnvOf(g, ext, v, call), w, m)
  {
    var lits, fed, outer := Literals(call), Fed(g, v, call.id), External(g, ext, call.id);
    CloneFed(g, call, child, r, v, w, u, m.id);
    CloneLiterals(call, child, m, n);
    CloneExternal(g, call, child, r, ext, m.id);
    ExternalSplit(child, lits + fed, outer, m.id);
    ExternalSplit(child, lits, fed, m.id);
    Regroup(Literals(m), Fed(child, w, m.id), External(child, lits, m.id), External(child, fed, m.id), External(child, outer, m.id));
  }

  lemma Regroup(a: Env, b: Env, c: Env, d: Env, e: Env)
    ensures (a + c) + (b + d) + e == a + b + (c + d + e)
  {
  }

  lemma InliningOutputs(g: Graph, call: Node, child: Graph, r: Graph, v: Valuation, w: Valuation, u: Valuation)
    requires r.outputs.Keys == g.outputs.Keys
    requires forall name :: name in g.outputs ==>
               var b := g.outputs[name];
               && r.outputs[name] == RewriteOutput(call, child, b) && b.node in v
               && (b.node == call.id ==> b.port in child.outputs && child.outputs[b.port].node in w)
    requires Glued(g, call, child, v, w, u) && call.id in v && v[call.id] == OutputsOf(child, w)
    ensures OutputsOf(r, u) == OutputsOf(g, v)
  {
    forall name | name in g.outputs
      ensures var b, c := g.outputs[name], r.outputs[name];
              && c.node in u && b.node in v && (c.port in u[c.node] <==> b.port in v[b.node])
              && (b.port in v[b.node] ==> u[c.node][c.port] == v[b.node][b.port])
    {
      OutputKept(g, call, child, v, w, u, g.outputs[name]);
    }
  }

  lemma OutputKept(g: Graph, call: Node, child: Graph, v: Valuation, w: Valuation, u: Valuation, b: Binding)
    requires Glued(g, call, child, v, w, u) && call.id in v && v[call.id] == OutputsOf(child, w) && b.node in v
    requires b.node == call.id ==> b.port in child.outputs && child.outputs[b.port].node in w
    ensures var c := RewriteOutput(call, child, b);
            && c.node in u && (c.port in u[c.node] <==> b.port in v[b.node])
            && (b.port in v[b.node] ==> u[c.node][c.port] == v[b.node][b.port])
  {
    if b.node == call.id {
      assert CloneId(call, child, child.outputs[b.port].node) in u;
    }
  }

  /** Every node of the inlined graph satisfies its equation. */
  lemma InlinedNodeSolved(g: Graph, call: Node, child: Graph, r: Graph, sem: Sem, ext: Env, v: Valuation, w: Valuation,
                          u: Valuation, n: Node)
    requires CallSite(g, call, child, r) && EdgeView(g, call, child, r) && LiteralsAgree(call, child)
    requires CallMeans(g, call, child, sem, ext, v, w) && Glued(g, call, child, v, w, u)
    requires n in r.nodes
    ensures n.id in u && u[n.id] == Eval(r, sem, ext, u, n)
  {
    NodesOfInlining(g, call, child, r, n);
    if n in g.nodes && n.id != call.id {
      SurvivorEnv(g, call, child, r, ext, v, w, u, n);
      assert v[n.id] == Eval(g, sem, ext, v, n);
    } else {
      var m :| CameFrom(call, child, m, n);
      CloneEnv(g, call, child, r, ext, v, w, u, m, n);
      assert w[m.id] == Eval(child, sem, EnvOf(g, ext, v, call), w, m);
    }
  }

  lemma OutputsSurvive(g: Graph, call: Node, child: Graph, r: Graph, sem: Sem, ext: Env, v: Valuation, w: Valuation, u: Valuation)
    requires CallSite(g, call, child, r) && CallMeans(g, call, child, sem, ext, v, w) && Glued(g, call, child, v, w, u)
    ensures OutputsOf(r, u) == OutputsOf(g, v)
  {
    hide OutputsOf, Glued;
    InliningOutputs(g, call, child, r, v, w, u);
  }

  lemma SiteFacts(g: Graph, call: Node, child: Graph, r: Graph)
    requires CallSite(g, call, child, r)
    ensures NoCollision(g, call, child) && IsInlining(g, call, child, r)
  {
  }

  /** Inlining preserves meaning: give the call the outputs of its child graph, and the
      combined values solve the inlined graph. Surviving nodes and graph outputs keep
      their values. */
  lemma InliningPreservesMeaning(g: Graph, call: Node, child: Graph, r: Graph, sem: Sem, ext: Env, v: Valuation, w: Valuation)
    requires CallSite(g, call, child, r) && LiteralsAgree(call, child)
    requires CallMeans(g, call, child, sem, ext, v, w)
    ensures Solves(r, sem, ext, Combined(call, child, v, w))
    ensures NodeIds(r) == NodeIds(g) - {call.id} + CloneIds(call, child)
    ensures forall id :: id in v && id != call.id ==> id in Combined(call, child, v, w) && Combined(call, child, v, w)[id] == v[id]
    ensures OutputsOf(r, Combined(call, child, v, w)) == OutputsOf(g, v)
  {
    hide OutputsOf, Glued, CallSite, LiteralsAgree, IsInlining, NoCollision, EdgeView;
    SiteFacts(g, call, child, r);
    var u := Combined(call, child, v, w);
    CombinedGlued(g, call, child, v, w);
    IdsOfInlining(g, call, child, r);
    EdgesOfInlining(g, call, child, r);
    OutputsSurvive(g, call, child, r, sem, ext, v, w, u);
    forall n | n in r.nodes
      ensures n.id in u && u[n.id] == Eval(r, sem, ext, u, n)
    {
      InlinedNodeSolved(g, call, child, r, sem, ext, v, w, u, n);
    }
  }
}
