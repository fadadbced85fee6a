/** The graph contract: nodes, edges and named boundary bindings
    (src/comfyng/graph/types.py:137-253). */
module Graphs {
  import opened Ids
  import opened Layering

  datatype Json =
    | Null
    | Bool(truth: bool)
    | Num(number: int)
    | Str(text: string)
    | Arr(items: seq<Json>)
    | Obj(fields: map<string, Json>)

  datatype Node = Node(
    id: Id,
    typeId: string,
    typeVersion: string,
    inputs: map<string, Json>,
    metadata: map<string, Json>)

  /** A node type with its version, which name a definition or a registered graph. */
  type NodeKey = (string, string)

  datatype Edge = Edge(source: Id, sourcePort: string, target: Id, targetPort: string)

  datatype Binding = Binding(node: Id, port: string)

  datatype Graph = Graph(
    id: nat,
    version: nat,
    nodes: seq<Node>,
    edges: seq<Edge>,
    inputs: map<string, Binding>,
    outputs: map<string, Binding>)

  datatype Option<+T> = None | Some(value: T)

  function IdsOf(nodes: seq<Node>): (ids: seq<Id>)
    ensures |ids| == |nodes|
    ensures forall k :: 0 <= k < |nodes| ==> ids[k] == nodes[k].id
  {
    seq(|nodes|, k requires 0 <= k < |nodes| => nodes[k].id)
  }

  function NodeIds(g: Graph): set<Id>
  {
    set n | n in g.nodes :: n.id
  }

  ghost function Arcs(edges: seq<Edge>): set<Arc>
  {
    set e | e in edges :: (e.source, e.target)
  }

  /** What structural validation guarantees: unique ids and no dangling reference
      (src/comfyng/graph/validation.py:262-416). */
  ghost predicate WellFormed(g: Graph)
  {
    && Distinct(IdsOf(g.nodes))
    && (forall e :: e in g.edges ==> e.source in NodeIds(g) && e.target in NodeIds(g))
    && (forall name :: name in g.inputs ==> g.inputs[name].node in NodeIds(g))
    && (forall name :: name in g.outputs ==> g.outputs[name].node in NodeIds(g))
  }

  lemma NodeIdsAreElements(g: Graph)
    ensures Elements(IdsOf(g.nodes)) == NodeIds(g)
  {
    forall x | x in NodeIds(g)
      ensures x in Elements(IdsOf(g.nodes))
    {
      var n :| n in g.nodes && n.id == x;
      var k :| 0 <= k < |g.nodes| && g.nodes[k] == n;
      assert IdsOf(g.nodes)[k] == x;
    }
  }

  lemma UniqueNode(g: Graph, n: Node, m: Node)
    requires Distinct(IdsOf(g.nodes)) && n in g.nodes && m in g.nodes && n.id == m.id
    ensures n == m
  {
    var i :| 0 <= i < |g.nodes| && g.nodes[i] == n;
    var j :| 0 <= j < |g.nodes| && g.nodes[j] == m;
    assert IdsOf(g.nodes)[i] == IdsOf(g.nodes)[j];
  }

  /** The node an id names. */
  ghost function NodeAt(g: Graph, id: Id): (n: Node)
    requires id in NodeIds(g)
    ensures n in g.nodes && n.id == id
  {
    var n :| n in g.nodes && n.id == id;
    n
  }

  /** `{node.id: node for node in nodes}`. */
  function NodeTable(nodes: seq<Node>): (table: map<Id, Node>)
    ensures forall id :: id in table ==> table[id] in nodes && table[id].id == id
    ensures forall n :: n in nodes ==> n.id in table
  {
    if nodes == [] then map[]
    else
      var last := nodes[|nodes| - 1];
      NodeTable(nodes[..|nodes| - 1])[last.id := last]
  }

  lemma NodeTableAt(g: Graph, id: Id)
    requires Distinct(IdsOf(g.nodes)) && id in NodeIds(g)
    ensures id in NodeTable(g.nodes) && NodeTable(g.nodes)[id] == NodeAt(g, id)
  {
    UniqueNode(g, NodeTable(g.nodes)[id], NodeAt(g, id));
  }

  /** The edges out of a node, in stored order. */
  function OutOf(edges: seq<Edge>, id: Id): seq<Edge>
  {
    if edges == [] then []
    else
      var last := edges[|edges| - 1];
      OutOf(edges[..|edges| - 1], id) + if last.source == id then [last] else []
  }

  /** The edges into a node, in stored order. */
  function IntoOf(edges: seq<Edge>, id: Id): seq<Edge>
  {
    if edges == [] then []
    else
      var last := edges[|edges| - 1];
      IntoOf(edges[..|edges| - 1], id) + if last.target == id then [last] else []
  }

  lemma {:induction false} OutOfMembers(edges: seq<Edge>, id: Id, e: Edge)
    ensures e in OutOf(edges, id) <==> e in edges && e.source == id
  {
    if edges != [] {
      OutOfMembers(edges[..|edges| - 1], id, e);
      assert edges == edges[..|edges| - 1] + [edges[|edges| - 1]];
    }
  }

  lemma {:induction false} IntoOfMembers(edges: seq<Edge>, id: Id, e: Edge)
    ensures e in IntoOf(edges, id) <==> e in edges && e.target == id
  {
    if edges != [] {
      IntoOfMembers(edges[..|edges| - 1], id, e);
      assert edges == edges[..|edges| - 1] + [edges[|edges| - 1]];
    }
  }

  lemma WellFormedWithin(g: Graph)
    requires WellFormed(g)
    ensures Within(NodeIds(g), Arcs(g.edges))
  {
  }
}
