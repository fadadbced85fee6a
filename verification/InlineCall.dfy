/** The inlining operation itself, and the structure it keeps
    (src/comfyng/graph/subgraphs.py:148-300). */
module InlineCall {
  import opened Ids
  import opened Layering
  import opened Graphs
  import opened Semantics
  import opened Inlining

  datatype InlineResult =
    | Inlined(graph: Graph)
    | InlineError(code: string)

  /** Looking a port up at the child's boundary: unknown, dangling, or found. */
  function BindingCode(bindings: map<string, Binding>, child: Graph, port: string, unknown: string): (code: string)
    requires unknown != ""
    ensures code == "" <==> BoundInChild(bindings, child, port)
    ensures code != "" ==> (code == unknown && port !in bindings) || (code == "invalid_subgraph_binding" && port in bindings)
  {
    if port !in bindings then unknown
    else if bindings[port].node !in NodeIds(child) then "invalid_subgraph_binding"
    else ""
  }

  function InputCode(child: Graph, port: string): string
  {
    BindingCode(child.inputs, child, port, "unknown_subgraph_input")
  }

  function OutputCode(child: Graph, port: string): string
  {
    BindingCode(child.outputs, child, port, "unknown_subgraph_output")
  }

  function EdgeCode(call: Node, child: Graph, e: Edge): string
  {
    if e.target == call.id then InputCode(child, e.targetPort)
    else if e.source == call.id then OutputCode(child, e.sourcePort)
    else ""
  }

  /** The code of the first stored edge that does not fit. */
  function FirstEdgeCode(edges: seq<Edge>, call: Node, child: Graph): (code: string)
    ensures code == "" <==> forall e :: e in edges ==> EdgeCode(call, child, e) == ""
  {
    if edges == [] then ""
    else
      var init, last := edges[..|edges| - 1], edges[|edges| - 1];
      assert edges == init + [last];
      if FirstEdgeCode(init, call, child) != "" then FirstEdgeCode(init, call, child) else EdgeCode(call, child, last)
  }

  /** The code that reports why a call does not fit its child: the checks come in this order.
      Names of graph inputs and of graph outputs come in no particular order. */
  ghost predicate Cause(code: string, g: Graph, call: Node, child: Graph)
  {
    if !NoCollision(g, call, child) then code == "subgraph_node_collision"
    else if !LiteralsKnown(call, child) then code == "unknown_subgraph_input"
    else if !LiteralsFit(call, child) || !PortsFree(g, call) then code == "multiple_subgraph_input"
    else if FirstEdgeCode(g.edges, call, child) != "" then code == FirstEdgeCode(g.edges, call, child)
    else if !ChildEdgesInside(child) then code == "invalid_subgraph_edge"
    else if !InputsKnown(g, call, child) then code != "" && InputFails(g, call, child, code)
    else code != "" && OutputFails(g, call, child, code)
  }

  ghost predicate InputFails(g: Graph, call: Node, child: Graph, code: string)
  {
    exists name :: name in g.inputs && g.inputs[name].node == call.id && code == InputCode(child, g.inputs[name].port)
  }

  ghost predicate OutputFails(g: Graph, call: Node, child: Graph, code: string)
  {
    exists name :: name in g.outputs && g.outputs[name].node == call.id && code == OutputCode(child, g.outputs[name].port)
  }

  lemma EdgesFitIff(g: Graph, call: Node, child: Graph)
    ensures FirstEdgeCode(g.edges, call, child) == "" <==> EdgesInKnown(g, call, child) && EdgesOutKnown(g, call, child)
  {
    if FirstEdgeCode(g.edges, call, child) == "" {
      forall e | e in g.edges
        ensures e.target == call.id ==> BoundInChild(child.inputs, child, e.targetPort)
        ensures e.target != call.id && e.source == call.id ==> BoundInChild(child.outputs, child, e.sourcePort)
      {
        assert EdgeCode(call, child, e) == "";
      }
    }
  }

  type Overrides = map<Id, map<string, Json>>

  predicate Overridden(overrides: Overrides, id: Id, p: string)
  {
    id in overrides && p in overrides[id]
  }

  /** The table built from the call's literals `done`. */
  ghost predicate Collected(call: Node, child: Graph, done: set<string>, overrides: Overrides)
  {
    && (forall q, id, p :: q in done && LandsOn(call, child, q, id, p) ==> Overridden(overrides, id, p))
    && (forall id, p :: Overridden(overrides, id, p) ==>
          exists q :: q in done && LandsOn(call, child, q, id, p) && overrides[id][p] == call.inputs[q])
  }

  method CollectOverrides(call: Node, child: Graph) returns (ok: bool, overrides: Overrides)
    ensures ok <==> LiteralsKnown(call, child)
    ensures ok ==> Collected(call, child, call.inputs.Keys, overrides)
  {
    ok, overrides := true, map[];
    var rest := call.inputs.Keys;
    while rest != {}
      invariant rest <= call.inputs.Keys
      invariant forall p :: p in call.inputs.Keys - rest ==> p in child.inputs
      invariant Collected(call, child, call.inputs.Keys - rest, overrides)
    {
      var q :| q in rest;
      if q !in child.inputs {
        ok := false;
        return;
      }
      var b := child.inputs[q];
      var inner := if b.node in overrides then overrides[b.node] else map[];
      CollectStep(call, child, call.inputs.Keys - rest, overrides, q, inner);
      overrides := overrides[b.node := inner[b.port := call.inputs[q]]];
      assert call.inputs.Keys - (rest - {q}) == (call.inputs.Keys - rest) + {q};
      rest := rest - {q};
    }
  }

  lemma CollectStep(call: Node, child: Graph, done: set<string>, overrides: Overrides, q: string, inner: map<string, Json>)
    requires Collected(call, child, done, overrides) && q in call.inputs && q in child.inputs
    requires inner == if child.inputs[q].node in overrides then overrides[child.inputs[q].node] else map[]
    ensures Collected(call, child, done + {q},
                      overrides[child.inputs[q].node := inner[child.inputs[q].port := call.inputs[q]]])
  {
    var b := child.inputs[q];
    var after := overrides[b.node := inner[b.port := call.inputs[q]]];
    forall id, p | Overridden(after, id, p)
      ensures exists r :: r in done + {q} && LandsOn(call, child, r, id, p) && after[id][p] == call.inputs[r]
    {
      if id == b.node && p == b.port {
        assert LandsOn(call, child, q, id, p);
      } else {
        assert Overridden(overrides, id, p);
      }
    }
  }

  /** Merge the overrides of one node into its literals. */
  method MergeInputs(inputs0: map<string, Json>, extra: map<string, Json>) returns (ok: bool, inputs: map<string, Json>)
    ensures ok <==> extra.Keys !! inputs0.Keys
    ensures ok ==> inputs == inputs0 + extra
  {
    ok, inputs := true, inputs0;
    var rest := extra.Keys;
    while rest != {}
      invariant rest <= extra.Keys && (extra.Keys - rest) !! inputs0.Keys
      invariant inputs == inputs0 + (map p | p in extra && p !in rest :: extra[p])
    {
      var p :| p in rest;
      if p in inputs {
        ok := false;
        return;
      }
      inputs := inputs[p := extra[p]];
      rest := rest - {p};
    }
  }

  method CloneNodes(call: Node, child: Graph, overrides: Overrides) returns (ok: bool, clones: seq<Node>)
    requires Collected(call, child, call.inputs.Keys, overrides)
    ensures ok <==> LiteralsFit(call, child)
    ensures ok ==> |clones| == |child.nodes|
    ensures ok ==> forall k :: 0 <= k < |clones| ==> CloneOf(call, child, child.nodes[k], clones[k])
  {
    ok, clones := true, [];
    for k := 0 to |child.nodes|
      invariant |clones| == k
      invariant forall i :: 0 <= i < k ==> CloneOf(call, child, child.nodes[i], clones[i])
      invariant forall i :: 0 <= i < k ==> NoClash(call, child, child.nodes[i])
    {
      var m := child.nodes[k];
      var extra := if m.id in overrides then overrides[m.id] else map[];
      var fits, inputs := MergeInputs(m.inputs, extra);
      ClashIff(call, child, m, overrides, extra);
      if !fits {
        assert !NoClash(call, child, m) && m in child.nodes;
        ok := false;
        return;
      }
      var n := Node(CloneId(call, child, m.id), m.typeId, m.typeVersion, inputs, m.metadata);
      MergedIsClone(call, child, m, overrides, extra, n);
      clones := clones + [n];
    }
  }

  lemma ClashIff(call: Node, child: Graph, m: Node, overrides: Overrides, extra: map<string, Json>)
    requires Collected(call, child, call.inputs.Keys, overrides)
    requires extra == if m.id in overrides then overrides[m.id] else map[]
    ensures extra.Keys !! m.inputs.Keys <==> NoClash(call, child, m)
  {
    forall p | p in extra
      ensures exists q :: LandsOn(call, child, q, m.id, p)
    {
      assert Overridden(overrides, m.id, p);
    }
    forall p, q | LandsOn(call, child, q, m.id, p)
      ensures p in extra
    {
      assert Overridden(overrides, m.id, p);
    }
  }

  lemma MergedIsClone(call: Node, child: Graph, m: Node, overrides: Overrides, extra: map<string, Json>, n: Node)
    requires Collected(call, child, call.inputs.Keys, overrides)
    requires extra == if m.id in overrides then overrides[m.id] else map[]
    requires extra.Keys !! m.inputs.Keys
    requires n == Node(CloneId(call, child, m.id), m.typeId, m.typeVersion, m.inputs + extra, m.metadata)
    ensures CloneOf(call, child, m, n)
  {
    forall p | p in extra
      ensures exists q :: LandsOn(call, child, q, m.id, p) && extra[p] == call.inputs[q]
    {
      assert Overridden(overrides, m.id, p);
    }
    forall p, q | LandsOn(call, child, q, m.id, p)
      ensures p in extra
    {
      assert Overridden(overrides, m.id, p);
    }
  }

  lemma {:induction false} FirstCodeStays(edges: seq<Edge>, k: nat, call: Node, child: Graph)
    requires k <= |edges| && FirstEdgeCode(edges[..k], call, child) != ""
    ensures FirstEdgeCode(edges, call, child) == FirstEdgeCode(edges[..k], call, child)
  {
    if k < |edges| {
      var init := edges[..|edges| - 1];
      assert init[..k] == edges[..k];
      FirstCodeStays(init, k, call, child);
    } else {
      assert edges[..k] == edges;
    }
  }

  /** The parent's edges, rewritten one by one. */
  method RewriteEdges(g: Graph, call: Node, child: Graph) returns (code: string, edges: seq<Edge>)
    ensures code == FirstEdgeCode(g.edges, call, child)
    ensures code == "" ==> |edges| == |g.edges|
    ensures code == "" ==> forall k :: 0 <= k < |edges| ==> edges[k] == RewriteEdge(call, child, g.edges[k])
  {
    code, edges := "", [];
    for k := 0 to |g.edges|
      invariant code == "" == FirstEdgeCode(g.edges[..k], call, child) && |edges| == k
      invariant forall i :: 0 <= i < k ==> edges[i] == RewriteEdge(call, child, g.edges[i])
    {
      var e := g.edges[k];
      assert g.edges[..k + 1][..k] == g.edges[..k];
      code := EdgeCode(call, child, e);
      if code != "" {
        FirstCodeStays(g.edges, k + 1, call, child);
        return;
      }
      edges := edges + [MoveEdge(call, child, e)];
    }
    assert g.edges[..|g.edges|] == g.edges;
  }

  /** The edge with its end at the call moved to the clone behind the port. */
  function MoveEdge(call: Node, child: Graph, e: Edge): (moved: Edge)
    requires EdgeCode(call, child, e) == ""
    ensures moved == RewriteEdge(call, child, e)
  {
    if e.target == call.id then
      var b := child.inputs[e.targetPort];
      Edge(e.source, e.sourcePort, CloneId(call, child, b.node), b.port)
    else if e.source == call.id then
      var b := child.outputs[e.sourcePort];
      Edge(CloneId(call, child, b.node), b.port, e.target, e.targetPort)
    else e
  }

  method CloneEdges(call: Node, child: Graph) returns (ok: bool, edges: seq<Edge>)
    ensures ok <==> ChildEdgesInside(child)
    ensures ok ==> |edges| == |child.edges|
    ensures ok ==> forall k :: 0 <= k < |edges| ==> edges[k] == CloneEdge(call, child, child.edges[k])
  {
    ok, edges := true, [];
    var ids := NodeIds(child);
    for k := 0 to |child.edges|
      invariant |edges| == k
      invariant forall i :: 0 <= i < k ==> child.edges[i].source in ids && child.edges[i].target in ids
      invariant forall i :: 0 <= i < k ==> edges[i] == CloneEdge(call, child, child.edges[i])
    {
      if child.edges[k].source !in ids || child.edges[k].target !in ids {
        assert child.edges[k] in child.edges;
        ok := false;
        return;
      }
      edges := edges + [CloneEdge(call, child, child.edges[k])];
    }
  }

  method RewriteInputs(g: Graph, call: Node, child: Graph) returns (code: string, inputs: map<string, Binding>)
    ensures code == "" <==> InputsKnown(g, call, child)
    ensures code == "" ==> inputs == map name | name in g.inputs :: RewriteInput(call, child, g.inputs[name])
    ensures code != "" ==> InputFails(g, call, child, code)
  {
    code, inputs := "", map[];
    var rest := g.inputs.Keys;
    while rest != {}
      invariant code == "" && rest <= g.inputs.Keys
      invariant inputs == map name | name in g.inputs && name !in rest :: RewriteInput(call, child, g.inputs[name])
      invariant forall name :: name in g.inputs && name !in rest && g.inputs[name].node == call.id ==>
                  BoundInChild(child.inputs, child, g.inputs[name].port)
    {
      var name :| name in rest;
      rest := rest - {name};
      if g.inputs[name].node != call.id {
        inputs := inputs[name := g.inputs[name]];
      } else {
        code := InputCode(child, g.inputs[name].port);
        if code != "" {
          return;
        }
        var b := child.inputs[g.inputs[name].port];
        inputs := inputs[name := Binding(CloneId(call, child, b.node), b.port)];
      }
    }
  }

  method RewriteOutputs(g: Graph, call: Node, child: Graph) returns (code: string, outputs: map<string, Binding>)
    ensures code == "" <==> OutputsKnown(g, call, child)
    ensures code == "" ==> outputs == map name | name in g.outputs :: RewriteOutput(call, child, g.outputs[name])
    ensures code != "" ==> OutputFails(g, call, child, code)
  {
    code, outputs := "", map[];
    var rest := g.outputs.Keys;
    while rest != {}
      invariant code == "" && rest <= g.outputs.Keys
      invariant outputs == map name | name in g.outputs && name !in rest :: RewriteOutput(call, child, g.outputs[name])
      invariant forall name :: name in g.outputs && name !in rest && g.outputs[name].node == call.id ==>
                  BoundInChild(child.outputs, child, g.outputs[name].port)
    {
      var name :| name in rest;
      rest := rest - {name};
      if g.outputs[name].node != call.id {
        outputs := outputs[name := g.outputs[name]];
      } else {
        code := OutputCode(child, g.outputs[name].port);
        if code != "" {
          return;
        }
        var b := child.outputs[g.outputs[name].port];
        outputs := outputs[name := Binding(CloneId(call, child, b.node), b.port)];
      }
    }
  }

  /** `_inline_call`: succeeds exactly when the call fits its child, and reports the first
      check that fails. */
  method InlineCall(g: Graph, call: Node, child: Graph) returns (r: InlineResult)
    ensures r.Inlined? <==> Inlinable(g, call, child)
    ensures r.Inlined? ==> IsInlining(g, call, child, r.graph)
    ensures r.InlineError? ==> Cause(r.code, g, call, child)
  {
    var existing := set n | n in g.nodes && n.id != call.id :: n.id;
    var cloned := set n | n in child.nodes :: CloneId(call, child, n.id);
    CollisionSets(g, call, child, existing, cloned);
    if existing * cloned != {} {
      return InlineError("subgraph_node_collision");
    }
    var known, overrides := CollectOverrides(call, child);
    if !known {
      return InlineError("unknown_subgraph_input");
    }
    var fits, clones := CloneNodes(call, child, overrides);
    if !fits {
      return InlineError("multiple_subgraph_input");
    }
    if !PortsFree(g, call) {
      return InlineError("multiple_subgraph_input");
    }
    var code, rewritten := RewriteEdges(g, call, child);
    EdgesFitIff(g, call, child);
    if code != "" {
      return InlineError(code);
    }
    var inside, inner := CloneEdges(call, child);
    if !inside {
      return InlineError("invalid_subgraph_edge");
    }
    var inputs, outputs;
    code, inputs := RewriteInputs(g, call, child);
    if code != "" {
      return InlineError(code);
    }
    code, outputs := RewriteOutputs(g, call, child);
    if code != "" {
      return InlineError(code);
    }
    Assembled(g, call, child, clones, rewritten, inner, inputs, outputs);
    r := Inlined(Graph(g.id, g.version, Others(g.nodes, call) + clones, rewritten + inner, inputs, outputs));
  }

  lemma Assembled(g: Graph, call: Node, child: Graph, clones: seq<Node>, rewritten: seq<Edge>, inner: seq<Edge>,
                  inputs: map<string, Binding>, outputs: map<string, Binding>)
    requires |clones| == |child.nodes| && |rewritten| == |g.edges| && |inner| == |child.edges|
    requires forall k :: 0 <= k < |clones| ==> CloneOf(call, child, child.nodes[k], clones[k])
    requires forall k :: 0 <= k < |rewritten| ==> rewritten[k] == RewriteEdge(call, child, g.edges[k])
    requires forall k :: 0 <= k < |inner| ==> inner[k] == CloneEdge(call, child, child.edges[k])
    requires inputs == map name | name in g.inputs :: RewriteInput(call, child, g.inputs[name])
    requires outputs == map name | name in g.outputs :: RewriteOutput(call, child, g.outputs[name])
    ensures IsInlining(g, call, child,
                       Graph(g.id, g.version, Others(g.nodes, call) + clones, rewritten + inner, inputs, outputs))
  {
  }

  lemma CollisionSets(g: Graph, call: Node, child: Graph, existing: set<Id>, cloned: set<Id>)
    requires existing == set n | n in g.nodes && n.id != call.id :: n.id
    requires cloned == set n | n in child.nodes :: CloneId(call, child, n.id)
    ensures existing == NodeIds(g) - {call.id} && cloned == CloneIds(call, child)
    ensures existing * cloned == {} <==> NoCollision(g, call, child)
  {
    assert cloned == CloneIds(call, child) by {
      forall id | id in NodeIds(child)
        ensures CloneId(call, child, id) in cloned
      {
        var n := NodeAt(child, id);
      }
    }
  }
}
