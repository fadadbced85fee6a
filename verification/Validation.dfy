/** Validation of an expanded graph (src/comfyng/graph/validation.py:421-710). JSON Schema
    checks of literals and type checks between ports are parameters. */
module Validation {
  import opened Ids
  import opened Layering
  import opened Graphs
  import opened Topology
  import opened Semantics
  import opened CacheKeys
  import opened Fusion

  datatype Definition = Definition(
    inputPorts: map<string, Json>,
    outputPorts: map<string, Json>,
    required: set<string>)

  type Catalogue = map<NodeKey, Definition>

  datatype Rules = Rules(
    catalogue: Catalogue,
    literalOk: (Json, Json) -> bool,
    compatible: (Json, Json) -> bool,
    maxLoopIterations: nat)

  // ----- The declarative reading -----

  predicate Known(rules: Rules, n: Node)
  {
    (n.typeId, n.typeVersion) in rules.catalogue
  }

  function DefinitionOf(rules: Rules, n: Node): Definition
    requires Known(rules, n)
  {
    rules.catalogue[(n.typeId, n.typeVersion)]
  }

  function EdgeCount(edges: seq<Edge>, id: Id, p: string): nat
  {
    if edges == [] then 0
    else
      var e := edges[|edges| - 1];
      EdgeCount(edges[..|edges| - 1], id, p) + if e.target == id && e.targetPort == p then 1 else 0
  }

  function InputNames(g: Graph, id: Id, p: string): set<string>
  {
    set name | name in g.inputs && g.inputs[name] == Binding(id, p)
  }

  /** How many literals, edges and graph inputs are bound to a port. */
  function SourceCount(g: Graph, n: Node, p: string): nat
  {
    (if p in n.inputs then 1 else 0) + EdgeCount(g.edges, n.id, p) + |InputNames(g, n.id, p)|
  }

  /** The edge's ends, ports and types fit. */
  predicate EdgeOk(nodes: map<Id, Node>, rules: Rules, e: Edge)
  {
    && e.source in nodes && e.target in nodes
    && Known(rules, nodes[e.source]) && Known(rules, nodes[e.target])
    && e.sourcePort in DefinitionOf(rules, nodes[e.source]).outputPorts
    && e.targetPort in DefinitionOf(rules, nodes[e.target]).inputPorts
    && rules.compatible(DefinitionOf(rules, nodes[e.source]).outputPorts[e.sourcePort],
                        DefinitionOf(rules, nodes[e.target]).inputPorts[e.targetPort])
  }

  predicate InputOk(nodes: map<Id, Node>, rules: Rules, b: Binding)
  {
    b.node in nodes && Known(rules, nodes[b.node]) && b.port in DefinitionOf(rules, nodes[b.node]).inputPorts
  }

  predicate OutputOk(nodes: map<Id, Node>, rules: Rules, b: Binding)
  {
    b.node in nodes && Known(rules, nodes[b.node]) && b.port in DefinitionOf(rules, nodes[b.node]).outputPorts
  }

  /** The iteration bound of a for-each node, when it has one. */
  function LoopBound(n: Node): Option<int>
  {
    if "items" in n.inputs && n.inputs["items"].Arr? then Some(|n.inputs["items"].items|)
    else if "max_iterations" in n.metadata && n.metadata["max_iterations"].Num? && n.metadata["max_iterations"].number > 0
    then Some(n.metadata["max_iterations"].number)
    else None
  }

  predicate LoopOk(rules: Rules, n: Node)
  {
    n.typeId == "ng.control.for_each" ==> LoopBound(n).Some? && LoopBound(n).value <= rules.maxLoopIterations
  }

  predicate LiteralsOk(rules: Rules, n: Node)
    requires Known(rules, n)
  {
    forall p :: p in n.inputs ==>
      p in DefinitionOf(rules, n).inputPorts && rules.literalOk(DefinitionOf(rules, n).inputPorts[p], n.inputs[p])
  }

  predicate RequiredOk(g: Graph, rules: Rules, n: Node)
    requires Known(rules, n)
  {
    forall p :: p in DefinitionOf(rules, n).required ==> SourceCount(g, n, p) == 1
  }

  predicate PortsOk(g: Graph, rules: Rules, n: Node)
    requires Known(rules, n)
  {
    forall p :: p in DefinitionOf(rules, n).inputPorts && p !in DefinitionOf(rules, n).required ==> SourceCount(g, n, p) <= 1
  }

  predicate NodeOk(g: Graph, rules: Rules, n: Node)
  {
    Known(rules, n) && LiteralsOk(rules, n) && RequiredOk(g, rules, n) && PortsOk(g, rules, n) && LoopOk(rules, n)
  }

  /** What it takes to be accepted. */
  ghost predicate Accepted(g: Graph, rules: Rules)
  {
    && Distinct(IdsOf(g.nodes))
    && (forall n :: n in g.nodes ==> NodeOk(g, rules, n))
    && (forall e :: e in g.edges ==> EdgeOk(NodeTable(g.nodes), rules, e))
    && (forall name :: name in g.inputs ==> InputOk(NodeTable(g.nodes), rules, g.inputs[name]))
    && (forall name :: name in g.outputs ==> OutputOk(NodeTable(g.nodes), rules, g.outputs[name]))
    && Acyclic(Arcs(g.edges))
  }

  // ----- The checks, one family at a time -----

  method CheckDefinitions(g: Graph, rules: Rules) returns (errors: seq<string>)
    ensures errors == [] <==> Distinct(IdsOf(g.nodes)) && forall n :: n in g.nodes ==> Known(rules, n)
  {
    DistinctCount(IdsOf(g.nodes));
    errors := if |Elements(IdsOf(g.nodes))| != |g.nodes| then ["duplicate_node_id"] else [];
    for k := 0 to |g.nodes|
      invariant errors == [] <==> Distinct(IdsOf(g.nodes)) && forall i :: 0 <= i < k ==> Known(rules, g.nodes[i])
    {
      assert g.nodes[k] in g.nodes;
      if !Known(rules, g.nodes[k]) {
        errors := errors + ["unknown_node_definition"];
      }
    }
  }

  /** One edge: missing ends end the check, unknown definitions were reported before. */
  method CheckEdge(nodes: map<Id, Node>, rules: Rules, e: Edge) returns (errors: seq<string>)
    ensures e.source in nodes && e.target in nodes && Known(rules, nodes[e.source]) && Known(rules, nodes[e.target]) ==>
              (errors == [] <==> EdgeOk(nodes, rules, e))
    ensures e.source !in nodes || e.target !in nodes ==> errors != []
  {
    errors := [];
    if e.source !in nodes { errors := errors + ["missing_source_node"]; }
    if e.target !in nodes { errors := errors + ["missing_target_node"]; }
    if e.source !in nodes || e.target !in nodes {
      return;
    }
    if !Known(rules, nodes[e.source]) || !Known(rules, nodes[e.target]) {
      return;
    }
    var outputs, inputs := DefinitionOf(rules, nodes[e.source]).outputPorts, DefinitionOf(rules, nodes[e.target]).inputPorts;
    if e.sourcePort !in outputs { errors := errors + ["missing_source_port"]; }
    if e.targetPort !in inputs { errors := errors + ["missing_target_port"]; }
    if e.sourcePort in outputs && e.targetPort in inputs && !rules.compatible(outputs[e.sourcePort], inputs[e.targetPort]) {
      errors := errors + ["incompatible_types"];
    }
  }

  ghost predicate AllKnown(nodes: map<Id, Node>, rules: Rules)
  {
    forall id :: id in nodes ==> Known(rules, nodes[id])
  }

  method CheckEdges(g: Graph, nodes: map<Id, Node>, rules: Rules) returns (errors: seq<string>)
    ensures AllKnown(nodes, rules) ==> (errors == [] <==> forall e :: e in g.edges ==> EdgeOk(nodes, rules, e))
  {
    errors := [];
    for k := 0 to |g.edges|
      invariant AllKnown(nodes, rules) ==> (errors == [] <==> forall i :: 0 <= i < k ==> EdgeOk(nodes, rules, g.edges[i]))
    {
      assert g.edges[k] in g.edges;
      var more := CheckEdge(nodes, rules, g.edges[k]);
      errors := errors + more;
    }
  }

  method CheckInputs(g: Graph, nodes: map<Id, Node>, rules: Rules) returns (errors: seq<string>)
    ensures AllKnown(nodes, rules) ==> (errors == [] <==> forall name :: name in g.inputs ==> InputOk(nodes, rules, g.inputs[name]))
  {
    errors := [];
    var rest := g.inputs.Keys;
    while rest != {}
      invariant rest <= g.inputs.Keys
      invariant AllKnown(nodes, rules) ==>
                  (errors == [] <==> forall name :: name in g.inputs && name !in rest ==> InputOk(nodes, rules, g.inputs[name]))
    {
      var name :| name in rest;
      rest := rest - {name};
      var b := g.inputs[name];
      if b.node !in nodes {
        errors := errors + ["missing_graph_input_node"];
      } else if Known(rules, nodes[b.node]) && b.port !in DefinitionOf(rules, nodes[b.node]).inputPorts {
        errors := errors + ["missing_graph_input_port"];
      }
    }
  }

  method CheckOutputs(g: Graph, nodes: map<Id, Node>, rules: Rules) returns (errors: seq<string>)
    ensures AllKnown(nodes, rules) ==> (errors == [] <==> forall name :: name in g.outputs ==> OutputOk(nodes, rules, g.outputs[name]))
  {
    errors := [];
    var rest := g.outputs.Keys;
    while rest != {}
      invariant rest <= g.outputs.Keys
      invariant AllKnown(nodes, rules) ==>
                  (errors == [] <==> forall name :: name in g.outputs && name !in rest ==> OutputOk(nodes, rules, g.outputs[name]))
    {
      var name :| name in rest;
      rest := rest - {name};
      var b := g.outputs[name];
      if b.node !in nodes {
        errors := errors + ["missing_graph_output_node"];
      } else if Known(rules, nodes[b.node]) && b.port !in DefinitionOf(rules, nodes[b.node]).outputPorts {
        errors := errors + ["missing_graph_output_port"];
      }
    }
  }

  method CheckLiterals(n: Node, rules: Rules) returns (errors: seq<string>)
    requires Known(rules, n)
    ensures errors == [] <==> LiteralsOk(rules, n)
  {
    errors := [];
    var properties := DefinitionOf(rules, n).inputPorts;
    var rest := n.inputs.Keys;
    while rest != {}
      invariant rest <= n.inputs.Keys
      invariant errors == [] <==> forall p :: p in n.inputs && p !in rest ==>
                  p in properties && rules.literalOk(properties[p], n.inputs[p])
    {
      var p :| p in rest;
      rest := rest - {p};
      if p !in properties {
        errors := errors + ["unknown_literal_input"];
      } else if !rules.literalOk(properties[p], n.inputs[p]) {
        errors := errors + ["invalid_literal_input"];
      }
    }
  }

  method CheckRequired(g: Graph, n: Node, rules: Rules) returns (errors: seq<string>)
    requires Known(rules, n)
    ensures errors == [] <==> RequiredOk(g, rules, n)
  {
    errors := [];
    var required := DefinitionOf(rules, n).required;
    var rest := required;
    while rest != {}
      invariant rest <= required
      invariant errors == [] <==> forall p :: p in required && p !in rest ==> SourceCount(g, n, p) == 1
    {
      var p :| p in rest;
      rest := rest - {p};
      var sources := SourceCount(g, n, p);
      if sources == 0 {
        errors := errors + ["missing_required_input"];
      } else if sources > 1 {
        errors := errors + ["multiple_input_bindings"];
      }
    }
  }

  method CheckPorts(g: Graph, n: Node, rules: Rules) returns (errors: seq<string>)
    requires Known(rules, n)
    ensures errors == [] <==> PortsOk(g, rules, n)
  {
    errors := [];
    var ports, required := DefinitionOf(rules, n).inputPorts.Keys, DefinitionOf(rules, n).required;
    var rest := ports;
    while rest != {}
      invariant rest <= ports
      invariant errors == [] <==> forall p :: p in ports && p !in rest && p !in required ==> SourceCount(g, n, p) <= 1
    {
      var p :| p in rest;
      rest := rest - {p};
      if SourceCount(g, n, p) > 1 && p !in required {
        errors := errors + ["multiple_input_bindings"];
      }
    }
  }

  method CheckNodes(g: Graph, rules: Rules) returns (errors: seq<string>)
    ensures errors == [] <==> forall n :: n in g.nodes && Known(rules, n) ==> NodeOk(g, rules, n)
  {
    errors := [];
    for k := 0 to |g.nodes|
      invariant errors == [] <==> forall i :: 0 <= i < k && Known(rules, g.nodes[i]) ==> NodeOk(g, rules, g.nodes[i])
    {
      var n := g.nodes[k];
      assert n in g.nodes;
      if !Known(rules, n) {
        continue;
      }
      var literals := CheckLiterals(n, rules);
      var required := CheckRequired(g, n, rules);
      var ports := CheckPorts(g, n, rules);
      errors := errors + literals + required + ports;
      if n.typeId == "ng.control.for_each" {
        if LoopBound(n).None? {
          errors := errors + ["unbounded_loop"];
        } else if LoopBound(n).value > rules.maxLoopIterations {
          errors := errors + ["loop_bound_exceeded"];
        }
      }
    }
  }

  /** The edges with both ends present, which are the ones the cycle check looks at. */
  method EndpointEdges(edges: seq<Edge>, nodes: map<Id, Node>) returns (kept: seq<Edge>)
    ensures forall e :: e in kept ==> e.source in nodes && e.target in nodes
    ensures (forall e :: e in edges ==> e.source in nodes && e.target in nodes) ==> kept == edges
  {
    kept := [];
    for k := 0 to |edges|
      invariant forall e :: e in kept ==> e.source in nodes && e.target in nodes
      invariant (forall e :: e in edges ==> e.source in nodes && e.target in nodes) ==> kept == edges[..k]
    {
      assert edges[k] in edges && edges[..k + 1] == edges[..k] + [edges[k]];
      if edges[k].source in nodes && edges[k].target in nodes {
        kept := kept + [edges[k]];
      }
    }
    assert edges[..|edges|] == edges;
  }

  /** `validate_graph`: no error exactly when the graph is acceptable. Warnings are left out. */
  method Validate(g: Graph, rules: Rules) returns (errors: seq<string>)
    ensures errors == [] <==> Accepted(g, rules)
  {
    var nodes := NodeTable(g.nodes);
    var definitions := CheckDefinitions(g, rules);
    var edges := CheckEdges(g, nodes, rules);
    var inputs := CheckInputs(g, nodes, rules);
    var outputs := CheckOutputs(g, nodes, rules);
    var bindings := CheckNodes(g, rules);
    var endpoint := EndpointEdges(g.edges, nodes);
    var cyclic := false;
    TableSize(g, nodes);
    if |nodes| == |g.nodes| {
      EndsKnown(g, nodes, endpoint);
      var layering := TopologicalLayers(IdsOf(g.nodes), endpoint);
      cyclic := layering.CycleError?;
    }
    Verdict(g, rules, nodes, definitions, edges, inputs, outputs, bindings, endpoint, cyclic);
    errors := definitions + edges + inputs + outputs + bindings + (if cyclic then ["cycle"] else []);
  }

  lemma Verdict(g: Graph, rules: Rules, nodes: map<Id, Node>, definitions: seq<string>, edges: seq<string>, inputs: seq<string>,
                outputs: seq<string>, bindings: seq<string>, endpoint: seq<Edge>, cyclic: bool)
    requires nodes == NodeTable(g.nodes)
    requires definitions == [] <==> Distinct(IdsOf(g.nodes)) && forall n :: n in g.nodes ==> Known(rules, n)
    requires AllKnown(nodes, rules) ==> (edges == [] <==> forall e :: e in g.edges ==> EdgeOk(nodes, rules, e))
    requires AllKnown(nodes, rules) ==> (inputs == [] <==> forall name :: name in g.inputs ==> InputOk(nodes, rules, g.inputs[name]))
    requires AllKnown(nodes, rules) ==> (outputs == [] <==> forall name :: name in g.outputs ==> OutputOk(nodes, rules, g.outputs[name]))
    requires bindings == [] <==> forall n :: n in g.nodes && Known(rules, n) ==> NodeOk(g, rules, n)
    requires (forall e :: e in g.edges ==> e.source in nodes && e.target in nodes) ==> endpoint == g.edges
    requires Distinct(IdsOf(g.nodes)) ==> (cyclic <==> !Acyclic(Arcs(endpoint)))
    ensures Accepted(g, rules) <==>
              definitions == [] && edges == [] && inputs == [] && outputs == [] && bindings == [] && !cyclic
  {
    assert (forall n :: n in g.nodes ==> NodeOk(g, rules, n)) ==> forall n :: n in g.nodes ==> Known(rules, n);
    assert (forall n :: n in g.nodes ==> Known(rules, n)) ==> AllKnown(nodes, rules);
    if forall e :: e in g.edges ==> EdgeOk(nodes, rules, e) {
      assert endpoint == g.edges;
    }
  }

  lemma EndsKnown(g: Graph, nodes: map<Id, Node>, edges: seq<Edge>)
    requires nodes == NodeTable(g.nodes) && forall e :: e in edges ==> e.source in nodes && e.target in nodes
    ensures Within(Elements(IdsOf(g.nodes)), Arcs(edges))
  {
    NodeIdsAreElements(g);
  }

  lemma TableSize(g: Graph, nodes: map<Id, Node>)
    requires nodes == NodeTable(g.nodes)
    ensures |nodes| == |g.nodes| <==> Distinct(IdsOf(g.nodes))
  {
    NodeIdsAreElements(g);
    DistinctCount(IdsOf(g.nodes));
    assert nodes.Keys == NodeIds(g);
    assert |nodes| == |nodes.Keys|;
  }

  // ----- What acceptance gives the rest of the compiler -----

  lemma {:induction false} EdgeCounted(edges: seq<Edge>, id: Id, p: string, e: Edge)
    requires e in edges && e.target == id && e.targetPort == p
    ensures EdgeCount(edges, id, p) >= 1
  {
    var init, last := edges[..|edges| - 1], edges[|edges| - 1];
    assert edges == init + [last];
    if e != last {
      EdgeCounted(init, id, p, e);
    }
  }

  lemma {:induction false} TwoEdgesCounted(edges: seq<Edge>, id: Id, p: string, i: nat, j: nat)
    requires i < j < |edges|
    requires edges[i].target == id && edges[i].targetPort == p && edges[j].target == id && edges[j].targetPort == p
    ensures EdgeCount(edges, id, p) >= 2
  {
    var init, last := edges[..|edges| - 1], edges[|edges| - 1];
    if j == |edges| - 1 {
      EdgeCounted(init, id, p, init[i]);
    } else {
      TwoEdgesCounted(init, id, p, i, j);
    }
  }

  lemma TwoInSet<T>(s: set<T>, a: T, b: T)
    requires a in s && b in s && a != b
    ensures |s| >= 2
  {
    assert |s - {a}| >= 1 by { assert b in s - {a}; }
  }

  lemma PortCountAtMostOne(g: Graph, rules: Rules, n: Node, p: string)
    requires Accepted(g, rules) && n in g.nodes && p in DefinitionOf(rules, n).inputPorts
    ensures SourceCount(g, n, p) <= 1
  {
    assert NodeOk(g, rules, n);
  }

  /** A bound port of an accepted graph is a declared port of its node. */
  lemma BoundPortDeclared(g: Graph, rules: Rules, id: Id, p: string)
    requires Accepted(g, rules)
    requires (exists e :: e in g.edges && e.target == id && e.targetPort == p) ||
             (exists name :: name in g.inputs && g.inputs[name] == Binding(id, p))
    ensures id in NodeIds(g) && SourceCount(g, NodeAt(g, id), p) <= 1
  {
    if e :| e in g.edges && e.target == id && e.targetPort == p {
      assert EdgeOk(NodeTable(g.nodes), rules, e);
    } else {
      var name :| name in g.inputs && g.inputs[name] == Binding(id, p);
      assert InputOk(NodeTable(g.nodes), rules, g.inputs[name]);
    }
    NodeTableAt(g, id);
    PortCountAtMostOne(g, rules, NodeAt(g, id), p);
  }

  lemma AcceptedWellFormed(g: Graph, rules: Rules)
    requires Accepted(g, rules)
    ensures WellFormed(g)
  {
    forall e | e in g.edges
      ensures e.source in NodeIds(g) && e.target in NodeIds(g)
    {
      assert EdgeOk(NodeTable(g.nodes), rules, e);
    }
    forall name | name in g.inputs
      ensures g.inputs[name].node in NodeIds(g)
    {
      assert InputOk(NodeTable(g.nodes), rules, g.inputs[name]);
    }
    forall name | name in g.outputs
      ensures g.outputs[name].node in NodeIds(g)
    {
      assert OutputOk(NodeTable(g.nodes), rules, g.outputs[name]);
    }
  }

  /** Two stored edges, even equal ones, never share a target port. */
  lemma AcceptedEdgesApart(g: Graph, rules: Rules, i: nat, j: nat)
    requires Accepted(g, rules) && i < j < |g.edges|
    ensures g.edges[i].target != g.edges[j].target || g.edges[i].targetPort != g.edges[j].targetPort
  {
    var e, f := g.edges[i], g.edges[j];
    if e.target == f.target && e.targetPort == f.targetPort {
      BoundPortDeclared(g, rules, e.target, e.targetPort);
      TwoEdgesCounted(g.edges, e.target, e.targetPort, i, j);
    }
  }

  lemma AcceptedEdges(g: Graph, rules: Rules, e: Edge, f: Edge)
    requires Accepted(g, rules) && e in g.edges && f in g.edges && e.target == f.target && e.targetPort == f.targetPort
    ensures e == f
  {
    hide Accepted;
    var i :| 0 <= i < |g.edges| && g.edges[i] == e;
    var j :| 0 <= j < |g.edges| && g.edges[j] == f;
    if i < j {
      AcceptedEdgesApart(g, rules, i, j);
    } else if j < i {
      AcceptedEdgesApart(g, rules, j, i);
    }
  }

  lemma AcceptedEdgesDistinct(g: Graph, rules: Rules)
    requires Accepted(g, rules)
    ensures Distinct(g.edges)
  {
    forall i, j | 0 <= i < j < |g.edges|
      ensures g.edges[i] != g.edges[j]
    {
      AcceptedEdgesApart(g, rules, i, j);
    }
  }

  lemma AcceptedMixed(g: Graph, rules: Rules, e: Edge, name: string)
    requires Accepted(g, rules) && e in g.edges && name in g.inputs
    ensures g.inputs[name] != Binding(e.target, e.targetPort)
  {
    hide Accepted;
    assert g.inputs[name] == Binding(e.target, e.targetPort) ==> name in InputNames(g, e.target, e.targetPort);
    BoundPortDeclared(g, rules, e.target, e.targetPort);
    EdgeCounted(g.edges, e.target, e.targetPort, e);
  }

  lemma AcceptedInputs(g: Graph, rules: Rules, a: string, b: string)
    requires Accepted(g, rules) && a in g.inputs && b in g.inputs && g.inputs[a] == g.inputs[b]
    ensures a == b
  {
    BoundPortDeclared(g, rules, g.inputs[a].node, g.inputs[a].port);
    if a != b { TwoInSet(InputNames(g, g.inputs[a].node, g.inputs[a].port), a, b); }
  }

  lemma AcceptedLiterals(g: Graph, rules: Rules, n: Node, p: string)
    requires Accepted(g, rules) && n in g.nodes
    requires (exists e :: e in g.edges && e.target == n.id && e.targetPort == p) ||
             (exists name :: name in g.inputs && g.inputs[name] == Binding(n.id, p))
    ensures p !in n.inputs
  {
    BoundPortDeclared(g, rules, n.id, p);
    UniqueNode(g, n, NodeAt(g, n.id));
    if e :| e in g.edges && e.target == n.id && e.targetPort == p {
      EdgeCounted(g.edges, n.id, p, e);
    } else {
      var name :| name in g.inputs && g.inputs[name] == Binding(n.id, p);
      assert name in InputNames(g, n.id, p);
    }
  }

  /** In an accepted graph every port has at most one binding. */
  lemma AcceptedBoundOnce(g: Graph, rules: Rules)
    requires Accepted(g, rules)
    ensures BoundOnce(g)
  {
    forall e, f | e in g.edges && f in g.edges && e.target == f.target && e.targetPort == f.targetPort ensures e == f {
      AcceptedEdges(g, rules, e, f);
    }
    forall e, name | e in g.edges && name in g.inputs ensures g.inputs[name] != Binding(e.target, e.targetPort) {
      AcceptedMixed(g, rules, e, name);
    }
    forall a, b | a in g.inputs && b in g.inputs && g.inputs[a] == g.inputs[b] ensures a == b {
      AcceptedInputs(g, rules, a, b);
    }
    forall n, e | n in g.nodes && e in g.edges && e.target == n.id ensures e.targetPort !in n.inputs {
      AcceptedLiterals(g, rules, n, e.targetPort);
    }
    forall n, name | n in g.nodes && name in g.inputs && g.inputs[name].node == n.id ensures g.inputs[name].port !in n.inputs {
      assert g.inputs[name] == Binding(n.id, g.inputs[name].port);
      AcceptedLiterals(g, rules, n, g.inputs[name].port);
    }
  }

  /** No port receives two values. */
  ghost predicate Functional(env: Env)
  {
    forall x, y :: x in env && y in env && x.0 == y.0 ==> x == y
  }

  lemma BoundOnceFunctional(g: Graph, ext: Env, v: Valuation, n: Node)
    requires BoundOnce(g) && n in g.nodes && Functional(ext)
    ensures Functional(EnvOf(g, ext, v, n))
  {
    forall x, y | x in EnvOf(g, ext, v, n) && y in EnvOf(g, ext, v, n) && x.0 == y.0
      ensures x == y
    {
      OneSource(g, ext, v, n, x, y);
    }
  }

  lemma OneSource(g: Graph, ext: Env, v: Valuation, n: Node, x: (string, Json), y: (string, Json))
    requires BoundOnce(g) && n in g.nodes && Functional(ext)
    requires x in EnvOf(g, ext, v, n) && y in EnvOf(g, ext, v, n) && x.0 == y.0
    ensures x == y
  {
    if x in Literals(n) {
      assert y !in Fed(g, v, n.id) && y !in External(g, ext, n.id);
    } else if x in Fed(g, v, n.id) {
      assert y !in Literals(n) && y !in External(g, ext, n.id);
    } else {
      assert y !in Literals(n) && y !in Fed(g, v, n.id);
    }
  }

  /** Acceptance makes evaluation total and unambiguous: there is exactly one valuation, and
      under it no port of any node receives two values. */
  lemma AcceptedEvaluates(g: Graph, rules: Rules, sem: Sem, ext: Env)
    requires Accepted(g, rules) && Functional(ext)
    ensures exists v :: Solves(g, sem, ext, v)
    ensures forall v, w :: Solves(g, sem, ext, v) && Solves(g, sem, ext, w) ==> v == w
    ensures forall v, n :: Solves(g, sem, ext, v) && n in g.nodes ==> Functional(EnvOf(g, ext, v, n))
  {
    AcceptedWellFormed(g, rules);
    AcceptedBoundOnce(g, rules);
    AcyclicSolvable(g, sem, ext);
    forall v, w | Solves(g, sem, ext, v) && Solves(g, sem, ext, w)
      ensures v == w
    {
      SolutionUnique(g, sem, ext, v, w);
    }
    forall v, n | Solves(g, sem, ext, v) && n in g.nodes
      ensures Functional(EnvOf(g, ext, v, n))
    {
      BoundOnceFunctional(g, ext, v, n);
    }
  }
}
