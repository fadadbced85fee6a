/** When a call fits the graph behind it, and what each error code of an expansion tells, said of
    the stored graphs (src/comfyng/graph/subgraphs.py:148-311, 341-400). */
module CallDefects {
  import opened Ids
  import opened Layering
  import opened Graphs
  import opened Semantics
  import opened Inlining
  import opened InlineCall
  import opened Expansion
  import opened Expand
  import opened Traces

  // ----- The reading -----

  ghost predicate HasNode(x: Graph, id: Id)
  {
    exists n :: n in x.nodes && n.id == id
  }

  /** The call is used at this input port: by a literal, an edge or a graph input. */
  ghost predicate UsedInput(g: Graph, call: Node, port: string)
  {
    || port in call.inputs
    || (exists e :: e in g.edges && e.target == call.id && e.targetPort == port)
    || (exists name :: name in g.inputs && g.inputs[name] == Binding(call.id, port))
  }

  /** The call is used at this output port. An edge from the call to itself only counts as an
      input. */
  ghost predicate UsedOutput(g: Graph, call: Node, port: string)
  {
    || (exists e :: e in g.edges && e.source == call.id && e.target != call.id && e.sourcePort == port)
    || (exists name :: name in g.outputs && g.outputs[name] == Binding(call.id, port))
  }

  /** Some clone would get the id of another node of the graph. */
  ghost predicate Collides(g: Graph, call: Node, child: Graph)
  {
    exists m, n :: m in child.nodes && n in g.nodes && n.id != call.id && n.id == Clone(call.id, child.id, child.version, m.id)
  }

  /** A literal of the call leads to a port that has a literal in the child already. */
  ghost predicate BoundInside(call: Node, child: Graph)
  {
    exists q, m :: q in call.inputs && q in child.inputs && m in child.nodes && child.inputs[q].node == m.id && child.inputs[q].port in m.inputs
  }

  /** A port of the call has a literal and an edge. */
  ghost predicate BoundTwice(g: Graph, call: Node)
  {
    exists e :: e in g.edges && e.target == call.id && e.targetPort in call.inputs
  }

  ghost predicate UnknownInput(g: Graph, call: Node, child: Graph)
  {
    exists port :: UsedInput(g, call, port) && port !in child.inputs
  }

  ghost predicate UnknownOutput(g: Graph, call: Node, child: Graph)
  {
    exists port :: UsedOutput(g, call, port) && port !in child.outputs
  }

  /** An edge or a graph binding leads to a boundary port that leads to no node. */
  ghost predicate DanglingInput(g: Graph, call: Node, child: Graph)
  {
    exists port ::
      && port in child.inputs && !HasNode(child, child.inputs[port].node)
      && ((exists e :: e in g.edges && e.target == call.id && e.targetPort == port)
          || (exists name :: name in g.inputs && g.inputs[name] == Binding(call.id, port)))
  }

  ghost predicate DanglingOutput(g: Graph, call: Node, child: Graph)
  {
    exists port :: UsedOutput(g, call, port) && port in child.outputs && !HasNode(child, child.outputs[port].node)
  }

  ghost predicate DanglingEdge(child: Graph)
  {
    exists e :: e in child.edges && !(HasNode(child, e.source) && HasNode(child, e.target))
  }

  ghost predicate NoKind(call: Node)
  {
    forall kind :: !DeclaresKind(call, kind)
  }

  /** What is wrong when this code is reported. */
  ghost predicate Defect(g: Graph, call: Node, child: Graph, code: string)
  {
    || (code == "empty_subgraph" && child.nodes == [])
    || (code == "invalid_subgraph_kind" && NoKind(call))
    || (code == "subgraph_node_collision" && Collides(g, call, child))
    || (code == "unknown_subgraph_input" && UnknownInput(g, call, child))
    || (code == "multiple_subgraph_input" && (BoundInside(call, child) || BoundTwice(g, call)))
    || (code == "unknown_subgraph_output" && UnknownOutput(g, call, child))
    || (code == "invalid_subgraph_binding" && (DanglingInput(g, call, child) || DanglingOutput(g, call, child)))
    || (code == "invalid_subgraph_edge" && DanglingEdge(child))
  }

  ghost predicate Defective(g: Graph, call: Node, child: Graph)
  {
    exists code :: Defect(g, call, child, code)
  }

  // ----- It is what the expansion checks -----

  lemma HasNodeIff(x: Graph, id: Id)
    ensures HasNode(x, id) <==> id in NodeIds(x)
  {
  }

  lemma CloneIn(call: Node, child: Graph, id: Id)
    ensures id in CloneIds(call, child) <==> exists m :: m in child.nodes && id == Clone(call.id, child.id, child.version, m.id)
  {
    if id in CloneIds(call, child) {
      var inner :| inner in NodeIds(child) && id == CloneId(call, child, inner);
      var m :| m in child.nodes && m.id == inner;
    }
    if m :| m in child.nodes && id == Clone(call.id, child.id, child.version, m.id) {
      assert m.id in NodeIds(child) && id == CloneId(call, child, m.id);
    }
  }

  lemma CollidesIff(g: Graph, call: Node, child: Graph)
    ensures Collides(g, call, child) <==> !NoCollision(g, call, child)
  {
    hide CloneIds, CloneId;
    if !NoCollision(g, call, child) {
      var id :| id in NodeIds(g) - {call.id} && id in CloneIds(call, child);
      var n :| n in g.nodes && n.id == id;
      CloneIn(call, child, id);
    }
    if m, n :| m in child.nodes && n in g.nodes && n.id != call.id && n.id == Clone(call.id, child.id, child.version, m.id) {
      CloneIn(call, child, n.id);
      assert n.id in NodeIds(g) - {call.id};
    }
  }

  lemma BoundInsideIff(call: Node, child: Graph)
    ensures BoundInside(call, child) <==> !LiteralsFit(call, child)
  {
    if q, m :| q in call.inputs && q in child.inputs && m in child.nodes && child.inputs[q].node == m.id && child.inputs[q].port in m.inputs {
      assert LandsOn(call, child, q, m.id, child.inputs[q].port);
      assert !NoClash(call, child, m);
    }
    if !LiteralsFit(call, child) {
      var m :| m in child.nodes && !NoClash(call, child, m);
      var p, q :| LandsOn(call, child, q, m.id, p) && p in m.inputs;
    }
  }

  lemma KindIff(call: Node)
    ensures NoKind(call) <==> TraceKind(call).None?
  {
    forall kind
      ensures TraceKind(call) == Some(kind) <==> DeclaresKind(call, kind)
    {
      KindIsDeclared(call, kind);
    }
    hide DeclaresKind, TraceKind;
    if TraceKind(call).Some? { assert DeclaresKind(call, TraceKind(call).value); }
  }

  /** The boundary check of one edge or binding reports a real defect. */
  lemma InputCodeTells(g: Graph, call: Node, child: Graph, port: string, code: string)
    requires code == InputCode(child, port) && code != ""
    requires (exists e :: e in g.edges && e.target == call.id && e.targetPort == port)
             || (exists name :: name in g.inputs && g.inputs[name] == Binding(call.id, port))
    ensures Defect(g, call, child, code)
  {
    if port in child.inputs {
      HasNodeIff(child, child.inputs[port].node);
      assert DanglingInput(g, call, child);
    } else {
      assert UsedInput(g, call, port);
    }
  }

  lemma OutputCodeTells(g: Graph, call: Node, child: Graph, port: string, code: string)
    requires code == OutputCode(child, port) && code != "" && UsedOutput(g, call, port)
    ensures Defect(g, call, child, code)
  {
    if port in child.outputs {
      HasNodeIff(child, child.outputs[port].node);
      assert DanglingOutput(g, call, child);
    }
  }

  lemma {:induction false} FirstCodeIsOf(edges: seq<Edge>, call: Node, child: Graph) returns (e: Edge)
    requires FirstEdgeCode(edges, call, child) != ""
    ensures e in edges && EdgeCode(call, child, e) == FirstEdgeCode(edges, call, child)
  {
    var init, last := edges[..|edges| - 1], edges[|edges| - 1];
    assert edges == init + [last];
    e := last;
    if FirstEdgeCode(init, call, child) != "" {
      e := FirstCodeIsOf(init, call, child);
    }
  }

  lemma EdgeCodeTells(g: Graph, call: Node, child: Graph, e: Edge)
    requires e in g.edges && EdgeCode(call, child, e) != ""
    ensures Defect(g, call, child, EdgeCode(call, child, e))
  {
    if e.target == call.id {
      InputCodeTells(g, call, child, e.targetPort, EdgeCode(call, child, e));
    } else {
      assert UsedOutput(g, call, e.sourcePort);
      OutputCodeTells(g, call, child, e.sourcePort, EdgeCode(call, child, e));
    }
  }

  lemma DanglingEdgeIff(child: Graph)
    ensures DanglingEdge(child) <==> !ChildEdgesInside(child)
  {
    forall id
      ensures HasNode(child, id) <==> id in NodeIds(child)
    {
      HasNodeIff(child, id);
    }
    hide HasNode, NodeIds;
  }

  /** Every error code of a call that does not fit tells what is wrong with it. */
  lemma UnfitTells(g: Graph, call: Node, child: Graph, code: string)
    requires Unfit(g, call, child, code)
    ensures Defect(g, call, child, code)
  {
    hide NoCollision, LiteralsFit, Collides, BoundInside, DanglingEdge, ChildEdgesInside, FirstEdgeCode, TraceKind, NoKind,
         UnknownInput, UnknownOutput, DanglingInput, DanglingOutput, EdgesInKnown, EdgesOutKnown, InputCode, OutputCode;
    KindIff(call);
    CollidesIff(g, call, child);
    BoundInsideIff(call, child);
    DanglingEdgeIff(child);
    EdgesFitIff(g, call, child);
    if child.nodes == [] || TraceKind(call).None? || !NoCollision(g, call, child) {
    } else if !LiteralsKnown(call, child) {
      LiteralUnknown(g, call, child);
    } else if !LiteralsFit(call, child) || !PortsFree(g, call) {
    } else if FirstEdgeCode(g.edges, call, child) != "" {
      var e := FirstCodeIsOf(g.edges, call, child);
      EdgeCodeTells(g, call, child, e);
    } else if !ChildEdgesInside(child) {
    } else if !InputsKnown(g, call, child) {
      var name :| name in g.inputs && g.inputs[name].node == call.id && code == InputCode(child, g.inputs[name].port);
      assert g.inputs[name] == Binding(call.id, g.inputs[name].port);
      InputCodeTells(g, call, child, g.inputs[name].port, code);
    } else {
      var name :| name in g.outputs && g.outputs[name].node == call.id && code == OutputCode(child, g.outputs[name].port);
      assert g.outputs[name] == Binding(call.id, g.outputs[name].port);
      assert UsedOutput(g, call, g.outputs[name].port);
      OutputCodeTells(g, call, child, g.outputs[name].port, code);
    }
  }

  /** Which defect is reported when there are several: the checks come in this order. Only edges
      and bindings are left after the last one. */
  lemma DefectsComeInOrder(g: Graph, call: Node, child: Graph, code: string)
    requires Unfit(g, call, child, code)
    ensures if child.nodes == [] then code == "empty_subgraph"
            else if NoKind(call) then code == "invalid_subgraph_kind"
            else if Collides(g, call, child) then code == "subgraph_node_collision"
            else if exists p :: p in call.inputs && p !in child.inputs then code == "unknown_subgraph_input"
            else BoundInside(call, child) || BoundTwice(g, call) ==> code == "multiple_subgraph_input"
  {
    hide NoCollision, LiteralsFit, Collides, BoundInside, FirstEdgeCode, TraceKind, NoKind, EdgesInKnown, EdgesOutKnown;
    KindIff(call);
    CollidesIff(g, call, child);
    BoundInsideIff(call, child);
  }

  lemma LiteralUnknown(g: Graph, call: Node, child: Graph)
    requires !LiteralsKnown(call, child)
    ensures UnknownInput(g, call, child)
  {
    var p :| p in call.inputs && p !in child.inputs;
    assert UsedInput(g, call, p);
  }

  /** Used ports of a call that fits lead somewhere. */
  lemma FittingPorts(g: Graph, call: Node, child: Graph)
    requires Inlinable(g, call, child)
    ensures !UnknownInput(g, call, child) && !UnknownOutput(g, call, child)
    ensures !DanglingInput(g, call, child) && !DanglingOutput(g, call, child)
  {
    hide NoCollision, LiteralsFit, ChildEdgesInside, PortsFree;
    forall id
      ensures HasNode(child, id) <==> id in NodeIds(child)
    {
      HasNodeIff(child, id);
    }
    hide HasNode, NodeIds;
    forall port | UsedInput(g, call, port)
      ensures port in child.inputs
    {
    }
    forall port | UsedOutput(g, call, port)
      ensures port in child.outputs && HasNode(child, child.outputs[port].node)
    {
    }
  }

  /** A call is replaced by its expanded child exactly when nothing is wrong with it. */
  lemma ReplacedIffSound(g: Graph, call: Node, child: Graph)
    ensures child.nodes != [] && TraceKind(call).Some? && Inlinable(g, call, child) <==> !Defective(g, call, child)
  {
    hide Inlinable, Cause, TraceKind, NoKind, Collides, BoundInside, DanglingEdge, UnknownInput, UnknownOutput, DanglingInput,
         DanglingOutput, BoundTwice;
    KindIff(call);
    if child.nodes != [] && TraceKind(call).Some? && Inlinable(g, call, child) {
      FittingPorts(g, call, child);
      FittingChecks(g, call, child);
    } else {
      var code := SomeCode(g, call, child);
      UnfitTells(g, call, child, code);
    }
  }

  lemma FittingChecks(g: Graph, call: Node, child: Graph)
    requires Inlinable(g, call, child)
    ensures !Collides(g, call, child) && !BoundInside(call, child) && !BoundTwice(g, call) && !DanglingEdge(child)
  {
    hide NoCollision, LiteralsFit, Collides, BoundInside, DanglingEdge, ChildEdgesInside;
    CollidesIff(g, call, child);
    BoundInsideIff(call, child);
    DanglingEdgeIff(child);
  }

  /** Whatever does not fit is reported under some code. */
  lemma SomeCode(g: Graph, call: Node, child: Graph) returns (code: string)
    requires child.nodes == [] || TraceKind(call).None? || !Inlinable(g, call, child)
    ensures Unfit(g, call, child, code)
  {
    hide NoCollision, LiteralsFit, ChildEdgesInside, FirstEdgeCode, TraceKind, EdgesInKnown, EdgesOutKnown, InputCode, OutputCode;
    EdgesFitIff(g, call, child);
    if child.nodes == [] { code := "empty_subgraph"; }
    else if TraceKind(call).None? { code := "invalid_subgraph_kind"; }
    else if !NoCollision(g, call, child) { code := "subgraph_node_collision"; }
    else if !LiteralsKnown(call, child) { code := "unknown_subgraph_input"; }
    else if !LiteralsFit(call, child) || !PortsFree(g, call) { code := "multiple_subgraph_input"; }
    else if FirstEdgeCode(g.edges, call, child) != "" { code := FirstEdgeCode(g.edges, call, child); }
    else if !ChildEdgesInside(child) { code := "invalid_subgraph_edge"; }
    else if !InputsKnown(g, call, child) {
      var name :| name in g.inputs && g.inputs[name].node == call.id && !BoundInChild(child.inputs, child, g.inputs[name].port);
      code := InputCode(child, g.inputs[name].port);
      UnboundInput(child, g.inputs[name].port);
    } else {
      var name :| name in g.outputs && g.outputs[name].node == call.id && !BoundInChild(child.outputs, child, g.outputs[name].port);
      code := OutputCode(child, g.outputs[name].port);
      UnboundInput(child, g.outputs[name].port);
    }
  }

  lemma UnboundInput(child: Graph, port: string)
    ensures InputCode(child, port) == "" <==> BoundInChild(child.inputs, child, port)
    ensures OutputCode(child, port) == "" <==> BoundInChild(child.outputs, child, port)
  {
  }
}
