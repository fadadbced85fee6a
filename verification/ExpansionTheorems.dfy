/** The order in which calls are inlined does not matter (src/comfyng/graph/subgraphs.py:340-406). */
module ExpansionTheorems {
  import opened Ids
  import opened Layering
  import opened Graphs
  import Semantics
  import opened Inlining
  import opened Expansion
  import opened Expand
  import opened Meaning

  // ----- Facts that need no acyclicity -----

  lemma {:induction false} DerivedHasNoCalls(d: Derivation, g: Graph, registry: Registry, x: Graph)
    requires Derives(d, g, registry, x)
    ensures NoCalls(x, registry)
    decreases d
  {
    match d
    case Done =>
    case Inline(call, inner, child, after, rest) =>
      DerivedHasNoCalls(rest, after, registry, x);
  }

  lemma {:induction false} DerivedUnique(d: Derivation, g: Graph, registry: Registry, x: Graph)
    requires Derives(d, g, registry, x) && UniqueIds(g) && forall key :: key in registry ==> UniqueIds(registry[key])
    ensures UniqueIds(x)
    decreases d
  {
    match d
    case Done =>
    case Inline(call, inner, child, after, rest) =>
      DerivedUnique(inner, registry[KeyOf(call)], registry, child);
      InliningIdsUnique(g, call, child, after);
      DerivedUnique(rest, after, registry, x);
  }

  /** Ordinary nodes stay in the graph to the end. */
  lemma {:induction false} OrdinarySurvives(d: Derivation, g: Graph, registry: Registry, x: Graph, n: Node)
    requires Derives(d, g, registry, x) && UniqueIds(g) && forall key :: key in registry ==> UniqueIds(registry[key])
    requires n in g.nodes && KeyOf(n) !in registry
    ensures n in x.nodes
    decreases d
  {
    match d
    case Done =>
    case Inline(call, inner, child, after, rest) =>
      if n.id == call.id { UniqueNode(g, n, call); }
      NodesOfInlining(g, call, child, after, n);
      DerivedUnique(inner, registry[KeyOf(call)], registry, child);
      InliningIdsUnique(g, call, child, after);
      OrdinarySurvives(rest, after, registry, x, n);
  }

  // ----- The order of inlining does not matter -----

  /** Equal up to the order in which nodes and edges are stored. */
  ghost predicate SameGraph(x: Graph, y: Graph)
  {
    && x.id == y.id && x.version == y.version && x.inputs == y.inputs && x.outputs == y.outputs
    && (forall n :: n in x.nodes <==> n in y.nodes)
    && (forall e :: e in x.edges <==> e in y.edges)
  }

  type Kids = map<Id, Graph>

  /** Where an output port of a node leads once all calls are replaced. */
  function OutputEnd(kids: Kids, b: Binding): Binding
  {
    if b.node !in kids then b
    else
      var kid := kids[b.node];
      var inner := InnerOutput(kid, b.port);
      Binding(Clone(b.node, kid.id, kid.version, inner.node), inner.port)
  }

  function InputEnd(kids: Kids, b: Binding): Binding
  {
    if b.node !in kids then b
    else
      var kid := kids[b.node];
      var inner := InnerInput(kid, b.port);
      Binding(Clone(b.node, kid.id, kid.version, inner.node), inner.port)
  }

  /** An edge with both ends replaced at once. */
  function FlatEdge(kids: Kids, e: Edge): Edge
  {
    var s, t := OutputEnd(kids, Binding(e.source, e.sourcePort)), InputEnd(kids, Binding(e.target, e.targetPort));
    Edge(s.node, s.port, t.node, t.port)
  }

  ghost predicate NodeOfCall(g: Graph, registry: Registry, kids: Kids, c: Node, m: Node, n: Node)
  {
    c in g.nodes && KeyOf(c) in registry && c.id in kids && m in kids[c.id].nodes && CloneOf(c, kids[c.id], m, n)
  }

  ghost predicate FlatNodeIn(g: Graph, registry: Registry, kids: Kids, n: Node)
  {
    (n in g.nodes && KeyOf(n) !in registry) || exists c, m :: NodeOfCall(g, registry, kids, c, m, n)
  }

  ghost predicate EdgeOfCall(g: Graph, registry: Registry, kids: Kids, c: Node, f: Edge, e: Edge)
  {
    c in g.nodes && KeyOf(c) in registry && c.id in kids && f in kids[c.id].edges && e == CloneEdge(c, kids[c.id], f)
  }

  ghost predicate FlatEdgeIn(g: Graph, registry: Registry, kids: Kids, e: Edge)
  {
    (exists f :: f in g.edges && e == FlatEdge(kids, f)) || exists c, f :: EdgeOfCall(g, registry, kids, c, f, e)
  }

  /** All calls replaced at the same time: no order is involved. */
  ghost predicate IsFlat(g: Graph, registry: Registry, kids: Kids, x: Graph)
  {
    && x.id == g.id && x.version == g.version
    && x.inputs == (map name | name in g.inputs :: InputEnd(kids, g.inputs[name]))
    && x.outputs == (map name | name in g.outputs :: OutputEnd(kids, g.outputs[name]))
    && (forall n :: n in x.nodes <==> FlatNodeIn(g, registry, kids, n))
    && (forall e :: e in x.edges <==> FlatEdgeIn(g, registry, kids, e))
  }

  /** With distinct input ports there is only one clone. */
  lemma CloneUnique(call: Node, child: Graph, m: Node, n: Node, n': Node)
    requires InputsApart(child) && CloneOf(call, child, m, n) && CloneOf(call, child, m, n')
    ensures n == n'
  {
    forall p | p in n.inputs
      ensures n.inputs[p] == n'.inputs[p]
    {
      if p !in m.inputs {
        var q :| LandsOn(call, child, q, m.id, p) && n.inputs[p] == call.inputs[q];
        var q' :| LandsOn(call, child, q', m.id, p) && n'.inputs[p] == call.inputs[q'];
      }
    }
    assert n.inputs == n'.inputs;
  }

  lemma CloneIsIn(g: Graph, call: Node, child: Graph, after: Graph, m: Node, n: Node)
    requires IsInlining(g, call, child, after) && InputsApart(child) && CameFrom(call, child, m, n)
    ensures n in after.nodes
  {
    var n' := CloneInInlining(g, call, child, after, m);
    var m' := m;
    CloneUnique(call, child, m, n, n');
  }

  /** One sequential inlining followed by a simultaneous replacement of the rest. */
  ghost predicate FlatSetting(g: Graph, registry: Registry, call: Node, child: Graph, after: Graph, kids: Kids, x: Graph)
  {
    && CallSite(g, call, child, after) && KeyOf(call) in registry && NoCalls(child, registry) && InputsApart(child)
    && IsFlat(after, registry, kids, x)
    && (forall id :: id in kids ==> id in NodeIds(g) && id != call.id)
  }

  lemma FlatEdgeStep(g: Graph, call: Node, child: Graph, kids: Kids, e: Edge)
    requires NoCollision(g, call, child) && EdgesInKnown(g, call, child) && EdgesOutKnown(g, call, child)
    requires e in g.edges && !(e.source == call.id && e.target == call.id)
    requires forall id :: id in kids ==> id in NodeIds(g) && id != call.id
    ensures FlatEdge(kids, RewriteEdge(call, child, e)) == FlatEdge(kids[call.id := child], e)
  {
    if e.target == call.id {
      assert CloneId(call, child, InnerInput(child, e.targetPort).node) in CloneIds(call, child);
    } else if e.source == call.id {
      assert CloneId(call, child, InnerOutput(child, e.sourcePort).node) in CloneIds(call, child);
    }
  }

  lemma FlatCloneEdge(g: Graph, call: Node, child: Graph, kids: Kids, f: Edge)
    requires NoCollision(g, call, child) && ChildEdgesInside(child) && f in child.edges
    requires forall id :: id in kids ==> id in NodeIds(g) && id != call.id
    ensures FlatEdge(kids, CloneEdge(call, child, f)) == CloneEdge(call, child, f)
  {
    assert CloneId(call, child, f.source) in CloneIds(call, child);
    assert CloneId(call, child, f.target) in CloneIds(call, child);
  }

  lemma FlatStepNodes(g: Graph, registry: Registry, call: Node, child: Graph, after: Graph, kids: Kids, x: Graph, n: Node)
    requires FlatSetting(g, registry, call, child, after, kids, x)
    ensures n in x.nodes <==> FlatNodeIn(g, registry, kids[call.id := child], n)
  {
    var all := kids[call.id := child];
    InliningFewerCalls(g, call, child, after, registry);
    NodesOfInlining(g, call, child, after, n);
    if n in x.nodes {
      if n in after.nodes && KeyOf(n) !in registry {
        if m :| CameFrom(call, child, m, n) {
          assert NodeOfCall(g, registry, all, call, m, n);
        }
      } else {
        var c, m :| NodeOfCall(after, registry, kids, c, m, n);
        assert NodeOfCall(g, registry, all, c, m, n);
      }
    }
    if FlatNodeIn(g, registry, all, n) {
      if n in g.nodes && KeyOf(n) !in registry {
        if n.id == call.id { UniqueNode(g, n, call); }
      } else {
        var c, m :| NodeOfCall(g, registry, all, c, m, n);
        if c.id == call.id {
          UniqueNode(g, c, call);
          assert CameFrom(call, child, m, n);
          CloneIsIn(g, call, child, after, m, n);
          assert KeyOf(n) == KeyOf(m);
        } else {
          NodesOfInlining(g, call, child, after, c);
          assert NodeOfCall(after, registry, kids, c, m, n);
        }
      }
    }
  }

  lemma FlatStepEdges(g: Graph, registry: Registry, call: Node, child: Graph, after: Graph, kids: Kids, x: Graph, e: Edge)
    requires FlatSetting(g, registry, call, child, after, kids, x)
    ensures e in x.edges ==> FlatEdgeIn(g, registry, kids[call.id := child], e)
  {
    var all := kids[call.id := child];
    EdgesOfInlining(g, call, child, after);
    if e in x.edges {
      if f :| f in after.edges && e == FlatEdge(kids, f) {
        if FromParent(g, call, child, f) {
          var h :| h in g.edges && f == RewriteEdge(call, child, h);
          FlatEdgeStep(g, call, child, kids, h);
        } else {
          var h :| h in child.edges && f == CloneEdge(call, child, h);
          FlatCloneEdge(g, call, child, kids, h);
          assert EdgeOfCall(g, registry, all, call, h, e);
        }
      } else {
        var c, f :| EdgeOfCall(after, registry, kids, c, f, e);
        InliningFewerCalls(g, call, child, after, registry);
        assert EdgeOfCall(g, registry, all, c, f, e);
      }
    }
  }

  lemma FlatStepEdgesBack(g: Graph, registry: Registry, call: Node, child: Graph, after: Graph, kids: Kids, x: Graph, e: Edge)
    requires FlatSetting(g, registry, call, child, after, kids, x)
    requires FlatEdgeIn(g, registry, kids[call.id := child], e)
    ensures e in x.edges
  {
    var all := kids[call.id := child];
    EdgesOfInlining(g, call, child, after);
    if h :| h in g.edges && e == FlatEdge(all, h) {
      FlatEdgeStep(g, call, child, kids, h);
      assert RewriteEdge(call, child, h) in after.edges;
    } else {
      var c, f :| EdgeOfCall(g, registry, all, c, f, e);
      if c.id == call.id {
        UniqueNode(g, c, call);
        FlatCloneEdge(g, call, child, kids, f);
        assert CloneEdge(call, child, f) in after.edges;
      } else {
        NodesOfInlining(g, call, child, after, c);
        assert EdgeOfCall(after, registry, kids, c, f, e);
      }
    }
  }

  lemma FlatInput(g: Graph, call: Node, child: Graph, kids: Kids, b: Binding)
    requires NoCollision(g, call, child) && (b.node == call.id ==> BoundInChild(child.inputs, child, b.port))
    requires forall id :: id in kids ==> id in NodeIds(g) && id != call.id
    ensures InputEnd(kids, RewriteInput(call, child, b)) == InputEnd(kids[call.id := child], b)
  {
    if b.node == call.id {
      assert CloneId(call, child, InnerInput(child, b.port).node) in CloneIds(call, child);
    }
  }

  lemma FlatOutput(g: Graph, call: Node, child: Graph, kids: Kids, b: Binding)
    requires NoCollision(g, call, child) && (b.node == call.id ==> BoundInChild(child.outputs, child, b.port))
    requires forall id :: id in kids ==> id in NodeIds(g) && id != call.id
    ensures OutputEnd(kids, RewriteOutput(call, child, b)) == OutputEnd(kids[call.id := child], b)
  {
    if b.node == call.id {
      assert CloneId(call, child, InnerOutput(child, b.port).node) in CloneIds(call, child);
    }
  }

  lemma FlatStepInputs(g: Graph, call: Node, child: Graph, after: Graph, kids: Kids, x: Graph)
    requires NoCollision(g, call, child) && InputsKnown(g, call, child)
    requires after.inputs == map name | name in g.inputs :: RewriteInput(call, child, g.inputs[name])
    requires x.inputs == map name | name in after.inputs :: InputEnd(kids, after.inputs[name])
    requires forall id :: id in kids ==> id in NodeIds(g) && id != call.id
    ensures x.inputs == map name | name in g.inputs :: InputEnd(kids[call.id := child], g.inputs[name])
  {
    forall name | name in g.inputs
      ensures x.inputs[name] == InputEnd(kids[call.id := child], g.inputs[name])
    {
      FlatInput(g, call, child, kids, g.inputs[name]);
    }
  }

  lemma FlatStepOutputs(g: Graph, call: Node, child: Graph, after: Graph, kids: Kids, x: Graph)
    requires NoCollision(g, call, child) && OutputsKnown(g, call, child)
    requires after.outputs == map name | name in g.outputs :: RewriteOutput(call, child, g.outputs[name])
    requires x.outputs == map name | name in after.outputs :: OutputEnd(kids, after.outputs[name])
    requires forall id :: id in kids ==> id in NodeIds(g) && id != call.id
    ensures x.outputs == map name | name in g.outputs :: OutputEnd(kids[call.id := child], g.outputs[name])
  {
    forall name | name in g.outputs
      ensures x.outputs[name] == OutputEnd(kids[call.id := child], g.outputs[name])
    {
      FlatOutput(g, call, child, kids, g.outputs[name]);
    }
  }

  lemma FlatStep(g: Graph, registry: Registry, call: Node, child: Graph, after: Graph, kids: Kids, x: Graph)
    requires FlatSetting(g, registry, call, child, after, kids, x)
    ensures IsFlat(g, registry, kids[call.id := child], x)
  {
    FlatStepInputs(g, call, child, after, kids, x);
    FlatStepOutputs(g, call, child, after, kids, x);
    forall n
      ensures n in x.nodes <==> FlatNodeIn(g, registry, kids[call.id := child], n)
    {
      FlatStepNodes(g, registry, call, child, after, kids, x, n);
    }
    forall e
      ensures e in x.edges <==> FlatEdgeIn(g, registry, kids[call.id := child], e)
    {
      FlatStepEdges(g, registry, call, child, after, kids, x, e);
      if FlatEdgeIn(g, registry, kids[call.id := child], e) {
        FlatStepEdgesBack(g, registry, call, child, after, kids, x, e);
      }
    }
  }

  function Size(d: Derivation): nat
  {
    match d
    case Done => 0
    case Inline(_, inner, _, _, rest) => 1 + Size(inner) + Size(rest)
  }

  function CallIds(g: Graph, registry: Registry): set<Id>
  {
    set n | n in g.nodes && KeyOf(n) in registry :: n.id
  }

  /** Every expanded call, with the smaller derivation that expanded its graph. */
  ghost predicate KidsDerived(g: Graph, registry: Registry, kids: Kids, subs: map<Id, Derivation>, bound: nat)
  {
    && kids.Keys == CallIds(g, registry) && subs.Keys == kids.Keys
    && forall c {:trigger KidDerived(registry, kids, subs, bound, c.id, KeyOf(c))} ::
         c in g.nodes && KeyOf(c) in registry ==> KidDerived(registry, kids, subs, bound, c.id, KeyOf(c))
  }

  ghost predicate KidDerived(registry: Registry, kids: Kids, subs: map<Id, Derivation>, bound: nat, id: Id, key: NodeKey)
  {
    && id in kids && id in subs && key in registry
    && Size(subs[id]) < bound && Derives(subs[id], registry[key], registry, kids[id])
  }

  /** A sequence of inlinings is one simultaneous replacement. */
  lemma {:induction false} Flattened(d: Derivation, g: Graph, registry: Registry, x: Graph)
    returns (kids: Kids, subs: map<Id, Derivation>)
    requires Derives(d, g, registry, x) && SoundGraph(g, registry) && SoundRegistry(registry)
    ensures KidsDerived(g, registry, kids, subs, Size(d)) && IsFlat(g, registry, kids, x)
    decreases d
  {
    hide SoundGraph, SoundRegistry, Inlinable, IsInlining, CallSite, IsFlat, KidsDerived;
    match d
    case Done =>
      kids, subs := map[], map[];
      FlatNothing(g, registry);
    case Inline(call, inner, child, after, rest) =>
      StepSound(call, inner, child, after, g, registry);
      var kids', subs' := Flattened(rest, after, registry, x);
      assert Size(d) == 1 + Size(inner) + Size(rest);
      kids, subs := FlattenCall(g, registry, call, inner, child, after, Size(rest), kids', subs', x);
  }

  lemma FlattenCall(g: Graph, registry: Registry, call: Node, inner: Derivation, child: Graph, after: Graph, bound: nat,
                    kids': Kids, subs': map<Id, Derivation>, x: Graph)
    returns (kids: Kids, subs: map<Id, Derivation>)
    requires CallSite(g, call, child, after) && NoCalls(child, registry) && InputsApart(child)
    requires KeyOf(call) in registry && Derives(inner, registry[KeyOf(call)], registry, child)
    requires KidsDerived(after, registry, kids', subs', bound) && IsFlat(after, registry, kids', x)
    ensures KidsDerived(g, registry, kids, subs, 1 + Size(inner) + bound) && IsFlat(g, registry, kids, x)
  {
    kids, subs := kids'[call.id := child], subs'[call.id := inner];
    CallsBefore(g, registry, call, child, after);
    KidsStep(g, registry, call, inner, child, after, bound, kids', subs');
    FlatStep(g, registry, call, child, after, kids', x);
  }

  lemma FlatNothing(g: Graph, registry: Registry)
    requires NoCalls(g, registry)
    ensures IsFlat(g, registry, map[], g) && KidsDerived(g, registry, map[], map[], 0)
  {
    forall e
      ensures e in g.edges <==> FlatEdgeIn(g, registry, map[], e)
    {
      if e in g.edges { assert FlatEdge(map[], e) == e; }
    }
  }

  lemma KidsStep(g: Graph, registry: Registry, call: Node, inner: Derivation, child: Graph, after: Graph, bound: nat,
                 kids: Kids, subs: map<Id, Derivation>)
    requires forall c :: c in g.nodes && KeyOf(c) in registry ==> c == call || (c in after.nodes && c.id != call.id)
    requires CallIds(g, registry) == CallIds(after, registry) + {call.id}
    requires KidsDerived(after, registry, kids, subs, bound)
    requires KeyOf(call) in registry && Derives(inner, registry[KeyOf(call)], registry, child)
    ensures KidsDerived(g, registry, kids[call.id := child], subs[call.id := inner], 1 + Size(inner) + bound)
  {
    forall c | c in g.nodes && KeyOf(c) in registry
      ensures KidDerived(registry, kids[call.id := child], subs[call.id := inner], 1 + Size(inner) + bound, c.id, KeyOf(c))
    {
      if c != call {
        assert KidDerived(registry, kids, subs, bound, c.id, KeyOf(c));
        KidKept(registry, kids, subs, bound, call.id, child, inner, c.id, KeyOf(c));
      }
    }
  }

  lemma KidKept(registry: Registry, kids: Kids, subs: map<Id, Derivation>, bound: nat, other: Id, child: Graph, inner: Derivation,
                id: Id, key: NodeKey)
    requires KidDerived(registry, kids, subs, bound, id, key) && id != other
    ensures KidDerived(registry, kids[other := child], subs[other := inner], 1 + Size(inner) + bound, id, key)
  {
  }

  lemma CallsBefore(g: Graph, registry: Registry, call: Node, child: Graph, after: Graph)
    requires WellFormed(g) && call in g.nodes && IsInlining(g, call, child, after)
    requires KeyOf(call) in registry && NoCalls(child, registry)
    ensures CallIds(g, registry) == CallIds(after, registry) + {call.id}
    ensures forall c :: c in g.nodes && KeyOf(c) in registry ==> c == call || (c in after.nodes && c.id != call.id)
    ensures forall id :: id in CallIds(after, registry) ==> id in NodeIds(g) && id != call.id
  {
    InliningFewerCalls(g, call, child, after, registry);
    forall c | c in g.nodes && KeyOf(c) in registry
      ensures c == call || (c in after.nodes && c.id != call.id)
    {
      EarlierCall(g, call, child, after, c);
    }
  }

  lemma EarlierCall(g: Graph, call: Node, child: Graph, after: Graph, c: Node)
    requires WellFormed(g) && call in g.nodes && IsInlining(g, call, child, after) && c in g.nodes
    ensures c == call || (c in after.nodes && c.id != call.id)
  {
    if c.id == call.id {
      UniqueNode(g, c, call);
    } else {
      NodesOfInlining(g, call, child, after, c);
    }
  }

  lemma KidAt(g: Graph, registry: Registry, kids: Kids, subs: map<Id, Derivation>, bound: nat, c: Node)
    requires KidsDerived(g, registry, kids, subs, bound) && c in g.nodes && KeyOf(c) in registry
    ensures c.id in kids && c.id in subs && Size(subs[c.id]) < bound
    ensures Derives(subs[c.id], registry[KeyOf(c)], registry, kids[c.id])
  {
    assert KidDerived(registry, kids, subs, bound, c.id, KeyOf(c));
  }

  lemma SameEnds(kids: Kids, kids': Kids, b: Binding)
    requires kids.Keys == kids'.Keys && forall id :: id in kids ==> SameGraph(kids[id], kids'[id])
    ensures OutputEnd(kids, b) == OutputEnd(kids', b) && InputEnd(kids, b) == InputEnd(kids', b)
  {
  }

  /** The same source graphs, up to the order in which they are stored. */
  ghost predicate SameSources(g: Graph, g': Graph, registry: Registry, registry': Registry)
  {
    && SameGraph(g, g') && registry.Keys == registry'.Keys
    && forall key :: key in registry ==> SameGraph(registry[key], registry'[key])
  }

  lemma SameFlatNode(g: Graph, g': Graph, registry: Registry, registry': Registry, kids: Kids, kids': Kids, n: Node)
    requires SameSources(g, g', registry, registry')
    requires kids.Keys == kids'.Keys && forall id :: id in kids ==> SameGraph(kids[id], kids'[id])
    requires FlatNodeIn(g, registry, kids, n)
    ensures FlatNodeIn(g', registry', kids', n)
  {
    if c, m :| NodeOfCall(g, registry, kids, c, m, n) {
      SameClone(c, kids[c.id], kids'[c.id], m, n);
      assert NodeOfCall(g', registry', kids', c, m, n);
    }
  }

  lemma SameClone(c: Node, kid: Graph, kid': Graph, m: Node, n: Node)
    requires SameGraph(kid, kid') && CloneOf(c, kid, m, n)
    ensures CloneOf(c, kid', m, n)
  {
    forall q, p
      ensures LandsOn(c, kid, q, m.id, p) <==> LandsOn(c, kid', q, m.id, p)
    {
    }
  }

  lemma SameFlatEdge(g: Graph, g': Graph, registry: Registry, registry': Registry, kids: Kids, kids': Kids, e: Edge)
    requires SameSources(g, g', registry, registry')
    requires kids.Keys == kids'.Keys && forall id :: id in kids ==> SameGraph(kids[id], kids'[id])
    requires FlatEdgeIn(g, registry, kids, e)
    ensures FlatEdgeIn(g', registry', kids', e)
  {
    if f :| f in g.edges && e == FlatEdge(kids, f) {
      SameEnds(kids, kids', Binding(f.source, f.sourcePort));
      SameEnds(kids, kids', Binding(f.target, f.targetPort));
      assert f in g'.edges && e == FlatEdge(kids', f);
    } else {
      var c, f :| EdgeOfCall(g, registry, kids, c, f, e);
      assert EdgeOfCall(g', registry', kids', c, f, e);
    }
  }

  lemma SameFlat(g: Graph, g': Graph, registry: Registry, registry': Registry, kids: Kids, kids': Kids, x: Graph, x': Graph)
    requires SameSources(g, g', registry, registry')
    requires kids.Keys == kids'.Keys && forall id :: id in kids ==> SameGraph(kids[id], kids'[id])
    requires IsFlat(g, registry, kids, x) && IsFlat(g', registry', kids', x')
    ensures SameGraph(x, x')
  {
    forall n
      ensures n in x.nodes <==> n in x'.nodes
    {
      if n in x.nodes { SameFlatNode(g, g', registry, registry', kids, kids', n); }
      if n in x'.nodes { SameFlatNode(g', g, registry', registry, kids', kids, n); }
    }
    forall e
      ensures e in x.edges <==> e in x'.edges
    {
      if e in x.edges { SameFlatEdge(g, g', registry, registry', kids, kids', e); }
      if e in x'.edges { SameFlatEdge(g', g, registry', registry, kids', kids, e); }
    }
    forall b
      ensures OutputEnd(kids, b) == OutputEnd(kids', b) && InputEnd(kids, b) == InputEnd(kids', b)
    {
      SameEnds(kids, kids', b);
    }
  }

  /** Confluence: whatever orders two expansions follow, at every depth, and in whatever
      order the graphs are stored, they end with the same nodes, edges and bindings. */
  lemma {:induction false} OrderIndependent(d: Derivation, d': Derivation, g: Graph, g': Graph, registry: Registry, registry': Registry,
                                            x: Graph, x': Graph)
    requires Derives(d, g, registry, x) && Derives(d', g', registry', x') && SameSources(g, g', registry, registry')
    requires SoundGraph(g, registry) && SoundRegistry(registry) && SoundGraph(g', registry') && SoundRegistry(registry')
    ensures SameGraph(x, x')
    decreases Size(d), 1
  {
    var kids, subs := Flattened(d, g, registry, x);
    var kids', subs' := Flattened(d', g', registry', x');
    SameCallIds(g, g', registry, registry');
    forall id | id in kids
      ensures SameGraph(kids[id], kids'[id])
    {
      KidsAgree(g, g', registry, registry', kids, kids', subs, subs', Size(d), Size(d'), id);
    }
    SameFlat(g, g', registry, registry', kids, kids', x, x');
  }

  lemma SameCallIds(g: Graph, g': Graph, registry: Registry, registry': Registry)
    requires SameSources(g, g', registry, registry')
    ensures CallIds(g, registry) == CallIds(g', registry')
  {
  }

  /** The expansions of one call's graph agree. */
  lemma {:induction false} KidsAgree(g: Graph, g': Graph, registry: Registry, registry': Registry, kids: Kids, kids': Kids,
                                     subs: map<Id, Derivation>, subs': map<Id, Derivation>, bound: nat, bound': nat, id: Id)
    requires SameSources(g, g', registry, registry') && SoundRegistry(registry) && SoundRegistry(registry')
    requires KidsDerived(g, registry, kids, subs, bound) && KidsDerived(g', registry', kids', subs', bound') && id in kids
    ensures id in kids' && SameGraph(kids[id], kids'[id])
    decreases bound, 0
  {
    SameCallIds(g, g', registry, registry');
    var c :| c in g.nodes && KeyOf(c) in registry && c.id == id;
    KidAt(g, registry, kids, subs, bound, c);
    KidAt(g', registry', kids', subs', bound', c);
    var key := KeyOf(c);
    OrderIndependent(subs[id], subs'[id], registry[key], registry'[key], registry, registry', kids[id], kids'[id]);
  }

  // ----- Why the inputs of a child must be apart -----

  function SharedPortNode(): Node
  {
    Node(Base(1), "t", "1", map[], map[])
  }

  function SharedPortChild(): Graph
  {
    Graph(7, 1, [SharedPortNode()], [], map["a" := Binding(Base(1), "p"), "b" := Binding(Base(1), "p")], map[])
  }

  function SharedPortCall(): Node
  {
    Node(Base(0), "c", "1", map["a" := Num(1), "b" := Num(2)], map[])
  }

  /** Two literals for one inner port: one of them is silently dropped, although the call
      passes both to the child. The clone below passes every check. */
  lemma OverwrittenLiteral() returns (n: Node)
    ensures NoClash(SharedPortCall(), SharedPortChild(), SharedPortNode())
    ensures CloneOf(SharedPortCall(), SharedPortChild(), SharedPortNode(), n)
    ensures ("p", Num(2)) in Semantics.External(SharedPortChild(), Semantics.Literals(SharedPortCall()), Base(1))
    ensures ("p", Num(2)) !in Semantics.Literals(n)
  {
    var call, child := SharedPortCall(), SharedPortChild();
    n := SharedPortNode().(id := CloneId(call, child, Base(1)), inputs := map["p" := Num(1)]);
    assert LandsOn(call, child, "a", Base(1), "p");
    LiteralIn(call, "b");
    assert ("b", Num(2)) in Semantics.Literals(call);
  }

  lemma LiteralIn(n: Node, p: string)
    requires p in n.inputs
    ensures (p, n.inputs[p]) in Semantics.Literals(n)
  {
  }
}
