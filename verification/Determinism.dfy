/** The expansion has one outcome: it succeeds with one expansion or stops at one place, whatever
    the order in which nodes and edges are stored (src/comfyng/graph/subgraphs.py:340-406). */
module Determinism {
  import opened Ids
  import opened Layering
  import opened Graphs
  import opened Inlining
  import opened InlineCall
  import opened Expansion
  import opened Expand
  import opened ExpansionTheorems
  import opened CallChains

  // ----- Graphs that expand alike -----

  /** The same node but for the values of its literals. */
  predicate Twins(n: Node, m: Node)
  {
    && n.id == m.id && n.typeId == m.typeId && n.typeVersion == m.typeVersion && n.metadata == m.metadata
    && n.inputs.Keys == m.inputs.Keys
  }

  ghost predicate HasTwin(n: Node, nodes: seq<Node>)
  {
    exists m :: m in nodes && Twins(n, m)
  }

  ghost predicate NodesAlike(x: Graph, y: Graph)
  {
    (forall n :: n in x.nodes ==> HasTwin(n, y.nodes)) && (forall m :: m in y.nodes ==> HasTwin(m, x.nodes))
  }

  /** The same graph but for stored order and for the values of literals. */
  ghost predicate Alike(x: Graph, y: Graph)
  {
    && x.id == y.id && x.version == y.version && x.inputs == y.inputs && x.outputs == y.outputs
    && multiset(x.edges) == multiset(y.edges) && NodesAlike(x, y) && UniqueIds(x) && UniqueIds(y)
  }

  ghost predicate RegistriesAlike(registry: Registry, registry': Registry)
  {
    registry.Keys == registry'.Keys && forall key :: key in registry ==> Alike(registry[key], registry'[key])
  }

  lemma AlikeBack(x: Graph, y: Graph)
    requires Alike(x, y)
    ensures Alike(y, x)
  {
  }

  lemma RegistriesBack(registry: Registry, registry': Registry)
    requires RegistriesAlike(registry, registry')
    ensures RegistriesAlike(registry', registry)
    ensures forall key :: key in registry ==> UniqueIds(registry[key])
    ensures forall key :: key in registry' ==> UniqueIds(registry'[key])
  {
    hide UniqueIds, NodesAlike;
    forall key | key in registry
      ensures Alike(registry'[key], registry[key])
    {
      AlikeBack(registry[key], registry'[key]);
    }
  }

  lemma AlikeElements(x: Graph, y: Graph)
    requires Alike(x, y)
    ensures NodeIds(x) == NodeIds(y)
    ensures forall e :: e in x.edges <==> e in y.edges
    ensures x.nodes == [] <==> y.nodes == []
  {
    hide UniqueIds, NodesAlike, NodeIds;
    SameEdges(x.edges, y.edges);
    TwinIds(x, y);
  }

  lemma SameEdges(s: seq<Edge>, t: seq<Edge>)
    requires multiset(s) == multiset(t)
    ensures forall e :: e in s <==> e in t
  {
    forall e
      ensures e in s <==> e in t
    {
      assert e in s <==> e in multiset(s);
      assert e in t <==> e in multiset(t);
    }
  }

  lemma TwinIds(x: Graph, y: Graph)
    requires NodesAlike(x, y)
    ensures NodeIds(x) == NodeIds(y)
    ensures x.nodes == [] <==> y.nodes == []
  {
    forall id
      ensures id in NodeIds(x) <==> id in NodeIds(y)
    {
      if id in NodeIds(x) { assert HasTwin(NodeAt(x, id), y.nodes); }
      if id in NodeIds(y) { assert HasTwin(NodeAt(y, id), x.nodes); }
    }
    if x.nodes != [] { assert x.nodes[0] in x.nodes && HasTwin(x.nodes[0], y.nodes); }
    if y.nodes != [] { assert y.nodes[0] in y.nodes && HasTwin(y.nodes[0], x.nodes); }
  }

  // ----- The same call comes next -----

  lemma TwinIn(g: Graph, g': Graph, n: Node) returns (m: Node)
    requires Alike(g, g') && n in g.nodes
    ensures m in g'.nodes && Twins(n, m)
  {
    assert HasTwin(n, g'.nodes);
    m :| m in g'.nodes && Twins(n, m);
  }

  lemma TwinBack(g: Graph, g': Graph, n: Node) returns (m: Node)
    requires Alike(g, g') && n in g'.nodes
    ensures m in g.nodes && Twins(n, m)
  {
    assert HasTwin(n, g.nodes);
    m :| m in g.nodes && Twins(n, m);
  }

  lemma NotBothBefore(a: Id, b: Id)
    ensures !(Before(a, b) && Before(b, a))
  {
    if Before(a, b) && Before(b, a) {
      BeforeTransitive(a, b, a);
      BeforeIrreflexive(a);
    }
  }

  lemma UniqueInAlike(g: Graph, g': Graph, m: Node, n: Node)
    requires Alike(g, g') && m in g'.nodes && n in g'.nodes && m.id == n.id
    ensures m == n
  {
    UniqueNode(g', m, n);
  }

  lemma SmallestAlike(g: Graph, g': Graph, registry: Registry, registry': Registry, call: Node, call': Node)
    requires Alike(g, g') && registry.Keys == registry'.Keys
    requires Smallest(call, g, registry) && Smallest(call', g', registry')
    ensures Twins(call, call')
  {
    hide Alike, Before;
    var m := TwinIn(g, g', call);
    var n := TwinBack(g, g', call');
    NotBothBefore(call.id, call'.id);
    UniqueInAlike(g, g', m, call');
  }

  lemma NoCallsAlike(g: Graph, g': Graph, registry: Registry, registry': Registry, call': Node)
    requires Alike(g, g') && registry.Keys == registry'.Keys && NoCalls(g, registry)
    ensures !Smallest(call', g', registry')
  {
    if call' in g'.nodes {
      assert HasTwin(call', g.nodes);
    }
  }

  // ----- It fits on both sides, or on neither -----

  lemma LandsAlike(call: Node, call': Node, child: Graph, child': Graph, q: string, inner: Id, p: string)
    requires Twins(call, call') && Alike(child, child')
    ensures LandsOn(call, child, q, inner, p) <==> LandsOn(call', child', q, inner, p)
  {
  }

  lemma LiteralsFitAlike(call: Node, call': Node, child: Graph, child': Graph)
    requires Twins(call, call') && Alike(child, child') && LiteralsFit(call, child)
    ensures LiteralsFit(call', child')
  {
    forall m' | m' in child'.nodes
      ensures NoClash(call', child', m')
    {
      assert HasTwin(m', child.nodes);
      var m :| m in child.nodes && Twins(m', m);
      assert NoClash(call, child, m);
      forall p, q | LandsOn(call', child', q, m'.id, p)
        ensures p !in m'.inputs
      {
        LandsAlike(call, call', child, child', q, m.id, p);
      }
    }
  }

  /** Whether a call fits its child does not depend on stored order or literal values. */
  lemma FitsAlike(g: Graph, g': Graph, call: Node, call': Node, child: Graph, child': Graph)
    requires Alike(g, g') && Alike(child, child') && Twins(call, call') && Inlinable(g, call, child)
    ensures Inlinable(g', call', child')
  {
    hide UniqueIds, LiteralsFit, NodesAlike;
    AlikeElements(g, g');
    AlikeElements(child, child');
    LiteralsFitAlike(call, call', child, child');
    assert CloneIds(call, child) == CloneIds(call', child');
  }

  lemma NotUnfit(g: Graph, g': Graph, call: Node, call': Node, child: Graph, child': Graph, after: Graph, code: string)
    requires Alike(g, g') && Alike(child, child') && Twins(call, call')
    requires Replaced(g, call, child, after)
    ensures !Unfit(g', call', child', code)
  {
    hide Inlinable, IsInlining, Cause, Alike;
    FitsAlike(g, g', call, call', child, child');
    AlikeElements(child, child');
  }

  // ----- One turn on both sides -----

  function Mapped(edges: seq<Edge>, f: Edge -> Edge): (mapped: seq<Edge>)
    ensures |mapped| == |edges| && forall k :: 0 <= k < |edges| ==> mapped[k] == f(edges[k])
  {
    seq(|edges|, k requires 0 <= k < |edges| => f(edges[k]))
  }

  function Without(t: seq<Edge>, i: nat): seq<Edge>
    requires i < |t|
  {
    t[..i] + t[i + 1..]
  }

  lemma WithoutCount(t: seq<Edge>, i: nat)
    requires i < |t|
    ensures multiset(t) == multiset(Without(t, i)) + multiset{t[i]}
  {
    assert t == t[..i] + [t[i]] + t[i + 1..];
  }

  lemma MappedWithout(t: seq<Edge>, i: nat, f: Edge -> Edge)
    requires i < |t|
    ensures Mapped(Without(t, i), f) == Without(Mapped(t, f), i)
  {
  }

  lemma {:induction false} MappedCount(s: seq<Edge>, t: seq<Edge>, f: Edge -> Edge)
    requires multiset(s) == multiset(t)
    ensures multiset(Mapped(s, f)) == multiset(Mapped(t, f))
    decreases |s|
  {
    hide Without, Mapped;
    if s == [] {
      assert |t| == |multiset(t)| == 0;
      assert t == s;
    } else {
      assert s[0] in multiset(t);
      var i :| 0 <= i < |t| && t[i] == s[0];
      WithoutCount(s, 0);
      WithoutCount(t, i);
      assert multiset(Without(s, 0)) == multiset(s) - multiset{s[0]} == multiset(Without(t, i));
      ShorterWithout(s, 0);
      MappedCount(Without(s, 0), Without(t, i), f);
      MappedWithout(s, 0, f);
      MappedWithout(t, i, f);
      WithoutCount(Mapped(s, f), 0);
      WithoutCount(Mapped(t, f), i);
    }
  }

  lemma ShorterWithout(t: seq<Edge>, i: nat)
    requires i < |t|
    ensures |Without(t, i)| == |t| - 1
  {
  }

  lemma EdgesAreMapped(g: Graph, call: Node, child: Graph, after: Graph, rewrite: Edge -> Edge, clone: Edge -> Edge)
    requires IsInlining(g, call, child, after)
    requires forall e :: rewrite(e) == RewriteEdge(call, child, e)
    requires forall e :: clone(e) == CloneEdge(call, child, e)
    ensures after.edges == Mapped(g.edges, rewrite) + Mapped(child.edges, clone)
  {
    hide RewriteEdge, CloneEdge;
    assert |after.edges| == |g.edges| + |child.edges|;
    forall k | 0 <= k < |child.edges|
      ensures after.edges[|g.edges| + k] == Mapped(child.edges, clone)[k]
    {
    }
  }

  lemma RewritesAlike(call: Node, call': Node, child: Graph, child': Graph)
    requires child.id == child'.id && child.version == child'.version && call.id == call'.id
    requires child.inputs == child'.inputs && child.outputs == child'.outputs
    ensures forall e :: RewriteEdge(call', child', e) == RewriteEdge(call, child, e)
    ensures forall e :: CloneEdge(call', child', e) == CloneEdge(call, child, e)
  {
  }

  lemma EdgesAlike(g: Graph, g': Graph, call: Node, call': Node, child: Graph, child': Graph, after: Graph, after': Graph)
    requires Alike(g, g') && Alike(child, child') && Twins(call, call')
    requires IsInlining(g, call, child, after) && IsInlining(g', call', child', after')
    ensures multiset(after.edges) == multiset(after'.edges)
  {
    hide NodesAlike, UniqueIds, IsInlining, RewriteEdge, CloneEdge;
    var rewrite, clone := e => RewriteEdge(call, child, e), e => CloneEdge(call, child, e);
    MappedCount(g.edges, g'.edges, rewrite);
    MappedCount(child.edges, child'.edges, clone);
    RewritesAlike(call, call', child, child');
    EdgesAreMapped(g, call, child, after, rewrite, clone);
    EdgesAreMapped(g', call', child', after', rewrite, clone);
  }

  lemma TwinClones(call: Node, call': Node, child: Graph, child': Graph, m: Node, m': Node, n: Node, n': Node)
    requires Alike(child, child') && Twins(call, call') && Twins(m, m')
    requires CloneOf(call, child, m, n) && CloneOf(call', child', m', n')
    ensures Twins(n, n')
  {
    hide NodesAlike, UniqueIds, LandsOn;
    forall p, q
      ensures LandsOn(call, child, q, m.id, p) <==> LandsOn(call', child', q, m'.id, p)
    {
      LandsAlike(call, call', child, child', q, m.id, p);
    }
    forall p
      ensures p in n.inputs <==> p in n'.inputs
    {
    }
  }

  lemma CloneHasTwin(g': Graph, call: Node, call': Node, child: Graph, child': Graph, after': Graph, m: Node, n: Node)
    requires Alike(child, child') && Twins(call, call') && CameFrom(call, child, m, n)
    requires IsInlining(g', call', child', after')
    ensures HasTwin(n, after'.nodes)
  {
    hide IsInlining, CloneOf, UniqueIds;
    assert HasTwin(m, child'.nodes);
    var m' :| m' in child'.nodes && Twins(m, m');
    var n' := CloneInInlining(g', call', child', after', m');
    TwinClones(call, call', child, child', m, m', n, n');
  }

  lemma NodeHasTwin(g: Graph, g': Graph, call: Node, call': Node, child: Graph, child': Graph, after: Graph, after': Graph, n: Node)
    requires Alike(g, g') && Alike(child, child') && Twins(call, call')
    requires IsInlining(g, call, child, after) && IsInlining(g', call', child', after')
    requires n in after.nodes
    ensures HasTwin(n, after'.nodes)
  {
    NodesOfInlining(g, call, child, after, n);
    if n in g.nodes && n.id != call.id {
      assert HasTwin(n, g'.nodes);
      var m :| m in g'.nodes && Twins(n, m);
      NodesOfInlining(g', call', child', after', m);
    } else {
      var m :| CameFrom(call, child, m, n);
      CloneHasTwin(g', call, call', child, child', after', m, n);
    }
  }

  lemma TurnAlike(g: Graph, g': Graph, call: Node, call': Node, child: Graph, child': Graph, after: Graph, after': Graph)
    requires Alike(g, g') && Alike(child, child') && Twins(call, call') && UniqueIds(after) && UniqueIds(after')
    requires IsInlining(g, call, child, after) && IsInlining(g', call', child', after')
    ensures Alike(after, after')
  {
    hide IsInlining, UniqueIds, NodesAlike;
    EdgesAlike(g, g', call, call', child, child', after, after');
    BindingsAlike(g, g', call, call', child, child', after, after');
    AlikeBack(g, g');
    AlikeBack(child, child');
    forall n | n in after.nodes
      ensures HasTwin(n, after'.nodes)
    {
      NodeHasTwin(g, g', call, call', child, child', after, after', n);
    }
    forall n | n in after'.nodes
      ensures HasTwin(n, after.nodes)
    {
      NodeHasTwin(g', g, call', call, child', child, after', after, n);
    }
    assert NodesAlike(after, after') by { AllHaveTwins(after, after'); }
  }

  lemma AllHaveTwins(x: Graph, y: Graph)
    requires (forall n :: n in x.nodes ==> HasTwin(n, y.nodes)) && (forall m :: m in y.nodes ==> HasTwin(m, x.nodes))
    ensures NodesAlike(x, y)
  {
  }

  lemma BindingsAlike(g: Graph, g': Graph, call: Node, call': Node, child: Graph, child': Graph, after: Graph, after': Graph)
    requires Alike(g, g') && Alike(child, child') && Twins(call, call')
    requires IsInlining(g, call, child, after) && IsInlining(g', call', child', after')
    ensures after.id == after'.id && after.version == after'.version && after.inputs == after'.inputs && after.outputs == after'.outputs
  {
    hide UniqueIds, NodesAlike, CloneOf, RewriteEdge, CloneEdge;
    forall b
      ensures RewriteInput(call, child, b) == RewriteInput(call', child', b)
      ensures RewriteOutput(call, child, b) == RewriteOutput(call', child', b)
    {
    }
  }

  // ----- Two successes -----

  lemma {:induction false} RunsAlike(d: Derivation, d': Derivation, g: Graph, g': Graph, registry: Registry, registry': Registry,
                                     stack: seq<NodeKey>, maxDepth: nat, x: Graph, x': Graph)
    requires Alike(g, g') && RegistriesAlike(registry, registry')
    requires Runs(d, g, registry, stack, maxDepth, x) && Runs(d', g', registry', stack, maxDepth, x')
    ensures Alike(x, x')
    decreases d
  {
    hide Alike, NoCalls, IsInlining, Inlinable, Smallest, UniqueIds;
    if d.Done? && d'.Inline? {
      NoCallsAlike(g, g', registry, registry', d'.call);
    } else if d.Inline? && d'.Done? {
      AlikeBack(g, g');
      NoCallsAlike(g', g, registry', registry, d.call);
    } else if d.Inline? {
      var key := TurnsAlike(d, d', g, g', registry, registry', stack, maxDepth, x, x');
      RunsAlike(d.inner, d'.inner, registry[key], registry'[key], registry, registry', stack + [key], maxDepth, d.child, d'.child);
      TurnAlike(g, g', d.call, d'.call, d.child, d'.child, d.after, d'.after);
      RunsAlike(d.rest, d'.rest, d.after, d'.after, registry, registry', stack, maxDepth, x, x');
    }
  }

  lemma TurnsAlike(d: Derivation, d': Derivation, g: Graph, g': Graph, registry: Registry, registry': Registry,
                   stack: seq<NodeKey>, maxDepth: nat, x: Graph, x': Graph) returns (key: NodeKey)
    requires Alike(g, g') && RegistriesAlike(registry, registry') && d.Inline? && d'.Inline?
    requires Runs(d, g, registry, stack, maxDepth, x) && Runs(d', g', registry', stack, maxDepth, x')
    ensures Twins(d.call, d'.call) && key == KeyOf(d.call) == KeyOf(d'.call) && key in registry && key in registry'
    ensures UniqueIds(d.after) && UniqueIds(d'.after)
  {
    hide UniqueIds, NodesAlike, NoCalls, IsInlining, Inlinable;
    key := KeyOf(d.call);
    RegistriesBack(registry, registry');
    SmallestAlike(g, g', registry, registry', d.call, d'.call);
    AfterRun(d, g, registry, stack, maxDepth, x);
    AfterRun(d', g', registry', stack, maxDepth, x');
  }

  // ----- Success and error -----

  /** A turn of a success against an error that comes at the same call or later. */
  lemma TurnAgainst(d: Derivation, g: Graph, g': Graph, registry: Registry, registry': Registry, stack: seq<NodeKey>, maxDepth: nat,
                    x: Graph, call': Node)
    returns (key: NodeKey)
    requires Alike(g, g') && RegistriesAlike(registry, registry')
    requires Runs(d, g, registry, stack, maxDepth, x) && Smallest(call', g', registry')
    ensures d.Inline? && Twins(d.call, call') && key == KeyOf(d.call) == KeyOf(call') && key in registry && key in registry'
    ensures key !in stack && UniqueIds(d.after) && |stack| <= maxDepth
    ensures Runs(d.inner, registry[key], registry, stack + [key], maxDepth, d.child) && Replaced(g, d.call, d.child, d.after)
    ensures Runs(d.rest, d.after, registry, stack, maxDepth, x)
  {
    hide UniqueIds, NodesAlike, IsInlining, Inlinable;
    if d.Done? {
      NoCallsAlike(g, g', registry, registry', call');
    }
    key := KeyOf(d.call);
    RegistriesBack(registry, registry');
    SmallestAlike(g, g', registry, registry', d.call, call');
    AfterRun(d, g, registry, stack, maxDepth, x);
  }

  lemma {:induction false} NotBoth(d: Derivation, s: Stop, g: Graph, g': Graph, registry: Registry, registry': Registry,
                                   stack: seq<NodeKey>, maxDepth: nat, x: Graph, code: string)
    requires Alike(g, g') && RegistriesAlike(registry, registry')
    requires Runs(d, g, registry, stack, maxDepth, x)
    ensures !Stops(s, g', registry', stack, maxDepth, code)
    decreases s
  {
    hide Alike, NoCalls, IsInlining, Inlinable, Smallest, UniqueIds, Unfit;
    if Stops(s, g', registry', stack, maxDepth, code) && |stack| <= maxDepth && !s.TooFarDown? {
      var key := TurnAgainst(d, g, g', registry, registry', stack, maxDepth, x, s.call);
      match s
      case TooFarDown =>
      case Repeat(call) =>
      case Misfit(call, inner, child) =>
        RunsAlike(d.inner, inner, registry[key], registry'[key], registry, registry', stack + [key], maxDepth, d.child, child);
        NotUnfit(g, g', d.call, call, d.child, child, d.after, code);
      case Inside(call, below) =>
        NotBoth(d.inner, below, registry[key], registry'[key], registry, registry', stack + [key], maxDepth, d.child, code);
      case Later(call, inner, child, after, next) =>
        RunsAlike(d.inner, inner, registry[key], registry'[key], registry, registry', stack + [key], maxDepth, d.child, child);
        AfterStop(g, g', registry, registry', stack, maxDepth, call, inner, child, after);
        TurnAlike(g, g', d.call, call, d.child, child, d.after, after);
        NotBoth(d.rest, next, d.after, after, registry, registry', stack, maxDepth, x, code);
    }
  }

  lemma AfterStop(g: Graph, g': Graph, registry: Registry, registry': Registry, stack: seq<NodeKey>, maxDepth: nat, call: Node,
                  inner: Derivation, child: Graph, after: Graph)
    requires Alike(g, g') && RegistriesAlike(registry, registry')
    requires Enters(call, g', registry', stack) && Replaced(g', call, child, after)
    requires Runs(inner, registry'[KeyOf(call)], registry', stack + [KeyOf(call)], maxDepth, child)
    ensures UniqueIds(after)
  {
    hide UniqueIds, NodesAlike, IsInlining, Inlinable;
    RegistriesBack(registry, registry');
    RunDerives(inner, registry'[KeyOf(call)], registry', stack + [KeyOf(call)], maxDepth, child);
    TurnLeaves(g', registry', call, inner, child, after);
  }

  // ----- Two errors -----

  /** The same place in the recursion. */
  predicate SamePlace(s: Stop, t: Stop)
  {
    match s
    case TooFarDown => t.TooFarDown?
    case Repeat(call) => t.Repeat? && t.call.id == call.id
    case Misfit(call, _, _) => t.Misfit? && t.call.id == call.id
    case Inside(call, below) => t.Inside? && t.call.id == call.id && SamePlace(below, t.below)
    case Later(call, _, _, _, next) => t.Later? && t.call.id == call.id && SamePlace(next, t.next)
  }

  /** An error that comes before a second one, at the call where both turns stand, or inside. */
  lemma StopsFirst(s: Stop, t: Stop, g: Graph, g': Graph, registry: Registry, registry': Registry,
                   stack: seq<NodeKey>, maxDepth: nat, code: string, code': string)
    requires Alike(g, g') && RegistriesAlike(registry, registry') && |stack| <= maxDepth
    requires Stops(s, g, registry, stack, maxDepth, code) && Stops(t, g', registry', stack, maxDepth, code')
    ensures Twins(s.call, t.call)
    ensures s.Repeat? <==> t.Repeat?
    ensures s.Inside? <==> t.Inside?
    ensures s.Later? ==> t.Later?
  {
    hide NoCalls, IsInlining, Inlinable, UniqueIds, Unfit, NodesAlike;
    RegistriesBack(registry, registry');
    SmallestAlike(g, g', registry, registry', s.call, t.call);
    var key := KeyOf(s.call);
    if s.Inside? && (t.Misfit? || t.Later?) {
      AlikeBack(registry[key], registry'[key]);
      NotBoth(t.inner, s.below, registry'[key], registry[key], registry', registry, stack + [key], maxDepth, t.child, code);
    } else if (s.Misfit? || s.Later?) && t.Inside? {
      NotBoth(s.inner, t.below, registry[key], registry'[key], registry, registry', stack + [key], maxDepth, s.child, code');
    } else if s.Later? && t.Misfit? {
      RunsAlike(s.inner, t.inner, registry[key], registry'[key], registry, registry', stack + [key], maxDepth, s.child, t.child);
      NotUnfit(g, g', s.call, t.call, s.child, t.child, s.after, code');
    }
  }

  /** Errors of one expansion come at one place, in any stored order. Those that name a bad chain
      of calls are the same error. */
  lemma {:induction false} StopsAtOnePlace(s: Stop, t: Stop, g: Graph, g': Graph, registry: Registry, registry': Registry,
                                           stack: seq<NodeKey>, maxDepth: nat, code: string, code': string)
    requires Alike(g, g') && RegistriesAlike(registry, registry')
    requires Stops(s, g, registry, stack, maxDepth, code) && Stops(t, g', registry', stack, maxDepth, code')
    ensures SamePlace(s, t) && (AtChain(s) ==> code == code')
    decreases s
  {
    hide NoCalls, IsInlining, Inlinable, UniqueIds, Unfit, NodesAlike;
    if |stack| <= maxDepth {
      StopsFirst(s, t, g, g', registry, registry', stack, maxDepth, code, code');
      if s.Misfit? && t.Later? {
        AlikeBack(g, g');
        RegistriesBack(registry, registry');
        StopsFirst(t, s, g', g, registry', registry, stack, maxDepth, code', code);
      } else if s.Inside? {
        var key := KeyOf(s.call);
        StopsAtOnePlace(s.below, t.below, registry[key], registry'[key], registry, registry', stack + [key], maxDepth, code, code');
      } else if s.Later? {
        StopLater(s, t, g, g', registry, registry', stack, maxDepth, code, code');
        StopsAtOnePlace(s.next, t.next, s.after, t.after, registry, registry', stack, maxDepth, code, code');
      }
    }
  }

  lemma StopLater(s: Stop, t: Stop, g: Graph, g': Graph, registry: Registry, registry': Registry,
                  stack: seq<NodeKey>, maxDepth: nat, code: string, code': string)
    requires Alike(g, g') && RegistriesAlike(registry, registry') && |stack| <= maxDepth && s.Later? && t.Later?
    requires Stops(s, g, registry, stack, maxDepth, code) && Stops(t, g', registry', stack, maxDepth, code')
    requires Twins(s.call, t.call)
    ensures Alike(s.after, t.after)
  {
    hide NoCalls, Inlinable, UniqueIds, NodesAlike, IsInlining;
    var key := KeyOf(s.call);
    RunsAlike(s.inner, t.inner, registry[key], registry'[key], registry, registry', stack + [key], maxDepth, s.child, t.child);
    AfterStop(g, g', registry, registry', stack, maxDepth, t.call, t.inner, t.child, t.after);
    AlikeBack(g, g');
    RegistriesBack(registry, registry');
    AfterStop(g', g, registry', registry, stack, maxDepth, s.call, s.inner, s.child, s.after);
    TurnAlike(g, g', s.call, t.call, s.child, t.child, s.after, t.after);
  }

  // ----- The expansion itself -----

  lemma CloneUnique(call: Node, child: Graph, m: Node, n: Node, n': Node)
    requires InputsApart(child) && CloneOf(call, child, m, n) && CloneOf(call, child, m, n')
    ensures n == n'
  {
    forall p | p in n.inputs
      ensures p in n'.inputs && n.inputs[p] == n'.inputs[p]
    {
      if p !in m.inputs {
        var q :| LandsOn(call, child, q, m.id, p) && n.inputs[p] == call.inputs[q];
        var q' :| LandsOn(call, child, q', m.id, p) && n'.inputs[p] == call.inputs[q'];
      }
    }
    assert n.inputs == n'.inputs;
  }

  lemma InliningUnique(g: Graph, call: Node, child: Graph, r: Graph, r': Graph)
    requires InputsApart(child) && IsInlining(g, call, child, r) && IsInlining(g, call, child, r')
    ensures r == r'
  {
    hide CloneOf, RewriteEdge, CloneEdge, RewriteInput, RewriteOutput, InputsApart;
    var clones: seq<Node> :|
      && |clones| == |child.nodes|
      && (forall k :: 0 <= k < |clones| ==> CloneOf(call, child, child.nodes[k], clones[k]))
      && r.nodes == Others(g.nodes, call) + clones;
    var clones': seq<Node> :|
      && |clones'| == |child.nodes|
      && (forall k :: 0 <= k < |clones'| ==> CloneOf(call, child, child.nodes[k], clones'[k]))
      && r'.nodes == Others(g.nodes, call) + clones';
    forall k | 0 <= k < |clones|
      ensures clones[k] == clones'[k]
    {
      CloneUnique(call, child, child.nodes[k], clones[k], clones'[k]);
    }
    assert clones == clones';
    forall k | 0 <= k < |r.edges|
      ensures r.edges[k] == r'.edges[k]
    {
      if k >= |g.edges| {
        var j := k - |g.edges|;
        assert r.edges[|g.edges| + j] == CloneEdge(call, child, child.edges[j]) == r'.edges[|g.edges| + j];
      }
    }
    assert r.edges == r'.edges;
  }

  /** A graph that expands at all expands in one way: no choice is left to the loop, as far as
      distinct input names of a registered graph lead to distinct ports. */
  lemma {:induction false} RunsOnce(d: Derivation, d': Derivation, g: Graph, registry: Registry, stack: seq<NodeKey>, maxDepth: nat,
                                    x: Graph, x': Graph)
    requires SoundGraph(g, registry) && SoundRegistry(registry)
    requires Runs(d, g, registry, stack, maxDepth, x) && Runs(d', g, registry, stack, maxDepth, x')
    ensures d == d' && x == x'
    decreases d
  {
    hide NoCalls, IsInlining, Inlinable, Smallest, UniqueIds, WellFormed, NoSelfCalls;
    if d.Done? && d'.Inline? {
      NothingSmallest(g, registry, d'.call);
    } else if d.Inline? && d'.Done? {
      NothingSmallest(g, registry, d.call);
    } else if d.Inline? {
      var key := OneCall(g, registry, d.call, d'.call);
      RunsOnce(d.inner, d'.inner, registry[key], registry, stack + [key], maxDepth, d.child, d'.child);
      RunDerives(d.inner, registry[key], registry, stack + [key], maxDepth, d.child);
      ExpansionSound(d.inner, registry[key], registry, d.child);
      InliningUnique(g, d.call, d.child, d.after, d'.after);
      InliningSound(g, d.call, d.child, d.after, registry);
      RunsOnce(d.rest, d'.rest, d.after, registry, stack, maxDepth, x, x');
    }
  }

  lemma NothingSmallest(g: Graph, registry: Registry, call: Node)
    requires NoCalls(g, registry)
    ensures !Smallest(call, g, registry)
  {
  }

  lemma OneCall(g: Graph, registry: Registry, call: Node, call': Node) returns (key: NodeKey)
    requires Smallest(call, g, registry) && Smallest(call', g, registry) && WellFormed(g)
    ensures call == call' && key == KeyOf(call) && key in registry && call in g.nodes
  {
    key := KeyOf(call);
    AlikeItself(g);
    SmallestAlike(g, g, registry, registry, call, call');
    UniqueNode(g, call, call');
  }

  // ----- The outcome -----

  lemma AlikeItself(x: Graph)
    requires UniqueIds(x)
    ensures Alike(x, x)
  {
    forall n | n in x.nodes
      ensures HasTwin(n, x.nodes)
    {
      assert Twins(n, n);
    }
  }

  /** An expansion that succeeds does not fail, in whatever order the sources are stored. */
  lemma SuccessIsNoFailure(d: Derivation, g: Graph, g': Graph, registry: Registry, registry': Registry, maxDepth: nat, x: Graph)
    requires Alike(g, g') && RegistriesAlike(registry, registry') && Runs(d, g, registry, [], maxDepth, x)
    ensures forall code :: !ExpansionFails(code, g', registry', [], maxDepth)
  {
    hide Runs, Stops, Alike, RegistriesAlike;
    forall code, s
      ensures !Stops(s, g', registry', [], maxDepth, code)
    {
      NotBoth(d, s, g, g', registry, registry', [], maxDepth, x, code);
    }
  }
}
