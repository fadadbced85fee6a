/** What an expansion means: the expanded graph and the graph it came from have the same
    solutions (src/comfyng/graph/subgraphs.py:148-406). Only the expanded graph has to be
    acyclic, which is also all that the compiler checks. */
module Meaning {
  import opened Ids
  import opened Layering
  import opened Graphs
  import opened Semantics
  import opened Inlining
  import opened Expansion

  /** Registered types mean their graphs. */
  ghost predicate Interprets(sem: Sem, registry: Registry)
  {
    forall key, meta, env, w | key in registry && Solves(registry[key], sem, env, w) ::
      sem(key.0, key.1, meta, env) == OutputsOf(registry[key], w)
  }

  /** Registered types mean what their expanded graphs compute. */
  ghost predicate InterpretsExpansions(sem: Sem, registry: Registry)
  {
    forall key, inner, child, meta, env, w {:trigger MeansExpansion(sem, registry, key, inner, child, meta, env, w)} ::
      MeansExpansion(sem, registry, key, inner, child, meta, env, w)
  }

  ghost predicate MeansExpansion(sem: Sem, registry: Registry, key: NodeKey, inner: Derivation, child: Graph,
                                 meta: map<string, Json>, env: Env, w: Valuation)
  {
    key in registry && Derives(inner, registry[key], registry, child) && Solves(child, sem, env, w) ==>
      sem(key.0, key.1, meta, env) == OutputsOf(child, w)
  }

  // ----- From the inlined graph back to the call -----

  /** The values of the child's nodes, read off their clones. */
  ghost function InnerValues(call: Node, child: Graph, u: Valuation): Valuation
  {
    map id | id in NodeIds(child) && CloneId(call, child, id) in u :: u[CloneId(call, child, id)]
  }

  /** The values of the parent: survivors as they are, the call with the child's outputs. */
  ghost function OuterValues(g: Graph, call: Node, child: Graph, u: Valuation): Valuation
  {
    (map id | id in NodeIds(g) && id != call.id && id in u :: u[id])[call.id := OutputsOf(child, InnerValues(call, child, u))]
  }

  lemma ValuesGlued(g: Graph, call: Node, child: Graph, u: Valuation)
    requires call in g.nodes && u.Keys == NodeIds(g) - {call.id} + CloneIds(call, child)
    ensures Glued(g, call, child, OuterValues(g, call, child, u), InnerValues(call, child, u), u)
    ensures call.id in OuterValues(g, call, child, u)
    ensures OuterValues(g, call, child, u)[call.id] == OutputsOf(child, InnerValues(call, child, u))
  {
    hide OuterValues, InnerValues, OutputsOf;
    InnerAt(call, child, u);
    OuterAt(g, call, child, u);
  }

  lemma InnerAt(call: Node, child: Graph, u: Valuation)
    requires CloneIds(call, child) <= u.Keys
    ensures InnerValues(call, child, u).Keys == NodeIds(child)
    ensures forall id :: id in InnerValues(call, child, u) ==>
              CloneId(call, child, id) in u && u[CloneId(call, child, id)] == InnerValues(call, child, u)[id]
  {
    forall id | id in NodeIds(child)
      ensures CloneId(call, child, id) in u
    {
      assert CloneId(call, child, id) in CloneIds(call, child);
    }
  }

  lemma OuterAt(g: Graph, call: Node, child: Graph, u: Valuation)
    requires call in g.nodes && NodeIds(g) - {call.id} <= u.Keys
    ensures OuterValues(g, call, child, u).Keys == NodeIds(g)
    ensures OuterValues(g, call, child, u)[call.id] == OutputsOf(child, InnerValues(call, child, u))
    ensures forall id :: id in OuterValues(g, call, child, u) && id != call.id ==> id in u && u[id] == OuterValues(g, call, child, u)[id]
  {
    hide OutputsOf, InnerValues;
  }

  /** A solution of the inlined graph solves the child on the values that reach the call. */
  lemma InnerSolves(g: Graph, call: Node, child: Graph, r: Graph, sem: Sem, ext: Env, v: Valuation, w: Valuation, u: Valuation)
    requires CallSite(g, call, child, r) && LiteralsAgree(call, child)
    requires Glued(g, call, child, v, w, u) && Solves(r, sem, ext, u)
    ensures Solves(child, sem, EnvOf(g, ext, v, call), w)
  {
    hide LiteralsAgree, EnvOf, NoCollision, EdgeView;
    SiteFacts(g, call, child, r);
    EdgesOfInlining(g, call, child, r);
    forall m | m in child.nodes
      ensures m.id in w && w[m.id] == Eval(child, sem, EnvOf(g, ext, v, call), w, m)
    {
      var n := CloneInInlining(g, call, child, r, m);
      CloneEnv(g, call, child, r, ext, v, w, u, m, n);
      assert u[n.id] == Eval(r, sem, ext, u, n);
    }
  }

  /** And it solves the parent, if the call means what the child computes. */
  lemma OuterSolves(g: Graph, call: Node, child: Graph, r: Graph, sem: Sem, ext: Env, v: Valuation, w: Valuation, u: Valuation)
    requires CallSite(g, call, child, r) && Glued(g, call, child, v, w, u) && Solves(r, sem, ext, u)
    requires call.id in v && v[call.id] == OutputsOf(child, w) && v[call.id] == Eval(g, sem, ext, v, call)
    ensures Solves(g, sem, ext, v)
  {
    hide EnvOf, NoCollision, EdgeView, OutputsOf;
    SiteFacts(g, call, child, r);
    EdgesOfInlining(g, call, child, r);
    forall n | n in g.nodes
      ensures n.id in v && v[n.id] == Eval(g, sem, ext, v, n)
    {
      if n.id == call.id {
        UniqueNode(g, n, call);
      } else {
        NodesOfInlining(g, call, child, r, n);
        SurvivorEnv(g, call, child, r, ext, v, w, u, n);
        assert u[n.id] == Eval(r, sem, ext, u, n);
      }
    }
  }

  lemma OutputsBack(g: Graph, call: Node, child: Graph, r: Graph, v: Valuation, w: Valuation, u: Valuation)
    requires CallSite(g, call, child, r) && Glued(g, call, child, v, w, u)
    requires call.id in v && v[call.id] == OutputsOf(child, w)
    ensures OutputsOf(r, u) == OutputsOf(g, v)
  {
    hide OutputsOf, Glued;
    GluedKeys(g, call, child, v, w, u);
    InliningOutputs(g, call, child, r, v, w, u);
  }

  lemma GluedKeys(g: Graph, call: Node, child: Graph, v: Valuation, w: Valuation, u: Valuation)
    requires Glued(g, call, child, v, w, u)
    ensures v.Keys == NodeIds(g) && w.Keys == NodeIds(child)
  {
  }

  // ----- Whole expansions, backwards -----

  /** Every solution of the expanded graph comes from one of the graph before expansion, with
      the same outputs and the same values at ordinary nodes. */
  lemma {:induction false} ExpansionReflectsMeaning(d: Derivation, g: Graph, registry: Registry, x: Graph, sem: Sem, ext: Env,
                                                    u: Valuation)
    returns (v: Valuation)
    requires Derives(d, g, registry, x) && SoundGraph(g, registry) && SoundRegistry(registry)
    requires Interprets(sem, registry) && Solves(x, sem, ext, u)
    ensures Solves(g, sem, ext, v) && OutputsOf(g, v) == OutputsOf(x, u)
    ensures forall n :: n in g.nodes && KeyOf(n) !in registry ==> n.id in u && n.id in v && u[n.id] == v[n.id]
    decreases d
  {
    hide OutputsOf, Inlinable, IsInlining, WellFormed, NoSelfCalls, Eval, NoCalls;
    match d
    case Done =>
      v := u;
      SolutionCovers(g, sem, ext, u);
    case Inline(call, inner, child, after, rest) =>
      StepSound(call, inner, child, after, g, registry);
      var u1 := ExpansionReflectsMeaning(rest, after, registry, x, sem, ext, u);
      var w;
      v, w := CallReflects(g, call, child, after, sem, ext, u1);
      var w0 := ExpansionReflectsMeaning(inner, registry[KeyOf(call)], registry, child, sem, EnvOf(g, ext, v, call), w);
      CallMeant(g, call, registry, sem, ext, v, w0);
      OuterSolves(g, call, child, after, sem, ext, v, w, u1);
      OrdinaryKept(g, call, child, after, registry, v, w, u1);
  }

  lemma SolutionCovers(g: Graph, sem: Sem, ext: Env, u: Valuation)
    requires Solves(g, sem, ext, u)
    ensures forall n :: n in g.nodes ==> n.id in u
  {
  }

  /** What a step of a derivation gives when the source graphs are sound. */
  lemma StepSound(call: Node, inner: Derivation, child: Graph, after: Graph, g: Graph, registry: Registry)
    requires SoundGraph(g, registry) && SoundRegistry(registry) && call in g.nodes && KeyOf(call) in registry
    requires Derives(inner, registry[KeyOf(call)], registry, child)
    requires Inlinable(g, call, child) && IsInlining(g, call, child, after)
    ensures CallSite(g, call, child, after) && SoundGraph(after, registry) && NoCalls(child, registry)
    ensures WellFormed(child) && InputsApart(child) && LiteralsAgree(call, child)
  {
    hide Inlinable, IsInlining, WellFormed, NoSelfCalls, NoCalls;
    ExpansionSound(inner, registry[KeyOf(call)], registry, child);
    InliningSound(g, call, child, after, registry);
  }

  /** The two parts of a solution of the inlined graph. */
  lemma CallReflects(g: Graph, call: Node, child: Graph, r: Graph, sem: Sem, ext: Env, u: Valuation) returns (v: Valuation, w: Valuation)
    requires CallSite(g, call, child, r) && LiteralsAgree(call, child) && Solves(r, sem, ext, u)
    ensures Glued(g, call, child, v, w, u) && call.id in v && v[call.id] == OutputsOf(child, w)
    ensures Solves(child, sem, EnvOf(g, ext, v, call), w) && OutputsOf(g, v) == OutputsOf(r, u)
  {
    hide Glued, OutputsOf, LiteralsAgree, EnvOf, IsInlining;
    v, w := OuterValues(g, call, child, u), InnerValues(call, child, u);
    SiteFacts(g, call, child, r);
    IdsOfInlining(g, call, child, r);
    ValuesGlued(g, call, child, u);
    InnerSolves(g, call, child, r, sem, ext, v, w, u);
    OutputsBack(g, call, child, r, v, w, u);
  }

  lemma CallMeant(g: Graph, call: Node, registry: Registry, sem: Sem, ext: Env, v: Valuation, w0: Valuation)
    requires Interprets(sem, registry) && KeyOf(call) in registry
    requires Solves(registry[KeyOf(call)], sem, EnvOf(g, ext, v, call), w0)
    ensures Eval(g, sem, ext, v, call) == OutputsOf(registry[KeyOf(call)], w0)
  {
    var key := KeyOf(call);
    assert sem(key.0, key.1, call.metadata, EnvOf(g, ext, v, call)) == OutputsOf(registry[key], w0);
  }

  lemma OrdinaryKept(g: Graph, call: Node, child: Graph, r: Graph, registry: Registry, v: Valuation, w: Valuation, u: Valuation)
    requires CallSite(g, call, child, r) && Glued(g, call, child, v, w, u) && KeyOf(call) in registry
    ensures forall n :: n in g.nodes && KeyOf(n) !in registry ==> n in r.nodes && n.id in u && n.id in v && u[n.id] == v[n.id]
  {
    forall n | n in g.nodes && KeyOf(n) !in registry
      ensures n in r.nodes && n.id != call.id
    {
      if n.id == call.id { UniqueNode(g, n, call); }
      NodesOfInlining(g, call, child, r, n);
    }
  }

  /** So an interpretation of the registered graphs interprets their expansions too. */
  lemma InterpretationExpands(sem: Sem, registry: Registry)
    requires Interprets(sem, registry) && SoundRegistry(registry)
    ensures InterpretsExpansions(sem, registry)
  {
    forall key, inner, child, meta, env, w | key in registry && Derives(inner, registry[key], registry, child) && Solves(child, sem, env, w)
      ensures sem(key.0, key.1, meta, env) == OutputsOf(child, w)
    {
      var w0 := ExpansionReflectsMeaning(inner, registry[key], registry, child, sem, env, w);
    }
  }

  // ----- Acyclic expansions -----

  /** No call sits at this node. */
  ghost predicate Ordinary(id: Id, g: Graph, registry: Registry)
  {
    forall n :: n in g.nodes && KeyOf(n) in registry ==> n.id != id
  }

  lemma CallsAreOld(g: Graph, call: Node, child: Graph, after: Graph, registry: Registry, n: Node)
    requires IsInlining(g, call, child, after) && NoCalls(child, registry) && n in after.nodes && KeyOf(n) in registry
    ensures n in g.nodes && n.id != call.id
  {
    NodesOfInlining(g, call, child, after, n);
  }

  /** An edge between ordinary nodes is never touched again. */
  lemma {:induction false} OrdinaryEdgeStays(d: Derivation, g: Graph, registry: Registry, x: Graph, e: Edge)
    requires Derives(d, g, registry, x) && e in g.edges && Ordinary(e.source, g, registry) && Ordinary(e.target, g, registry)
    requires forall key, inner, child :: key in registry && Derives(inner, registry[key], registry, child) ==> NoCalls(child, registry)
    ensures e in x.edges
    decreases d
  {
    hide NoCalls, Inlinable, IsInlining;
    match d
    case Done =>
    case Inline(call, inner, child, after, rest) =>
      EdgesOfInlining(g, call, child, after);
      assert RewriteEdge(call, child, e) == e;
      forall n | n in after.nodes && KeyOf(n) in registry
        ensures n in g.nodes
      {
        CallsAreOld(g, call, child, after, registry, n);
      }
      OrdinaryEdgeStays(rest, after, registry, x, e);
  }

  lemma DerivedChildrenHaveNoCalls(registry: Registry)
    requires SoundRegistry(registry)
    ensures forall key, inner, child :: key in registry && Derives(inner, registry[key], registry, child) ==> NoCalls(child, registry)
  {
    forall key, inner, child | key in registry && Derives(inner, registry[key], registry, child)
      ensures NoCalls(child, registry)
    {
      ExpansionSound(inner, registry[key], registry, child);
    }
  }

  /** The clones of an inlined child stand in the expanded graph as they are. */
  lemma ChildEdgeStays(g: Graph, registry: Registry, call: Node, child: Graph, after: Graph, rest: Derivation, x: Graph, f: Edge)
    requires SoundRegistry(registry) && Derives(rest, after, registry, x)
    requires CallSite(g, call, child, after) && NoCalls(child, registry) && f in child.edges
    ensures CloneEdge(call, child, f) in x.edges
  {
    hide Derives, SoundRegistry, NoCalls;
    DerivedChildrenHaveNoCalls(registry);
    EdgesOfInlining(g, call, child, after);
    var e := CloneEdge(call, child, f);
    ChildEdgeEnds(call, child, e);
    forall n | n in after.nodes && KeyOf(n) in registry
      ensures n.id != e.source && n.id != e.target
    {
      CallsAreOld(g, call, child, after, registry, n);
    }
    OrdinaryEdgeStays(rest, after, registry, x, e);
  }

  lemma ClonedCycle(call: Node, child: Graph, x: Graph, p: seq<Id>)
    requires Cycle(p, Arcs(child.edges)) && forall f :: f in child.edges ==> CloneEdge(call, child, f) in x.edges
    ensures exists q :: Cycle(q, Arcs(x.edges))
  {
    var q := seq(|p|, i requires 0 <= i < |p| => CloneId(call, child, p[i]));
    forall i | 0 <= i < |q| - 1
      ensures (q[i], q[i + 1]) in Arcs(x.edges)
    {
      assert (p[i], p[i + 1]) in Arcs(child.edges);
      var f :| f in child.edges && (p[i], p[i + 1]) == (f.source, f.target);
      assert CloneEdge(call, child, f) in x.edges;
    }
    assert Cycle(q, Arcs(x.edges));
  }

  /** A cycle of the child would be a cycle of the expanded graph. */
  lemma ChildAcyclic(g: Graph, registry: Registry, call: Node, child: Graph, after: Graph, rest: Derivation, x: Graph)
    requires SoundRegistry(registry) && Derives(rest, after, registry, x)
    requires CallSite(g, call, child, after) && NoCalls(child, registry) && Acyclic(Arcs(x.edges))
    ensures Acyclic(Arcs(child.edges))
  {
    hide Derives, SoundRegistry, NoCalls, CallSite;
    forall f | f in child.edges
      ensures CloneEdge(call, child, f) in x.edges
    {
      ChildEdgeStays(g, registry, call, child, after, rest, x, f);
    }
    forall p | Cycle(p, Arcs(child.edges))
      ensures false
    {
      ClonedCycle(call, child, x, p);
    }
  }

  // ----- Whole expansions, forwards -----

  /** A call of a solved graph means its child: the setting of one inlining. */
  lemma CallHasMeaning(g: Graph, call: Node, inner: Derivation, child: Graph, registry: Registry, sem: Sem, ext: Env, v: Valuation)
    returns (w: Valuation)
    requires call in g.nodes && KeyOf(call) in registry && Derives(inner, registry[KeyOf(call)], registry, child)
    requires InterpretsExpansions(sem, registry) && Solves(g, sem, ext, v)
    requires WellFormed(child) && Acyclic(Arcs(child.edges))
    ensures CallMeans(g, call, child, sem, ext, v, w)
  {
    hide WellFormed, Acyclic;
    var key, env := KeyOf(call), EnvOf(g, ext, v, call);
    AcyclicSolvable(child, sem, env);
    w :| Solves(child, sem, env, w);
    assert v[call.id] == Eval(g, sem, ext, v, call);
    assert MeansExpansion(sem, registry, key, inner, child, call.metadata, env, w);
  }

  /** One step of an expansion: the values before it and the values after it. */
  lemma StepForward(call: Node, inner: Derivation, child: Graph, after: Graph, rest: Derivation, g: Graph, registry: Registry, x: Graph,
                    sem: Sem, ext: Env, v: Valuation) returns (w: Valuation)
    requires SoundGraph(g, registry) && SoundRegistry(registry) && call in g.nodes && KeyOf(call) in registry
    requires Derives(inner, registry[KeyOf(call)], registry, child) && Derives(rest, after, registry, x)
    requires Inlinable(g, call, child) && IsInlining(g, call, child, after) && Acyclic(Arcs(x.edges))
    requires InterpretsExpansions(sem, registry) && Solves(g, sem, ext, v)
    ensures SoundGraph(after, registry) && CallSite(g, call, child, after) && CallMeans(g, call, child, sem, ext, v, w)
    ensures Solves(after, sem, ext, Combined(call, child, v, w)) && OutputsOf(after, Combined(call, child, v, w)) == OutputsOf(g, v)
    ensures Glued(g, call, child, v, w, Combined(call, child, v, w))
  {
    hide OutputsOf, Inlinable, IsInlining, WellFormed, NoSelfCalls, NoCalls, Glued, LiteralsAgree, Acyclic;
    StepSound(call, inner, child, after, g, registry);
    ChildAcyclic(g, registry, call, child, after, rest, x);
    w := CallHasMeaning(g, call, inner, child, registry, sem, ext, v);
    SiteFacts(g, call, child, after);
    CombinedGlued(g, call, child, v, w);
    InliningPreservesMeaning(g, call, child, after, sem, ext, v, w);
  }

  /** Expansion preserves meaning: whatever node types compute, as long as registered types
      mean their graphs, every ordinary node and every graph output keeps its value. */
  lemma {:induction false} SolutionExpands(d: Derivation, g: Graph, registry: Registry, x: Graph, sem: Sem, ext: Env, v: Valuation)
    returns (u: Valuation)
    requires Derives(d, g, registry, x) && SoundGraph(g, registry) && SoundRegistry(registry) && Acyclic(Arcs(x.edges))
    requires InterpretsExpansions(sem, registry) && Solves(g, sem, ext, v)
    ensures Solves(x, sem, ext, u) && OutputsOf(x, u) == OutputsOf(g, v)
    ensures forall n :: n in g.nodes && KeyOf(n) !in registry ==> n.id in u && n.id in v && u[n.id] == v[n.id]
    decreases d
  {
    hide OutputsOf, Inlinable, IsInlining, WellFormed, NoSelfCalls, Eval, NoCalls, Acyclic;
    match d
    case Done =>
      u := v;
      SolutionCovers(g, sem, ext, v);
    case Inline(call, inner, child, after, rest) =>
      var w := StepForward(call, inner, child, after, rest, g, registry, x, sem, ext, v);
      var v1 := Combined(call, child, v, w);
      u := SolutionExpands(rest, after, registry, x, sem, ext, v1);
      OrdinaryKept(g, call, child, after, registry, v, w, v1);
  }

  /** The theorem for interpretations of the registered graphs as they are. */
  lemma ExpansionPreservesMeaning(d: Derivation, g: Graph, registry: Registry, x: Graph, sem: Sem, ext: Env, v: Valuation)
    returns (u: Valuation)
    requires Derives(d, g, registry, x) && SoundGraph(g, registry) && SoundRegistry(registry) && Acyclic(Arcs(x.edges))
    requires Interprets(sem, registry) && Solves(g, sem, ext, v)
    ensures Solves(x, sem, ext, u) && OutputsOf(x, u) == OutputsOf(g, v)
    ensures forall n :: n in g.nodes && KeyOf(n) !in registry ==> n.id in u && n.id in v && u[n.id] == v[n.id]
  {
    InterpretationExpands(sem, registry);
    u := SolutionExpands(d, g, registry, x, sem, ext, v);
  }

  // ----- One meaning only -----

  /** Two solutions that combine to the same values are the same. */
  lemma CombinedApart(g: Graph, call: Node, child: Graph, v: Valuation, w: Valuation, v': Valuation, w': Valuation, u: Valuation)
    requires Glued(g, call, child, v, w, u) && Glued(g, call, child, v', w', u)
    requires call.id in v && call.id in v' && v[call.id] == OutputsOf(child, w) && v'[call.id] == OutputsOf(child, w')
    ensures v == v'
  {
    hide OutputsOf;
    assert w == w' by {
      forall id | id in w
        ensures id in w' && w[id] == w'[id]
      {
      }
    }
    forall id | id in v
      ensures id in v' && v[id] == v'[id]
    {
    }
  }

  lemma {:induction false} SourceSolutionUnique(d: Derivation, g: Graph, registry: Registry, x: Graph, sem: Sem, ext: Env,
                                                v: Valuation, v': Valuation)
    requires Derives(d, g, registry, x) && SoundGraph(g, registry) && SoundRegistry(registry) && Acyclic(Arcs(x.edges))
    requires InterpretsExpansions(sem, registry) && Solves(g, sem, ext, v) && Solves(g, sem, ext, v')
    ensures v == v'
    decreases d
  {
    hide OutputsOf, Inlinable, IsInlining, NoSelfCalls, Eval, NoCalls, Acyclic, Glued;
    match d
    case Done =>
      SolutionUnique(g, sem, ext, v, v');
    case Inline(call, inner, child, after, rest) =>
      var w := StepForward(call, inner, child, after, rest, g, registry, x, sem, ext, v);
      var w' := StepForward(call, inner, child, after, rest, g, registry, x, sem, ext, v');
      SourceSolutionUnique(rest, after, registry, x, sem, ext, Combined(call, child, v, w), Combined(call, child, v', w'));
      CombinedApart(g, call, child, v, w, v', w', Combined(call, child, v, w));
  }

  /** A graph whose expansion is well formed and acyclic has exactly one meaning, even if it is
      cyclic itself. */
  lemma ExpandableMeansOneThing(d: Derivation, g: Graph, registry: Registry, x: Graph, sem: Sem, ext: Env)
    requires Derives(d, g, registry, x) && SoundGraph(g, registry) && SoundRegistry(registry) && Acyclic(Arcs(x.edges))
    requires Interprets(sem, registry)
    ensures exists v :: Solves(g, sem, ext, v)
    ensures forall v, v' :: Solves(g, sem, ext, v) && Solves(g, sem, ext, v') ==> v == v'
  {
    hide Solves, Acyclic, WellFormed;
    ExpansionSound(d, g, registry, x);
    AcyclicSolvable(x, sem, ext);
    var u :| Solves(x, sem, ext, u);
    var v := ExpansionReflectsMeaning(d, g, registry, x, sem, ext, u);
    InterpretationExpands(sem, registry);
    forall v, v' | Solves(g, sem, ext, v) && Solves(g, sem, ext, v')
      ensures v == v'
    {
      SourceSolutionUnique(d, g, registry, x, sem, ext, v, v');
    }
  }
}
