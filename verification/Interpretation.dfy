/** Any meaning of the ordinary node types extends to the registered types, provided every
    registered graph expands to an acyclic one. So the theorems about registered types speak
    of something. */
module Interpretation {
  import opened Ids
  import opened Layering
  import opened Graphs
  import opened Semantics
  import opened Inlining
  import opened Expansion
  import opened Meaning
  import opened ExpansionTheorems

  type Expansions = map<NodeKey, Graph>

  /** Every registered graph has this expansion, and it is acyclic. */
  ghost predicate Expand(registry: Registry, ds: map<NodeKey, Derivation>, xs: Expansions)
  {
    && ds.Keys == registry.Keys && xs.Keys == registry.Keys
    && forall key :: key in registry ==> Derives(ds[key], registry[key], registry, xs[key]) && Acyclic(Arcs(xs[key].edges))
  }

  /** The outputs of a graph on some inputs, if it has a solution. */
  ghost function Computes(x: Graph, sem: Sem, env: Env): Outputs
  {
    if Solvable(x, sem, env) then
      var w :| Solves(x, sem, env, w);
      OutputsOf(x, w)
    else map[]
  }

  /** Ordinary types as given, registered types by their expanded graphs. */
  ghost function Extended(base: Sem, xs: Expansions): Sem
  {
    (t, version, meta, env) => if (t, version) in xs then Computes(xs[(t, version)], base, env) else base(t, version, meta, env)
  }

  /** Solutions depend on which nodes and edges there are, not on how they are stored. */
  lemma SolvesSame(x: Graph, y: Graph, sem: Sem, ext: Env, v: Valuation)
    requires SameGraph(x, y) && Solves(x, sem, ext, v)
    ensures Solves(y, sem, ext, v) && OutputsOf(x, v) == OutputsOf(y, v)
  {
    assert NodeIds(x) == NodeIds(y);
    forall n | n in y.nodes
      ensures v[n.id] == Eval(y, sem, ext, v, n)
    {
      assert Fed(x, v, n.id) == Fed(y, v, n.id) && External(x, ext, n.id) == External(y, ext, n.id);
      assert v[n.id] == Eval(x, sem, ext, v, n);
    }
  }

  /** A graph without calls does not notice what the registered types mean. */
  lemma SolvesOrdinary(x: Graph, base: Sem, registry: Registry, xs: Expansions, ext: Env, v: Valuation)
    requires NoCalls(x, registry) && xs.Keys == registry.Keys
    ensures Solves(x, Extended(base, xs), ext, v) <==> Solves(x, base, ext, v)
  {
    forall n | n in x.nodes
      ensures Eval(x, Extended(base, xs), ext, v, n) == Eval(x, base, ext, v, n)
    {
      assert KeyOf(n) !in registry;
    }
    if Solves(x, base, ext, v) {
      forall n | n in x.nodes
        ensures v[n.id] == Eval(x, Extended(base, xs), ext, v, n)
      {
        assert v[n.id] == Eval(x, base, ext, v, n);
      }
    }
  }

  lemma ComputesTheOutputs(x: Graph, sem: Sem, env: Env, w: Valuation)
    requires WellFormed(x) && Acyclic(Arcs(x.edges)) && Solves(x, sem, env, w)
    ensures Computes(x, sem, env) == OutputsOf(x, w)
  {
    hide WellFormed, Acyclic, OutputsOf, Solves;
    assert Solvable(x, sem, env);
    forall v | Solves(x, sem, env, v)
      ensures v == w
    {
      SolutionUnique(x, sem, env, v, w);
    }
  }

  /** The extension gives each registered type what any expansion of its graph computes. */
  lemma ExtensionInterpretsExpansions(base: Sem, registry: Registry, ds: map<NodeKey, Derivation>, xs: Expansions)
    requires SoundRegistry(registry) && Expand(registry, ds, xs)
    ensures InterpretsExpansions(Extended(base, xs), registry)
  {
    var sem := Extended(base, xs);
    forall key, inner, child, meta, env, w | key in registry && Derives(inner, registry[key], registry, child) && Solves(child, sem, env, w)
      ensures sem(key.0, key.1, meta, env) == OutputsOf(child, w)
    {
      ExtensionMeans(base, registry, ds, xs, key, inner, child, env, w);
      assert (key.0, key.1) == key;
    }
  }

  lemma ExtensionMeans(base: Sem, registry: Registry, ds: map<NodeKey, Derivation>, xs: Expansions, key: NodeKey, inner: Derivation,
                       child: Graph, env: Env, w: Valuation)
    requires SoundRegistry(registry) && Expand(registry, ds, xs) && key in registry
    requires Derives(inner, registry[key], registry, child) && Solves(child, Extended(base, xs), env, w)
    ensures Computes(xs[key], base, env) == OutputsOf(child, w)
  {
    hide SoundGraph, Acyclic, Solves, OutputsOf, Computes, Extended, WellFormed, SameGraph;
    OrderIndependent(inner, ds[key], registry[key], registry[key], registry, registry, child, xs[key]) by {
      SameAsItself(registry, key);
    }
    ExpansionSound(ds[key], registry[key], registry, xs[key]);
    SolvesSame(child, xs[key], Extended(base, xs), env, w);
    SolvesOrdinary(xs[key], base, registry, xs, env, w);
    ComputesTheOutputs(xs[key], base, env, w);
  }

  lemma SameAsItself(registry: Registry, key: NodeKey)
    requires key in registry
    ensures SameSources(registry[key], registry[key], registry, registry)
  {
  }

  /** So there is an interpretation of the registered types that leaves the others alone. */
  lemma InterpretationExists(base: Sem, registry: Registry, ds: map<NodeKey, Derivation>, xs: Expansions)
    requires SoundRegistry(registry) && Expand(registry, ds, xs)
    ensures Interprets(Extended(base, xs), registry)
    ensures forall key, meta, env | key !in registry :: Extended(base, xs)(key.0, key.1, meta, env) == base(key.0, key.1, meta, env)
  {
    var sem := Extended(base, xs);
    ExtensionInterpretsExpansions(base, registry, ds, xs);
    forall key, meta, env, w | key in registry && Solves(registry[key], sem, env, w)
      ensures sem(key.0, key.1, meta, env) == OutputsOf(registry[key], w)
    {
      var u := SolutionExpands(ds[key], registry[key], registry, xs[key], sem, env, w);
      ExtensionMeans(base, registry, ds, xs, key, ds[key], xs[key], env, u);
      assert (key.0, key.1) == key;
    }
    forall key, meta, env | key !in registry
      ensures sem(key.0, key.1, meta, env) == base(key.0, key.1, meta, env)
    {
      assert (key.0, key.1) == key;
    }
  }
}
