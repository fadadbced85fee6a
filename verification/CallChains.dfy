/** When the expansion recurses too far: what success and errors say about chains of calls
    (src/comfyng/graph/subgraphs.py:340-406). */
module CallChains {
  import opened Ids
  import opened Graphs
  import opened Inlining
  import opened InlineCall
  import opened Expansion
  import opened Expand
  import opened ExpansionTheorems

  // ----- Call chains -----

  /** A chain of calls from a graph down through registered graphs. */
  ghost predicate CallChain(g: Graph, registry: Registry, keys: seq<NodeKey>)
    decreases |keys|
  {
    keys == [] ||
    (keys[0] in registry && (exists n :: n in g.nodes && KeyOf(n) == keys[0]) && CallChain(registry[keys[0]], registry, keys[1..]))
  }

  /** No chain that continues `stack` repeats a key or goes deeper than the limit. */
  ghost predicate ChainsGood(g: Graph, registry: Registry, stack: seq<NodeKey>, maxDepth: nat)
  {
    forall keys :: CallChain(g, registry, keys) ==> Distinct(stack + keys) && |stack + keys| <= maxDepth
  }

  ghost predicate RepeatsKey(g: Graph, registry: Registry, stack: seq<NodeKey>)
  {
    exists keys :: CallChain(g, registry, keys) && !Distinct(stack + keys)
  }

  ghost predicate TooDeep(g: Graph, registry: Registry, stack: seq<NodeKey>, maxDepth: nat)
  {
    exists keys :: CallChain(g, registry, keys) && |stack + keys| > maxDepth
  }

  /** A bad chain below a call is a bad chain of the caller. */
  lemma BadChainAbove(g: Graph, registry: Registry, stack: seq<NodeKey>, n: Node, keys: seq<NodeKey>)
    requires n in g.nodes && KeyOf(n) in registry && CallChain(registry[KeyOf(n)], registry, keys)
    ensures CallChain(g, registry, [KeyOf(n)] + keys)
    ensures stack + ([KeyOf(n)] + keys) == stack + [KeyOf(n)] + keys
  {
    assert ([KeyOf(n)] + keys)[1..] == keys;
  }

  lemma RepeatAbove(g: Graph, registry: Registry, stack: seq<NodeKey>, n: Node)
    requires n in g.nodes && KeyOf(n) in registry
    requires RepeatsKey(registry[KeyOf(n)], registry, stack + [KeyOf(n)])
    ensures RepeatsKey(g, registry, stack)
  {
    var keys :| CallChain(registry[KeyOf(n)], registry, keys) && !Distinct(stack + [KeyOf(n)] + keys);
    BadChainAbove(g, registry, stack, n, keys);
  }

  lemma TooDeepAbove(g: Graph, registry: Registry, stack: seq<NodeKey>, maxDepth: nat, n: Node)
    requires n in g.nodes && KeyOf(n) in registry
    requires TooDeep(registry[KeyOf(n)], registry, stack + [KeyOf(n)], maxDepth)
    ensures TooDeep(g, registry, stack, maxDepth)
  {
    var keys :| CallChain(registry[KeyOf(n)], registry, keys) && |stack + [KeyOf(n)] + keys| > maxDepth;
    BadChainAbove(g, registry, stack, n, keys);
  }

  lemma RepeatHere(g: Graph, registry: Registry, stack: seq<NodeKey>, n: Node)
    requires n in g.nodes && KeyOf(n) in registry && KeyOf(n) in stack
    ensures RepeatsKey(g, registry, stack)
  {
    var keys := [KeyOf(n)];
    assert CallChain(g, registry, keys) by { assert keys[1..] == []; }
    var i :| 0 <= i < |stack| && stack[i] == KeyOf(n);
    assert (stack + keys)[i] == (stack + keys)[|stack|];
  }

  // ----- What success and errors mean -----

  /** A successful expansion met no bad chain of calls, although it never looked at a whole chain. */
  lemma {:induction false} RunMeansChainsGood(d: Derivation, g: Graph, registry: Registry, stack: seq<NodeKey>, maxDepth: nat, x: Graph)
    requires Runs(d, g, registry, stack, maxDepth, x) && Distinct(stack) && UniqueIds(g)
    requires forall key :: key in registry ==> UniqueIds(registry[key])
    ensures ChainsGood(g, registry, stack, maxDepth)
    decreases d
  {
    hide Inlinable, IsInlining, UniqueIds;
    match d
    case Done =>
      forall keys | CallChain(g, registry, keys)
        ensures keys == []
      {
      }
      assert stack + [] == stack;
    case Inline(call, inner, child, after, rest) =>
      var key := KeyOf(call);
      AfterRun(d, g, registry, stack, maxDepth, x);
      RunMeansChainsGood(inner, registry[key], registry, stack + [key], maxDepth, child);
      RunMeansChainsGood(rest, after, registry, stack, maxDepth, x);
      forall keys | CallChain(g, registry, keys)
        ensures Distinct(stack + keys) && |stack + keys| <= maxDepth
      {
        if keys == [] {
          assert stack + keys == stack;
        } else {
          assert stack + [keys[0]] + keys[1..] == stack + keys;
          var n :| n in g.nodes && KeyOf(n) == keys[0];
          if n.id != call.id {
            assert n in after.nodes;
            assert CallChain(after, registry, keys);
          }
        }
      }
  }

  /** What one turn leaves: unique ids, and all other calls. */
  lemma AfterRun(d: Derivation, g: Graph, registry: Registry, stack: seq<NodeKey>, maxDepth: nat, x: Graph)
    requires Runs(d, g, registry, stack, maxDepth, x) && d.Inline? && UniqueIds(g)
    requires forall key :: key in registry ==> UniqueIds(registry[key])
    ensures UniqueIds(d.child) && UniqueIds(d.after) && NoCalls(d.child, registry)
    ensures forall n :: n in g.nodes && n.id != d.call.id ==> n in d.after.nodes
    ensures forall n :: n in g.nodes && n.id == d.call.id ==> n == d.call
    ensures forall n :: n in d.after.nodes && KeyOf(n) in registry ==> n in g.nodes && n.id != d.call.id
  {
    var key := KeyOf(d.call);
    RunDerives(d.inner, registry[key], registry, stack + [key], maxDepth, d.child);
    TurnLeaves(g, registry, d.call, d.inner, d.child, d.after);
  }

  lemma TurnLeaves(g: Graph, registry: Registry, call: Node, inner: Derivation, child: Graph, after: Graph)
    requires UniqueIds(g) && call in g.nodes && KeyOf(call) in registry && Replaced(g, call, child, after)
    requires Derives(inner, registry[KeyOf(call)], registry, child) && forall key :: key in registry ==> UniqueIds(registry[key])
    ensures UniqueIds(child) && UniqueIds(after) && NoCalls(child, registry)
    ensures forall n :: n in g.nodes && n.id != call.id ==> n in after.nodes
    ensures forall n :: n in g.nodes && n.id == call.id ==> n == call
    ensures forall n :: n in after.nodes && KeyOf(n) in registry ==> n in g.nodes && n.id != call.id
  {
    hide Derives;
    DerivedUnique(inner, registry[KeyOf(call)], registry, child);
    DerivedHasNoCalls(inner, registry[KeyOf(call)], registry, child);
    InliningIdsUnique(g, call, child, after);
    hide IsInlining, Inlinable;
    forall n
      ensures n in g.nodes && n.id != call.id ==> n in after.nodes
      ensures n in g.nodes && n.id == call.id ==> n == call
    {
      NodesOfInlining(g, call, child, after, n);
      if n in g.nodes && n.id == call.id { UniqueNode(g, n, call); }
    }
    forall n | n in after.nodes && KeyOf(n) in registry
      ensures n in g.nodes && n.id != call.id
    {
      NodesOfInlining(g, call, child, after, n);
    }
  }

  predicate ChainError(code: string)
  {
    code == "recursive_subgraph" || code == "subgraph_depth_exceeded"
  }

  /** The recursion stopped because of the calls above, not at a call that does not fit. */
  predicate AtChain(s: Stop)
  {
    match s
    case TooFarDown => true
    case Repeat(_) => true
    case Misfit(_, _, _) => false
    case Inside(_, below) => AtChain(below)
    case Later(_, _, _, _, next) => AtChain(next)
  }

  lemma UnfitIsNoChain(g: Graph, call: Node, child: Graph, code: string)
    requires Unfit(g, call, child, code)
    ensures !ChainError(code)
  {
    hide NoCollision, LiteralsKnown, LiteralsFit, ChildEdgesInside, InputsKnown, OutputsKnown;
    if child.nodes != [] && TraceKind(call).Some? {
      var first := FirstEdgeCode(g.edges, call, child);
      FirstCodeIsOne(g.edges, call, child);
    }
  }

  lemma {:induction false} FirstCodeIsOne(edges: seq<Edge>, call: Node, child: Graph)
    ensures !ChainError(FirstEdgeCode(edges, call, child))
  {
    if edges != [] {
      FirstCodeIsOne(edges[..|edges| - 1], call, child);
    }
  }

  /** Errors about chains are reported exactly where the recursion stops for that reason, and
      then the chain of calls is really bad. */
  lemma {:induction false} StopMeansBadChain(s: Stop, g: Graph, registry: Registry, stack: seq<NodeKey>, maxDepth: nat, code: string)
    requires Stops(s, g, registry, stack, maxDepth, code)
    ensures AtChain(s) <==> ChainError(code)
    ensures code == "recursive_subgraph" ==> RepeatsKey(g, registry, stack)
    ensures code == "subgraph_depth_exceeded" ==> TooDeep(g, registry, stack, maxDepth)
    decreases s
  {
    hide Runs, Unfit, Replaced, RepeatsKey, TooDeep;
    if |stack| > maxDepth {
      DeepHere(g, registry, stack, maxDepth);
    } else {
      match s
      case Repeat(call) =>
        RepeatHere(g, registry, stack, call);
      case Misfit(call, inner, child) =>
        UnfitIsNoChain(g, call, child, code);
      case Inside(call, below) =>
        StopMeansBadChain(below, registry[KeyOf(call)], registry, stack + [KeyOf(call)], maxDepth, code);
        if code == "recursive_subgraph" { RepeatAbove(g, registry, stack, call); }
        if code == "subgraph_depth_exceeded" { TooDeepAbove(g, registry, stack, maxDepth, call); }
      case Later(call, inner, child, after, next) =>
        StopMeansBadChain(next, after, registry, stack, maxDepth, code);
        RunDerives(inner, registry[KeyOf(call)], registry, stack + [KeyOf(call)], maxDepth, child);
        DerivedHasNoCalls(inner, registry[KeyOf(call)], registry, child);
        BadChainEarlier(g, registry, stack, maxDepth, call, child, after);
    }
  }

  lemma DeepHere(g: Graph, registry: Registry, stack: seq<NodeKey>, maxDepth: nat)
    requires |stack| > maxDepth
    ensures TooDeep(g, registry, stack, maxDepth)
  {
    assert CallChain(g, registry, []) && stack + [] == stack;
  }

  /** The calls of a later graph were there before. */
  lemma BadChainEarlier(g: Graph, registry: Registry, stack: seq<NodeKey>, maxDepth: nat, call: Node, child: Graph, after: Graph)
    requires NoCalls(child, registry) && Replaced(g, call, child, after)
    ensures RepeatsKey(after, registry, stack) ==> RepeatsKey(g, registry, stack)
    ensures TooDeep(after, registry, stack, maxDepth) ==> TooDeep(g, registry, stack, maxDepth)
  {
    hide Inlinable;
    forall keys | CallChain(after, registry, keys)
      ensures CallChain(g, registry, keys)
    {
      if keys != [] {
        var n :| n in after.nodes && KeyOf(n) == keys[0];
        NodesOfInlining(g, call, child, after, n);
      }
    }
  }
}
