/** The recursive expansion loop, its errors and its traces
    (src/comfyng/graph/subgraphs.py:303-406). */
module Expand {
  import opened Ids
  import opened Graphs
  import opened Inlining
  import opened InlineCall
  import opened Expansion

  // ----- Traces -----

  datatype Trace = Trace(
    kind: string,
    call: Id,
    parent: Option<Id>,
    key: NodeKey,
    sourceGraph: nat,
    sourceVersion: nat,
    members: seq<Id>,
    depth: nat)

  function CloneAll(call: Node, child: Graph, ids: seq<Id>): (clones: seq<Id>)
    ensures |clones| == |ids|
    ensures forall k :: 0 <= k < |ids| ==> clones[k] == CloneId(call, child, ids[k])
  {
    seq(|ids|, k requires 0 <= k < |ids| => CloneId(call, child, ids[k]))
  }

  function RootTrace(call: Node, child: Graph, kind: string): Trace
  {
    Trace(kind, call.id, None, KeyOf(call), child.id, child.version, CloneAll(call, child, IdsOf(child.nodes)), 0)
  }

  /** `_rebased_trace`: a child's trace seen from the caller. */
  function Rebased(t: Trace, call: Node, child: Graph): Trace
  {
    Trace(t.kind, CloneId(call, child, t.call),
          Some(if t.parent.None? then call.id else CloneId(call, child, t.parent.value)),
          t.key, t.sourceGraph, t.sourceVersion, CloneAll(call, child, t.members), t.depth + 1)
  }

  function RebasedAll(traces: seq<Trace>, call: Node, child: Graph): (rebased: seq<Trace>)
    ensures |rebased| == |traces|
    ensures forall k :: 0 <= k < |traces| ==> rebased[k] == Rebased(traces[k], call, child)
  {
    seq(|traces|, k requires 0 <= k < |traces| => Rebased(traces[k], call, child))
  }

  /** The traces one inlining contributes: its own, then its child's, seen from outside. */
  ghost function CallTraces(call: Node, child: Graph, inner: seq<Trace>): seq<Trace>
    requires TraceKind(call).Some?
  {
    [RootTrace(call, child, TraceKind(call).value)] + RebasedAll(inner, call, child)
  }

  ghost function TracesOf(d: Derivation): seq<Trace>
  {
    match d
    case Done => []
    case Inline(call, inner, child, after, rest) =>
      (if TraceKind(call).Some? then CallTraces(call, child, TracesOf(inner)) else []) + TracesOf(rest)
  }

  // ----- What the recursion does -----

  /** The call the loop takes next. */
  ghost predicate Smallest(call: Node, g: Graph, registry: Registry)
  {
    && call in g.nodes && KeyOf(call) in registry
    && forall n :: n in g.nodes && KeyOf(n) in registry ==> n.id == call.id || Before(call.id, n.id)
  }

  /** The loop takes this call and goes down into its graph. */
  ghost predicate Enters(call: Node, g: Graph, registry: Registry, stack: seq<NodeKey>)
  {
    Smallest(call, g, registry) && KeyOf(call) !in stack
  }

  ghost predicate Replaced(g: Graph, call: Node, child: Graph, after: Graph)
  {
    child.nodes != [] && TraceKind(call).Some? && Inlinable(g, call, child) && IsInlining(g, call, child, after)
  }

  /** The recursion succeeds with this expansion: at every level the smallest call is taken, is
      not being expanded already, and fits its own expanded child. */
  ghost predicate Runs(d: Derivation, g: Graph, registry: Registry, stack: seq<NodeKey>, maxDepth: nat, x: Graph)
    decreases d
  {
    |stack| <= maxDepth &&
    match d
    case Done => x == g && NoCalls(g, registry)
    case Inline(call, inner, child, after, rest) =>
      && Enters(call, g, registry, stack)
      && Runs(inner, registry[KeyOf(call)], registry, stack + [KeyOf(call)], maxDepth, child)
      && Replaced(g, call, child, after)
      && Runs(rest, after, registry, stack, maxDepth, x)
  }

  lemma {:induction false} RunDerives(d: Derivation, g: Graph, registry: Registry, stack: seq<NodeKey>, maxDepth: nat, x: Graph)
    requires Runs(d, g, registry, stack, maxDepth, x)
    ensures Derives(d, g, registry, x)
    decreases d
  {
    hide Inlinable, IsInlining, NoCalls;
    match d
    case Done =>
    case Inline(call, inner, child, after, rest) =>
      RunDerives(inner, registry[KeyOf(call)], registry, stack + [KeyOf(call)], maxDepth, child);
      RunDerives(rest, after, registry, stack, maxDepth, x);
  }

  /** Why a call cannot be replaced by its expanded child, under the code that reports it. */
  ghost predicate Unfit(g: Graph, call: Node, child: Graph, code: string)
  {
    if child.nodes == [] then code == "empty_subgraph"
    else if TraceKind(call).None? then code == "invalid_subgraph_kind"
    else !Inlinable(g, call, child) && Cause(code, g, call, child)
  }

  /** Where the recursion stops with an error: too far down, at a call that is being expanded
      already, at a call that does not fit its child, inside the graph of a call, or later, after
      one more call was replaced. */
  datatype Stop =
    | TooFarDown
    | Repeat(call: Node)
    | Misfit(call: Node, inner: Derivation, child: Graph)
    | Inside(call: Node, below: Stop)
    | Later(call: Node, inner: Derivation, child: Graph, after: Graph, next: Stop)

  /** The recursion comes to this point and raises this code there. */
  ghost predicate Stops(s: Stop, g: Graph, registry: Registry, stack: seq<NodeKey>, maxDepth: nat, code: string)
    decreases s
  {
    if |stack| > maxDepth then s == TooFarDown && code == "subgraph_depth_exceeded"
    else
      match s
      case TooFarDown => false
      case Repeat(call) => Smallest(call, g, registry) && KeyOf(call) in stack && code == "recursive_subgraph"
      case Misfit(call, inner, child) =>
        && Enters(call, g, registry, stack)
        && Runs(inner, registry[KeyOf(call)], registry, stack + [KeyOf(call)], maxDepth, child)
        && Unfit(g, call, child, code)
      case Inside(call, below) =>
        && Enters(call, g, registry, stack)
        && Stops(below, registry[KeyOf(call)], registry, stack + [KeyOf(call)], maxDepth, code)
      case Later(call, inner, child, after, next) =>
        && Enters(call, g, registry, stack)
        && Runs(inner, registry[KeyOf(call)], registry, stack + [KeyOf(call)], maxDepth, child)
        && Replaced(g, call, child, after)
        && Stops(next, after, registry, stack, maxDepth, code)
  }

  /** The expansion fails under this code. */
  ghost predicate ExpansionFails(code: string, g: Graph, registry: Registry, stack: seq<NodeKey>, maxDepth: nat)
  {
    exists s :: Stops(s, g, registry, stack, maxDepth, code)
  }

  // ----- The loop -----

  /** One turn of the loop. */
  datatype Step = Step(before: Graph, call: Node, inner: Derivation, child: Graph, after: Graph)

  datatype History = Start | Turn(earlier: History, step: Step)

  ghost predicate StepHolds(s: Step, registry: Registry, stack: seq<NodeKey>, maxDepth: nat)
  {
    && Enters(s.call, s.before, registry, stack)
    && Runs(s.inner, registry[KeyOf(s.call)], registry, stack + [KeyOf(s.call)], maxDepth, s.child)
    && Replaced(s.before, s.call, s.child, s.after)
  }

  ghost predicate Reaches(h: History, g: Graph, registry: Registry, stack: seq<NodeKey>, maxDepth: nat, expanded: Graph)
  {
    match h
    case Start => expanded == g
    case Turn(earlier, s) =>
      s.after == expanded && StepHolds(s, registry, stack, maxDepth) && Reaches(earlier, g, registry, stack, maxDepth, s.before)
  }

  ghost function HistoryTraces(h: History): seq<Trace>
  {
    match h
    case Start => []
    case Turn(earlier, s) =>
      HistoryTraces(earlier) + (if TraceKind(s.call).Some? then CallTraces(s.call, s.child, TracesOf(s.inner)) else [])
  }

  /** The turns taken so far, followed by a run, make a run. */
  lemma {:induction false} CloseRun(h: History, g: Graph, registry: Registry, stack: seq<NodeKey>, maxDepth: nat, expanded: Graph,
                                    tail: Derivation, x: Graph)
    returns (d: Derivation)
    requires Reaches(h, g, registry, stack, maxDepth, expanded) && Runs(tail, expanded, registry, stack, maxDepth, x)
    requires |stack| <= maxDepth
    ensures Runs(d, g, registry, stack, maxDepth, x) && TracesOf(d) == HistoryTraces(h) + TracesOf(tail)
    decreases h
  {
    hide Enters, Replaced, Runs, StepHolds, CallTraces;
    match h
    case Start =>
      d := tail;
    case Turn(earlier, s) =>
      var longer := Inline(s.call, s.inner, s.child, s.after, tail);
      TurnBeforeRun(s, registry, stack, maxDepth, tail, x);
      d := CloseRun(earlier, g, registry, stack, maxDepth, s.before, longer, x);
      ConcatAssoc(HistoryTraces(earlier), CallTraces(s.call, s.child, TracesOf(s.inner)), TracesOf(tail));
  }

  /** One turn and then a run make a run. */
  lemma TurnBeforeRun(s: Step, registry: Registry, stack: seq<NodeKey>, maxDepth: nat, tail: Derivation, x: Graph)
    requires StepHolds(s, registry, stack, maxDepth) && Runs(tail, s.after, registry, stack, maxDepth, x) && |stack| <= maxDepth
    ensures Runs(Inline(s.call, s.inner, s.child, s.after, tail), s.before, registry, stack, maxDepth, x) && TraceKind(s.call).Some?
  {
    hide Enters, Inlinable, IsInlining, TraceKind;
  }

  /** The turns taken so far, followed by an error, make an error. */
  lemma {:induction false} CloseStop(h: History, g: Graph, registry: Registry, stack: seq<NodeKey>, maxDepth: nat, expanded: Graph,
                                     s: Stop, code: string)
    requires Reaches(h, g, registry, stack, maxDepth, expanded) && Stops(s, expanded, registry, stack, maxDepth, code)
    requires |stack| <= maxDepth
    ensures ExpansionFails(code, g, registry, stack, maxDepth)
    decreases h
  {
    hide Enters, Replaced;
    match h
    case Start =>
    case Turn(earlier, t) =>
      var longer := Later(t.call, t.inner, t.child, t.after, s);
      assert Stops(longer, t.before, registry, stack, maxDepth, code);
      CloseStop(earlier, g, registry, stack, maxDepth, t.before, longer, code);
  }

  lemma ConcatAssoc<T>(a: seq<T>, b: seq<T>, c: seq<T>)
    ensures a + (b + c) == a + b + c
  {
  }

  datatype ExpandResult =
    | Expanded(graph: Graph, traces: seq<Trace>)
    | ExpandError(code: string)

  function Calls(nodes: seq<Node>, registry: Registry): nat
  {
    if nodes == [] then 0
    else Calls(nodes[..|nodes| - 1], registry) + if KeyOf(nodes[|nodes| - 1]) in registry then 1 else 0
  }

  lemma {:induction false} CallsJoin(a: seq<Node>, b: seq<Node>, registry: Registry)
    ensures Calls(a + b, registry) == Calls(a, registry) + Calls(b, registry)
  {
    if b == [] {
      assert a + b == a;
    } else {
      assert (a + b)[..|a + b| - 1] == a + b[..|b| - 1];
      CallsJoin(a, b[..|b| - 1], registry);
    }
  }

  lemma {:induction false} NoCallsCounted(nodes: seq<Node>, registry: Registry)
    requires forall n :: n in nodes ==> KeyOf(n) !in registry
    ensures Calls(nodes, registry) == 0
  {
    if nodes != [] {
      NoCallsCounted(nodes[..|nodes| - 1], registry);
    }
  }

  lemma {:induction false} OthersCalls(nodes: seq<Node>, call: Node, registry: Registry)
    ensures Calls(Others(nodes, call), registry) <= Calls(nodes, registry)
    ensures call in nodes && KeyOf(call) in registry ==> Calls(Others(nodes, call), registry) < Calls(nodes, registry)
  {
    if nodes != [] {
      var init, last := nodes[..|nodes| - 1], nodes[|nodes| - 1];
      OthersCalls(init, call, registry);
      assert nodes == init + [last];
      CallsJoin(Others(init, call), if last.id != call.id then [last] else [], registry);
      assert Calls([last], registry) == Calls([last][..0], registry) + if KeyOf(last) in registry then 1 else 0;
      assert [last][..0] == [];
      assert Calls([], registry) == 0;
    }
  }

  /** Inlining a fully expanded child leaves strictly fewer calls, and only old ones. */
  lemma InliningFewerCalls(g: Graph, call: Node, child: Graph, r: Graph, registry: Registry)
    requires call in g.nodes && KeyOf(call) in registry && NoCalls(child, registry)
    requires IsInlining(g, call, child, r)
    ensures Calls(r.nodes, registry) < Calls(g.nodes, registry)
    ensures forall n :: n in r.nodes && KeyOf(n) in registry ==> n in g.nodes && n.id != call.id
  {
    var clones: seq<Node> :|
      && |clones| == |child.nodes|
      && (forall k :: 0 <= k < |clones| ==> CloneOf(call, child, child.nodes[k], clones[k]))
      && r.nodes == Others(g.nodes, call) + clones;
    forall n | n in clones
      ensures KeyOf(n) !in registry
    {
      var k :| 0 <= k < |clones| && clones[k] == n;
      assert child.nodes[k] in child.nodes;
    }
    OthersCalls(g.nodes, call, registry);
    CallsJoin(Others(g.nodes, call), clones, registry);
    NoCallsCounted(clones, registry);
    forall n | n in r.nodes && KeyOf(n) in registry
      ensures n in g.nodes && n.id != call.id
    {
      OthersMembers(g.nodes, call, n);
    }
  }

  ghost predicate UniqueIds(g: Graph)
  {
    Distinct(IdsOf(g.nodes))
  }

  /** The call with the smallest id. */
  method NextCall(expanded: Graph, registry: Registry) returns (call: Option<Node>)
    ensures call.None? <==> NoCalls(expanded, registry)
    ensures call.Some? ==> Smallest(call.value, expanded, registry)
  {
    call := None;
    for k := 0 to |expanded.nodes|
      invariant call.None? ==> forall i :: 0 <= i < k ==> KeyOf(expanded.nodes[i]) !in registry
      invariant call.Some? ==> call.value in expanded.nodes && KeyOf(call.value) in registry
      invariant call.Some? ==> forall i :: 0 <= i < k && KeyOf(expanded.nodes[i]) in registry ==>
                  expanded.nodes[i].id == call.value.id || Before(call.value.id, expanded.nodes[i].id)
    {
      var n := expanded.nodes[k];
      if KeyOf(n) in registry && (call.None? || Before(n.id, call.value.id)) {
        if call.Some? {
          forall i | 0 <= i < k && KeyOf(expanded.nodes[i]) in registry
            ensures Before(n.id, expanded.nodes[i].id)
          {
            if expanded.nodes[i].id != call.value.id {
              BeforeTransitive(n.id, call.value.id, expanded.nodes[i].id);
            }
          }
        }
        call := Some(n);
      } else if KeyOf(n) in registry {
        BeforeTotal(n.id, call.value.id);
      }
    }
  }

  /** `_expand`: it succeeds with a run of the recursion, whose traces it collects, or raises the
      error at which the recursion stops. */
  method ExpandAll(g: Graph, registry: Registry, stack: seq<NodeKey>, maxDepth: nat)
    returns (r: ExpandResult, ghost d: Derivation)
    ensures r.Expanded? ==> Runs(d, g, registry, stack, maxDepth, r.graph) && r.traces == TracesOf(d) && NoCalls(r.graph, registry)
    ensures r.ExpandError? ==> ExpansionFails(r.code, g, registry, stack, maxDepth)
    decreases maxDepth + 1 - |stack|
  {
    hide Runs, NoCalls, Inlinable, IsInlining, HistoryTraces, Reaches, TracesOf, ExpansionFails, Unfit, Cause;
    d := Done;
    if |stack| > maxDepth {
      assert ExpansionFails("subgraph_depth_exceeded", g, registry, stack, maxDepth) by { StopDown(g, registry, stack, maxDepth); }
      return ExpandError("subgraph_depth_exceeded"), d;
    }
    var expanded := g;
    var traces: seq<Trace> := [];
    ghost var h := Start;
    ReachesStart(g, registry, stack, maxDepth);
    while true
      invariant Reaches(h, g, registry, stack, maxDepth, expanded) && traces == HistoryTraces(h)
      decreases Calls(expanded.nodes, registry)
    {
      var next := NextCall(expanded, registry);
      if next.None? {
        d := Finish(g, registry, stack, maxDepth, expanded, h);
        return Expanded(expanded, traces), d;
      }
      var call := next.value;
      var key := KeyOf(call);
      if key in stack {
        CloseStop(h, g, registry, stack, maxDepth, expanded, Repeat(call), "recursive_subgraph");
        return ExpandError("recursive_subgraph"), d;
      }
      var childResult;
      ghost var inner;
      childResult, inner := ExpandAll(registry[key], registry, stack + [key], maxDepth);
      if childResult.ExpandError? {
        StopInside(h, g, registry, stack, maxDepth, expanded, call, childResult.code);
        return ExpandError(childResult.code), d;
      }
      var child := childResult.graph;
      var inlined := ReplaceCall(expanded, call, child);
      if inlined.InlineError? {
        CloseStop(h, g, registry, stack, maxDepth, expanded, Misfit(call, inner, child), inlined.code);
        return ExpandError(inlined.code), d;
      }
      ghost var s := Step(expanded, call, inner, child, inlined.graph);
      TakeStep(g, registry, stack, maxDepth, h, s);
      InliningFewerCalls(expanded, call, child, inlined.graph, registry);
      traces := traces + ([RootTrace(call, child, TraceKind(call).value)] + RebasedAll(childResult.traces, call, child));
      h := Turn(h, s);
      expanded := inlined.graph;
    }
  }

  lemma StopDown(g: Graph, registry: Registry, stack: seq<NodeKey>, maxDepth: nat)
    requires |stack| > maxDepth
    ensures ExpansionFails("subgraph_depth_exceeded", g, registry, stack, maxDepth)
  {
    assert Stops(TooFarDown, g, registry, stack, maxDepth, "subgraph_depth_exceeded");
  }

  lemma ReachesStart(g: Graph, registry: Registry, stack: seq<NodeKey>, maxDepth: nat)
    ensures Reaches(Start, g, registry, stack, maxDepth, g) && HistoryTraces(Start) == []
  {
  }

  lemma StopInside(h: History, g: Graph, registry: Registry, stack: seq<NodeKey>, maxDepth: nat, expanded: Graph, call: Node, code: string)
    requires Reaches(h, g, registry, stack, maxDepth, expanded) && Enters(call, expanded, registry, stack) && |stack| <= maxDepth
    requires ExpansionFails(code, registry[KeyOf(call)], registry, stack + [KeyOf(call)], maxDepth)
    ensures ExpansionFails(code, g, registry, stack, maxDepth)
  {
    hide Reaches;
    var below :| Stops(below, registry[KeyOf(call)], registry, stack + [KeyOf(call)], maxDepth, code);
    CloseStop(h, g, registry, stack, maxDepth, expanded, Inside(call, below), code);
  }

  lemma TakeStep(g: Graph, registry: Registry, stack: seq<NodeKey>, maxDepth: nat, h: History, s: Step)
    requires Reaches(h, g, registry, stack, maxDepth, s.before) && StepHolds(s, registry, stack, maxDepth)
    ensures Reaches(Turn(h, s), g, registry, stack, maxDepth, s.after) && TraceKind(s.call).Some?
    ensures HistoryTraces(Turn(h, s)) == HistoryTraces(h) + CallTraces(s.call, s.child, TracesOf(s.inner))
  {
    hide Runs;
  }

  /** The checks on one call and its expanded child, then the inlining itself. */
  method ReplaceCall(expanded: Graph, call: Node, child: Graph) returns (r: InlineResult)
    ensures r.Inlined? <==> child.nodes != [] && TraceKind(call).Some? && Inlinable(expanded, call, child)
    ensures r.Inlined? ==> IsInlining(expanded, call, child, r.graph)
    ensures r.InlineError? ==> Unfit(expanded, call, child, r.code)
  {
    if child.nodes == [] {
      return InlineError("empty_subgraph");
    }
    if TraceKind(call).None? {
      return InlineError("invalid_subgraph_kind");
    }
    r := InlineCall.InlineCall(expanded, call, child);
  }

  lemma Finish(g: Graph, registry: Registry, stack: seq<NodeKey>, maxDepth: nat, expanded: Graph, h: History)
    returns (d: Derivation)
    requires Reaches(h, g, registry, stack, maxDepth, expanded) && NoCalls(expanded, registry) && |stack| <= maxDepth
    ensures Runs(d, g, registry, stack, maxDepth, expanded) && HistoryTraces(h) == TracesOf(d)
  {
    assert Runs(Done, expanded, registry, stack, maxDepth, expanded);
    d := CloseRun(h, g, registry, stack, maxDepth, expanded, Done, expanded);
    assert HistoryTraces(h) + TracesOf(Done) == HistoryTraces(h);
  }
}
