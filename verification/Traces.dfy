/** The traces of an expansion: they form a forest over the final graph if and only if no call
    carries the id of another call of the same graph (src/comfyng/graph/subgraphs.py:314-406,
    src/comfyng/graph/compiler.py:603-621). */
module Traces {
  import opened Ids
  import opened Layering
  import opened Graphs
  import opened Inlining
  import opened Expansion
  import opened Expand
  import opened ExpansionTheorems

  // ----- Traces are nested -----

  /** What the plan's constructor checks about traces. */
  ghost predicate Forest(traces: seq<Trace>, ids: set<Id>)
  {
    CallsUnique(traces) && Nested(traces, ids)
  }

  ghost predicate CallsUnique(traces: seq<Trace>)
  {
    forall i, j :: 0 <= i < j < |traces| ==> traces[i].call != traces[j].call
  }

  ghost predicate Nested(traces: seq<Trace>, ids: set<Id>)
  {
    && (forall t :: t in traces ==> TraceOk(t, ids))
    && (forall t :: t in traces && t.parent.Some? ==> HasParent(t, traces))
  }

  ghost predicate TraceOk(t: Trace, ids: set<Id>)
  {
    t.members != [] && Distinct(t.members) && Elements(t.members) <= ids && (t.parent.None? <==> t.depth == 0)
  }

  ghost predicate HasParent(t: Trace, traces: seq<Trace>)
  {
    exists p :: p in traces && ParentOf(p, t)
  }

  ghost predicate ParentOf(p: Trace, t: Trace)
  {
    t.parent == Some(p.call) && t.depth == p.depth + 1 && Elements(t.members) <= Elements(p.members)
  }

  lemma CloneAllKeeps(call: Node, child: Graph, ids: seq<Id>, within: seq<Id>)
    requires Distinct(ids) && Elements(ids) <= Elements(within)
    ensures Distinct(CloneAll(call, child, ids)) && Elements(CloneAll(call, child, ids)) <= Elements(CloneAll(call, child, within))
  {
    forall x | x in CloneAll(call, child, ids)
      ensures x in CloneAll(call, child, within)
    {
      var i :| 0 <= i < |ids| && CloneAll(call, child, ids)[i] == x;
      assert ids[i] in Elements(within);
      var j :| 0 <= j < |within| && within[j] == ids[i];
      assert CloneAll(call, child, within)[j] == x;
    }
    forall i, j | 0 <= i < j < |ids|
      ensures CloneAll(call, child, ids)[i] != CloneAll(call, child, ids)[j]
    {
      assert ids[i] != ids[j];
    }
  }

  lemma CloneAllIds(call: Node, child: Graph)
    ensures Elements(CloneAll(call, child, IdsOf(child.nodes))) == CloneIds(call, child)
  {
    NodeIdsAreElements(child);
    var clones := CloneAll(call, child, IdsOf(child.nodes));
    forall id | id in NodeIds(child)
      ensures CloneId(call, child, id) in clones
    {
      assert id in Elements(IdsOf(child.nodes));
      var j :| 0 <= j < |child.nodes| && IdsOf(child.nodes)[j] == id;
      assert clones[j] == CloneId(call, child, id);
    }
    forall x | x in clones
      ensures x in CloneIds(call, child)
    {
      var j :| 0 <= j < |clones| && clones[j] == x;
      assert IdsOf(child.nodes)[j] in Elements(IdsOf(child.nodes));
    }
  }

  /** A child's trace, seen from outside: inside the call's members, one level down. */
  lemma RebasedOk(call: Node, child: Graph, inner: seq<Trace>, t: Trace, root: Trace)
    requires Nested(inner, NodeIds(child)) && t in inner
    requires root == RootTrace(call, child, root.kind)
    ensures TraceOk(Rebased(t, call, child), CloneIds(call, child))
    ensures t.parent.None? ==> ParentOf(root, Rebased(t, call, child))
    ensures forall p :: p in inner && ParentOf(p, t) ==> ParentOf(Rebased(p, call, child), Rebased(t, call, child))
  {
    NodeIdsAreElements(child);
    CloneAllIds(call, child);
    assert TraceOk(t, NodeIds(child));
    CloneAllKeeps(call, child, t.members, IdsOf(child.nodes));
    forall p | p in inner && ParentOf(p, t)
      ensures ParentOf(Rebased(p, call, child), Rebased(t, call, child))
    {
      CloneAllKeeps(call, child, t.members, p.members);
    }
  }

  lemma RootOk(call: Node, child: Graph, kind: string)
    requires child.nodes != [] && UniqueIds(child)
    ensures TraceOk(RootTrace(call, child, kind), CloneIds(call, child))
  {
    CloneAllIds(call, child);
    CloneAllKeeps(call, child, IdsOf(child.nodes), IdsOf(child.nodes));
  }

  lemma RebasedMembers(inner: seq<Trace>, call: Node, child: Graph, t: Trace)
    requires t in inner
    ensures Rebased(t, call, child) in RebasedAll(inner, call, child)
  {
    var i :| 0 <= i < |inner| && inner[i] == t;
    assert RebasedAll(inner, call, child)[i] == Rebased(t, call, child);
  }

  lemma CallNested(call: Node, child: Graph, inner: seq<Trace>)
    requires Nested(inner, NodeIds(child)) && child.nodes != [] && UniqueIds(child)
    requires TraceKind(call).Some?
    ensures Nested(CallTraces(call, child, inner), CloneIds(call, child))
  {
    var root := RootTrace(call, child, TraceKind(call).value);
    var rebased := RebasedAll(inner, call, child);
    var traces := CallTraces(call, child, inner);
    assert traces == [root] + rebased;
    RootOk(call, child, root.kind);
    forall s | s in rebased
      ensures TraceOk(s, CloneIds(call, child)) && HasParent(s, traces)
    {
      var i :| 0 <= i < |inner| && rebased[i] == s;
      var t := inner[i];
      RebasedOk(call, child, inner, t, root);
      if t.parent.None? {
        assert root in traces;
      } else {
        var p :| p in inner && ParentOf(p, t);
        RebasedMembers(inner, call, child, p);
        assert Rebased(p, call, child) in traces;
      }
    }
  }

  lemma NestedJoin(a: seq<Trace>, b: seq<Trace>, few: set<Id>, ids: set<Id>)
    requires Nested(a, few) && Nested(b, ids) && few <= ids
    ensures Nested(a + b, ids)
  {
    forall t | t in a + b && t.parent.Some?
      ensures HasParent(t, a + b)
    {
      var part := if t in a then a else b;
      var p :| p in part && ParentOf(p, t);
      assert p in a + b;
    }
  }

  /** Members are final nodes, and every nested trace lies inside its parent, one level deeper. */
  lemma {:induction false} TracesNest(d: Derivation, g: Graph, registry: Registry, x: Graph)
    requires Derives(d, g, registry, x) && UniqueIds(g) && forall key :: key in registry ==> UniqueIds(registry[key])
    ensures Nested(TracesOf(d), NodeIds(x))
    decreases d
  {
    hide Inlinable, IsInlining, NoCalls, Nested, UniqueIds;
    match d
    case Done =>
      NothingNested(NodeIds(x));
    case Inline(call, inner, child, after, rest) =>
      TracesNest(inner, registry[KeyOf(call)], registry, child);
      DerivedUnique(inner, registry[KeyOf(call)], registry, child);
      DerivedHasNoCalls(inner, registry[KeyOf(call)], registry, child);
      AfterUnique(g, call, child, after);
      TracesNest(rest, after, registry, x);
      CallNested(call, child, TracesOf(inner));
      ClonesSurvive(call, child, g, after, rest, registry, x);
      NestedJoin(CallTraces(call, child, TracesOf(inner)), TracesOf(rest), CloneIds(call, child), NodeIds(x));
  }

  lemma NothingNested(ids: set<Id>)
    ensures Nested([], ids)
  {
  }

  lemma AfterUnique(g: Graph, call: Node, child: Graph, after: Graph)
    requires UniqueIds(g) && UniqueIds(child) && Inlinable(g, call, child) && IsInlining(g, call, child, after)
    ensures UniqueIds(after)
  {
    InliningIdsUnique(g, call, child, after);
  }

  lemma ClonesSurvive(call: Node, child: Graph, g: Graph, after: Graph, rest: Derivation, registry: Registry, x: Graph)
    requires IsInlining(g, call, child, after) && Derives(rest, after, registry, x) && NoCalls(child, registry)
    requires UniqueIds(after) && forall key :: key in registry ==> UniqueIds(registry[key])
    ensures CloneIds(call, child) <= NodeIds(x)
  {
    forall id | id in NodeIds(child)
      ensures CloneId(call, child, id) in NodeIds(x)
    {
      var n := CloneInInlining(g, call, child, after, NodeAt(child, id));
      OrdinarySurvives(rest, after, registry, x, n);
    }
  }

  // ----- Which calls are traced -----

  /** Some call in the graph, or below one of its calls, is traced under this id. */
  ghost predicate Called(g: Graph, registry: Registry, id: Id)
    decreases id, 1
  {
    exists c :: c in g.nodes && KeyOf(c) in registry && (id == c.id || Below(c, registry, id))
  }

  /** The id that a call inside the child gets when the child is cloned. */
  ghost predicate Below(c: Node, registry: Registry, id: Id)
    decreases id, 0
  {
    && KeyOf(c) in registry && id.Clone? && id.call == c.id
    && id.graph == registry[KeyOf(c)].id && id.version == registry[KeyOf(c)].version
    && Called(registry[KeyOf(c)], registry, id.inner)
  }

  /** A call carries the id under which another call's child traces one of its own calls. */
  ghost predicate SharesId(g: Graph, registry: Registry)
  {
    exists c, e :: c in g.nodes && e in g.nodes && KeyOf(e) in registry && Below(c, registry, e.id)
  }

  /** That happens in the graph at the end of a chain of calls. */
  ghost predicate SharesIdAlong(g: Graph, registry: Registry, keys: seq<NodeKey>)
    decreases |keys|
  {
    if keys == [] then SharesId(g, registry)
    else
      && keys[0] in registry && (exists n :: n in g.nodes && KeyOf(n) == keys[0])
      && SharesIdAlong(registry[keys[0]], registry, keys[1..])
  }

  ghost predicate SomeSharedId(g: Graph, registry: Registry)
  {
    exists keys :: SharesIdAlong(g, registry, keys)
  }

  ghost predicate HasTrace(traces: seq<Trace>, id: Id)
  {
    exists t :: t in traces && t.call == id
  }

  lemma CallTraced(call: Node, child: Graph, inner: seq<Trace>, id: Id)
    requires TraceKind(call).Some?
    ensures HasTrace(CallTraces(call, child, inner), id)
       <==> id == call.id || (id.Clone? && id == CloneId(call, child, id.inner) && HasTrace(inner, id.inner))
  {
    var traces := CallTraces(call, child, inner);
    assert traces[0].call == call.id;
    if HasTrace(traces, id) && id != call.id {
      var i :| 0 <= i < |traces| && traces[i].call == id;
      assert traces[i] == Rebased(inner[i - 1], call, child);
      assert inner[i - 1] in inner;
    }
    if id.Clone? && id == CloneId(call, child, id.inner) && HasTrace(inner, id.inner) {
      var i :| 0 <= i < |inner| && inner[i].call == id.inner;
      assert traces[i + 1] == Rebased(inner[i], call, child);
    }
  }

  lemma TracedIn(a: seq<Trace>, b: seq<Trace>, id: Id)
    ensures HasTrace(a + b, id) <==> HasTrace(a, id) || HasTrace(b, id)
  {
    if t :| t in a && t.call == id { assert t in a + b; }
    if t :| t in b && t.call == id { assert t in a + b; }
  }

  /** One inlining takes its call out of the graph's calls and leaves the others. */
  ghost predicate CallsSplit(g: Graph, registry: Registry, call: Node, after: Graph)
  {
    && call in g.nodes && KeyOf(call) in registry && after.id == g.id && after.version == g.version
    && (forall n :: KeyOf(n) in registry ==> (n in after.nodes <==> n in g.nodes && n.id != call.id))
    && (forall n :: n in g.nodes && n.id == call.id ==> n == call)
  }

  lemma InliningSplitsCalls(g: Graph, registry: Registry, call: Node, child: Graph, after: Graph)
    requires UniqueIds(g) && call in g.nodes && KeyOf(call) in registry && NoCalls(child, registry)
    requires IsInlining(g, call, child, after)
    ensures CallsSplit(g, registry, call, after)
  {
    forall n | KeyOf(n) in registry
      ensures n in after.nodes <==> n in g.nodes && n.id != call.id
    {
      NodesOfInlining(g, call, child, after, n);
    }
    forall n | n in g.nodes && n.id == call.id
      ensures n == call
    {
      UniqueNode(g, n, call);
    }
  }

  lemma CalledSplit(g: Graph, registry: Registry, call: Node, after: Graph, id: Id)
    requires CallsSplit(g, registry, call, after)
    ensures Called(g, registry, id) <==> id == call.id || Below(call, registry, id) || Called(after, registry, id)
  {
    if Called(g, registry, id) {
      var c :| c in g.nodes && KeyOf(c) in registry && (id == c.id || Below(c, registry, id));
      assert c == call || c in after.nodes;
    }
    if Called(after, registry, id) {
      var c :| c in after.nodes && KeyOf(c) in registry && (id == c.id || Below(c, registry, id));
      assert c in g.nodes;
    }
  }

  lemma {:induction false} DerivedKeepsId(d: Derivation, g: Graph, registry: Registry, x: Graph)
    requires Derives(d, g, registry, x)
    ensures x.id == g.id && x.version == g.version
    decreases d
  {
    match d
    case Done =>
    case Inline(call, inner, child, after, rest) =>
      DerivedKeepsId(rest, after, registry, x);
  }

  /** What an inlining leaves to the two smaller expansions. */
  lemma Unfold(d: Derivation, g: Graph, registry: Registry, x: Graph)
    requires Derives(d, g, registry, x) && d.Inline? && UniqueIds(g)
    requires forall key :: key in registry ==> UniqueIds(registry[key])
    ensures KeyOf(d.call) in registry && Derives(d.inner, registry[KeyOf(d.call)], registry, d.child)
    ensures Derives(d.rest, d.after, registry, x) && UniqueIds(d.after) && TraceKind(d.call).Some?
    ensures CallsSplit(g, registry, d.call, d.after)
    ensures d.child.id == registry[KeyOf(d.call)].id && d.child.version == registry[KeyOf(d.call)].version
  {
    hide Inlinable, IsInlining, NoCalls, UniqueIds, CallsSplit;
    DerivedUnique(d.inner, registry[KeyOf(d.call)], registry, d.child);
    DerivedHasNoCalls(d.inner, registry[KeyOf(d.call)], registry, d.child);
    DerivedKeepsId(d.inner, registry[KeyOf(d.call)], registry, d.child);
    AfterUnique(g, d.call, d.child, d.after);
    InliningSplitsCalls(g, registry, d.call, d.child, d.after);
  }

  /** The traced ids are those of the calls in the graph and below it. */
  lemma {:induction false} TracedIffCalled(d: Derivation, g: Graph, registry: Registry, x: Graph, id: Id)
    requires Derives(d, g, registry, x) && UniqueIds(g) && forall key :: key in registry ==> UniqueIds(registry[key])
    ensures HasTrace(TracesOf(d), id) <==> Called(g, registry, id)
    decreases d
  {
    match d
    case Done =>
    case Inline(call, inner, child, after, rest) =>
      hide Derives, UniqueIds, HasTrace, Called, CallsSplit;
      Unfold(d, g, registry, x);
      TracedIn(CallTraces(call, child, TracesOf(inner)), TracesOf(rest), id);
      CallTraced(call, child, TracesOf(inner), id);
      if id.Clone? {
        TracedIffCalled(inner, registry[KeyOf(call)], registry, child, id.inner);
      }
      TracedIffCalled(rest, after, registry, x, id);
      CalledSplit(g, registry, call, after, id);
  }

  // ----- When ids are unique -----

  /** The call and what is below it share an id with the calls left. */
  ghost predicate Overlaps(call: Node, registry: Registry, after: Graph)
  {
    exists id :: (id == call.id || Below(call, registry, id)) && Called(after, registry, id)
  }

  lemma UniqueParts(a: seq<Trace>, b: seq<Trace>)
    requires CallsUnique(a + b)
    ensures CallsUnique(a) && CallsUnique(b)
  {
    forall i, j | 0 <= i < j < |a|
      ensures a[i].call != a[j].call
    {
      assert (a + b)[i].call != (a + b)[j].call;
    }
    forall i, j | 0 <= i < j < |b|
      ensures b[i].call != b[j].call
    {
      assert (a + b)[|a| + i].call != (a + b)[|a| + j].call;
    }
  }

  /** Two parts that meet spoil uniqueness. */
  lemma MeetingParts(a: seq<Trace>, b: seq<Trace>, id: Id)
    requires HasTrace(a, id) && HasTrace(b, id)
    ensures !CallsUnique(a + b)
  {
    var i :| 0 <= i < |a| && a[i].call == id;
    var j :| 0 <= j < |b| && b[j].call == id;
    assert (a + b)[i].call == (a + b)[|a| + j].call;
  }

  lemma UniqueJoin(a: seq<Trace>, b: seq<Trace>)
    requires CallsUnique(a) && CallsUnique(b) && forall id :: HasTrace(a, id) ==> !HasTrace(b, id)
    ensures CallsUnique(a + b)
  {
    forall i, j | 0 <= i < j < |a + b|
      ensures (a + b)[i].call != (a + b)[j].call
    {
      if i < |a| <= j {
        assert a[i] in a && b[j - |a|] in b;
        assert HasTrace(a, a[i].call);
      }
    }
  }

  lemma RebasedUnique(call: Node, child: Graph, inner: seq<Trace>)
    ensures CallsUnique(RebasedAll(inner, call, child)) <==> CallsUnique(inner)
  {
    var rebased := RebasedAll(inner, call, child);
    assert forall i :: 0 <= i < |inner| ==> rebased[i].call == CloneId(call, child, inner[i].call);
    forall i, j | 0 <= i < j < |inner|
      ensures rebased[i].call != rebased[j].call <==> inner[i].call != inner[j].call
    {
    }
    if CallsUnique(rebased) {
      forall i, j | 0 <= i < j < |inner|
        ensures inner[i].call != inner[j].call
      {
        assert rebased[i].call != rebased[j].call;
      }
    }
  }

  lemma CallTracesUnique(call: Node, child: Graph, inner: seq<Trace>)
    requires TraceKind(call).Some?
    ensures CallsUnique(CallTraces(call, child, inner)) <==> CallsUnique(inner)
  {
    hide RootTrace, Rebased;
    var rebased := RebasedAll(inner, call, child);
    RebasedUnique(call, child, inner);
    var root := RootTrace(call, child, TraceKind(call).value);
    if CallsUnique(CallTraces(call, child, inner)) { UniqueParts([root], rebased); }
    if CallsUnique(rebased) {
      forall id | HasTrace([root], id)
        ensures !HasTrace(rebased, id)
      {
        RootApart(call, child, inner, id);
      }
      UniqueJoin([root], rebased);
    }
  }

  lemma RootApart(call: Node, child: Graph, inner: seq<Trace>, id: Id)
    requires TraceKind(call).Some? && HasTrace([RootTrace(call, child, TraceKind(call).value)], id)
    ensures !HasTrace(RebasedAll(inner, call, child), id)
  {
    assert id == call.id;
    forall t | t in RebasedAll(inner, call, child)
      ensures t.call != call.id
    {
      var i :| 0 <= i < |inner| && RebasedAll(inner, call, child)[i] == t;
      assert t.call == CloneId(call, child, inner[i].call);
    }
  }

  /** The calls of an overlap. */
  lemma OverlapShares(g: Graph, registry: Registry, call: Node, after: Graph)
    requires CallsSplit(g, registry, call, after) && Overlaps(call, registry, after)
    ensures SharesId(g, registry)
  {
    var id :| (id == call.id || Below(call, registry, id)) && Called(after, registry, id);
    var c :| c in after.nodes && KeyOf(c) in registry && (id == c.id || Below(c, registry, id));
    assert c in g.nodes && c.id != call.id;
    if id == call.id {
      assert Below(c, registry, call.id);
    } else {
      assert id == c.id;
      assert Below(call, registry, c.id);
    }
  }

  lemma SharedIdAbove(g: Graph, registry: Registry, n: Node)
    requires n in g.nodes && KeyOf(n) in registry && SomeSharedId(registry[KeyOf(n)], registry)
    ensures SomeSharedId(g, registry)
  {
    var keys :| SharesIdAlong(registry[KeyOf(n)], registry, keys);
    assert ([KeyOf(n)] + keys)[1..] == keys;
    assert SharesIdAlong(g, registry, [KeyOf(n)] + keys);
  }

  lemma SharedIdHere(g: Graph, registry: Registry)
    requires SharesId(g, registry)
    ensures SomeSharedId(g, registry)
  {
    assert SharesIdAlong(g, registry, []);
  }

  lemma SharedIdLater(g: Graph, registry: Registry, call: Node, after: Graph)
    requires CallsSplit(g, registry, call, after) && SomeSharedId(after, registry)
    ensures SomeSharedId(g, registry)
  {
    var keys :| SharesIdAlong(after, registry, keys);
    if keys == [] {
      var c, e :| c in after.nodes && e in after.nodes && KeyOf(e) in registry && Below(c, registry, e.id);
      assert c in g.nodes && e in g.nodes;
      SharedIdHere(g, registry);
    } else {
      var n :| n in after.nodes && KeyOf(n) == keys[0];
      assert SharesIdAlong(registry[KeyOf(n)], registry, keys[1..]);
      SharedIdAbove(g, registry, n);
    }
  }

  /** Conversely a shared id is found in one of the parts, or between them. */
  lemma SharedIdSplits(g: Graph, registry: Registry, call: Node, after: Graph)
    requires CallsSplit(g, registry, call, after) && SomeSharedId(g, registry)
    ensures SomeSharedId(registry[KeyOf(call)], registry) || SomeSharedId(after, registry) || Overlaps(call, registry, after)
  {
    var keys :| SharesIdAlong(g, registry, keys);
    if keys == [] {
      var c, e :| c in g.nodes && e in g.nodes && KeyOf(e) in registry && Below(c, registry, e.id);
      assert c.id != e.id;
      if c.id == call.id {
        assert c == call && e in after.nodes && Called(after, registry, e.id);
      } else if e.id == call.id {
        assert c in after.nodes && Called(after, registry, call.id);
      } else {
        assert c in after.nodes && e in after.nodes;
        SharedIdHere(after, registry);
      }
    } else {
      var n :| n in g.nodes && KeyOf(n) == keys[0];
      assert SharesIdAlong(registry[KeyOf(n)], registry, keys[1..]);
      if n.id != call.id { SharedIdAbove(after, registry, n); }
    }
  }

  lemma {:induction false} UniqueIffUnshared(d: Derivation, g: Graph, registry: Registry, x: Graph)
    requires Derives(d, g, registry, x) && UniqueIds(g) && forall key :: key in registry ==> UniqueIds(registry[key])
    ensures CallsUnique(TracesOf(d)) <==> !SomeSharedId(g, registry)
    decreases d
  {
    match d
    case Done =>
      NothingShared(g, registry);
    case Inline(call, inner, child, after, rest) =>
      hide Derives, UniqueIds, HasTrace, Called, Below, CallsSplit, SomeSharedId, CallsUnique;
      Unfold(d, g, registry, x);
      UniqueIffUnshared(inner, registry[KeyOf(call)], registry, child);
      UniqueIffUnshared(rest, after, registry, x);
      var own := CallTraces(call, child, TracesOf(inner));
      CallTracesUnique(call, child, TracesOf(inner));
      OwnOverlap(d, g, registry, x);
      if CallsUnique(TracesOf(d)) { UniqueParts(own, TracesOf(rest)); }
      if id :| HasTrace(own, id) && HasTrace(TracesOf(rest), id) {
        MeetingParts(own, TracesOf(rest), id);
      } else if CallsUnique(own) && CallsUnique(TracesOf(rest)) {
        UniqueJoin(own, TracesOf(rest));
      }
      if SomeSharedId(g, registry) { SharedIdSplits(g, registry, call, after); }
      if SomeSharedId(registry[KeyOf(call)], registry) { InCall(g, registry, call, after); }
      if SomeSharedId(after, registry) { SharedIdLater(g, registry, call, after); }
      if Overlaps(call, registry, after) {
        OverlapShares(g, registry, call, after);
        SharedIdHere(g, registry);
      }
  }

  lemma InCall(g: Graph, registry: Registry, call: Node, after: Graph)
    requires CallsSplit(g, registry, call, after) && SomeSharedId(registry[KeyOf(call)], registry)
    ensures SomeSharedId(g, registry)
  {
    SharedIdAbove(g, registry, call);
  }

  lemma NothingShared(g: Graph, registry: Registry)
    requires NoCalls(g, registry)
    ensures !SomeSharedId(g, registry)
  {
  }

  /** The traces of one inlining meet the later ones exactly in an overlap. */
  lemma OwnOverlap(d: Derivation, g: Graph, registry: Registry, x: Graph)
    requires Derives(d, g, registry, x) && d.Inline? && UniqueIds(g) && TraceKind(d.call).Some?
    requires forall key :: key in registry ==> UniqueIds(registry[key])
    ensures (exists id :: HasTrace(CallTraces(d.call, d.child, TracesOf(d.inner)), id) && HasTrace(TracesOf(d.rest), id))
       <==> Overlaps(d.call, registry, d.after)
  {
    hide Derives, UniqueIds, HasTrace, Called, CallsSplit;
    Unfold(d, g, registry, x);
    var own := CallTraces(d.call, d.child, TracesOf(d.inner));
    if id :| HasTrace(own, id) && HasTrace(TracesOf(d.rest), id) {
      OwnTraced(d, g, registry, x, id);
      TracedIffCalled(d.rest, d.after, registry, x, id);
    }
    if id :| (id == d.call.id || Below(d.call, registry, id)) && Called(d.after, registry, id) {
      OwnTraced(d, g, registry, x, id);
      TracedIffCalled(d.rest, d.after, registry, x, id);
      assert HasTrace(own, id) && HasTrace(TracesOf(d.rest), id);
    }
  }

  lemma OwnTraced(d: Derivation, g: Graph, registry: Registry, x: Graph, id: Id)
    requires Derives(d, g, registry, x) && d.Inline? && UniqueIds(g) && TraceKind(d.call).Some?
    requires forall key :: key in registry ==> UniqueIds(registry[key])
    ensures HasTrace(CallTraces(d.call, d.child, TracesOf(d.inner)), id) <==> id == d.call.id || Below(d.call, registry, id)
  {
    hide Derives, UniqueIds, HasTrace, Called, CallsSplit;
    Unfold(d, g, registry, x);
    CallTraced(d.call, d.child, TracesOf(d.inner), id);
    if id.Clone? {
      TracedIffCalled(d.inner, registry[KeyOf(d.call)], registry, d.child, id.inner);
    }
  }

  // ----- The theorem -----

  /** The traces of an expansion are what the plan's constructor asks for, call ids unique,
      members in the final graph, every nested trace inside its parent and one level deeper, if
      and only if no graph reached has a call under the id of a call cloned into it. */
  lemma TracesFormForest(d: Derivation, g: Graph, registry: Registry, x: Graph)
    requires Derives(d, g, registry, x) && UniqueIds(g) && forall key :: key in registry ==> UniqueIds(registry[key])
    ensures Forest(TracesOf(d), NodeIds(x)) <==> !SomeSharedId(g, registry)
  {
    UniqueIffUnshared(d, g, registry, x);
    TracesNest(d, g, registry, x);
  }

  /** No call carries an id cloned out of another call of the same graph. */
  ghost predicate CallsApart(g: Graph, registry: Registry)
  {
    forall c, e | c in g.nodes && e in g.nodes && KeyOf(c) in registry && KeyOf(e) in registry ::
      e.id.Clone? ==> e.id.call != c.id
  }

  /** Original ids are never shared, nor are ids cloned out of other graphs. */
  lemma ApartMeansUnshared(g: Graph, registry: Registry)
    requires CallsApart(g, registry) && forall key :: key in registry ==> CallsApart(registry[key], registry)
    ensures !SomeSharedId(g, registry)
  {
    forall keys
      ensures !SharesIdAlong(g, registry, keys)
    {
      ApartAlong(g, registry, keys);
    }
  }

  lemma {:induction false} ApartAlong(g: Graph, registry: Registry, keys: seq<NodeKey>)
    requires CallsApart(g, registry) && forall key :: key in registry ==> CallsApart(registry[key], registry)
    ensures !SharesIdAlong(g, registry, keys)
    decreases |keys|
  {
    if keys != [] && keys[0] in registry {
      ApartAlong(registry[keys[0]], registry, keys[1..]);
    }
  }

  // ----- What the traces tell -----

  /** The kind a call declares, "subgraph" if it declares none. No other kinds exist. */
  predicate DeclaresKind(call: Node, kind: string)
  {
    if "construct_kind" in call.metadata then
      call.metadata["construct_kind"] == Str(kind) && (kind == "subgraph" || kind == "function" || kind == "macro")
    else kind == "subgraph"
  }

  lemma KindIsDeclared(call: Node, kind: string)
    ensures TraceKind(call) == Some(kind) <==> DeclaresKind(call, kind)
  {
  }

  /** The trace shows the call's declared kind, its type and the registered graph behind it. */
  predicate Shows(t: Trace, call: Node, registry: Registry)
  {
    && DeclaresKind(call, t.kind) && t.key == (call.typeId, call.typeVersion)
    && t.key in registry && t.sourceGraph == registry[t.key].id && t.sourceVersion == registry[t.key].version
  }

  /** Some call of the graph, or of a registered one, stands behind the trace. */
  ghost predicate TellsOfCall(t: Trace, g: Graph, registry: Registry)
  {
    (exists c :: c in g.nodes && Shows(t, c, registry)) || (exists key, c :: key in registry && c in registry[key].nodes && Shows(t, c, registry))
  }

  /** Every call of the graph has a trace of its own, a root under the call's id. */
  lemma {:induction false} CallShowsItsTrace(d: Derivation, g: Graph, registry: Registry, x: Graph, call: Node) returns (t: Trace)
    requires Derives(d, g, registry, x) && UniqueIds(g) && forall key :: key in registry ==> UniqueIds(registry[key])
    requires call in g.nodes && KeyOf(call) in registry
    ensures t in TracesOf(d) && t.call == call.id && t.parent == None && t.depth == 0 && Shows(t, call, registry)
    decreases d
  {
    hide Inlinable, IsInlining, UniqueIds, CallsSplit;
    Unfold(d, g, registry, x);
    if d.call == call {
      t := RootTrace(call, d.child, TraceKind(call).value);
      KindIsDeclared(call, t.kind);
      assert CallTraces(call, d.child, TracesOf(d.inner))[0] == t;
    } else {
      OtherCallStays(g, registry, d.call, d.after, call);
      t := CallShowsItsTrace(d.rest, d.after, registry, x, call);
    }
  }

  lemma OtherCallStays(g: Graph, registry: Registry, call: Node, after: Graph, c: Node)
    requires CallsSplit(g, registry, call, after) && c in g.nodes && KeyOf(c) in registry && c != call
    ensures c in after.nodes
  {
  }

  /** And no trace shows anything else. */
  lemma {:induction false} TracesTellOfCalls(d: Derivation, g: Graph, registry: Registry, x: Graph, t: Trace)
    requires Derives(d, g, registry, x) && UniqueIds(g) && forall key :: key in registry ==> UniqueIds(registry[key])
    requires t in TracesOf(d)
    ensures TellsOfCall(t, g, registry)
    decreases d
  {
    hide Inlinable, IsInlining, UniqueIds, CallsSplit, TellsOfCall, CallTraces, Derives;
    DoneHasNoTrace(d, g, registry, x);
    Unfold(d, g, registry, x);
    var own := CallTraces(d.call, d.child, TracesOf(d.inner));
    if t in own {
      var i := OwnTrace(d.call, d.child, TracesOf(d.inner), t);
      if i == 0 {
        RootTells(t, d.call, d.child, g, registry) by { SplitCall(g, registry, d.call, d.after); }
      } else {
        var inner := TracesOf(d.inner)[i - 1];
        TracesTellOfCalls(d.inner, registry[KeyOf(d.call)], registry, d.child, inner);
        RebasedTells(inner, t, registry[KeyOf(d.call)], KeyOf(d.call), g, registry);
      }
    } else {
      TracesTellOfCalls(d.rest, d.after, registry, x, t);
      AfterTells(t, g, registry, d.call, d.after);
    }
  }

  lemma DoneHasNoTrace(d: Derivation, g: Graph, registry: Registry, x: Graph)
    requires Derives(d, g, registry, x) && TracesOf(d) != []
    ensures d.Inline?
  {
  }

  lemma SplitCall(g: Graph, registry: Registry, call: Node, after: Graph)
    requires CallsSplit(g, registry, call, after)
    ensures call in g.nodes && KeyOf(call) in registry
  {
  }

  /** A trace of one inlining is the call's own or one of its child's, seen from outside. */
  lemma OwnTrace(call: Node, child: Graph, inner: seq<Trace>, t: Trace) returns (i: nat)
    requires TraceKind(call).Some? && t in CallTraces(call, child, inner)
    ensures i <= |inner|
    ensures if i == 0 then t == RootTrace(call, child, TraceKind(call).value) else t == Rebased(inner[i - 1], call, child)
  {
    i :| 0 <= i < |CallTraces(call, child, inner)| && CallTraces(call, child, inner)[i] == t;
  }

  lemma RootTells(t: Trace, call: Node, child: Graph, g: Graph, registry: Registry)
    requires TraceKind(call).Some? && t == RootTrace(call, child, TraceKind(call).value) && call in g.nodes && KeyOf(call) in registry
    requires child.id == registry[KeyOf(call)].id && child.version == registry[KeyOf(call)].version
    ensures TellsOfCall(t, g, registry)
  {
    KindIsDeclared(call, t.kind);
    assert Shows(t, call, registry);
  }

  lemma RebasedTells(inner: Trace, t: Trace, child: Graph, key: NodeKey, g: Graph, registry: Registry)
    requires key in registry && child == registry[key] && TellsOfCall(inner, child, registry)
    requires t.kind == inner.kind && t.key == inner.key && t.sourceGraph == inner.sourceGraph && t.sourceVersion == inner.sourceVersion
    ensures TellsOfCall(t, g, registry)
  {
    if c :| c in child.nodes && Shows(inner, c, registry) {
      assert Shows(t, c, registry);
    } else {
      var k, c :| k in registry && c in registry[k].nodes && Shows(inner, c, registry);
      assert Shows(t, c, registry);
    }
  }

  lemma AfterTells(t: Trace, g: Graph, registry: Registry, call: Node, after: Graph)
    requires CallsSplit(g, registry, call, after) && TellsOfCall(t, after, registry)
    ensures TellsOfCall(t, g, registry)
  {
    if c :| c in after.nodes && Shows(t, c, registry) {
      assert KeyOf(c) in registry && c in g.nodes;
    }
  }
}
