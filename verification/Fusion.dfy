/** Fusing chains of compatible nodes into single execution steps
    (src/comfyng/graph/compiler.py:710-916). */
module Fusion {
  import opened Ids
  import opened Layering
  import opened Graphs
  import opened Topology
  import opened CriticalPath

  /** The parts of a node definition and its package that fusion looks at. Fingerprints are
      injective, so schemas are compared directly. */
  datatype Profile = Profile(
    fusionKind: Option<string>,
    pure: bool,
    deterministic: bool,
    sideEffects: bool,
    network: bool,
    runtimeFingerprint: string,
    inputSchemas: map<string, Json>,
    outputSchemas: map<string, Json>)

  type Profiles = map<NodeKey, Profile>

  datatype Link = Link(profile: Profile, kind: string, schema: Json)

  /** The fusion record. Package, entry point, isolation and resources are the parts of the
      runtime fingerprint, which all members share. */
  datatype Evidence = Evidence(kind: string, members: seq<Id>, links: seq<Edge>, runtime: string, schemas: seq<Json>)

  datatype Unit = Unit(members: seq<Id>, evidence: Option<Evidence>)

  predicate IsControl(n: Node)
  {
    n.typeId == "ng.control.for_each" || n.typeId == "ng.control.switch"
  }

  function ProfileOf(profiles: Profiles, n: Node): Option<Profile>
  {
    if (n.typeId, n.typeVersion) in profiles then Some(profiles[(n.typeId, n.typeVersion)]) else None
  }

  function BoundNodes(bindings: map<string, Binding>): set<Id>
  {
    set name | name in bindings :: bindings[name].node
  }

  /** `_fusion_link_evidence`: what allows the two ends of an edge to run as one step. */
  function LinkEvidence(g: Graph, nodes: map<Id, Node>, profiles: Profiles, e: Edge): Option<Link>
    requires e.source in nodes && e.target in nodes
  {
    var source, target := nodes[e.source], nodes[e.target];
    var sp, tp := ProfileOf(profiles, source), ProfileOf(profiles, target);
    if sp.None? || tp.None? then None
    else if sp.value.fusionKind.None? || sp.value.fusionKind != tp.value.fusionKind then None
    else if !(sp.value.pure && sp.value.deterministic && tp.value.pure && tp.value.deterministic) then None
    else if sp.value.sideEffects || tp.value.sideEffects then None
    else if |OutOf(g.edges, e.source)| != 1 then None
    else if |IntoOf(g.edges, e.target)| != 1 then None
    else if e.source in BoundNodes(g.outputs) || e.target in BoundNodes(g.inputs) then None
    else if IsControl(source) || IsControl(target) then None
    else if sp.value.runtimeFingerprint != tp.value.runtimeFingerprint then None
    else if sp.value.network then None
    else if e.sourcePort !in sp.value.outputSchemas || e.targetPort !in tp.value.inputSchemas then None
    else if sp.value.outputSchemas[e.sourcePort] != tp.value.inputSchemas[e.targetPort] then None
    else Some(Link(sp.value, sp.value.fusionKind.value, sp.value.outputSchemas[e.sourcePort]))
  }

  /** The single outgoing edge of a node, when it is fusible. */
  predicate Linked(g: Graph, profiles: Profiles, id: Id)
  {
    |OutOf(g.edges, id)| == 1 &&
    OutOf(g.edges, id)[0].source in NodeTable(g.nodes) && OutOf(g.edges, id)[0].target in NodeTable(g.nodes) &&
    LinkEvidence(g, NodeTable(g.nodes), profiles, OutOf(g.edges, id)[0]).Some?
  }

  /** The fusible-link relation, as a partial function on nodes. */
  ghost function NextMap(g: Graph, profiles: Profiles): map<Id, Id>
  {
    map id | id in NodeIds(g) && Linked(g, profiles, id) :: OutOf(g.edges, id)[0].target
  }

  // ----- Chains of an injective, forward-pointing partial function -----

  ghost predicate Injective(next: map<Id, Id>)
  {
    forall a, b :: a in next && b in next && next[a] == next[b] ==> a == b
  }

  /** Links join nodes of `order` and point forwards in it. */
  ghost predicate Forward(next: map<Id, Id>, order: seq<Id>)
  {
    && (forall a :: a in next ==> a in order && next[a] in order)
    && (forall i, j :: 0 <= i < |order| && 0 <= j < |order| && order[i] in next && next[order[i]] == order[j] ==> i < j)
  }

  ghost predicate Chain(c: seq<Id>, next: map<Id, Id>)
  {
    |c| >= 1 && forall i :: 0 <= i < |c| - 1 ==> c[i] in next && next[c[i]] == c[i + 1]
  }

  /** The chains partition the nodes of `order`, no link leaves or enters a chain, and
      their heads appear in `order`'s order. */
  ghost predicate MaximalChains(chains: seq<seq<Id>>, order: seq<Id>, next: map<Id, Id>)
  {
    && WholeChains(chains, next)
    && Distinct(Flatten(chains)) && Elements(Flatten(chains)) == Elements(order)
    && HeadsInOrder(chains, order)
  }

  ghost predicate HeadsInOrder(chains: seq<seq<Id>>, order: seq<Id>)
  {
    exists at: seq<nat> :: HeadsAt(chains, order, at)
  }

  ghost predicate HeadsAt(chains: seq<seq<Id>>, order: seq<Id>, at: seq<nat>)
  {
    && |at| == |chains|
    && (forall u :: 0 <= u < |at| ==> at[u] < |order| && chains[u] != [] && chains[u][0] == order[at[u]])
    && (forall u, w :: 0 <= u < w < |at| ==> at[u] < at[w])
  }

  lemma EvidenceFacts(g: Graph, nodes: map<Id, Node>, profiles: Profiles, e: Edge)
    requires e.source in nodes && e.target in nodes
    requires LinkEvidence(g, nodes, profiles, e).Some?
    ensures |OutOf(g.edges, e.source)| == 1 && |IntoOf(g.edges, e.target)| == 1
    ensures !IsControl(nodes[e.source]) && !IsControl(nodes[e.target])
    ensures e.source !in BoundNodes(g.outputs) && e.target !in BoundNodes(g.inputs)
  {
  }

  lemma LinkedEdge(g: Graph, profiles: Profiles, id: Id, e: Edge)
    requires Linked(g, profiles, id) && e == OutOf(g.edges, id)[0]
    ensures e in g.edges && e.source == id
    ensures e.source in NodeTable(g.nodes) && e.target in NodeTable(g.nodes)
    ensures LinkEvidence(g, NodeTable(g.nodes), profiles, e).Some?
    ensures |IntoOf(g.edges, e.target)| == 1
  {
    OutOfMembers(g.edges, id, e);
    EvidenceFacts(g, NodeTable(g.nodes), profiles, e);
  }

  /** A link is its source's only outgoing edge and its target's only incoming edge. */
  lemma LinkFacts(g: Graph, profiles: Profiles, id: Id) returns (e: Edge)
    requires WellFormed(g) && id in NextMap(g, profiles)
    ensures OutOf(g.edges, id) == [e] && IntoOf(g.edges, e.target) == [e]
    ensures e in g.edges && e.source == id && e.target == NextMap(g, profiles)[id]
    ensures e.target in NodeIds(g)
    ensures LinkEvidence(g, NodeTable(g.nodes), profiles, e).Some?
  {
    e := OutOf(g.edges, id)[0];
    LinkedEdge(g, profiles, id, e);
    IntoOfMembers(g.edges, e.target, e);
    SingletonSeq(IntoOf(g.edges, e.target), e);
  }

  lemma SingletonSeq<T>(s: seq<T>, x: T)
    requires |s| == 1 && x in s
    ensures s == [x]
  {
  }

  /** Control nodes are never linked; an output is never swallowed, an input never skipped. */
  lemma LinkSafety(g: Graph, profiles: Profiles, id: Id)
    requires WellFormed(g) && id in NextMap(g, profiles)
    ensures id in NodeIds(g) && NextMap(g, profiles)[id] in NodeIds(g)
    ensures !IsControl(NodeAt(g, id)) && !IsControl(NodeAt(g, NextMap(g, profiles)[id]))
    ensures id !in BoundNodes(g.outputs) && NextMap(g, profiles)[id] !in BoundNodes(g.inputs)
  {
    var e := LinkFacts(g, profiles, id);
    NodeTableAt(g, id);
    NodeTableAt(g, e.target);
    EvidenceFacts(g, NodeTable(g.nodes), profiles, e);
  }

  lemma NextMapIsInjective(g: Graph, profiles: Profiles)
    requires WellFormed(g)
    ensures Injective(NextMap(g, profiles))
  {
    var next := NextMap(g, profiles);
    forall a, b | a in next && b in next && next[a] == next[b]
      ensures a == b
    {
      var e := LinkFacts(g, profiles, a);
      var f := LinkFacts(g, profiles, b);
    }
  }

  lemma NextMapIsForward(g: Graph, profiles: Profiles, order: seq<Id>)
    requires WellFormed(g) && TopologicalOrder(order, NodeIds(g), Arcs(g.edges))
    ensures Forward(NextMap(g, profiles), order)
  {
    var next := NextMap(g, profiles);
    forall a | a in next
      ensures a in order && next[a] in order && (a, next[a]) in Arcs(g.edges)
    {
      var e := LinkFacts(g, profiles, a);
      assert a in Elements(order) && next[a] in Elements(order);
    }
  }

  // ----- Building the units -----

  lemma {:induction false} FlattenAppend(chains: seq<seq<Id>>, c: seq<Id>)
    ensures Flatten(chains + [c]) == Flatten(chains) + c
  {
    if chains == [] {
      assert Flatten([c]) == c + Flatten([]);
    } else {
      FlattenAppend(chains[1..], c);
      assert (chains + [c])[1..] == chains[1..] + [c];
    }
  }

  /** A chain visits `order` at strictly increasing positions. */
  lemma {:induction false} ChainPositions(c: seq<Id>, next: map<Id, Id>, order: seq<Id>, first: nat) returns (at: seq<nat>)
    requires Chain(c, next) && Forward(next, order) && first < |order| && order[first] == c[0]
    ensures |at| == |c| && at[0] == first
    ensures forall i :: 0 <= i < |c| ==> at[i] < |order| && order[at[i]] == c[i]
    ensures forall i, j :: 0 <= i < j < |c| ==> at[i] < at[j]
    decreases |c|
  {
    if |c| == 1 {
      at := [first];
    } else {
      var last := |c| - 1;
      var front := ChainPositions(c[..last], next, order, first);
      assert next[c[last - 1]] == c[last - 1 + 1] && c[last] in order;
      var p :| 0 <= p < |order| && order[p] == c[last];
      at := front + [p];
      assert order[front[last - 1]] == c[last - 1];
    }
  }

  lemma ChainDistinct(c: seq<Id>, next: map<Id, Id>, order: seq<Id>)
    requires Chain(c, next) && Forward(next, order) && Distinct(order) && c[0] in order
    ensures Distinct(c) && Elements(c) <= Elements(order)
  {
    var first :| 0 <= first < |order| && order[first] == c[0];
    var at := ChainPositions(c, next, order, first);
    forall i, j | 0 <= i < j < |c|
      ensures c[i] != c[j]
    {
      assert order[at[i]] != order[at[j]];
    }
  }

  /** Already consumed nodes form whole chains: links neither leave nor enter them. */
  ghost predicate Closed(consumed: set<Id>, next: map<Id, Id>)
  {
    forall a :: a in next ==> (a in consumed <==> next[a] in consumed)
  }

  lemma ClosedUnderChain(consumed: set<Id>, next: map<Id, Id>, c: seq<Id>)
    requires Closed(consumed, next) && Injective(next)
    requires Chain(c, next) && c[|c| - 1] !in next && c[0] !in next.Values
    ensures Closed(consumed + Elements(c), next)
  {
    forall a | a in next
      ensures a in consumed + Elements(c) <==> next[a] in consumed + Elements(c)
    {
      if a in Elements(c) {
        var i :| 0 <= i < |c| && c[i] == a;
        assert next[c[i]] == c[i + 1];
      }
      if next[a] in Elements(c) {
        var i :| 0 <= i < |c| && c[i] == next[a];
        assert next[a] in next.Values;
        assert c[i - 1] in next && next[c[i - 1]] == c[i - 1 + 1];
      }
    }
  }

  lemma EvidenceProfiles(g: Graph, nodes: map<Id, Node>, profiles: Profiles, e: Edge)
    requires e.source in nodes && e.target in nodes
    requires LinkEvidence(g, nodes, profiles, e).Some?
    ensures var link := LinkEvidence(g, nodes, profiles, e).value;
            && ProfileOf(profiles, nodes[e.source]) == Some(link.profile)
            && link.profile.fusionKind == Some(link.kind)
            && ProfileOf(profiles, nodes[e.target]).Some?
            && ProfileOf(profiles, nodes[e.target]).value.fusionKind == Some(link.kind)
            && ProfileOf(profiles, nodes[e.target]).value.runtimeFingerprint == link.profile.runtimeFingerprint
  {
  }

  /** The links of a chain, in the shape its evidence record demands. */
  ghost predicate LinksFollow(links: seq<Edge>, members: seq<Id>)
  {
    && |links| + 1 == |members|
    && forall i :: 0 <= i < |links| ==> links[i].source == members[i] && links[i].target == members[i + 1]
  }

  /** What one look at a node's outgoing edges tells about its link. */
  lemma LinkStep(g: Graph, nodes: map<Id, Node>, profiles: Profiles, id: Id, e: Edge)
    requires WellFormed(g) && nodes == NodeTable(g.nodes) && id in NodeIds(g)
    requires |OutOf(g.edges, id)| == 1 && e == OutOf(g.edges, id)[0]
    ensures e in g.edges && e.source == id && e.source in nodes && e.target in nodes && e.target in NodeIds(g)
    ensures id in NextMap(g, profiles) <==> LinkEvidence(g, nodes, profiles, e).Some?
    ensures id in NextMap(g, profiles) ==> NextMap(g, profiles)[id] == e.target
  {
    OutOfMembers(g.edges, id, e);
    NodeTableAt(g, e.source);
    NodeTableAt(g, e.target);
  }

  /** A link with everything its evidence says about it. */
  ghost predicate LinkAt(g: Graph, profiles: Profiles, e: Edge, kind: string, runtime: string, schema: Json)
  {
    && OutOf(g.edges, e.source) == [e] && e.source in NodeTable(g.nodes) && e.target in NodeTable(g.nodes)
    && LinkEvidence(g, NodeTable(g.nodes), profiles, e).Some?
    && LinkEvidence(g, NodeTable(g.nodes), profiles, e).value.kind == kind
    && LinkEvidence(g, NodeTable(g.nodes), profiles, e).value.profile.runtimeFingerprint == runtime
    && LinkEvidence(g, NodeTable(g.nodes), profiles, e).value.schema == schema
  }

  ghost predicate Certified(g: Graph, profiles: Profiles, links: seq<Edge>, kind: string, runtime: string, schemas: seq<Json>)
  {
    |schemas| == |links| && forall i :: 0 <= i < |links| ==> LinkAt(g, profiles, links[i], kind, runtime, schemas[i])
  }

  /** The evidence of a fused unit is what its links say. */
  ghost predicate UnitCertified(g: Graph, profiles: Profiles, u: Unit)
  {
    u.evidence.Some? ==>
      Certified(g, profiles, u.evidence.value.links, u.evidence.value.kind, u.evidence.value.runtime, u.evidence.value.schemas)
  }

  lemma CertifiedGrow(g: Graph, profiles: Profiles, links: seq<Edge>, kind: string, runtime: string, schemas: seq<Json>,
                      e: Edge, schema: Json)
    requires Certified(g, profiles, links, kind, runtime, schemas) && LinkAt(g, profiles, e, kind, runtime, schema)
    ensures Certified(g, profiles, links + [e], kind, runtime, schemas + [schema])
  {
  }

  lemma LinkCertified(g: Graph, profiles: Profiles, nodes: map<Id, Node>, current: Id, e: Edge)
    requires nodes == NodeTable(g.nodes) && |OutOf(g.edges, current)| == 1 && e == OutOf(g.edges, current)[0]
    requires e.source == current && e.source in nodes && e.target in nodes && LinkEvidence(g, nodes, profiles, e).Some?
    ensures var link := LinkEvidence(g, nodes, profiles, e).value;
            LinkAt(g, profiles, e, link.kind, link.profile.runtimeFingerprint, link.schema)
  {
  }

  /** A chain under construction that ends in `current`. */
  ghost predicate Growing(members: seq<Id>, links: seq<Edge>, schemas: seq<Json>, current: Id,
                          consumed: set<Id>, next: map<Id, Id>)
  {
    && Chain(members, next) && members[|members| - 1] == current
    && Elements(members) !! consumed && LinksFollow(links, members) && |schemas| == |links|
  }

  lemma GrowStep(members: seq<Id>, links: seq<Edge>, schemas: seq<Json>, current: Id,
                 consumed: set<Id>, next: map<Id, Id>, e: Edge, schema: Json)
    requires Growing(members, links, schemas, current, consumed, next)
    requires current in next && e.source == current && e.target == next[current] && e.target !in consumed
    ensures Growing(members + [e.target], links + [e], schemas + [schema], e.target, consumed, next)
  {
  }

  /** The profile carried along a chain agrees with the profile of its last node. */
  ghost predicate Carrying(profile: Option<Profile>, kind: Option<string>, last: Option<Profile>)
  {
    && (profile.Some? <==> kind.Some?)
    && (profile.Some? ==> last.Some? && last.value.fusionKind == kind
                          && last.value.runtimeFingerprint == profile.value.runtimeFingerprint)
  }

  /** The inner loop: follow single outgoing fusible edges as far as they go. Its two extra
      exits, a consumed target and a changed profile, are never the reason it stops. */
  method GrowChain(g: Graph, nodes: map<Id, Node>, profiles: Profiles, start: Id, consumed: set<Id>,
                   ghost order: seq<Id>, ghost next: map<Id, Id>)
    returns (members: seq<Id>, links: seq<Edge>, schemas: seq<Json>, profile: Option<Profile>, kind: Option<string>)
    requires WellFormed(g) && TopologicalOrder(order, NodeIds(g), Arcs(g.edges))
    requires nodes == NodeTable(g.nodes) && next == NextMap(g, profiles)
    requires start in Elements(order) && start !in consumed && Closed(consumed, next)
    ensures members != [] && members[0] == start && members[|members| - 1] !in next
    ensures Growing(members, links, schemas, members[|members| - 1], consumed, next)
    ensures |members| > 1 ==> profile.Some? && kind.Some?
    ensures |members| > 1 ==> Certified(g, profiles, links, kind.value, profile.value.runtimeFingerprint, schemas)
  {
    hide WellFormed, NextMap, Certified, LinkAt, Linked, LinksFollow;
    NoLinksCertified(g, profiles);
    members, links, schemas, profile, kind := [start], [], [], None, None;
    var current := start;
    ghost var position: nat :| position < |order| && order[position] == start;
    GrowStart(start, consumed, next);
    while |OutOf(g.edges, current)| == 1
      invariant Growing(members, links, schemas, current, consumed, next) && members[0] == start
      invariant position < |order| && order[position] == current && current in NodeIds(g) && current in nodes
      invariant Carrying(profile, kind, ProfileOf(profiles, nodes[current]))
      invariant |members| > 1 ==> profile.Some?
      invariant profile.None? ==> links == [] && schemas == []
      invariant profile.Some? ==> Certified(g, profiles, links, kind.value, profile.value.runtimeFingerprint, schemas)
      decreases |order| - position
    {
      var edge := OutOf(g.edges, current)[0];
      LinkStep(g, nodes, profiles, current, edge);
      if edge.target in consumed {
        break;
      }
      var evidence := LinkEvidence(g, nodes, profiles, edge);
      if evidence.None? {
        break;
      }
      EvidenceProfiles(g, nodes, profiles, edge);
      if profile.Some? && (evidence.value.profile.runtimeFingerprint != profile.value.runtimeFingerprint
                           || Some(evidence.value.kind) != kind) {
        assert false;
        break;
      }
      LinkCertified(g, profiles, nodes, current, edge);
      profile, kind := Some(evidence.value.profile), Some(evidence.value.kind);
      CertifiedGrow(g, profiles, links, kind.value, evidence.value.profile.runtimeFingerprint, schemas, edge, evidence.value.schema);
      GrowStep(members, links, schemas, current, consumed, next, edge, evidence.value.schema);
      position := NextPosition(g, profiles, order, position);
      links, schemas := links + [edge], schemas + [evidence.value.schema];
      current := edge.target;
      members := members + [current];
    }
    NoLink(g, profiles, current);
  }

  lemma NoLinksCertified(g: Graph, profiles: Profiles)
    ensures forall kind, runtime :: Certified(g, profiles, [], kind, runtime, [])
  {
  }

  lemma GrowStart(start: Id, consumed: set<Id>, next: map<Id, Id>)
    requires start !in consumed
    ensures Growing([start], [], [], start, consumed, next)
  {
  }

  lemma NoLink(g: Graph, profiles: Profiles, id: Id)
    ensures |OutOf(g.edges, id)| != 1 ==> id !in NextMap(g, profiles)
  {
  }

  lemma NextPosition(g: Graph, profiles: Profiles, order: seq<Id>, position: nat) returns (later: nat)
    requires WellFormed(g) && TopologicalOrder(order, NodeIds(g), Arcs(g.edges))
    requires position < |order| && order[position] in NextMap(g, profiles)
    ensures position < later < |order| && order[later] == NextMap(g, profiles)[order[position]]
    ensures order[later] in NodeIds(g)
  {
    NextMapIsForward(g, profiles, order);
    later :| 0 <= later < |order| && order[later] == NextMap(g, profiles)[order[position]];
    assert order[later] in Elements(order);
  }

  function MembersOf(units: seq<Unit>): (chains: seq<seq<Id>>)
    ensures |chains| == |units|
    ensures forall u :: 0 <= u < |units| ==> chains[u] == units[u].members
  {
    seq(|units|, u requires 0 <= u < |units| => units[u].members)
  }

  /** What the evidence record's constructor checks (src/comfyng/graph/compiler.py:251-294). */
  ghost predicate ValidUnit(u: Unit)
  {
    && (u.evidence.Some? <==> |u.members| > 1)
    && (u.evidence.Some? ==>
          && u.evidence.value.members == u.members
          && LinksFollow(u.evidence.value.links, u.members)
          && |u.evidence.value.schemas| == |u.evidence.value.links|)
  }

  ghost predicate WholeChains(chains: seq<seq<Id>>, next: map<Id, Id>)
  {
    forall u :: 0 <= u < |chains| ==>
      Chain(chains[u], next) && chains[u][|chains[u]| - 1] !in next && chains[u][0] !in next.Values
  }

  /** The state of the outer loop after the first `k` nodes of the order. */
  ghost predicate Consuming(chains: seq<seq<Id>>, consumed: set<Id>, order: seq<Id>, next: map<Id, Id>, k: nat, at: seq<nat>)
  {
    && k <= |order| && (forall j :: 0 <= j < k ==> order[j] in consumed)
    && consumed == Elements(Flatten(chains)) && consumed <= Elements(order) && Closed(consumed, next)
    && Distinct(Flatten(chains)) && WholeChains(chains, next)
    && HeadsAt(chains, order, at) && (forall u :: 0 <= u < |at| ==> at[u] < k)
  }

  lemma DistinctJoin(s: seq<Id>, t: seq<Id>)
    requires Distinct(s) && Distinct(t) && Elements(s) !! Elements(t)
    ensures Distinct(s + t) && Elements(s + t) == Elements(s) + Elements(t)
  {
    forall i, j | 0 <= i < j < |s + t|
      ensures (s + t)[i] != (s + t)[j]
    {
      if i < |s| && j >= |s| {
        assert s[i] in Elements(s) && t[j - |s|] in Elements(t);
      }
    }
  }

  lemma HeadHasNoPredecessor(consumed: set<Id>, order: seq<Id>, next: map<Id, Id>, k: nat)
    requires k < |order| && order[k] !in consumed && Closed(consumed, next) && Forward(next, order)
    requires forall j :: 0 <= j < k ==> order[j] in consumed
    ensures order[k] !in next.Values
  {
    forall a | a in next
      ensures next[a] != order[k]
    {
      var j :| 0 <= j < |order| && order[j] == a;
    }
  }

  lemma WholeAppend(chains: seq<seq<Id>>, c: seq<Id>, next: map<Id, Id>)
    requires WholeChains(chains, next)
    requires Chain(c, next) && c[|c| - 1] !in next && c[0] !in next.Values
    ensures WholeChains(chains + [c], next)
  {
  }

  lemma HeadsAppend(chains: seq<seq<Id>>, c: seq<Id>, order: seq<Id>, at: seq<nat>, k: nat)
    requires HeadsAt(chains, order, at) && (forall u :: 0 <= u < |at| ==> at[u] < k)
    requires k < |order| && c != [] && c[0] == order[k]
    ensures HeadsAt(chains + [c], order, at + [k])
  {
  }

  lemma ConsumeFlat(chains: seq<seq<Id>>, c: seq<Id>, consumed: set<Id>)
    requires consumed == Elements(Flatten(chains)) && Distinct(Flatten(chains))
    requires Distinct(c) && Elements(c) !! consumed
    ensures consumed + Elements(c) == Elements(Flatten(chains + [c])) && Distinct(Flatten(chains + [c]))
  {
    FlattenAppend(chains, c);
    DistinctJoin(Flatten(chains), c);
  }

  lemma ConsumeChain(chains: seq<seq<Id>>, c: seq<Id>, consumed: set<Id>, order: seq<Id>, next: map<Id, Id>, k: nat, at: seq<nat>)
    requires Consuming(chains, consumed, order, next, k, at) && k < |order| && order[k] !in consumed
    requires Distinct(order) && Forward(next, order) && Injective(next)
    requires Chain(c, next) && c[0] == order[k] && c[|c| - 1] !in next && Elements(c) !! consumed
    ensures Consuming(chains + [c], consumed + Elements(c), order, next, k + 1, at + [k])
  {
    ChainDistinct(c, next, order);
    HeadHasNoPredecessor(consumed, order, next, k);
    ClosedUnderChain(consumed, next, c);
    ConsumeFlat(chains, c, consumed);
    WholeAppend(chains, c, next);
    HeadsAppend(chains, c, order, at, k);
    assert order[k] in Elements(c);
  }

  /** `_fusion_units`: exactly the maximal chains of fusible links, a partition of the nodes. */
  method FusionUnits(g: Graph, order: seq<Id>, profiles: Profiles) returns (units: seq<Unit>)
    requires WellFormed(g) && TopologicalOrder(order, NodeIds(g), Arcs(g.edges))
    ensures MaximalChains(MembersOf(units), order, NextMap(g, profiles))
    ensures forall u :: u in units ==> ValidUnit(u) && UnitCertified(g, profiles, u)
  {
    hide Certified, MaximalChains, NextMap, Forward, Injective, WellFormed, NodeTable, Closed, HeadsAt, WholeChains;
    var nodes := NodeTable(g.nodes);
    ghost var next := NextMap(g, profiles);
    NextMapIsForward(g, profiles, order);
    NextMapIsInjective(g, profiles);
    var consumed: set<Id> := {};
    ghost var at: seq<nat> := [];
    ghost var chains: seq<seq<Id>> := [];
    units := [];
    StartConsuming(order, next);
    for k := 0 to |order|
      invariant Consuming(chains, consumed, order, next, k, at)
      invariant chains == MembersOf(units)
      invariant forall u :: u in units ==> ValidUnit(u) && UnitCertified(g, profiles, u)
    {
      if order[k] in consumed {
        SkipConsumed(chains, consumed, order, next, k, at);
        continue;
      }
      assert order[k] in Elements(order);
      var members, links, schemas, profile, kind := GrowChain(g, nodes, profiles, order[k], consumed, order, next);
      var unit := MakeUnit(members, links, schemas, profile, kind);
      ConsumeChain(chains, members, consumed, order, next, k, at);
      MembersAppend(units, unit);
      chains := chains + [members];
      units := units + [unit];
      consumed := consumed + Elements(members);
      at := at + [k];
    }
    AllConsumed(chains, consumed, order, next, at);
  }

  function MakeUnit(members: seq<Id>, links: seq<Edge>, schemas: seq<Json>, profile: Option<Profile>, kind: Option<string>): (unit: Unit)
    requires LinksFollow(links, members) && |schemas| == |links|
    requires |members| > 1 ==> profile.Some? && kind.Some?
    ensures ValidUnit(unit) && unit.members == members
    ensures |members| > 1 ==> unit.evidence == Some(Evidence(kind.value, members, links, profile.value.runtimeFingerprint, schemas))
  {
    if |members| == 1 then Unit(members, None)
    else Unit(members, Some(Evidence(kind.value, members, links, profile.value.runtimeFingerprint, schemas)))
  }

  lemma StartConsuming(order: seq<Id>, next: map<Id, Id>)
    ensures Consuming([], {}, order, next, 0, [])
  {
  }

  lemma SkipConsumed(chains: seq<seq<Id>>, consumed: set<Id>, order: seq<Id>, next: map<Id, Id>, k: nat, at: seq<nat>)
    requires Consuming(chains, consumed, order, next, k, at) && k < |order| && order[k] in consumed
    ensures Consuming(chains, consumed, order, next, k + 1, at)
  {
  }

  lemma MembersAppend(units: seq<Unit>, unit: Unit)
    ensures MembersOf(units + [unit]) == MembersOf(units) + [unit.members]
  {
  }

  lemma AllConsumed(chains: seq<seq<Id>>, consumed: set<Id>, order: seq<Id>, next: map<Id, Id>, at: seq<nat>)
    requires Consuming(chains, consumed, order, next, |order|, at)
    ensures MaximalChains(chains, order, next)
  {
    assert Elements(order) <= consumed;
  }

  // ----- What the evidence record asserts -----

  /** The runtime fingerprint covers the resources, and so the network permission. */
  ghost predicate FingerprintsTell(profiles: Profiles)
  {
    forall a, b | a in profiles && b in profiles ::
      profiles[a].runtimeFingerprint == profiles[b].runtimeFingerprint ==> profiles[a].network == profiles[b].network
  }

  /** A profile that may be fused under this kind and runtime. */
  predicate Fusible(p: Option<Profile>, kind: string, runtime: string)
  {
    && p.Some? && p.value.fusionKind == Some(kind) && p.value.runtimeFingerprint == runtime
    && p.value.pure && p.value.deterministic && !p.value.sideEffects && !p.value.network
  }

  /** The two ends of one certified link. */
  lemma LinkEnds(g: Graph, profiles: Profiles, e: Edge, kind: string, runtime: string, schema: Json)
    requires FingerprintsTell(profiles) && LinkAt(g, profiles, e, kind, runtime, schema)
    ensures Fusible(ProfileOf(profiles, NodeTable(g.nodes)[e.source]), kind, runtime)
    ensures Fusible(ProfileOf(profiles, NodeTable(g.nodes)[e.target]), kind, runtime)
    ensures !IsControl(NodeTable(g.nodes)[e.source]) && !IsControl(NodeTable(g.nodes)[e.target])
    ensures IntoOf(g.edges, e.target) == [e]
    ensures e.source !in BoundNodes(g.outputs) && e.target !in BoundNodes(g.inputs)
    ensures var sp, tp := ProfileOf(profiles, NodeTable(g.nodes)[e.source]).value, ProfileOf(profiles, NodeTable(g.nodes)[e.target]).value;
            && e.sourcePort in sp.outputSchemas && sp.outputSchemas[e.sourcePort] == schema
            && e.targetPort in tp.inputSchemas && tp.inputSchemas[e.targetPort] == schema
  {
    assert e in OutOf(g.edges, e.source);
    OutOfMembers(g.edges, e.source, e);
    IntoOfMembers(g.edges, e.target, e);
    SingletonSeq(IntoOf(g.edges, e.target), e);
  }

  /** Every member of a fused unit is pure, deterministic, offline and of the unit's kind and
      runtime, no inner value is a graph output, and no inner port a graph input. */
  lemma FusedMembersCompatible(g: Graph, profiles: Profiles, u: Unit, i: nat)
    requires FingerprintsTell(profiles) && ValidUnit(u) && UnitCertified(g, profiles, u)
    requires u.evidence.Some? && i < |u.members|
    ensures u.members[i] in NodeTable(g.nodes) && !IsControl(NodeTable(g.nodes)[u.members[i]])
    ensures Fusible(ProfileOf(profiles, NodeTable(g.nodes)[u.members[i]]), u.evidence.value.kind, u.evidence.value.runtime)
    ensures i > 0 ==> u.members[i] !in BoundNodes(g.inputs) && IntoOf(g.edges, u.members[i]) == [u.evidence.value.links[i - 1]]
    ensures i + 1 < |u.members| ==> u.members[i] !in BoundNodes(g.outputs) && OutOf(g.edges, u.members[i]) == [u.evidence.value.links[i]]
  {
    hide LinkAt, Fusible, FingerprintsTell, BoundNodes;
    var ev := u.evidence.value;
    if i > 0 {
      LinkIsAt(g, profiles, u, i - 1);
      LinkEnds(g, profiles, ev.links[i - 1], ev.kind, ev.runtime, ev.schemas[i - 1]);
    }
    if i + 1 < |u.members| {
      LinkIsAt(g, profiles, u, i);
      LinkEnds(g, profiles, ev.links[i], ev.kind, ev.runtime, ev.schemas[i]);
    }
  }

  lemma LinkIsAt(g: Graph, profiles: Profiles, u: Unit, i: nat)
    requires ValidUnit(u) && UnitCertified(g, profiles, u) && u.evidence.Some? && i + 1 < |u.members|
    ensures i < |u.evidence.value.links| && i < |u.evidence.value.schemas|
    ensures var ev := u.evidence.value;
            && LinkAt(g, profiles, ev.links[i], ev.kind, ev.runtime, ev.schemas[i])
            && ev.links[i].source == u.members[i] && ev.links[i].target == u.members[i + 1]
            && u.members[i] in NodeTable(g.nodes) && u.members[i + 1] in NodeTable(g.nodes)
            && OutOf(g.edges, u.members[i]) == [ev.links[i]]
  {
  }
}
