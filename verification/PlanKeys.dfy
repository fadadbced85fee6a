/** When two cache keys are equal, and what equal keys promise: of nodes, of steps and of plans
    (src/comfyng/graph/cache.py:69-90, src/comfyng/graph/compiler.py:1003-1011, 1548-1562). */
module PlanKeys {
  import opened Ids
  import opened Layering
  import opened Graphs
  import opened Topology
  import opened CriticalPath
  import opened Semantics
  import opened Fusion
  import opened Contraction
  import opened CacheKeys
  import opened Compile
  import opened PlanTheorems

  // ----- Nodes -----

  /** Every edge into the one node has a counterpart into the other: same ports, equally keyed
      sources. */
  ghost predicate EdgesMatch(g: Graph, h: Graph, keys: map<Id, string>, keys': map<Id, string>, id: Id, id': Id)
    requires forall e :: e in g.edges ==> e.source in keys
    requires forall e :: e in h.edges ==> e.source in keys'
  {
    forall e :: e in g.edges && e.target == id ==>
      exists f :: f in h.edges && f.target == id' && f.targetPort == e.targetPort && f.sourcePort == e.sourcePort
                  && keys[e.source] == keys'[f.source]
  }

  /** Every graph input bound to the one node is bound to the same port of the other. */
  predicate InputsMatch(g: Graph, h: Graph, id: Id, id': Id)
  {
    forall name :: name in g.inputs && g.inputs[name].node == id ==>
      name in h.inputs && h.inputs[name] == Binding(id', g.inputs[name].port)
  }

  lemma KeyedEnds(g: Graph, hash: Hash, keys: map<Id, string>)
    requires WellFormed(g) && KeysOf(g, hash, keys)
    ensures forall e :: e in g.edges ==> e.source in keys && e.target in keys
  {
  }

  lemma EqualKeysMatch(g: Graph, h: Graph, hash: Hash, keys: map<Id, string>, keys': map<Id, string>, n: Node, m: Node)
    requires CollisionFree(hash) && WellFormed(g) && WellFormed(h) && KeysOf(g, hash, keys) && KeysOf(h, hash, keys')
    requires n in g.nodes && m in h.nodes && keys[n.id] == keys'[m.id]
    ensures n.typeId == m.typeId && n.typeVersion == m.typeVersion && n.inputs == m.inputs && n.metadata == m.metadata
    ensures forall e :: e in g.edges ==> e.source in keys
    ensures forall e :: e in h.edges ==> e.source in keys'
    ensures EdgesMatch(g, h, keys, keys', n.id, m.id) && InputsMatch(g, h, n.id, m.id)
  {
    hide WellFormed, KeysOf;
    KeyedEnds(g, hash, keys);
    KeyedEnds(h, hash, keys');
    var up := SharedRecord(g, h, hash, keys, keys', n, m);
    forall e | e in g.edges && e.target == n.id
      ensures exists f :: f in h.edges && f.target == m.id && f.targetPort == e.targetPort && f.sourcePort == e.sourcePort
                          && keys[e.source] == keys'[f.source]
    {
      var f := TwinEdge(g, h, keys, keys', n.id, m.id, up, e);
    }
    forall name | name in g.inputs && g.inputs[name].node == n.id
      ensures name in h.inputs && h.inputs[name] == Binding(m.id, g.inputs[name].port)
    {
      TwinInput(g, h, keys, keys', n.id, m.id, up, name);
    }
  }

  lemma TwinInput(g: Graph, h: Graph, keys: map<Id, string>, keys': map<Id, string>, id: Id, id': Id, up: map<string, Upstream>, name: string)
    requires Records(g, keys, id, up) && Records(h, keys', id', up) && name in g.inputs && g.inputs[name].node == id
    ensures name in h.inputs && h.inputs[name] == Binding(id', g.inputs[name].port)
  {
    var p := g.inputs[name].port;
    assert InputInto(g, name, id, p);
    assert up[p] == GraphInput(name);
    if e :| EdgeInto(h, e, id', p) {
      assert false;
    }
    var other :| InputInto(h, other, id', p);
    assert other == name;
  }

  /** The record of the one node is a record of the other. */
  lemma RecordTransfers(g: Graph, h: Graph, keys: map<Id, string>, keys': map<Id, string>, id: Id, id': Id, up: map<string, Upstream>)
    requires BoundOnce(g) && BoundOnce(h) && Records(g, keys, id, up)
    requires forall e :: e in g.edges ==> e.source in keys
    requires forall e :: e in h.edges ==> e.source in keys'
    requires EdgesMatch(g, h, keys, keys', id, id') && EdgesMatch(h, g, keys', keys, id', id)
    requires InputsMatch(g, h, id, id') && InputsMatch(h, g, id', id)
    ensures Records(h, keys', id', up)
  {
    forall f, p | EdgeInto(h, f, id', p)
      ensures f.source in keys' && p in up && up[p] == FromNode(keys'[f.source], f.sourcePort)
    {
      var e :| e in g.edges && e.target == id && e.targetPort == f.targetPort && e.sourcePort == f.sourcePort
               && keys'[f.source] == keys[e.source];
      assert EdgeInto(g, e, id, p);
    }
    forall name, p | InputInto(h, name, id', p)
      ensures p in up && up[p] == GraphInput(name)
    {
      assert InputInto(g, name, id, p);
    }
    forall p | p in up
      ensures (exists f :: EdgeInto(h, f, id', p)) || exists name :: InputInto(h, name, id', p)
    {
      if e :| EdgeInto(g, e, id, p) {
        var f :| f in h.edges && f.target == id' && f.targetPort == e.targetPort && f.sourcePort == e.sourcePort
                 && keys[e.source] == keys'[f.source];
        assert EdgeInto(h, f, id', p);
      } else {
        var name :| InputInto(g, name, id, p);
        assert InputInto(h, name, id', p);
      }
    }
  }

  lemma RecordUnique(g: Graph, keys: map<Id, string>, id: Id, up: map<string, Upstream>, up': map<string, Upstream>)
    requires Records(g, keys, id, up) && Records(g, keys, id, up')
    ensures up == up'
  {
    forall p | p in up
      ensures p in up' && up[p] == up'[p]
    {
      if e :| EdgeInto(g, e, id, p) {
        assert up'[p] == FromNode(keys[e.source], e.sourcePort);
      } else {
        var name :| InputInto(g, name, id, p);
      }
    }
    forall p | p in up'
      ensures p in up
    {
      if e :| EdgeInto(g, e, id, p) {
        assert p in up;
      } else {
        var name :| InputInto(g, name, id, p);
      }
    }
  }

  /** Two nodes have one key exactly when they are equal but for their ids and are fed alike: by
      equally keyed sources through the same ports, and by the same graph inputs. */
  lemma NodeKeysEqualIff(g: Graph, h: Graph, hash: Hash, keys: map<Id, string>, keys': map<Id, string>, n: Node, m: Node)
    requires CollisionFree(hash) && WellFormed(g) && WellFormed(h) && BoundOnce(g) && BoundOnce(h)
    requires KeysOf(g, hash, keys) && KeysOf(h, hash, keys') && n in g.nodes && m in h.nodes
    ensures n.id in keys && m.id in keys'
    ensures forall e :: e in g.edges ==> e.source in keys
    ensures forall e :: e in h.edges ==> e.source in keys'
    ensures keys[n.id] == keys'[m.id] <==>
            && n.typeId == m.typeId && n.typeVersion == m.typeVersion && n.inputs == m.inputs && n.metadata == m.metadata
            && EdgesMatch(g, h, keys, keys', n.id, m.id) && EdgesMatch(h, g, keys', keys, m.id, n.id)
            && InputsMatch(g, h, n.id, m.id) && InputsMatch(h, g, m.id, n.id)
  {
    hide WellFormed, BoundOnce, EdgesMatch, InputsMatch, Records, CollisionFree;
    KeyedEnds(g, hash, keys);
    KeyedEnds(h, hash, keys');
    assert KeyOk(g, hash, keys, n) && KeyOk(h, hash, keys', m);
    if keys[n.id] == keys'[m.id] {
      EqualKeysMatch(g, h, hash, keys, keys', n, m);
      EqualKeysMatch(h, g, hash, keys', keys, m, n);
    } else if && n.typeId == m.typeId && n.typeVersion == m.typeVersion && n.inputs == m.inputs && n.metadata == m.metadata
              && EdgesMatch(g, h, keys, keys', n.id, m.id) && EdgesMatch(h, g, keys', keys, m.id, n.id)
              && InputsMatch(g, h, n.id, m.id) && InputsMatch(h, g, m.id, n.id) {
      var up :| Records(g, keys, n.id, up) && keys[n.id] == hash(ContentOf(n, up));
      var up' :| Records(h, keys', m.id, up') && keys'[m.id] == hash(ContentOf(m, up'));
      RecordTransfers(g, h, keys, keys', n.id, m.id, up);
      RecordUnique(h, keys', m.id, up, up');
    }
  }

  // ----- Steps -----

  /** As many members on both sides, with equal node keys in turn. */
  ghost predicate KeyedAlike(members: seq<Id>, keys: map<Id, string>, members': seq<Id>, keys': map<Id, string>)
  {
    && |members| == |members'|
    && forall i :: 0 <= i < |members| ==> members[i] in keys && members'[i] in keys' && keys[members[i]] == keys'[members'[i]]
  }

  /** Two steps have one key exactly when they are single nodes with one node key, or are fused
      with equal evidence over members with equal node keys. */
  lemma StepKeysEqual(p: Plan, p': Plan, profiles: Profiles, profiles': Profiles, hash: Hash, s: ExecutionStep, s': ExecutionStep)
    requires CollisionFree(hash) && ValidPlan(p, profiles, hash) && ValidPlan(p', profiles', hash) && s in p.steps && s' in p'.steps
    ensures s.cacheKey == s'.cacheKey <==>
            s.evidence == s'.evidence && KeyedAlike(s.members, p.analysis.keys, s'.members, p'.analysis.keys)
  {
    hide ValidPlan, CollisionFree, StepKey, KeysOf, StepsFor, ValidUnit, NodeIds, WellFormed, BoundOnce, PlanRecord, KeyedAlike;
    var unit := StepUnit(p, profiles, hash, s);
    var unit' := StepUnit(p', profiles', hash, s');
    PlanHasKeys(p, profiles, hash);
    PlanHasKeys(p', profiles', hash);
    UnitKeysEqual(p.analysis.graph, p'.analysis.graph, hash, p.analysis.keys, p'.analysis.keys, unit, unit');
  }

  lemma PlanHasKeys(p: Plan, profiles: Profiles, hash: Hash)
    requires ValidPlan(p, profiles, hash)
    ensures WellFormed(p.analysis.graph) && BoundOnce(p.analysis.graph) && KeysOf(p.analysis.graph, hash, p.analysis.keys)
    ensures p.key == hash(PlanRecord(p.analysis, p.steps))
  {
  }

  lemma UnitKeysEqual(g: Graph, h: Graph, hash: Hash, keys: map<Id, string>, keys': map<Id, string>, u: Unit, w: Unit)
    requires CollisionFree(hash) && KeysOf(g, hash, keys) && KeysOf(h, hash, keys') && ValidUnit(u) && ValidUnit(w)
    requires u.members != [] && w.members != []
    requires forall m :: m in u.members ==> m in NodeIds(g) && m in keys
    requires forall m :: m in w.members ==> m in NodeIds(h) && m in keys'
    ensures StepKey(u, keys, hash) == StepKey(w, keys', hash) <==>
            u.evidence == w.evidence && KeyedAlike(u.members, keys, w.members, keys')
  {
    hide CollisionFree, StepKey, KeysOf, ValidUnit, NodeIds;
    if StepKey(u, keys, hash) == StepKey(w, keys', hash) {
      EqualStepKeys(g, h, hash, keys, keys', u, w);
      EvidenceFollows(g, h, hash, keys, keys', u, w);
    } else if u.evidence == w.evidence && KeyedAlike(u.members, keys, w.members, keys') {
      SameStepKey(u, w, keys, keys', hash);
    }
  }

  lemma EvidenceFollows(g: Graph, h: Graph, hash: Hash, keys: map<Id, string>, keys': map<Id, string>, u: Unit, w: Unit)
    requires CollisionFree(hash) && KeysOf(g, hash, keys) && KeysOf(h, hash, keys') && u.members != [] && w.members != []
    requires forall m :: m in u.members ==> m in NodeIds(g) && m in keys
    requires forall m :: m in w.members ==> m in NodeIds(h) && m in keys'
    requires StepKey(u, keys, hash) == StepKey(w, keys', hash)
    ensures u.evidence == w.evidence
  {
    hide KeysOf;
    assert u.members[0] in u.members && w.members[0] in w.members;
    if u.evidence.Some? && w.evidence.None? {
      NodeKeyIsNoFusedKey(h, hash, keys', w.members[0], u.evidence.value, MemberKeys(u.members, keys));
    } else if u.evidence.None? && w.evidence.Some? {
      NodeKeyIsNoFusedKey(g, hash, keys, u.members[0], w.evidence.value, MemberKeys(w.members, keys'));
    } else {
      StepKeysEqualIff(u, w, keys, keys', hash);
    }
  }

  lemma SameStepKey(u: Unit, w: Unit, keys: map<Id, string>, keys': map<Id, string>, hash: Hash)
    requires u.members != [] && w.members != [] && u.evidence == w.evidence && |u.members| == |w.members|
    requires (forall m :: m in u.members ==> m in keys) && forall m :: m in w.members ==> m in keys'
    requires forall i :: 0 <= i < |u.members| ==> keys[u.members[i]] == keys'[w.members[i]]
    ensures StepKey(u, keys, hash) == StepKey(w, keys', hash)
  {
    assert MemberKeys(u.members, keys) == MemberKeys(w.members, keys');
  }

  // ----- Plans -----

  /** The cache keys of the steps, in plan order. */
  function KeysIn(steps: seq<ExecutionStep>): (keys: seq<string>)
    ensures |keys| == |steps| && forall i :: 0 <= i < |steps| ==> keys[i] == steps[i].cacheKey
  {
    seq(|steps|, i requires 0 <= i < |steps| => steps[i].cacheKey)
  }

  lemma {:induction false} StepKeysCounted(steps: seq<ExecutionStep>)
    ensures StepKeys(steps) == multiset(KeysIn(steps))
  {
    if steps != [] {
      var init, last := steps[..|steps| - 1], steps[|steps| - 1];
      StepKeysCounted(init);
      assert KeysIn(steps) == KeysIn(init) + [last.cacheKey];
    }
  }

  /** Equally named outputs come from equally keyed nodes through the same port. */
  predicate OutputsMatch(g: Graph, h: Graph, keys: map<Id, string>, keys': map<Id, string>)
  {
    && g.outputs.Keys == h.outputs.Keys
    && forall name :: name in g.outputs ==>
         && g.outputs[name].node in keys && h.outputs[name].node in keys'
         && keys[g.outputs[name].node] == keys'[h.outputs[name].node] && g.outputs[name].port == h.outputs[name].port
  }

  lemma RecordAt(g: Graph, keys: map<Id, string>)
    requires WellFormed(g) && keys.Keys == NodeIds(g)
    ensures OutputRecords(g, keys).Keys == g.outputs.Keys
    ensures forall name :: name in g.outputs ==>
              g.outputs[name].node in keys && OutputRecords(g, keys)[name] == (keys[g.outputs[name].node], g.outputs[name].port)
  {
  }

  lemma RecordsMatch(g: Graph, h: Graph, keys: map<Id, string>, keys': map<Id, string>)
    requires WellFormed(g) && WellFormed(h) && keys.Keys == NodeIds(g) && keys'.Keys == NodeIds(h)
    ensures OutputRecords(g, keys) == OutputRecords(h, keys') <==> OutputsMatch(g, h, keys, keys')
  {
    hide OutputRecords, WellFormed, NodeIds;
    RecordAt(g, keys);
    RecordAt(h, keys');
    var a, b := OutputRecords(g, keys), OutputRecords(h, keys');
    if a == b {
      forall name | name in g.outputs
        ensures keys[g.outputs[name].node] == keys'[h.outputs[name].node] && g.outputs[name].port == h.outputs[name].port
      {
        assert a[name] == b[name];
      }
    }
    if OutputsMatch(g, h, keys, keys') {
      forall name | name in a
        ensures name in b && a[name] == b[name]
      {
      }
    }
  }

  /** Two plans have one key exactly when graph version, the keys of all steps with their number,
      and the outputs with the keys of their nodes agree. */
  lemma PlanKeysEqualIff(p: Plan, p': Plan, profiles: Profiles, profiles': Profiles, hash: Hash)
    requires CollisionFree(hash) && ValidPlan(p, profiles, hash) && ValidPlan(p', profiles', hash)
    ensures p.key == p'.key <==>
            && p.analysis.graph.version == p'.analysis.graph.version
            && multiset(KeysIn(p.steps)) == multiset(KeysIn(p'.steps))
            && OutputsMatch(p.analysis.graph, p'.analysis.graph, p.analysis.keys, p'.analysis.keys)
  {
    hide OutputsMatch, OutputRecords, StepKeys, ValidPlan, WellFormed, BoundOnce;
    PlanHasKeys(p, profiles, hash);
    PlanHasKeys(p', profiles', hash);
    StepKeysCounted(p.steps);
    StepKeysCounted(p'.steps);
    RecordsMatch(p.analysis.graph, p'.analysis.graph, p.analysis.keys, p'.analysis.keys);
  }

  /** Reusing a plan's outputs under an equal key is sound: plans with equal keys have the same
      output names, and give the same values at them whenever equally named graph inputs agree. */
  lemma PlanKeysSound(p: Plan, p': Plan, profiles: Profiles, profiles': Profiles, hash: Hash,
                      sem: Sem, ext: Env, ext': Env, v: Valuation, v': Valuation)
    requires CollisionFree(hash) && ValidPlan(p, profiles, hash) && ValidPlan(p', profiles', hash) && p.key == p'.key
    requires Solves(p.analysis.graph, sem, ext, v) && Solves(p'.analysis.graph, sem, ext', v')
    requires InputsAgree(p.analysis.graph, p'.analysis.graph, ext, ext')
    ensures p.analysis.graph.outputs.Keys == p'.analysis.graph.outputs.Keys
    ensures OutputsOf(p.analysis.graph, v) == OutputsOf(p'.analysis.graph, v')
  {
    hide CollisionFree, KeysOf, ConstantsOf, UnitsCertified, Cut, Grouped, StepsFor, InputsAgree, Ordered, BoundOnce, Acyclic, Eval;
    PlanKeysEqualIff(p, p', profiles, profiles', hash);
    var g, h := p.analysis.graph, p'.analysis.graph;
    forall name | name in g.outputs
      ensures g.outputs[name].node in v && h.outputs[name].node in v' && v[g.outputs[name].node] == v'[h.outputs[name].node]
    {
      CacheKeysSound(g, h, hash, p.analysis.keys, p'.analysis.keys, sem, ext, ext', v, v',
                     NodeAt(g, g.outputs[name].node), NodeAt(h, h.outputs[name].node));
    }
    SameOutputs(g, h, v, v');
  }

  lemma SameOutputs(g: Graph, h: Graph, v: Valuation, v': Valuation)
    requires g.outputs.Keys == h.outputs.Keys && forall name :: name in g.outputs ==> g.outputs[name].port == h.outputs[name].port
    requires forall name :: name in g.outputs ==>
               g.outputs[name].node in v && h.outputs[name].node in v' && v[g.outputs[name].node] == v'[h.outputs[name].node]
    ensures OutputsOf(g, v) == OutputsOf(h, v')
  {
  }
}
