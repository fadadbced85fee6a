/** Merkle-style node cache keys and constant folding
    (src/comfyng/graph/cache.py:69-90, src/comfyng/graph/compiler.py:1402-1446). */
module CacheKeys {
  import opened Ids
  import opened Layering
  import opened Graphs
  import opened Semantics
  import opened Fusion

  const CACHE_KEY_VERSION: nat := 1

  /** Where a port's value comes from, as the key records it. */
  datatype Upstream =
    | FromNode(cacheKey: string, sourcePort: string)
    | GraphInput(name: string)

  /** The hashed records. Node ids are not part of a node's record; the record of a fused
      step holds its evidence, and with it the ids of its members. */
  datatype Content =
    | NodeContent(
        version: nat,
        nodeType: string,
        nodeVersion: string,
        inputs: map<string, Json>,
        metadata: map<string, Json>,
        upstream: map<string, Upstream>)
    | FusedContent(evidence: Evidence, memberKeys: seq<string>)
    | PlanContent(
        planVersion: nat,
        graphVersion: nat,
        steps: multiset<string>,
        outputs: map<string, (string, string)>)

  /** SHA-256 of canonical JSON, taken to be injective. */
  type Hash = Content -> string

  ghost predicate CollisionFree(hash: Hash)
  {
    forall a, b :: hash(a) == hash(b) ==> a == b
  }

  /** Every port has at most one binding: a literal, an edge or a graph input. */
  ghost predicate BoundOnce(g: Graph)
  {
    && (forall e, f | e in g.edges && f in g.edges :: e.target == f.target && e.targetPort == f.targetPort ==> e == f)
    && (forall e, name | e in g.edges && name in g.inputs :: g.inputs[name] != Binding(e.target, e.targetPort))
    && (forall a, b | a in g.inputs && b in g.inputs :: g.inputs[a] == g.inputs[b] ==> a == b)
    && (forall n, e | n in g.nodes && e in g.edges :: e.target == n.id ==> e.targetPort !in n.inputs)
    && (forall n, name | n in g.nodes && name in g.inputs :: g.inputs[name].node == n.id ==> g.inputs[name].port !in n.inputs)
  }

  predicate EdgeInto(g: Graph, e: Edge, id: Id, p: string)
  {
    e in g.edges && e.target == id && e.targetPort == p
  }

  predicate InputInto(g: Graph, name: string, id: Id, p: string)
  {
    name in g.inputs && g.inputs[name] == Binding(id, p)
  }

  /** `up` records exactly the edges and graph inputs bound to the node's ports. */
  ghost predicate Records(g: Graph, keys: map<Id, string>, id: Id, up: map<string, Upstream>)
  {
    && (forall e, p :: EdgeInto(g, e, id, p) ==> e.source in keys && p in up && up[p] == FromNode(keys[e.source], e.sourcePort))
    && (forall name, p :: InputInto(g, name, id, p) ==> p in up && up[p] == GraphInput(name))
    && (forall p :: p in up ==> (exists e :: EdgeInto(g, e, id, p)) || (exists name :: InputInto(g, name, id, p)))
  }

  function ContentOf(n: Node, up: map<string, Upstream>): Content
  {
    NodeContent(CACHE_KEY_VERSION, n.typeId, n.typeVersion, n.inputs, n.metadata, up)
  }

  ghost predicate KeyOk(g: Graph, hash: Hash, keys: map<Id, string>, n: Node)
  {
    n.id in keys && exists up :: Records(g, keys, n.id, up) && keys[n.id] == hash(ContentOf(n, up))
  }

  /** Every node's key is the hash of its content over its sources' keys. */
  ghost predicate KeysOf(g: Graph, hash: Hash, keys: map<Id, string>)
  {
    keys.Keys == NodeIds(g) && forall n :: n in g.nodes ==> KeyOk(g, hash, keys, n)
  }

  // ----- Computing the keys and the constant flags -----

  ghost predicate HasExternalInput(g: Graph, id: Id)
  {
    exists name :: name in g.inputs && g.inputs[name].node == id
  }

  ghost predicate ConstantOk(g: Graph, constants: map<Id, bool>, id: Id)
  {
    && id in constants && (forall e :: e in g.edges && e.target == id ==> e.source in constants)
    && (constants[id] <==> !HasExternalInput(g, id) && forall e :: e in g.edges && e.target == id ==> constants[e.source])
  }

  ghost predicate ConstantsOf(g: Graph, constants: map<Id, bool>)
  {
    constants.Keys == NodeIds(g) && forall id :: id in NodeIds(g) ==> ConstantOk(g, constants, id)
  }

  /** The upstream record of one node, from its incoming edges and then the graph inputs. */
  method UpstreamOf(g: Graph, keys: map<Id, string>, id: Id) returns (up: map<string, Upstream>)
    requires BoundOnce(g) && forall e :: e in g.edges && e.target == id ==> e.source in keys
    ensures Records(g, keys, id, up)
  {
    up := map[];
    for k := 0 to |g.edges|
      invariant forall i :: 0 <= i < k && g.edges[i].target == id ==>
                  g.edges[i].targetPort in up &&
                  up[g.edges[i].targetPort] == FromNode(keys[g.edges[i].source], g.edges[i].sourcePort)
      invariant forall p :: p in up ==> exists e :: EdgeInto(g, e, id, p)
    {
      var e := g.edges[k];
      assert e in g.edges;
      if e.target == id {
        assert EdgeInto(g, e, id, e.targetPort);
        assert forall i :: 0 <= i < k ==> g.edges[i] in g.edges;
        up := up[e.targetPort := FromNode(keys[e.source], e.sourcePort)];
      }
    }
    forall e, p | EdgeInto(g, e, id, p)
      ensures p in up && up[p] == FromNode(keys[e.source], e.sourcePort)
    {
      var i :| 0 <= i < |g.edges| && g.edges[i] == e;
    }
    var rest := g.inputs.Keys;
    while rest != {}
      invariant rest <= g.inputs.Keys
      invariant forall e, p :: EdgeInto(g, e, id, p) ==> p in up && up[p] == FromNode(keys[e.source], e.sourcePort)
      invariant forall name, p :: InputInto(g, name, id, p) && name !in rest ==> p in up && up[p] == GraphInput(name)
      invariant forall p :: p in up ==> (exists e :: EdgeInto(g, e, id, p)) || (exists name :: InputInto(g, name, id, p))
    {
      var name :| name in rest;
      rest := rest - {name};
      if g.inputs[name].node == id {
        assert InputInto(g, name, id, g.inputs[name].port);
        up := up[g.inputs[name].port := GraphInput(name)];
      }
    }
  }

  /** Later entries do not disturb the record of a node whose sources are all present. */
  lemma KeyOkKept(g: Graph, hash: Hash, keys: map<Id, string>, n: Node, id: Id, key: string)
    requires KeyOk(g, hash, keys, n) && id !in keys
    ensures KeyOk(g, hash, keys[id := key], n)
  {
    var up :| Records(g, keys, n.id, up) && keys[n.id] == hash(ContentOf(n, up));
    assert Records(g, keys[id := key], n.id, up);
  }

  method ConstantFlag(g: Graph, constants: map<Id, bool>, id: Id) returns (flag: bool)
    requires forall e :: e in g.edges && e.target == id ==> e.source in constants
    ensures flag <==> !HasExternalInput(g, id) && forall e :: e in g.edges && e.target == id ==> constants[e.source]
  {
    if exists name :: name in g.inputs && g.inputs[name].node == id {
      return false;
    }
    for k := 0 to |g.edges|
      invariant forall i :: 0 <= i < k && g.edges[i].target == id ==> constants[g.edges[i].source]
    {
      assert g.edges[k] in g.edges;
      if g.edges[k].target == id && !constants[g.edges[k].source] {
        return false;
      }
    }
    flag := true;
  }

  /** The tables after sweeping over the nodes `done`. */
  ghost predicate Annotated(g: Graph, hash: Hash, keys: map<Id, string>, constants: map<Id, bool>, done: set<Id>)
  {
    && keys.Keys == done && constants.Keys == done
    && (forall n {:trigger KeyOk(g, hash, keys, n)} :: n in g.nodes && n.id in done ==> KeyOk(g, hash, keys, n))
    && (forall id :: id in done ==> ConstantOk(g, constants, id))
  }

  lemma AnnotateKeys(g: Graph, hash: Hash, keys: map<Id, string>, n: Node, up: map<string, Upstream>, key: string)
    requires WellFormed(g) && n in g.nodes && n.id !in keys && Records(g, keys, n.id, up) && key == hash(ContentOf(n, up))
    requires forall m {:trigger KeyOk(g, hash, keys, m)} :: m in g.nodes && m.id in keys ==> KeyOk(g, hash, keys, m)
    ensures forall m {:trigger KeyOk(g, hash, keys[n.id := key], m)} ::
              m in g.nodes && (m.id in keys || m.id == n.id) ==> KeyOk(g, hash, keys[n.id := key], m)
  {
    RecordsKept(g, keys, n.id, up, key);
    forall m | m in g.nodes && (m.id in keys || m.id == n.id)
      ensures KeyOk(g, hash, keys[n.id := key], m)
    {
      if m.id == n.id {
        UniqueNode(g, m, n);
      } else {
        assert KeyOk(g, hash, keys, m);
        KeyOkKept(g, hash, keys, m, n.id, key);
      }
    }
  }

  lemma AnnotateConstants(g: Graph, constants: map<Id, bool>, done: set<Id>, id: Id, flag: bool)
    requires id !in done && constants.Keys == done && forall i :: i in done ==> ConstantOk(g, constants, i)
    requires forall e :: e in g.edges && e.target == id ==> e.source in done
    requires flag <==> !HasExternalInput(g, id) && forall e :: e in g.edges && e.target == id ==> constants[e.source]
    ensures forall i :: i in done + {id} ==> ConstantOk(g, constants[id := flag], i)
  {
    forall i | i in done
      ensures ConstantOk(g, constants[id := flag], i)
    {
      assert ConstantOk(g, constants, i);
    }
  }

  /** One turn of the sweep: the node's sources have their keys already. */
  method AnnotateNode(g: Graph, n: Node, hash: Hash, keys0: map<Id, string>, constants0: map<Id, bool>, ghost done: set<Id>)
    returns (keys: map<Id, string>, constants: map<Id, bool>)
    requires WellFormed(g) && BoundOnce(g) && n in g.nodes && n.id !in done
    requires Annotated(g, hash, keys0, constants0, done)
    requires forall e :: e in g.edges && e.target == n.id ==> e.source in done
    ensures Annotated(g, hash, keys, constants, done + {n.id})
  {
    hide KeyOk, ConstantOk, HasExternalInput, BoundOnce;
    var up := UpstreamOf(g, keys0, n.id);
    var flag := ConstantFlag(g, constants0, n.id);
    AnnotateKeys(g, hash, keys0, n, up, hash(ContentOf(n, up)));
    AnnotateConstants(g, constants0, done, n.id, flag);
    keys, constants := keys0[n.id := hash(ContentOf(n, up))], constants0[n.id := flag];
  }

  /** The compiler's sweep over the topological order. */
  method Annotate(g: Graph, order: seq<Id>, hash: Hash) returns (keys: map<Id, string>, constants: map<Id, bool>)
    requires WellFormed(g) && BoundOnce(g) && TopologicalOrder(order, NodeIds(g), Arcs(g.edges))
    ensures KeysOf(g, hash, keys) && ConstantsOf(g, constants)
  {
    var nodes := NodeTable(g.nodes);
    keys, constants := map[], map[];
    for k := 0 to |order|
      invariant Annotated(g, hash, keys, constants, Elements(order[..k]))
    {
      ghost var done := Elements(order[..k]);
      NextInOrder(g, order, k, done);
      NodeTableAt(g, order[k]);
      keys, constants := AnnotateNode(g, nodes[order[k]], hash, keys, constants, done);
    }
    assert order[..|order|] == order;
    AnnotatedAll(g, hash, keys, constants);
  }

  lemma AnnotatedAll(g: Graph, hash: Hash, keys: map<Id, string>, constants: map<Id, bool>)
    requires Annotated(g, hash, keys, constants, NodeIds(g))
    ensures KeysOf(g, hash, keys) && ConstantsOf(g, constants)
  {
    forall n | n in g.nodes
      ensures KeyOk(g, hash, keys, n)
    {
      assert n.id in NodeIds(g);
    }
  }

  lemma RecordsKept(g: Graph, keys: map<Id, string>, id: Id, up: map<string, Upstream>, key: string)
    requires Records(g, keys, id, up) && id !in keys
    ensures Records(g, keys[id := key], id, up)
  {
  }

  lemma NextInOrder(g: Graph, order: seq<Id>, k: nat, done: set<Id>)
    requires WellFormed(g) && TopologicalOrder(order, NodeIds(g), Arcs(g.edges)) && k < |order|
    requires done == Elements(order[..k])
    ensures order[k] in NodeIds(g) && order[k] !in done && Elements(order[..k + 1]) == done + {order[k]}
    ensures forall e :: e in g.edges && e.target == order[k] ==> e.source in done
  {
    SourcesDone(g, order, k);
    assert order[k] in Elements(order);
    assert order[..k + 1] == order[..k] + [order[k]];
  }

  lemma SourcesDone(g: Graph, order: seq<Id>, k: nat)
    requires WellFormed(g) && TopologicalOrder(order, NodeIds(g), Arcs(g.edges)) && k < |order|
    ensures forall e :: e in g.edges && e.target == order[k] ==> e.source in Elements(order[..k])
  {
    forall e | e in g.edges && e.target == order[k]
      ensures e.source in Elements(order[..k])
    {
      assert e.source in Elements(order) && (e.source, e.target) in Arcs(g.edges);
      var j :| 0 <= j < |order| && order[j] == e.source;
      assert (order[j], order[k]) in Arcs(g.edges);
      assert order[..k][j] == e.source;
    }
  }

  // ----- Equal keys mean equal values -----

  /** Graph inputs of the same name carry the same values. */
  ghost predicate InputsAgree(g: Graph, h: Graph, ext: Env, ext': Env)
  {
    forall name, x | name in g.inputs && name in h.inputs :: (name, x) in ext <==> (name, x) in ext'
  }

  /** An evaluated graph with its keys. */
  ghost predicate Keyed(g: Graph, hash: Hash, keys: map<Id, string>, sem: Sem, ext: Env, v: Valuation)
  {
    WellFormed(g) && BoundOnce(g) && KeysOf(g, hash, keys) && Solves(g, sem, ext, v)
  }

  /** The node's own record, found again in the other graph under the same key. */
  lemma SharedRecord(g: Graph, h: Graph, hash: Hash, keys: map<Id, string>, keys': map<Id, string>, n: Node, m: Node)
    returns (up: map<string, Upstream>)
    requires CollisionFree(hash) && KeysOf(g, hash, keys) && KeysOf(h, hash, keys')
    requires n in g.nodes && m in h.nodes && keys[n.id] == keys'[m.id]
    ensures Records(g, keys, n.id, up) && Records(h, keys', m.id, up)
    ensures n.typeId == m.typeId && n.typeVersion == m.typeVersion && n.inputs == m.inputs && n.metadata == m.metadata
  {
    assert KeyOk(g, hash, keys, n) && KeyOk(h, hash, keys', m);
    up :| Records(g, keys, n.id, up) && keys[n.id] == hash(ContentOf(n, up));
    var up' :| Records(h, keys', m.id, up') && keys'[m.id] == hash(ContentOf(m, up'));
    assert ContentOf(n, up) == ContentOf(m, up');
  }

  /** An edge into the node has a twin in the other graph with an equally keyed source. */
  lemma TwinEdge(g: Graph, h: Graph, keys: map<Id, string>, keys': map<Id, string>, id: Id, id': Id, up: map<string, Upstream>, e: Edge)
    returns (f: Edge)
    requires Records(g, keys, id, up) && Records(h, keys', id', up) && e in g.edges && e.target == id
    ensures f in h.edges && f.target == id' && f.targetPort == e.targetPort && f.sourcePort == e.sourcePort
    ensures e.source in keys && f.source in keys' && keys[e.source] == keys'[f.source]
  {
    assert EdgeInto(g, e, id, e.targetPort);
    var p := e.targetPort;
    assert up[p] == FromNode(keys[e.source], e.sourcePort);
    if name :| InputInto(h, name, id', p) {
      assert false;
    }
    f :| EdgeInto(h, f, id', p);
  }

  lemma SameExternal(g: Graph, h: Graph, keys: map<Id, string>, keys': map<Id, string>, id: Id, id': Id, up: map<string, Upstream>,
                     ext: Env, ext': Env)
    requires Records(g, keys, id, up) && Records(h, keys', id', up) && InputsAgree(g, h, ext, ext')
    ensures External(g, ext, id) <= External(h, ext', id')
  {
    forall x | x in External(g, ext, id)
      ensures x in External(h, ext', id')
    {
      var b :| b in ext && b.0 in g.inputs && g.inputs[b.0].node == id && x == (g.inputs[b.0].port, b.1);
      assert InputInto(g, b.0, id, x.0);
      assert up[x.0] == GraphInput(b.0);
      assert InputInto(h, b.0, id', x.0) by {
        if e :| EdgeInto(h, e, id', x.0) { assert false; }
        var name :| InputInto(h, name, id', x.0);
      }
      assert (b.0, b.1) == b && b in ext';
    }
  }

  lemma SameFed(g: Graph, h: Graph, keys: map<Id, string>, keys': map<Id, string>, id: Id, id': Id, up: map<string, Upstream>,
                v: Valuation, v': Valuation)
    requires Records(g, keys, id, up) && Records(h, keys', id', up)
    requires keys.Keys == v.Keys && keys'.Keys == v'.Keys
    requires forall e, f :: e in g.edges && e.target == id && f in h.edges && f.target == id'
                            && e.source in keys && f.source in keys' && keys[e.source] == keys'[f.source]
                            ==> v[e.source] == v'[f.source]
    ensures Fed(g, v, id) <= Fed(h, v', id')
  {
    forall x | x in Fed(g, v, id)
      ensures x in Fed(h, v', id')
    {
      var e :| e in g.edges && e.target == id && Carries(e, v) && x == (e.targetPort, v[e.source][e.sourcePort]);
      var f := TwinEdge(g, h, keys, keys', id, id', up, e);
      assert v[e.source] == v'[f.source];
    }
  }

  lemma InputsSwap(g: Graph, h: Graph, ext: Env, ext': Env)
    requires InputsAgree(g, h, ext, ext')
    ensures InputsAgree(h, g, ext', ext)
  {
  }

  /** Cache-key soundness: nodes with equal keys, in one graph or two and whatever their ids,
      have equal outputs whatever the node types compute. */
  lemma {:induction false} EqualKeysEqualValues(g: Graph, h: Graph, hash: Hash, keys: map<Id, string>, keys': map<Id, string>,
                                                sem: Sem, ext: Env, ext': Env, v: Valuation, v': Valuation,
                                                rank: map<Id, nat>, n: Node, m: Node)
    requires CollisionFree(hash) && Keyed(g, hash, keys, sem, ext, v) && Keyed(h, hash, keys', sem, ext', v')
    requires InputsAgree(g, h, ext, ext') && Ranking(rank, NodeIds(g), Arcs(g.edges))
    requires n in g.nodes && m in h.nodes && keys[n.id] == keys'[m.id]
    ensures v[n.id] == v'[m.id]
    decreases rank[n.id]
  {
    hide InputsAgree, CollisionFree, BoundOnce;
    var up := SharedRecord(g, h, hash, keys, keys', n, m);
    forall e, f | e in g.edges && e.target == n.id && f in h.edges && f.target == m.id && keys[e.source] == keys'[f.source]
      ensures v[e.source] == v'[f.source]
    {
      assert (e.source, e.target) in Arcs(g.edges);
      EqualKeysEqualValues(g, h, hash, keys, keys', sem, ext, ext', v, v', rank, NodeAt(g, e.source), NodeAt(h, f.source));
    }
    SameFed(g, h, keys, keys', n.id, m.id, up, v, v');
    SameFed(h, g, keys', keys, m.id, n.id, up, v', v);
    SameExternal(g, h, keys, keys', n.id, m.id, up, ext, ext');
    InputsSwap(g, h, ext, ext');
    SameExternal(h, g, keys', keys, m.id, n.id, up, ext', ext);
    assert EnvOf(g, ext, v, n) == EnvOf(h, ext', v', m);
    assert v[n.id] == Eval(g, sem, ext, v, n) && v'[m.id] == Eval(h, sem, ext', v', m);
  }

  lemma CacheKeysSound(g: Graph, h: Graph, hash: Hash, keys: map<Id, string>, keys': map<Id, string>,
                       sem: Sem, ext: Env, ext': Env, v: Valuation, v': Valuation, n: Node, m: Node)
    requires CollisionFree(hash) && Keyed(g, hash, keys, sem, ext, v) && Keyed(h, hash, keys', sem, ext', v')
    requires InputsAgree(g, h, ext, ext') && Acyclic(Arcs(g.edges))
    requires n in g.nodes && m in h.nodes && keys[n.id] == keys'[m.id]
    ensures v[n.id] == v'[m.id]
  {
    WellFormedWithin(g);
    StuckIffCycle(NodeIds(g), Arcs(g.edges));
    var rank := LayerRanking(NodeIds(g), Arcs(g.edges));
    EqualKeysEqualValues(g, h, hash, keys, keys', sem, ext, ext', v, v', rank, n, m);
  }

  // ----- Constants -----

  /** Some graph input can influence the node. */
  ghost predicate InputReaches(g: Graph, id: Id)
  {
    exists p :: Path(p, Arcs(g.edges)) && HasExternalInput(g, p[0]) && p[|p| - 1] == id
  }

  lemma InputReachesStep(g: Graph, id: Id)
    ensures InputReaches(g, id) <==>
            HasExternalInput(g, id) || exists e :: e in g.edges && e.target == id && InputReaches(g, e.source)
  {
    if HasExternalInput(g, id) {
      assert Path([id], Arcs(g.edges)) && [id][0] == id && [id][|[id]| - 1] == id;
    }
    if e :| e in g.edges && e.target == id && InputReaches(g, e.source) {
      var p :| Path(p, Arcs(g.edges)) && HasExternalInput(g, p[0]) && p[|p| - 1] == e.source;
      assert (e.source, id) in Arcs(g.edges);
      PathJoin(p, [id], Arcs(g.edges));
      assert (p + [id])[|p + [id]| - 1] == id && (p + [id])[0] == p[0];
    }
    if InputReaches(g, id) && !HasExternalInput(g, id) {
      var p :| Path(p, Arcs(g.edges)) && HasExternalInput(g, p[0]) && p[|p| - 1] == id;
      assert |p| > 1;
      assert (p[|p| - 2], p[|p| - 2 + 1]) in Arcs(g.edges);
      var e :| e in g.edges && (e.source, e.target) == (p[|p| - 2], id);
      SubPath(p, Arcs(g.edges), 0, |p| - 1);
      var q := p[0..|p| - 1];
      assert q[0] == p[0] && q[|q| - 1] == e.source;
      assert InputReaches(g, e.source);
    }
  }

  /** `is_constant` holds exactly for the nodes no graph input reaches. */
  lemma {:induction false} ConstantIffUnreached(g: Graph, constants: map<Id, bool>, rank: map<Id, nat>, id: Id)
    requires WellFormed(g) && ConstantsOf(g, constants)
    requires Ranking(rank, NodeIds(g), Arcs(g.edges)) && id in NodeIds(g)
    ensures constants[id] <==> !InputReaches(g, id)
    decreases rank[id]
  {
    assert ConstantOk(g, constants, id);
    forall e | e in g.edges && e.target == id
      ensures constants[e.source] <==> !InputReaches(g, e.source)
    {
      assert (e.source, e.target) in Arcs(g.edges);
      ConstantIffUnreached(g, constants, rank, e.source);
    }
    InputReachesStep(g, id);
  }

  /** So a constant node computes the same outputs for all graph inputs. */
  lemma {:induction false} ConstantIgnoresInputs(g: Graph, constants: map<Id, bool>, rank: map<Id, nat>, sem: Sem,
                                                 ext: Env, ext': Env, v: Valuation, v': Valuation, n: Node)
    requires WellFormed(g) && ConstantsOf(g, constants) && Ranking(rank, NodeIds(g), Arcs(g.edges))
    requires Solves(g, sem, ext, v) && Solves(g, sem, ext', v')
    requires n in g.nodes && constants[n.id]
    ensures v[n.id] == v'[n.id]
    decreases rank[n.id]
  {
    assert ConstantOk(g, constants, n.id);
    forall e | e in g.edges && e.target == n.id
      ensures v[e.source] == v'[e.source]
    {
      assert (e.source, e.target) in Arcs(g.edges);
      ConstantIgnoresInputs(g, constants, rank, sem, ext, ext', v, v', NodeAt(g, e.source));
    }
    FedDependsOnSources(g, v, v', n.id);
    assert External(g, ext, n.id) == {} == External(g, ext', n.id);
    assert v[n.id] == Eval(g, sem, ext, v, n) && v'[n.id] == Eval(g, sem, ext', v', n);
  }
}
