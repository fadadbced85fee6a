/** Topological order, critical path lengths and the selected critical path
    (src/comfyng/graph/topology.py:84-143). */
module CriticalPath {
  import opened Ids
  import opened Layering
  import opened Graphs
  import opened Topology

  // ----- The flattened layers are a topological order -----

  ghost function LayerAt(layers: seq<seq<Id>>, k: nat): (i: nat)
    requires k < |Flatten(layers)|
    ensures i < |layers| && Flatten(layers)[k] in layers[i]
  {
    if k < |layers[0]| then 0 else 1 + LayerAt(layers[1..], k - |layers[0]|)
  }

  lemma {:induction false} LayerAtMonotone(layers: seq<seq<Id>>, j: nat, k: nat)
    requires j <= k < |Flatten(layers)|
    ensures LayerAt(layers, j) <= LayerAt(layers, k)
  {
    if j >= |layers[0]| {
      LayerAtMonotone(layers[1..], j - |layers[0]|, k - |layers[0]|);
    }
  }

  lemma {:induction false} FlattenElements(layers: seq<seq<Id>>, n: Id)
    ensures n in Flatten(layers) <==> exists i :: 0 <= i < |layers| && n in layers[i]
  {
    if layers != [] {
      FlattenElements(layers[1..], n);
      if n in Flatten(layers[1..]) {
        var i :| 0 <= i < |layers[1..]| && n in layers[1..][i];
        assert layers[i + 1] == layers[1..][i];
      }
      if i :| 0 <= i < |layers| && n in layers[i] {
        assert i > 0 ==> layers[1..][i - 1] == layers[i];
      }
    }
  }

  lemma {:induction false} FlattenDistinct(layers: seq<seq<Id>>)
    requires forall i :: 0 <= i < |layers| ==> Distinct(layers[i])
    requires forall i, j, n :: 0 <= i < |layers| && 0 <= j < |layers| && n in layers[i] && n in layers[j] ==> i == j
    ensures Distinct(Flatten(layers))
  {
    if layers != [] {
      var head, tail := layers[0], layers[1..];
      assert forall i :: 0 <= i < |tail| ==> tail[i] == layers[i + 1];
      FlattenDistinct(tail);
      forall n | n in Flatten(tail)
        ensures n !in head
      {
        FlattenElements(tail, n);
        var i :| 0 <= i < |tail| && n in tail[i];
        assert n in layers[i + 1];
      }
      var flat := Flatten(layers);
      forall i, j | 0 <= i < j < |flat|
        ensures flat[i] != flat[j]
      {
        if i >= |head| {
          assert flat[i] == Flatten(tail)[i - |head|] && flat[j] == Flatten(tail)[j - |head|];
        } else if j >= |head| {
          assert flat[j] == Flatten(tail)[j - |head|] && flat[i] == head[i];
          assert flat[j] in Flatten(tail);
        } else {
          assert flat[i] == head[i] && flat[j] == head[j];
          assert Distinct(head);
        }
      }
    }
  }

  lemma FlattenIsTopological(layers: seq<seq<Id>>, nodes: set<Id>, arcs: set<Arc>)
    requires IsLayering(layers, nodes, arcs) && Stuck(nodes, arcs) == {}
    ensures TopologicalOrder(Flatten(layers), nodes, arcs)
  {
    var order := Flatten(layers);
    var sets := Layers(nodes, arcs);
    forall i, n | 0 <= i < |layers| && n in layers[i]
      ensures InLayer(sets, i, n)
    {
      assert sets[i] == Elements(layers[i]);
    }
    forall i, j, n | 0 <= i < |layers| && 0 <= j < |layers| && n in layers[i] && n in layers[j]
      ensures i == j
    {
      LayersDisjoint(nodes, arcs, i, n);
    }
    forall i | 0 <= i < |layers| ensures Distinct(layers[i]) { AscendingDistinct(layers[i]); }
    FlattenDistinct(layers);
    forall n
      ensures n in order <==> n in nodes
    {
      FlattenElements(layers, n);
      if n in order {
        var i :| 0 <= i < |layers| && n in layers[i];
        LayersDisjoint(nodes, arcs, i, n);
      }
      if n in nodes {
        LayersCover(nodes, arcs, n);
        var i :| InLayer(sets, i, n);
        assert n in layers[i];
      }
    }
    forall i, j | 0 <= i < |order| && 0 <= j < |order| && (order[i], order[j]) in arcs
      ensures i < j
    {
      var a, b := LayerAt(layers, i), LayerAt(layers, j);
      SourceLayer(nodes, arcs, b, order[i], order[j]);
      var c :| 0 <= c < b && InLayer(sets, c, order[i]);
      LayersDisjoint(nodes, arcs, a, order[i]);
      if j <= i {
        LayerAtMonotone(layers, j, i);
      }
    }
  }

  // ----- Longest paths -----

  /** `length` is the number of nodes on a longest path that starts at `n`. */
  ghost predicate LongestFrom(n: Id, arcs: set<Arc>, length: nat)
  {
    && (exists p :: Path(p, arcs) && p[0] == n && |p| == length)
    && (forall p :: Path(p, arcs) && p[0] == n ==> |p| <= length)
  }

  ghost predicate LengthsFor(lengths: map<Id, nat>, nodes: set<Id>, arcs: set<Arc>)
  {
    nodes <= lengths.Keys && forall n :: n in nodes ==> LongestFrom(n, arcs, lengths[n])
  }

  lemma LongestFromUnique(n: Id, arcs: set<Arc>, a: nat, b: nat)
    requires LongestFrom(n, arcs, a) && LongestFrom(n, arcs, b)
    ensures a == b && a >= 1
  {
    var p :| Path(p, arcs) && p[0] == n && |p| == a;
    var q :| Path(q, arcs) && q[0] == n && |q| == b;
  }

  /** One more than the longest of the successors, or one without successors. */
  lemma LongestFromStep(n: Id, arcs: set<Arc>, targets: set<Id>, lengths: map<Id, nat>, best: nat)
    requires forall t :: t in targets <==> (n, t) in arcs
    requires LengthsFor(lengths, targets, arcs)
    requires forall t :: t in targets ==> lengths[t] <= best
    requires targets == {} ==> best == 0
    requires targets != {} ==> exists t :: t in targets && lengths[t] == best
    ensures LongestFrom(n, arcs, 1 + best)
  {
    if targets == {} {
      assert Path([n], arcs) && [n][0] == n && |[n]| == 1 + best;
    } else {
      var t :| t in targets && lengths[t] == best;
      var p :| Path(p, arcs) && p[0] == t && |p| == best;
      PathJoin([n], p, arcs);
      assert ([n] + p)[0] == n && |[n] + p| == 1 + best;
    }
    forall p | Path(p, arcs) && p[0] == n
      ensures |p| <= 1 + best
    {
      if |p| > 1 {
        assert (p[0], p[0 + 1]) in arcs;
        SubPath(p, arcs, 1, |p|);
        assert p[1..|p|][0] == p[1];
      }
    }
  }

  function Successors(table: map<Id, set<Id>>, n: Id): set<Id>
  {
    if n in table then table[n] else {}
  }

  method BuildSuccessors(edges: seq<Edge>) returns (table: map<Id, set<Id>>)
    ensures forall n, t :: t in Successors(table, n) <==> (n, t) in Arcs(edges)
  {
    table := map[];
    for k := 0 to |edges|
      invariant forall n, t :: t in Successors(table, n) <==> (n, t) in Arcs(edges[..k])
    {
      var e := edges[k];
      assert edges[..k + 1] == edges[..k] + [e];
      assert Arcs(edges[..k + 1]) == Arcs(edges[..k]) + {(e.source, e.target)};
      table := table[e.source := Successors(table, e.source) + {e.target}];
    }
    assert edges[..|edges|] == edges;
  }

  method LongestTarget(targets: set<Id>, lengths: map<Id, nat>) returns (best: nat)
    requires targets <= lengths.Keys
    ensures forall t :: t in targets ==> lengths[t] <= best
    ensures targets == {} ==> best == 0
    ensures targets != {} ==> exists t :: t in targets && lengths[t] == best
  {
    best := 0;
    var rest := targets;
    while rest != {}
      invariant rest <= targets
      invariant forall t :: t in targets - rest ==> lengths[t] <= best
      invariant targets == rest ==> best == 0
      invariant targets != rest ==> exists t :: t in targets && lengths[t] == best
    {
      var t :| t in rest;
      rest := rest - {t};
      if lengths[t] > best || targets - rest == {t} { best := lengths[t]; }
    }
  }

  /** `critical_path_lengths`: one backward sweep computes every longest path length. */
  method CriticalPathLengths(order: seq<Id>, edges: seq<Edge>) returns (lengths: map<Id, nat>)
    requires TopologicalOrder(order, Elements(order), Arcs(edges))
    requires Within(Elements(order), Arcs(edges))
    ensures lengths.Keys == Elements(order)
    ensures LengthsFor(lengths, Elements(order), Arcs(edges))
  {
    var outgoing := BuildSuccessors(edges);
    ghost var arcs := Arcs(edges);
    lengths := map[];
    for k := |order| downto 0
      invariant lengths.Keys == Elements(order[k..])
      invariant LengthsFor(lengths, Elements(order[k..]), arcs)
    {
      var n := order[k];
      var targets := Successors(outgoing, n);
      assert order[k..] == [n] + order[k + 1..];
      forall t | t in targets
        ensures t in Elements(order[k + 1..])
      {
        assert (n, t) in arcs && t in Elements(order);
        var j :| 0 <= j < |order| && order[j] == t;
        assert (order[k], order[j]) in arcs;
        assert t == order[k + 1..][j - k - 1];
      }
      var best := LongestTarget(targets, lengths);
      LongestFromStep(n, arcs, targets, lengths, best);
      assert n !in Elements(order[k + 1..]);
      lengths := lengths[n := 1 + best];
    }
  }

  // ----- The selected path -----

  /** A path from a root that is as long as any path in the graph. */
  ghost predicate Critical(path: seq<Id>, nodes: set<Id>, arcs: set<Arc>)
  {
    && Path(path, arcs) && path[0] in nodes
    && (forall m :: m in nodes ==> (m, path[0]) !in arcs)
    && (forall p :: Path(p, arcs) && p[0] in nodes ==> |p| <= |path|)
  }

  /** `p` is no later than `q` in the order by ids: a prefix of it, or smaller where the two
      first differ. */
  ghost predicate Ahead(p: seq<Id>, q: seq<Id>)
  {
    p <= q || exists i :: Earlier(p, q, i)
  }

  ghost predicate Earlier(p: seq<Id>, q: seq<Id>, i: int)
  {
    0 <= i < |p| && i < |q| && p[..i] == q[..i] && Before(p[i], q[i])
  }

  /** Of all critical paths the first by ids. */
  ghost predicate LeastCritical(path: seq<Id>, nodes: set<Id>, arcs: set<Arc>)
  {
    && Critical(path, nodes, arcs)
    && forall q :: Critical(q, nodes, arcs) ==> Ahead(path, q)
  }

  /** There is only one such path, so the selection depends on the node and arc sets alone. */
  lemma LeastCriticalUnique(p: seq<Id>, q: seq<Id>, nodes: set<Id>, arcs: set<Arc>)
    requires LeastCritical(p, nodes, arcs) && LeastCritical(q, nodes, arcs)
    ensures p == q
  {
    assert |p| == |q| && Ahead(p, q) && Ahead(q, p);
    if i :| Earlier(p, q, i) {
      forall j
        ensures !Earlier(q, p, j)
      {
        EarlierAsymmetric(p, q, i, j);
      }
    }
  }

  lemma EarlierAsymmetric(p: seq<Id>, q: seq<Id>, i: int, j: int)
    requires Earlier(p, q, i)
    ensures !Earlier(q, p, j)
  {
    if 0 <= j < |q| && j < |p| && q[..j] == p[..j] {
      if i == j {
        if Before(q[j], p[j]) { BeforeTransitive(p[i], q[i], p[i]); }
      } else if i < j {
        assert q[..j][i] == p[..j][i];
      } else {
        assert q[..i][j] == p[..i][j];
      }
      BeforeIrreflexive(p[i]);
      BeforeIrreflexive(p[j]);
    }
  }

  /** The best root: longest first, ties by id. */
  method BestRoot(roots: set<Id>, lengths: map<Id, nat>) returns (best: Id)
    requires roots != {} && roots <= lengths.Keys
    ensures best in roots
    ensures forall r :: r in roots && r != best ==>
              lengths[r] < lengths[best] || (lengths[r] == lengths[best] && Before(best, r))
  {
    best :| best in roots;
    var rest := roots - {best};
    while rest != {}
      invariant rest <= roots && best in roots && best !in rest
      invariant forall r :: r in roots && r !in rest && r != best ==>
                  lengths[r] < lengths[best] || (lengths[r] == lengths[best] && Before(best, r))
    {
      var r :| r in rest;
      rest := rest - {r};
      BeforeTotal(best, r);
      if lengths[r] > lengths[best] || (lengths[r] == lengths[best] && Before(r, best)) {
        forall q | q in roots && q !in rest && q != r && lengths[q] == lengths[r]
          ensures Before(r, q)
        {
          if q != best { BeforeTransitive(r, best, q); }
        }
        best := r;
      }
    }
  }

  /** Every path extends backwards to a root without getting shorter. */
  lemma {:induction false} RootAbove(nodes: set<Id>, arcs: set<Arc>, p: seq<Id>, roots: set<Id>) returns (q: seq<Id>)
    requires Within(nodes, arcs) && Stuck(nodes, arcs) == {} && Path(p, arcs) && p[0] in nodes
    requires forall n :: n in roots <==> n in nodes && forall m :: m in nodes ==> (m, n) !in arcs
    ensures Path(q, arcs) && q[0] in roots && |q| >= |p|
  {
    LayersCover(nodes, arcs, p[0]);
    var i: int :| InLayer(Layers(nodes, arcs), i, p[0]);
    var front := PathThroughLayers(nodes, arcs, i, p[0]);
    if |front| == 1 {
      q := p;
      assert front[0] == p[0];
    } else {
      assert (front[|front| - 2], front[|front| - 2 + 1]) in arcs;
      SubPath(front, arcs, 0, |front| - 1);
      q := front[0..|front| - 1] + p;
      PathJoin(front[0..|front| - 1], p, arcs);
    }
    RootOfFront(nodes, arcs, front, i);
    assert q[0] == front[0];
  }

  /** A path with one node per layer starts in the first layer. */
  lemma RootOfFront(nodes: set<Id>, arcs: set<Arc>, front: seq<Id>, i: nat)
    requires Within(nodes, arcs) && Stuck(nodes, arcs) == {}
    requires Path(front, arcs) && |front| == i + 1 && InLayer(Layers(nodes, arcs), i, front[i])
    ensures front[0] in nodes && forall m :: m in nodes ==> (m, front[0]) !in arcs
  {
    LayersDisjoint(nodes, arcs, i, front[i]);
    if |front| > 1 { assert (front[0], front[0 + 1]) in arcs; }
    forall m | m in nodes
      ensures (m, front[0]) !in arcs
    {
      if (m, front[0]) in arcs {
        PathJoin([m], front, arcs);
        var p := [m] + front;
        assert p[|p| - 1] == front[i];
        PathBound(nodes, arcs, p, i);
      }
    }
  }

  /** `select_critical_path`: from the best root, follow successors whose length is one
      less, smallest id first. The early exit of the source is never taken. */
  method SelectCriticalPath(order: seq<Id>, edges: seq<Edge>, lengths: map<Id, nat>) returns (path: seq<Id>)
    requires TopologicalOrder(order, Elements(order), Arcs(edges))
    requires Within(Elements(order), Arcs(edges)) && Acyclic(Arcs(edges))
    requires LengthsFor(lengths, Elements(order), Arcs(edges))
    ensures order == [] <==> path == []
    ensures order != [] ==> LeastCritical(path, Elements(order), Arcs(edges))
  {
    if order == [] {
      return [];
    }
    ghost var arcs, nodes := Arcs(edges), Elements(order);
    var outgoing := BuildSuccessors(edges);
    var fed := set e | e in edges :: e.target;
    var roots := set n | n in order && n !in fed;
    RootsAre(order, edges, roots, fed);
    assert order[0] in nodes;
    StuckIffCycle(nodes, arcs);
    ghost var q := RootAbove(nodes, arcs, [order[0]], roots);
    var root := BestRoot(roots, lengths);
    path := FollowLongest(root, outgoing, lengths, nodes, edges);
    BestRootIsLongest(nodes, arcs, roots, root, lengths);
    forall p | Critical(p, nodes, arcs)
      ensures Ahead(path, p)
    {
      BestRootLeads(path, p, nodes, arcs, roots, root, lengths);
    }
  }

  /** A critical path from another root comes later, because the best root has the least id. */
  lemma BestRootLeads(path: seq<Id>, p: seq<Id>, nodes: set<Id>, arcs: set<Arc>, roots: set<Id>, root: Id, lengths: map<Id, nat>)
    requires Critical(p, nodes, arcs) && Critical(path, nodes, arcs) && LengthsFor(lengths, nodes, arcs)
    requires forall n :: n in roots <==> n in nodes && forall m :: m in nodes ==> (m, n) !in arcs
    requires root in roots && path[0] == root && |path| == lengths[root] && LeadsFrom(path, root, arcs)
    requires forall r :: r in roots && r != root ==>
               lengths[r] < lengths[root] || (lengths[r] == lengths[root] && Before(root, r))
    ensures Ahead(path, p)
  {
    if p[0] != root {
      assert p[0] in roots && LongestFrom(p[0], arcs, lengths[p[0]]);
      assert Earlier(path, p, 0);
    }
  }

  /** No path anywhere is longer than the length of the best root. */
  lemma BestRootIsLongest(nodes: set<Id>, arcs: set<Arc>, roots: set<Id>, root: Id, lengths: map<Id, nat>)
    requires Within(nodes, arcs) && Stuck(nodes, arcs) == {} && LengthsFor(lengths, nodes, arcs)
    requires forall n :: n in roots <==> n in nodes && forall m :: m in nodes ==> (m, n) !in arcs
    requires root in roots && forall r :: r in roots ==> lengths[r] <= lengths[root]
    ensures forall p :: Path(p, arcs) && p[0] in nodes ==> |p| <= lengths[root]
  {
    forall p | Path(p, arcs) && p[0] in nodes
      ensures |p| <= lengths[root]
    {
      var q := RootAbove(nodes, arcs, p, roots);
      assert |q| <= lengths[q[0]];
    }
  }

  /** The path is ahead of every path of the same start and length. */
  ghost predicate LeadsFrom(path: seq<Id>, root: Id, arcs: set<Arc>)
  {
    forall q :: Path(q, arcs) && q[0] == root && |q| == |path| ==> Ahead(path, q)
  }

  /** So far: ahead of every longest path from the root. */
  ghost predicate LeadsLongest(path: seq<Id>, root: Id, arcs: set<Arc>, length: nat)
  {
    forall q :: Path(q, arcs) && q[0] == root && |q| == length ==> Ahead(path, q)
  }

  /** Along a longest path the remaining lengths fall by one. */
  lemma LongestSuffix(q: seq<Id>, k: nat, nodes: set<Id>, arcs: set<Arc>, lengths: map<Id, nat>)
    requires Within(nodes, arcs) && LengthsFor(lengths, nodes, arcs)
    requires Path(q, arcs) && q[0] in nodes && |q| == lengths[q[0]] && 0 < k < |q|
    ensures (q[k - 1], q[k]) in arcs && q[k] in nodes && lengths[q[k]] == |q| - k
  {
    assert (q[k - 1], q[k - 1 + 1]) in arcs;
    SubPath(q, arcs, 0, k);
    SubPath(q, arcs, k, |q|);
    assert q[k..|q|][0] == q[k] && LongestFrom(q[k], arcs, lengths[q[k]]);
    var r :| Path(r, arcs) && r[0] == q[k] && |r| == lengths[q[k]];
    PathJoin(q[0..k], r, arcs);
    assert (q[0..k] + r)[0] == q[0] && LongestFrom(q[0], arcs, lengths[q[0]]);
  }

  /** The least candidate keeps the path ahead. */
  lemma LeadStep(path: seq<Id>, next: Id, candidates: set<Id>, root: Id, nodes: set<Id>, arcs: set<Arc>, lengths: map<Id, nat>)
    requires Within(nodes, arcs) && LengthsFor(lengths, nodes, arcs) && root in nodes
    requires path != [] && |path| < lengths[root] && LeadsLongest(path, root, arcs, lengths[root])
    requires path[|path| - 1] in nodes && lengths[path[|path| - 1]] == lengths[root] + 1 - |path|
    requires forall t :: t in candidates <==>
               (path[|path| - 1], t) in arcs && t in lengths && lengths[t] == lengths[path[|path| - 1]] - 1
    requires next in candidates && forall t :: t in candidates && t != next ==> Before(next, t)
    ensures LeadsLongest(path + [next], root, arcs, lengths[root])
  {
    var k := |path|;
    forall q | Path(q, arcs) && q[0] == root && |q| == lengths[root]
      ensures Ahead(path + [next], q)
    {
      assert Ahead(path, q);
      if path <= q {
        LongestSuffix(q, k, nodes, arcs, lengths);
        assert q[k - 1] == path[k - 1];
        assert q[..k] == path == (path + [next])[..k];
        if q[k] == next {
          assert q[..k + 1] == path + [next];
        } else {
          assert Earlier(path + [next], q, k);
        }
      } else {
        var i :| Earlier(path, q, i);
        assert (path + [next])[..i] == path[..i];
        assert Earlier(path + [next], q, i);
      }
    }
  }

  /** The walk: each step takes a successor whose length is one less. */
  method FollowLongest(root: Id, outgoing: map<Id, set<Id>>, lengths: map<Id, nat>,
                       ghost nodes: set<Id>, ghost edges: seq<Edge>)
    returns (path: seq<Id>)
    requires Within(nodes, Arcs(edges)) && root in nodes && LengthsFor(lengths, nodes, Arcs(edges))
    requires forall n, t :: t in Successors(outgoing, n) <==> (n, t) in Arcs(edges)
    ensures Path(path, Arcs(edges)) && path[0] == root && |path| == lengths[root]
    ensures LeadsFrom(path, root, Arcs(edges))
  {
    ghost var arcs := Arcs(edges);
    var current := root;
    path := [current];
    LongestFromUnique(current, arcs, lengths[current], lengths[current]);
    while lengths[current] > 1
      invariant current in nodes && lengths[current] >= 1
      invariant Path(path, arcs) && path[|path| - 1] == current
      invariant path[0] == root && |path| + lengths[current] == lengths[root] + 1
      invariant LeadsLongest(path, root, arcs, lengths[root])
      decreases lengths[current]
    {
      var candidates := set t | t in Successors(outgoing, current) && t in lengths && lengths[t] == lengths[current] - 1;
      ghost var shorter := Candidate(nodes, arcs, current, lengths);
      assert shorter in candidates;
      var next := Least(candidates);
      assert (current, next) in arcs;
      PathJoin(path, [next], arcs);
      LeadStep(path, next, candidates, root, nodes, arcs, lengths);
      path := path + [next];
      current := next;
    }
  }

  lemma RootsAre(order: seq<Id>, edges: seq<Edge>, roots: set<Id>, fed: set<Id>)
    requires Within(Elements(order), Arcs(edges))
    requires fed == set e | e in edges :: e.target
    requires roots == set n | n in order && n !in fed
    ensures forall n :: n in roots <==>
              n in Elements(order) && forall m :: m in Elements(order) ==> (m, n) !in Arcs(edges)
  {
    forall n | n in Elements(order) && n in fed
      ensures exists m :: m in Elements(order) && (m, n) in Arcs(edges)
    {
      var e :| e in edges && e.target == n;
      assert (e.source, n) in Arcs(edges);
    }
  }

  lemma Candidate(nodes: set<Id>, arcs: set<Arc>, n: Id, lengths: map<Id, nat>) returns (t: Id)
    requires Within(nodes, arcs) && n in nodes && LengthsFor(lengths, nodes, arcs) && lengths[n] > 1
    ensures (n, t) in arcs && t in nodes && lengths[t] == lengths[n] - 1
  {
    var p :| Path(p, arcs) && p[0] == n && |p| == lengths[n];
    t := p[1];
    assert (p[0], p[0 + 1]) in arcs;
    SubPath(p, arcs, 1, |p|);
    assert p[1..|p|][0] == t;
    var q :| Path(q, arcs) && q[0] == t && |q| == lengths[t];
    PathJoin([n], q, arcs);
    assert ([n] + q)[0] == n;
  }

  /** A critical path has one node in every layer, so the number of layers is the length of
      a longest path. */
  lemma CriticalPathMeetsEachLayerOnce(path: seq<Id>, nodes: set<Id>, arcs: set<Arc>)
    requires Within(nodes, arcs) && Acyclic(arcs) && Critical(path, nodes, arcs)
    ensures |path| == |Layers(nodes, arcs)|
    ensures forall i :: 0 <= i < |path| ==> InLayer(Layers(nodes, arcs), i, path[i])
    ensures forall i, j :: 0 <= i < |path| && InLayer(Layers(nodes, arcs), j, path[i]) ==> i == j
  {
    var layers := Layers(nodes, arcs);
    StuckIffCycle(nodes, arcs);
    var rank := LayerRanking(nodes, arcs);
    LayersNonEmpty(nodes, arcs);
    var last := |layers| - 1;
    assert InLayer(layers, rank[path[0]], path[0]);
    assert layers[last] != {};
    var n :| n in layers[last];
    assert InLayer(layers, last, n);
    var p := PathThroughLayers(nodes, arcs, last, n);
    LayersDisjoint(nodes, arcs, last, n);
    PathStaysWithin(p, nodes, arcs);
    forall i | 0 <= i < |path|
      ensures path[i] in nodes
    {
      if i > 0 { assert (path[i - 1], path[i - 1 + 1]) in arcs; }
    }
    assert path[|path| - 1] in nodes;
    PathClimbs(nodes, arcs, rank, path);
    forall i | 0 <= i < |path|
      ensures rank[path[i]] == i
    {
      SubPath(path, arcs, 0, i + 1);
      SubPath(path, arcs, i, |path|);
      PathClimbs(nodes, arcs, rank, path[0..i + 1]);
      PathClimbs(nodes, arcs, rank, path[i..|path|]);
      assert InLayer(layers, rank[path[|path| - 1]], path[|path| - 1]);
    }
    forall i, j | 0 <= i < |path| && InLayer(layers, j, path[i])
      ensures i == j
    {
      LayersDisjoint(nodes, arcs, j, path[i]);
      assert InLayer(layers, rank[path[i]], path[i]);
    }
  }
}
