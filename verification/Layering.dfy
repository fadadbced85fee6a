/** The mathematics behind Kahn layering: layers as a function of a node set and an arc
    set, independent of the order in which nodes and edges are stored. */
module Layering {
  import opened Ids

  type Arc = (Id, Id)

  ghost predicate Within(nodes: set<Id>, arcs: set<Arc>)
  {
    forall a :: a in arcs ==> a.0 in nodes && a.1 in nodes
  }

  /** A non-empty directed path, written as the nodes it visits. */
  ghost predicate Path(p: seq<Id>, arcs: set<Arc>)
  {
    |p| >= 1 && forall i :: 0 <= i < |p| - 1 ==> (p[i], p[i + 1]) in arcs
  }

  ghost predicate Cycle(p: seq<Id>, arcs: set<Arc>)
  {
    Path(p, arcs) && |p| >= 2 && p[0] == p[|p| - 1]
  }

  ghost predicate Acyclic(arcs: set<Arc>)
  {
    forall p :: !Cycle(p, arcs)
  }

  /** The nodes of `rest` that no node of `rest` feeds: Kahn's ready set. */
  ghost function Ready(rest: set<Id>, arcs: set<Arc>): set<Id>
  {
    set n | n in rest && forall m :: m in rest ==> (m, n) !in arcs
  }

  ghost function Layers(rest: set<Id>, arcs: set<Arc>): (layers: seq<set<Id>>)
    decreases rest
  {
    var ready := Ready(rest, arcs);
    if ready == {} then [] else [ready] + Layers(rest - ready, arcs)
  }

  /** What Kahn's loop never reaches. */
  ghost function Stuck(rest: set<Id>, arcs: set<Arc>): (left: set<Id>)
    ensures left <= rest
    decreases rest
  {
    var ready := Ready(rest, arcs);
    if ready == {} then rest else Stuck(rest - ready, arcs)
  }

  ghost predicate InLayer(layers: seq<set<Id>>, i: int, n: Id)
  {
    0 <= i < |layers| && n in layers[i]
  }

  /** The layer a node lies in. */
  ghost function LayerOf(layers: seq<set<Id>>, n: Id): (i: nat)
    requires exists i :: InLayer(layers, i, n)
    ensures InLayer(layers, i, n)
  {
    var i :| InLayer(layers, i, n);
    i
  }

  lemma InLayersCons(first: set<Id>, tail: seq<set<Id>>, i: int, n: Id)
    ensures InLayer([first] + tail, i, n) <==> (i == 0 && n in first) || InLayer(tail, i - 1, n)
  {
  }

  /** A laid-out node is not stuck, and lies in no second layer. */
  lemma {:induction false} LayersDisjoint(rest: set<Id>, arcs: set<Arc>, i: int, n: Id)
    requires InLayer(Layers(rest, arcs), i, n)
    ensures n in rest && n !in Stuck(rest, arcs)
    ensures forall j :: InLayer(Layers(rest, arcs), j, n) ==> i == j
    decreases rest
  {
    var ready := Ready(rest, arcs);
    var tail := Layers(rest - ready, arcs);
    assert Layers(rest, arcs) == [ready] + tail;
    InLayersCons(ready, tail, i, n);
    if i > 0 {
      LayersDisjoint(rest - ready, arcs, i - 1, n);
    }
    forall j | InLayer(Layers(rest, arcs), j, n)
      ensures i == j
    {
      InLayersCons(ready, tail, j, n);
      if i == 0 && j > 0 {
        LayersDisjoint(rest - ready, arcs, j - 1, n);
      }
    }
  }

  /** A node that is not stuck has a layer. */
  lemma {:induction false} LayersCover(rest: set<Id>, arcs: set<Arc>, n: Id)
    requires n in rest && n !in Stuck(rest, arcs)
    ensures exists i :: InLayer(Layers(rest, arcs), i, n)
    decreases rest
  {
    var ready := Ready(rest, arcs);
    var tail := Layers(rest - ready, arcs);
    assert Layers(rest, arcs) == [ready] + tail;
    if n in ready {
      InLayersCons(ready, tail, 0, n);
    } else {
      LayersCover(rest - ready, arcs, n);
      var i :| InLayer(tail, i, n);
      InLayersCons(ready, tail, i + 1, n);
    }
  }

  lemma {:induction false} LayersNonEmpty(rest: set<Id>, arcs: set<Arc>)
    ensures forall i :: 0 <= i < |Layers(rest, arcs)| ==> Layers(rest, arcs)[i] != {}
    decreases rest
  {
    var ready := Ready(rest, arcs);
    if ready != {} {
      var tail := Layers(rest - ready, arcs);
      LayersNonEmpty(rest - ready, arcs);
      assert Layers(rest, arcs) == [ready] + tail;
      assert forall i :: 0 < i < |Layers(rest, arcs)| ==> Layers(rest, arcs)[i] == tail[i - 1];
    }
  }

  /** Sources lie in earlier layers. */
  lemma {:induction false} SourceLayer(rest: set<Id>, arcs: set<Arc>, i: int, m: Id, n: Id)
    requires InLayer(Layers(rest, arcs), i, n) && m in rest && (m, n) in arcs
    ensures exists j :: 0 <= j < i && InLayer(Layers(rest, arcs), j, m)
    decreases rest
  {
    var ready := Ready(rest, arcs);
    var tail := Layers(rest - ready, arcs);
    assert Layers(rest, arcs) == [ready] + tail;
    InLayersCons(ready, tail, i, n);
    assert i > 0;
    if m in ready {
      InLayersCons(ready, tail, 0, m);
    } else {
      SourceLayer(rest - ready, arcs, i - 1, m, n);
      var j :| 0 <= j < i - 1 && InLayer(tail, j, m);
      InLayersCons(ready, tail, j + 1, m);
    }
  }

  /** A node outside the first layer has a source in the layer just before its own. */
  lemma {:induction false} FedByPreviousLayer(rest: set<Id>, arcs: set<Arc>, i: int, n: Id) returns (m: Id)
    requires InLayer(Layers(rest, arcs), i, n) && i > 0
    ensures InLayer(Layers(rest, arcs), i - 1, m) && (m, n) in arcs
    decreases rest
  {
    var ready := Ready(rest, arcs);
    var tail := Layers(rest - ready, arcs);
    assert Layers(rest, arcs) == [ready] + tail;
    InLayersCons(ready, tail, i, n);
    if i > 1 {
      m := FedByPreviousLayer(rest - ready, arcs, i - 1, n);
    } else {
      LayersDisjoint(rest - ready, arcs, 0, n);
      assert n !in ready;
      m :| m in rest && (m, n) in arcs;
      assert n in Ready(rest - ready, arcs);
    }
    InLayersCons(ready, tail, i - 1, m);
  }

  lemma {:induction false} StuckIsStuck(rest: set<Id>, arcs: set<Arc>)
    ensures Ready(Stuck(rest, arcs), arcs) == {}
    decreases rest
  {
    var ready := Ready(rest, arcs);
    if ready != {} {
      StuckIsStuck(rest - ready, arcs);
    }
  }

  /** A set closed under "has a source inside" is never peeled. */
  lemma {:induction false} FedSetStaysStuck(rest: set<Id>, arcs: set<Arc>, fed: set<Id>)
    requires fed <= rest
    requires forall n :: n in fed ==> exists m :: m in fed && (m, n) in arcs
    ensures fed <= Stuck(rest, arcs)
    decreases rest
  {
    var ready := Ready(rest, arcs);
    assert fed !! ready;
    if ready != {} {
      FedSetStaysStuck(rest - ready, arcs, fed);
    }
  }

  lemma {:induction false} Pigeonhole(p: seq<Id>, s: set<Id>) returns (i: nat, j: nat)
    requires |p| > |s| && forall k :: 0 <= k < |p| ==> p[k] in s
    ensures i < j < |p| && p[i] == p[j]
    decreases |p|
  {
    if k :| 1 <= k < |p| && p[k] == p[0] {
      i, j := 0, k;
    } else {
      forall k | 0 <= k < |p| - 1
        ensures p[1..][k] in s - {p[0]}
      {
        assert p[1..][k] == p[k + 1];
      }
      i, j := Pigeonhole(p[1..], s - {p[0]});
      i, j := i + 1, j + 1;
    }
  }

  /** Walking backwards inside a stuck set, as far as one likes. */
  lemma {:induction false} BackwardWalk(s: set<Id>, arcs: set<Arc>, n: Id, length: nat) returns (p: seq<Id>)
    requires Ready(s, arcs) == {} && n in s && length >= 1
    ensures |p| == length && Path(p, arcs) && p[length - 1] == n
    ensures forall k :: 0 <= k < length ==> p[k] in s
    decreases length
  {
    if length == 1 {
      p := [n];
    } else {
      assert n !in Ready(s, arcs);
      var m :| m in s && (m, n) in arcs;
      var q := BackwardWalk(s, arcs, m, length - 1);
      p := q + [n];
      PathJoin(q, [n], arcs);
    }
  }

  lemma SubPath(p: seq<Id>, arcs: set<Arc>, i: nat, j: nat)
    requires Path(p, arcs) && i < j <= |p|
    ensures Path(p[i..j], arcs)
  {
    var q := p[i..j];
    forall k | 0 <= k < |q| - 1
      ensures (q[k], q[k + 1]) in arcs
    {
      assert q[k] == p[i + k] && q[k + 1] == p[i + k + 1];
    }
  }

  lemma PathJoin(p: seq<Id>, q: seq<Id>, arcs: set<Arc>)
    requires Path(p, arcs) && Path(q, arcs) && (p[|p| - 1], q[0]) in arcs
    ensures Path(p + q, arcs)
  {
  }

  /** A cycle that ends by reaching `n`: the shape of what a cycle error lists. */
  ghost predicate BelowCycle(n: Id, arcs: set<Arc>)
  {
    exists c, p :: Cycle(c, arcs) && Path(p, arcs) && p[0] == c[0] && p[|p| - 1] == n
  }

  lemma StuckHasCycle(rest: set<Id>, arcs: set<Arc>, n: Id)
    requires n in Stuck(rest, arcs)
    ensures BelowCycle(n, arcs)
  {
    var s := Stuck(rest, arcs);
    StuckIsStuck(rest, arcs);
    var p := BackwardWalk(s, arcs, n, |s| + 1);
    var i, j := Pigeonhole(p, s);
    SubPath(p, arcs, i, j + 1);
    SubPath(p, arcs, i, |p|);
    var c, q := p[i..j + 1], p[i..];
    assert p[i..|p|] == q;
    assert Cycle(c, arcs) && Path(q, arcs) && q[0] == c[0] && q[|q| - 1] == n;
  }

  /** Conversely whatever a cycle feeds is stuck, so the two descriptions coincide. */
  lemma CycleIsStuck(nodes: set<Id>, arcs: set<Arc>, n: Id)
    requires Within(nodes, arcs) && BelowCycle(n, arcs)
    ensures n in Stuck(nodes, arcs)
  {
    var c, p :| Cycle(c, arcs) && Path(p, arcs) && p[0] == c[0] && p[|p| - 1] == n;
    var fed := Elements(c) + Elements(p);
    assert (c[0], c[1]) in arcs;
    assert n in fed;
    forall x | x in fed
      ensures x in nodes && exists m :: m in fed && (m, x) in arcs
    {
      if x in Elements(c) {
        var k :| 0 <= k < |c| && c[k] == x;
        var i := if k == 0 then |c| - 2 else k - 1;
        assert (c[i], c[i + 1]) in arcs && c[i + 1] == x;
        assert c[i] in fed;
      } else {
        var k :| 0 <= k < |p| && p[k] == x;
        assert p[0] in Elements(c);
        assert (p[k - 1], p[k]) in arcs;
        assert p[k - 1] in fed;
      }
    }
    FedSetStaysStuck(nodes, arcs, fed);
  }

  /** Kahn fails exactly when there is a directed cycle. */
  lemma StuckIffCycle(nodes: set<Id>, arcs: set<Arc>)
    requires Within(nodes, arcs)
    ensures Acyclic(arcs) <==> Stuck(nodes, arcs) == {}
  {
    if n :| n in Stuck(nodes, arcs) {
      StuckHasCycle(nodes, arcs, n);
    }
    if !Acyclic(arcs) {
      var c :| Cycle(c, arcs);
      assert Path(c[..1], arcs) && c[..1][0] == c[0] && c[..1][|c[..1]| - 1] == c[0];
      CycleIsStuck(nodes, arcs, c[0]);
    }
  }

  /** The layer of a node is the number of arcs on a longest path that ends there. */
  ghost predicate LongestEndingAt(n: Id, arcs: set<Arc>, length: nat)
  {
    && (exists p :: Path(p, arcs) && p[|p| - 1] == n && |p| == length)
    && (forall p :: Path(p, arcs) && p[|p| - 1] == n ==> |p| <= length)
  }

  lemma {:induction false} PathStaysWithin(p: seq<Id>, nodes: set<Id>, arcs: set<Arc>)
    requires Path(p, arcs) && Within(nodes, arcs) && p[|p| - 1] in nodes
    ensures forall k :: 0 <= k < |p| ==> p[k] in nodes
  {
    forall k | 0 <= k < |p|
      ensures p[k] in nodes
    {
      if k < |p| - 1 { assert (p[k], p[k + 1]) in arcs; }
    }
  }

  lemma {:induction false} PathBound(nodes: set<Id>, arcs: set<Arc>, p: seq<Id>, i: int)
    requires Within(nodes, arcs) && Path(p, arcs)
    requires InLayer(Layers(nodes, arcs), i, p[|p| - 1])
    ensures |p| <= i + 1
    decreases |p|
  {
    if |p| > 1 {
      var n, m := p[|p| - 1], p[|p| - 2];
      assert (p[|p| - 2], p[|p| - 2 + 1]) in arcs;
      SourceLayer(nodes, arcs, i, m, n);
      var j :| 0 <= j < i && InLayer(Layers(nodes, arcs), j, m);
      SubPath(p, arcs, 0, |p| - 1);
      PathBound(nodes, arcs, p[0..|p| - 1], j);
    }
  }

  lemma {:induction false} PathThroughLayers(nodes: set<Id>, arcs: set<Arc>, i: nat, n: Id) returns (p: seq<Id>)
    requires InLayer(Layers(nodes, arcs), i, n)
    ensures Path(p, arcs) && p[|p| - 1] == n && |p| == i + 1
  {
    if i == 0 {
      p := [n];
    } else {
      var m := FedByPreviousLayer(nodes, arcs, i, n);
      var q := PathThroughLayers(nodes, arcs, i - 1, m);
      PathJoin(q, [n], arcs);
      p := q + [n];
    }
  }

  lemma LayerIsLongestDistance(nodes: set<Id>, arcs: set<Arc>, i: nat, n: Id)
    requires Within(nodes, arcs) && InLayer(Layers(nodes, arcs), i, n)
    ensures LongestEndingAt(n, arcs, i + 1)
  {
    var q := PathThroughLayers(nodes, arcs, i, n);
    forall p | Path(p, arcs) && p[|p| - 1] == n
      ensures |p| <= i + 1
    {
      PathBound(nodes, arcs, p, i);
    }
  }

  /** Any assignment of numbers that grows along arcs. */
  ghost predicate Ranking(rank: map<Id, nat>, nodes: set<Id>, arcs: set<Arc>)
  {
    && nodes <= rank.Keys
    && forall a :: a in arcs && a.0 in nodes && a.1 in nodes ==> rank[a.0] < rank[a.1]
  }

  /** Layering is the least ranking: no ranking places a node below its layer. */
  lemma {:induction false} LayersAreLeastRanking(nodes: set<Id>, arcs: set<Arc>, rank: map<Id, nat>, i: nat, n: Id)
    requires Ranking(rank, nodes, arcs) && InLayer(Layers(nodes, arcs), i, n)
    ensures n in nodes && i <= rank[n]
  {
    LayersDisjoint(nodes, arcs, i, n);
    if i > 0 {
      var m := FedByPreviousLayer(nodes, arcs, i, n);
      LayersAreLeastRanking(nodes, arcs, rank, i - 1, m);
    }
  }

  /** A ranking rules out stuck nodes, so it certifies acyclicity. */
  lemma RankedIsAcyclic(nodes: set<Id>, arcs: set<Arc>, rank: map<Id, nat>)
    requires Within(nodes, arcs) && Ranking(rank, nodes, arcs)
    ensures Acyclic(arcs) && Stuck(nodes, arcs) == {}
  {
    forall p
      ensures !Cycle(p, arcs)
    {
      if Cycle(p, arcs) {
        assert (p[|p| - 2], p[|p| - 2 + 1]) in arcs;
        PathClimbs(nodes, arcs, rank, p);
      }
    }
    StuckIffCycle(nodes, arcs);
  }

  lemma {:induction false} PathClimbs(nodes: set<Id>, arcs: set<Arc>, rank: map<Id, nat>, p: seq<Id>)
    requires Within(nodes, arcs) && Ranking(rank, nodes, arcs)
    requires Path(p, arcs) && p[|p| - 1] in nodes
    ensures p[0] in nodes && rank[p[0]] + |p| - 1 <= rank[p[|p| - 1]]
    decreases |p|
  {
    if |p| > 1 {
      assert (p[|p| - 2], p[|p| - 2 + 1]) in arcs;
      SubPath(p, arcs, 0, |p| - 1);
      PathClimbs(nodes, arcs, rank, p[0..|p| - 1]);
    }
  }

  /** The layer indexes themselves form a ranking of an acyclic graph. */
  lemma LayerRanking(nodes: set<Id>, arcs: set<Arc>) returns (rank: map<Id, nat>)
    requires Stuck(nodes, arcs) == {}
    ensures Ranking(rank, nodes, arcs) && rank.Keys == nodes
    ensures forall n :: n in nodes ==> InLayer(Layers(nodes, arcs), rank[n], n)
  {
    var layers := Layers(nodes, arcs);
    forall n | n in nodes
      ensures exists i :: InLayer(layers, i, n)
    {
      LayersCover(nodes, arcs, n);
    }
    rank := map n | n in nodes :: LayerOf(layers, n);
    forall a | a in arcs && a.0 in nodes && a.1 in nodes
      ensures rank[a.0] < rank[a.1]
    {
      SourceLayer(nodes, arcs, rank[a.1], a.0, a.1);
      var j :| 0 <= j < rank[a.1] && InLayer(layers, j, a.0);
      LayersDisjoint(nodes, arcs, rank[a.0], a.0);
    }
  }

  /** A duplicate-free listing of the nodes in which every arc points forwards. */
  ghost predicate TopologicalOrder(order: seq<Id>, nodes: set<Id>, arcs: set<Arc>)
  {
    && Distinct(order) && Elements(order) == nodes
    && forall i, j :: 0 <= i < |order| && 0 <= j < |order| && (order[i], order[j]) in arcs ==> i < j
  }
}
