/** Reachability along arcs, and the worklist closure that computes it
    (src/comfyng/graph/compiler.py:1037-1053). */
module Reachability {
  import opened Ids
  import opened Layering
  import opened CriticalPath

  /** A path, possibly of one node, from `m` to `n`. */
  ghost predicate Leads(m: Id, n: Id, arcs: set<Arc>)
  {
    exists p :: Joins(p, m, n, arcs)
  }

  ghost predicate Joins(p: seq<Id>, m: Id, n: Id, arcs: set<Arc>)
  {
    Path(p, arcs) && p[0] == m && p[|p| - 1] == n
  }

  /** A path of at least one arc. */
  ghost predicate Below(m: Id, n: Id, arcs: set<Arc>)
  {
    exists t :: (m, t) in arcs && Leads(t, n, arcs)
  }

  lemma LeadsSelf(n: Id, arcs: set<Arc>)
    ensures Leads(n, n, arcs)
  {
    assert Joins([n], n, n, arcs);
  }

  lemma LeadsThrough(a: Id, b: Id, c: Id, arcs: set<Arc>)
    requires Leads(a, b, arcs) && Leads(b, c, arcs)
    ensures Leads(a, c, arcs)
  {
    var p :| Joins(p, a, b, arcs);
    var q :| Joins(q, b, c, arcs);
    var r := p + q[1..];
    assert forall i :: |p| <= i < |r| ==> r[i] == q[i - |p| + 1];
    forall i | 0 <= i < |r| - 1
      ensures (r[i], r[i + 1]) in arcs
    {
      if i < |p| - 1 {
        assert (p[i], p[i + 1]) in arcs;
      } else {
        assert (q[i - |p| + 1], q[i - |p| + 1 + 1]) in arcs;
      }
    }
    assert Joins(r, a, c, arcs);
  }

  lemma LeadsArc(a: Id, b: Id, arcs: set<Arc>)
    requires (a, b) in arcs
    ensures Leads(a, b, arcs)
  {
    assert Joins([a, b], a, b, arcs);
  }

  /** Either no arc at all, or a first arc and the rest. */
  lemma LeadsFirst(a: Id, c: Id, arcs: set<Arc>)
    requires Leads(a, c, arcs)
    ensures a == c || Below(a, c, arcs)
  {
    var p :| Joins(p, a, c, arcs);
    if |p| > 1 {
      assert (p[0], p[0 + 1]) in arcs;
      assert forall i :: 0 <= i < |p| - 2 ==> (p[1..][i], p[1..][i + 1]) == (p[i + 1], p[i + 1 + 1]);
      assert Joins(p[1..], p[1], c, arcs);
    }
  }

  lemma LeadsLast(a: Id, c: Id, arcs: set<Arc>) returns (b: Id)
    requires Leads(a, c, arcs)
    ensures a == c || (Leads(a, b, arcs) && (b, c) in arcs)
  {
    var p :| Joins(p, a, c, arcs);
    b := a;
    if |p| > 1 {
      b := p[|p| - 2];
      assert (p[|p| - 2], p[|p| - 2 + 1]) in arcs;
      assert Joins(p[..|p| - 1], a, b, arcs);
    }
  }

  lemma NoWayBack(a: Id, b: Id, arcs: set<Arc>)
    requires Acyclic(arcs) && (a, b) in arcs
    ensures !Leads(b, a, arcs)
  {
    if Leads(b, a, arcs) {
      var p :| Joins(p, b, a, arcs);
      var q := [a] + p;
      forall i | 0 <= i < |q| - 1
        ensures (q[i], q[i + 1]) in arcs
      {
        if i > 0 { assert (p[i - 1], p[i - 1 + 1]) in arcs; }
      }
      assert Cycle(q, arcs);
    }
  }

  // ----- Reversed arcs -----

  ghost function Flip(arcs: set<Arc>): set<Arc>
  {
    set a | a in arcs :: (a.1, a.0)
  }

  lemma InFlip(a: Id, b: Id, arcs: set<Arc>)
    ensures (a, b) in Flip(arcs) <==> (b, a) in arcs
  {
    if (b, a) in arcs {
      var c := (b, a);
      assert (c.1, c.0) in Flip(arcs);
    }
  }

  lemma {:induction false} FlippedPath(p: seq<Id>, m: Id, n: Id, arcs: set<Arc>)
    requires Joins(p, m, n, arcs)
    ensures Leads(n, m, Flip(arcs))
    decreases |p|
  {
    if |p| == 1 {
      LeadsSelf(m, Flip(arcs));
    } else {
      var front := p[..|p| - 1];
      var k := p[|p| - 2];
      assert Joins(front, m, k, arcs);
      FlippedPath(front, m, k, arcs);
      assert (p[|p| - 2], p[|p| - 2 + 1]) in arcs;
      InFlip(n, k, arcs);
      LeadsArc(n, k, Flip(arcs));
      LeadsThrough(n, k, m, Flip(arcs));
    }
  }

  lemma FlipTwice(arcs: set<Arc>)
    ensures Flip(Flip(arcs)) == arcs
  {
    forall a: Id, b: Id
      ensures (a, b) in Flip(Flip(arcs)) <==> (a, b) in arcs
    {
      InFlip(a, b, Flip(arcs));
      InFlip(b, a, arcs);
    }
  }

  lemma LeadsFlip(m: Id, n: Id, arcs: set<Arc>)
    ensures Leads(m, n, arcs) <==> Leads(n, m, Flip(arcs))
  {
    if Leads(m, n, arcs) {
      var p :| Joins(p, m, n, arcs);
      FlippedPath(p, m, n, arcs);
    }
    if Leads(n, m, Flip(arcs)) {
      var p :| Joins(p, n, m, Flip(arcs));
      FlippedPath(p, n, m, Flip(arcs));
      FlipTwice(arcs);
    }
  }

  // ----- The worklist closure -----

  ghost predicate Describes(table: map<Id, set<Id>>, arcs: set<Arc>)
  {
    forall n, t :: t in Successors(table, n) <==> (n, t) in arcs
  }

  ghost predicate Found(start: set<Id>, n: Id, arcs: set<Arc>)
  {
    exists s :: s in start && Leads(s, n, arcs)
  }

  lemma {:induction false} ClosedHoldsPaths(visited: set<Id>, p: seq<Id>, m: Id, n: Id, arcs: set<Arc>)
    requires Joins(p, m, n, arcs) && m in visited && forall a, b :: a in visited && (a, b) in arcs ==> b in visited
    ensures n in visited
    decreases |p|
  {
    if |p| > 1 {
      assert (p[|p| - 2], p[|p| - 2 + 1]) in arcs;
      assert Joins(p[..|p| - 1], m, p[|p| - 2], arcs);
      ClosedHoldsPaths(visited, p[..|p| - 1], m, p[|p| - 2], arcs);
    }
  }

  /** The worklist invariant: everything seen is reachable, every arc out of a visited node
      is visited or waiting. */
  ghost predicate Exploring(visited: set<Id>, pending: seq<Id>, start: set<Id>, arcs: set<Arc>)
  {
    && (forall n :: n in visited || n in pending ==> Found(start, n, arcs))
    && (forall n :: n in start ==> n in visited || n in pending)
    && (forall a, b :: a in visited && (a, b) in arcs ==> b in visited || b in pending)
  }

  lemma ExploreStep(visited: set<Id>, pending: seq<Id>, start: set<Id>, arcs: set<Arc>, more: seq<Id>)
    requires pending != [] && Exploring(visited, pending, start, arcs) && pending[0] !in visited
    requires forall t :: t in more <==> (pending[0], t) in arcs && t !in visited + {pending[0]}
    ensures Exploring(visited + {pending[0]}, more + pending[1..], start, arcs)
  {
    var n := pending[0];
    forall t | t in more
      ensures Found(start, t, arcs)
    {
      var s :| s in start && Leads(s, n, arcs);
      LeadsArc(n, t, arcs);
      LeadsThrough(s, n, t, arcs);
    }
    assert forall t :: t in pending ==> t == n || t in pending[1..];
  }

  lemma SkipStep(visited: set<Id>, pending: seq<Id>, start: set<Id>, arcs: set<Arc>)
    requires pending != [] && Exploring(visited, pending, start, arcs) && pending[0] in visited
    ensures Exploring(visited, pending[1..], start, arcs)
  {
    assert forall t :: t in pending ==> t == pending[0] || t in pending[1..];
  }

  lemma ExploredAll(visited: set<Id>, start: set<Id>, arcs: set<Arc>)
    requires Exploring(visited, [], start, arcs)
    ensures forall n :: n in visited <==> Found(start, n, arcs)
  {
    forall n | Found(start, n, arcs)
      ensures n in visited
    {
      var s :| s in start && Leads(s, n, arcs);
      var p :| Joins(p, s, n, arcs);
      ClosedHoldsPaths(visited, p, s, n, arcs);
    }
  }

  /** `_closure`: exactly the nodes some start node leads to. */
  method Closure(start: set<Id>, adjacency: map<Id, set<Id>>, ghost arcs: set<Arc>) returns (visited: set<Id>)
    requires Describes(adjacency, arcs)
    ensures forall n :: n in visited <==> Found(start, n, arcs)
  {
    visited := {};
    var pending := SortSet(start);
    assert forall n :: n in pending <==> n in Elements(pending);
    ghost var all := start + set a | a in arcs :: a.1;
    StartExploring(pending, start, arcs);
    while pending != []
      invariant Exploring(visited, pending, start, arcs) && visited <= all
      invariant forall n :: n in pending ==> n in all
      decreases |all - visited|, |pending|
    {
      var n := pending[0];
      if n in visited {
        SkipStep(visited, pending, start, arcs);
        pending := pending[1..];
        continue;
      }
      var unseen := set t | t in Successors(adjacency, n) && t !in visited + {n};
      var more := SortSet(unseen);
      assert forall t :: t in more <==> t in Elements(more);
      ExploreStep(visited, pending, start, arcs, more);
      FewerLeft(all, visited, n);
      forall t | t in more
        ensures t in all
      {
        assert (n, t) in arcs;
      }
      visited := visited + {n};
      pending := more + pending[1..];
    }
    ExploredAll(visited, start, arcs);
  }

  lemma StartExploring(pending: seq<Id>, start: set<Id>, arcs: set<Arc>)
    requires Elements(pending) == start
    ensures Exploring({}, pending, start, arcs)
  {
    forall n | n in pending
      ensures Found(start, n, arcs)
    {
      assert n in Elements(pending);
      LeadsSelf(n, arcs);
    }
    forall n | n in start ensures n in pending { assert n in Elements(pending); }
  }

  lemma FewerLeft(all: set<Id>, visited: set<Id>, n: Id)
    requires n in all && n !in visited
    ensures |all - (visited + {n})| < |all - visited|
  {
    assert all - visited == (all - (visited + {n})) + {n};
  }

  /** Closing over reversed arcs finds the nodes that lead to a start node. */
  method Origins(start: set<Id>, incoming: map<Id, set<Id>>, ghost arcs: set<Arc>) returns (visited: set<Id>)
    requires Describes(incoming, Flip(arcs))
    ensures forall n :: n in visited <==> LeadsInto(n, start, arcs)
  {
    visited := Closure(start, incoming, Flip(arcs));
    forall n
      ensures n in visited <==> LeadsInto(n, start, arcs)
    {
      FoundIsOrigin(start, n, arcs);
    }
  }

  ghost predicate LeadsInto(n: Id, start: set<Id>, arcs: set<Arc>)
  {
    exists s :: s in start && Leads(n, s, arcs)
  }

  lemma FoundIsOrigin(start: set<Id>, n: Id, arcs: set<Arc>)
    ensures Found(start, n, Flip(arcs)) <==> LeadsInto(n, start, arcs)
  {
    forall s
      ensures Leads(s, n, Flip(arcs)) <==> Leads(n, s, arcs)
    {
      LeadsFlip(n, s, arcs);
    }
  }
}
