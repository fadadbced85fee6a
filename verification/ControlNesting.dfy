/** Which control region a control region is nested in, and how deep
    (src/comfyng/graph/compiler.py:1227-1311). */
module ControlNesting {
  import opened Ids
  import opened Graphs

  /** A region before it is nested: its controller and the steps it owns. */
  datatype Claim = Claim(controller: Id, members: set<Id>)

  ghost predicate Distinctly(claims: seq<Claim>)
  {
    forall i, j :: 0 <= i < j < |claims| ==> claims[i].controller != claims[j].controller
  }

  /** `claims[j]` owns the controller of another region `claims[i]`. */
  ghost predicate Owns(claims: seq<Claim>, j: int, i: int)
  {
    && 0 <= i < |claims| && 0 <= j < |claims| && claims[j].controller != claims[i].controller
    && claims[i].controller in claims[j].members
  }

  /** Smaller regions first; ties go to the earlier step. */
  predicate Tighter(claims: seq<Claim>, j: nat, k: nat)
    requires j < |claims| && k < |claims|
  {
    |claims[j].members| < |claims[k].members| || (|claims[j].members| == |claims[k].members| && j <= k)
  }

  /** The innermost owner, if there is an owner at all. */
  ghost predicate Innermost(claims: seq<Claim>, i: nat, parent: Option<nat>)
  {
    match parent
    case None => forall j :: !Owns(claims, j, i)
    case Some(j) => Owns(claims, j, i) && forall k :: Owns(claims, k, i) ==> Tighter(claims, j, k)
  }

  method ChooseParent(claims: seq<Claim>, i: nat) returns (parent: Option<nat>)
    requires i < |claims|
    ensures Innermost(claims, i, parent)
  {
    parent := None;
    for j := 0 to |claims|
      invariant parent.None? ==> forall k :: k < j ==> !Owns(claims, k, i)
      invariant parent.Some? ==> parent.value < j && Owns(claims, parent.value, i)
      invariant parent.Some? ==> forall k :: Owns(claims, k, i) && k < j ==> Tighter(claims, parent.value, k)
    {
      if claims[j].controller != claims[i].controller && claims[i].controller in claims[j].members {
        if parent.None? || !Tighter(claims, parent.value, j) {
          parent := Some(j);
        }
      }
    }
  }

  /** The parent table of all regions. */
  ghost predicate ParentsFor(claims: seq<Claim>, parent: map<Id, Option<Id>>)
  {
    && (forall c :: c in parent <==> exists i :: 0 <= i < |claims| && claims[i].controller == c)
    && forall i :: 0 <= i < |claims| ==> ParentFor(claims, i, parent)
  }

  ghost predicate ParentFor(claims: seq<Claim>, i: nat, parent: map<Id, Option<Id>>)
    requires i < |claims|
  {
    claims[i].controller in parent &&
    exists choice :: Innermost(claims, i, choice) && parent[claims[i].controller] == ControllerOf(claims, choice)
  }

  ghost function ControllerOf(claims: seq<Claim>, choice: Option<nat>): Option<Id>
  {
    if choice.Some? && choice.value < |claims| then Some(claims[choice.value].controller) else None
  }

  method Parents(claims: seq<Claim>) returns (parent: map<Id, Option<Id>>)
    requires Distinctly(claims)
    ensures ParentsFor(claims, parent) && ParentsKnown(parent)
  {
    parent := map[];
    for i := 0 to |claims|
      invariant forall c :: c in parent <==> exists k :: 0 <= k < i && claims[k].controller == c
      invariant forall k :: 0 <= k < i ==> ParentFor(claims, k, parent)
    {
      var choice := ChooseParent(claims, i);
      var above := if choice.Some? then Some(claims[choice.value].controller) else None;
      assert above == ControllerOf(claims, choice);
      ghost var before := parent;
      parent := parent[claims[i].controller := above];
      forall k | 0 <= k < i
        ensures ParentFor(claims, k, parent)
      {
        assert ParentFor(claims, k, before);
        var earlier :| Innermost(claims, k, earlier) && before[claims[k].controller] == ControllerOf(claims, earlier);
      }
    }
    forall c | c in parent && parent[c].Some?
      ensures parent[c].value in parent
    {
      var i :| 0 <= i < |claims| && claims[i].controller == c;
      assert ParentFor(claims, i, parent);
    }
  }

  // ----- Depths -----

  ghost predicate ParentsKnown(parent: map<Id, Option<Id>>)
  {
    forall c :: c in parent && parent[c].Some? ==> parent[c].value in parent
  }

  ghost predicate Ascent(p: seq<Id>, parent: map<Id, Option<Id>>)
  {
    && |p| >= 1 && (forall i :: 0 <= i < |p| ==> p[i] in parent)
    && forall i :: 0 <= i < |p| - 1 ==> parent[p[i]] == Some(p[i + 1])
  }

  ghost predicate Cyclic(parent: map<Id, Option<Id>>)
  {
    exists p :: Ascent(p, parent) && |p| >= 2 && p[0] == p[|p| - 1]
  }

  /** One more than the parent's depth, zero without a parent. */
  ghost predicate DepthOk(parent: map<Id, Option<Id>>, depths: map<Id, nat>, c: Id)
  {
    && c in parent && c in depths
    && (parent[c].None? ==> depths[c] == 0)
    && (parent[c].Some? ==> parent[c].value in depths && depths[c] == depths[parent[c].value] + 1)
  }

  /** The memo table while the controllers of `stack` are being resolved. */
  ghost predicate Memo(parent: map<Id, Option<Id>>, depths: map<Id, nat>, stack: seq<Id>, reported: bool)
  {
    && (forall c :: c in depths ==> c in parent)
    && (!reported ==> forall c :: c in depths ==> DepthOk(parent, depths, c) && c !in stack)
    && (reported ==> Cyclic(parent))
    && (forall c :: c in depths && c !in stack ==> (depths[c] == 0 <==> parent[c].None?))
  }

  lemma StackLoops(stack: seq<Id>, controller: Id, parent: map<Id, Option<Id>>)
    requires Ascent(stack + [controller], parent) && controller in stack
    ensures Cyclic(parent)
  {
    var full := stack + [controller];
    var i :| 0 <= i < |stack| && stack[i] == controller;
    var p := full[i..];
    forall k | 0 <= k < |p| - 1
      ensures parent[p[k]] == Some(p[k + 1])
    {
      assert parent[full[i + k]] == Some(full[i + k + 1]);
    }
    assert Ascent(p, parent);
  }

  lemma StoreDepth(parent: map<Id, Option<Id>>, depths: map<Id, nat>, stack: seq<Id>, reported: bool, c: Id, depth: nat)
    requires ParentsKnown(parent) && c in parent && Memo(parent, depths, stack + [c], reported)
    requires parent[c].None? ==> depth == 0
    requires parent[c].Some? ==> parent[c].value in depths && depth == depths[parent[c].value] + 1
    requires c !in stack
    ensures Memo(parent, depths[c := depth], stack, reported)
    ensures !reported ==> c !in depths
  {
    if !reported {
      assert c in stack + [c];
      var stored := depths[c := depth];
      forall k | k in stored
        ensures DepthOk(parent, stored, k)
      {
        if k != c {
          assert DepthOk(parent, depths, k);
        }
      }
    }
  }

  lemma Deeper(stack: seq<Id>, controller: Id, parent: map<Id, Option<Id>>)
    requires Ascent(stack + [controller], parent) && ParentsKnown(parent) && controller in parent && parent[controller].Some?
    ensures Ascent(stack + [controller] + [parent[controller].value], parent)
  {
    var p, q := stack + [controller], stack + [controller] + [parent[controller].value];
    forall i | 0 <= i < |q| - 1
      ensures parent[q[i]] == Some(q[i + 1])
    {
      if i < |p| - 1 { assert parent[p[i]] == Some(p[i + 1]); }
    }
  }

  /** `resolve_depth`: memoised, and a controller met again on the way up is reported. */
  method ResolveDepth(parent: map<Id, Option<Id>>, controller: Id, stack: seq<Id>, depths0: map<Id, nat>, reported0: bool)
    returns (depth: nat, depths: map<Id, nat>, reported: bool)
    requires ParentsKnown(parent) && Ascent(stack + [controller], parent) && Memo(parent, depths0, stack, reported0)
    ensures controller in depths && depths[controller] == depth && Memo(parent, depths, stack, reported)
    ensures depths0.Keys <= depths.Keys && (reported0 ==> reported)
    decreases parent.Keys - Elements(stack)
  {
    assert (stack + [controller])[|stack|] in parent;
    depths, reported := depths0, reported0;
    if controller in depths {
      depth := depths[controller];
      return;
    }
    if controller in stack {
      StackLoops(stack, controller, parent);
      reported := true;
      depths := depths[controller := 0];
      depth := 0;
      return;
    }
    if parent[controller].None? {
      MemoPush(parent, depths, stack, reported, controller);
      depth := 0;
    } else {
      Deeper(stack, controller, parent);
      assert controller in Elements(stack + [controller]) && Elements(stack) <= Elements(stack + [controller]);
      assert controller in parent.Keys - Elements(stack);
      var above;
      above, depths, reported := ResolveDepth(parent, parent[controller].value, stack + [controller], depths, reported);
      depth := above + 1;
    }
    StoreDepth(parent, depths, stack, reported, controller, depth);
    depths := depths[controller := depth];
  }

  lemma MemoPush(parent: map<Id, Option<Id>>, depths: map<Id, nat>, stack: seq<Id>, reported: bool, c: Id)
    requires Memo(parent, depths, stack, reported) && c !in depths
    ensures Memo(parent, depths, stack + [c], reported)
  {
    assert forall k :: k in stack + [c] <==> k in stack || k == c;
  }

  lemma {:induction false} DepthFalls(parent: map<Id, Option<Id>>, depths: map<Id, nat>, p: seq<Id>, i: nat)
    requires Ascent(p, parent) && i < |p| && forall c :: c in parent ==> DepthOk(parent, depths, c)
    ensures p[0] in depths && p[i] in depths && depths[p[0]] == depths[p[i]] + i
  {
    assert DepthOk(parent, depths, p[i]);
    if i > 0 {
      assert parent[p[i - 1]] == Some(p[i - 1 + 1]);
      DepthFalls(parent, depths, p, i - 1);
      assert DepthOk(parent, depths, p[i - 1]);
    }
  }

  /** Every controller gets a depth; an error is reported exactly when nesting is cyclic, and
      otherwise depths count the regions around. */
  method ResolveAll(parent: map<Id, Option<Id>>, order: seq<Id>) returns (depths: map<Id, nat>, reported: bool)
    requires ParentsKnown(parent) && Elements(order) == parent.Keys
    ensures depths.Keys == parent.Keys
    ensures reported <==> Cyclic(parent)
    ensures !reported ==> forall c :: c in parent ==> DepthOk(parent, depths, c)
    ensures forall c :: c in parent ==> (depths[c] == 0 <==> parent[c].None?)
  {
    depths, reported := map[], false;
    for k := 0 to |order|
      invariant Memo(parent, depths, [], reported)
      invariant forall j :: 0 <= j < k ==> order[j] in depths
    {
      assert order[k] in Elements(order);
      assert Ascent([] + [order[k]], parent);
      var depth;
      depth, depths, reported := ResolveDepth(parent, order[k], [], depths, reported);
    }
    forall c | c in parent
      ensures c in depths
    {
      assert c in Elements(order);
    }
    if !reported && Cyclic(parent) {
      var p :| Ascent(p, parent) && |p| >= 2 && p[0] == p[|p| - 1];
      DepthFalls(parent, depths, p, |p| - 1);
      assert false;
    }
  }

  // ----- Which claims nest in a circle -----

  /** Ties go to the earlier step, so there is only one innermost owner. */
  lemma InnermostUnique(claims: seq<Claim>, i: nat, a: Option<nat>, b: Option<nat>)
    requires Innermost(claims, i, a) && Innermost(claims, i, b)
    ensures a == b
  {
  }

  /** The parent table read off the claims. */
  lemma ParentIsInnermost(claims: seq<Claim>, parent: map<Id, Option<Id>>, i: nat, j: nat)
    requires Distinctly(claims) && ParentsFor(claims, parent) && i < |claims| && j < |claims|
    ensures claims[i].controller in parent
    ensures parent[claims[i].controller] == Some(claims[j].controller) <==> Innermost(claims, i, Some(j))
  {
    assert ParentFor(claims, i, parent);
    var choice: Option<nat> :| Innermost(claims, i, choice) && parent[claims[i].controller] == ControllerOf(claims, choice);
    if Innermost(claims, i, Some(j)) {
      InnermostUnique(claims, i, choice, Some(j));
    }
    if choice.Some? && choice.value != j {
      assert claims[choice.value].controller != claims[j].controller;
    }
  }

  /** Regions each of which is the innermost owner of the one before, back to the first. */
  ghost predicate Ring(claims: seq<Claim>, p: seq<nat>)
  {
    && |p| >= 2 && p[0] == p[|p| - 1] && (forall k :: 0 <= k < |p| ==> p[k] < |claims|)
    && forall k :: 0 <= k < |p| - 1 ==> Innermost(claims, p[k], Some(p[k + 1]))
  }

  lemma RingIsCyclic(claims: seq<Claim>, parent: map<Id, Option<Id>>, p: seq<nat>)
    requires Distinctly(claims) && ParentsFor(claims, parent) && Ring(claims, p)
    ensures Cyclic(parent)
  {
    var q := seq(|p|, k requires 0 <= k < |p| => claims[p[k]].controller);
    forall k | 0 <= k < |q| - 1
      ensures q[k] in parent && parent[q[k]] == Some(q[k + 1])
    {
      ParentIsInnermost(claims, parent, p[k], p[k + 1]);
    }
    ParentIsInnermost(claims, parent, p[|p| - 1], p[|p| - 1]);
    assert Ascent(q, parent);
  }

  lemma {:induction false} IndexesOf(claims: seq<Claim>, parent: map<Id, Option<Id>>, q: seq<Id>) returns (p: seq<nat>)
    requires ParentsFor(claims, parent) && forall k :: 0 <= k < |q| ==> q[k] in parent
    ensures |p| == |q| && forall k :: 0 <= k < |p| ==> p[k] < |claims| && claims[p[k]].controller == q[k]
    decreases |q|
  {
    if q == [] {
      p := [];
    } else {
      var init := IndexesOf(claims, parent, q[..|q| - 1]);
      assert q[|q| - 1] in parent;
      var i :| 0 <= i < |claims| && claims[i].controller == q[|q| - 1];
      p := init + [i];
    }
  }

  /** Nesting is reported exactly when some regions form such a ring. Owning one another's
      controllers is not enough: a smaller region may stand between. */
  lemma CyclicIffRing(claims: seq<Claim>, parent: map<Id, Option<Id>>)
    requires Distinctly(claims) && ParentsFor(claims, parent)
    ensures Cyclic(parent) <==> exists p :: Ring(claims, p)
  {
    if p :| Ring(claims, p) {
      RingIsCyclic(claims, parent, p);
    }
    if q :| Ascent(q, parent) && |q| >= 2 && q[0] == q[|q| - 1] {
      var p := IndexesOf(claims, parent, q);
      forall k | 0 <= k < |p| - 1
        ensures Innermost(claims, p[k], Some(p[k + 1]))
      {
        ParentIsInnermost(claims, parent, p[k], p[k + 1]);
      }
      assert claims[p[0]].controller == claims[p[|p| - 1]].controller;
      assert Ring(claims, p);
    }
  }

  /** Two regions become each other's parents exactly when each is the other's innermost owner. */
  lemma MutualParentsIff(claims: seq<Claim>, parent: map<Id, Option<Id>>, i: nat, j: nat)
    requires Distinctly(claims) && ParentsFor(claims, parent) && i < |claims| && j < |claims|
    ensures claims[i].controller in parent && claims[j].controller in parent
    ensures parent[claims[i].controller] == Some(claims[j].controller) && parent[claims[j].controller] == Some(claims[i].controller) <==>
            Innermost(claims, i, Some(j)) && Innermost(claims, j, Some(i))
    ensures Innermost(claims, i, Some(j)) && Innermost(claims, j, Some(i)) ==> Cyclic(parent)
  {
    ParentIsInnermost(claims, parent, i, j);
    ParentIsInnermost(claims, parent, j, i);
    if Innermost(claims, i, Some(j)) && Innermost(claims, j, Some(i)) {
      RingIsCyclic(claims, parent, [i, j, i]);
    }
  }

  /** Numbers that fall towards the parents rule a circle out. */
  lemma {:induction false} AscentFalls(parent: map<Id, Option<Id>>, rank: map<Id, nat>, p: seq<Id>)
    requires Ascent(p, parent) && parent.Keys <= rank.Keys
    requires forall c :: c in parent && parent[c].Some? ==> parent[c].value in rank && rank[parent[c].value] < rank[c]
    ensures rank[p[|p| - 1]] + |p| - 1 <= rank[p[0]]
    decreases |p|
  {
    assert p[0] in parent && p[|p| - 1] in parent;
    if |p| > 1 {
      assert Ascent(p[1..], parent);
      AscentFalls(parent, rank, p[1..]);
    }
  }

  lemma FallingIsNotCyclic(parent: map<Id, Option<Id>>, rank: map<Id, nat>)
    requires parent.Keys <= rank.Keys
    requires forall c :: c in parent && parent[c].Some? ==> parent[c].value in rank && rank[parent[c].value] < rank[c]
    ensures !Cyclic(parent)
  {
    forall p | Ascent(p, parent) && |p| >= 2
      ensures p[0] != p[|p| - 1]
    {
      AscentFalls(parent, rank, p);
    }
  }
}
