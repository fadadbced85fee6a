/** Node identifiers and the total order that stands for `key=str`.

    A cloned node's identifier is the name-based identifier derived from the call, the
    child graph and the inner node (src/comfyng/graph/subgraphs.py:112-113); modelling it
    as a constructor makes the derivation collision-free. */
module Ids {

  datatype Id =
    | Base(n: nat)
    | Clone(call: Id, graph: nat, version: nat, inner: Id)

  /** The strict order used wherever the source sorts or minimises by `str(id)`. */
  predicate Before(a: Id, b: Id)
  {
    match a
    case Base(m) => b.Clone? || m < b.n
    case Clone(c, g, v, i) =>
      b.Clone? &&
      (Before(c, b.call) ||
       (c == b.call &&
        (g < b.graph ||
         (g == b.graph && (v < b.version || (v == b.version && Before(i, b.inner)))))))
  }

  lemma {:induction false} BeforeTotal(a: Id, b: Id)
    ensures Before(a, b) || a == b || Before(b, a)
  {
    if a.Clone? && b.Clone? {
      BeforeTotal(a.call, b.call);
      BeforeTotal(a.inner, b.inner);
    }
  }

  lemma {:induction false} BeforeIrreflexive(a: Id)
    ensures !Before(a, a)
  {
    if a.Clone? {
      BeforeIrreflexive(a.call);
      BeforeIrreflexive(a.inner);
    }
  }

  lemma {:induction false} BeforeTransitive(a: Id, b: Id, c: Id)
    requires Before(a, b) && Before(b, c)
    ensures Before(a, c)
  {
    if a.Clone? {
      if Before(a.call, b.call) && Before(b.call, c.call) {
        BeforeTransitive(a.call, b.call, c.call);
      }
      if Before(a.inner, b.inner) && Before(b.inner, c.inner) {
        BeforeTransitive(a.inner, b.inner, c.inner);
      }
    }
  }

  /** Strictly increasing, hence duplicate-free. */
  ghost predicate Ascending(s: seq<Id>)
  {
    forall i, j :: 0 <= i < j < |s| ==> Before(s[i], s[j])
  }

  ghost predicate Distinct<T>(s: seq<T>)
  {
    forall i, j :: 0 <= i < j < |s| ==> s[i] != s[j]
  }

  function Elements<T>(s: seq<T>): set<T>
  {
    set x | x in s
  }

  lemma AscendingDistinct(s: seq<Id>)
    requires Ascending(s)
    ensures Distinct(s)
  {
    forall i, j | 0 <= i < j < |s|
      ensures s[i] != s[j]
    {
      assert Before(s[i], s[j]);
      BeforeIrreflexive(s[i]);
    }
  }

  /** A set has only one ascending listing, so every sorted tuple in the source is a
      function of the set it sorts. */
  lemma {:induction false} SortedListingUnique(s: seq<Id>, t: seq<Id>)
    requires Ascending(s) && Ascending(t)
    requires Elements(s) == Elements(t)
    ensures s == t
  {
    assert s != [] ==> s[0] in Elements(s);
    assert t != [] ==> t[0] in Elements(t);
    if s != [] {
      HeadIsLeast(s, t);
      HeadIsLeast(t, s);
      assert s[0] == t[0] by {
        if s[0] != t[0] {
          BeforeTransitive(s[0], t[0], s[0]);
          BeforeIrreflexive(s[0]);
        }
      }
      TailElements(s);
      TailElements(t);
      SortedListingUnique(s[1..], t[1..]);
    }
  }

  lemma HeadIsLeast(s: seq<Id>, t: seq<Id>)
    requires Ascending(s) && s != [] && t != []
    requires Elements(t) <= Elements(s)
    ensures s[0] == t[0] || Before(s[0], t[0])
  {
    assert t[0] in Elements(t);
    var k :| 0 <= k < |s| && s[k] == t[0];
  }

  lemma TailElements(s: seq<Id>)
    requires Ascending(s) && s != []
    ensures Elements(s[1..]) == Elements(s) - {s[0]}
  {
    AscendingDistinct(s);
    forall x | x in Elements(s) - {s[0]}
      ensures x in Elements(s[1..])
    {
      var k :| 0 <= k < |s| && s[k] == x;
      assert s[1..][k - 1] == x;
    }
  }

  /** `sorted(values, key=str)` for duplicate-free values, as an insertion sort. */
  method Sort(values: seq<Id>) returns (sorted: seq<Id>)
    requires Distinct(values)
    ensures Ascending(sorted) && Elements(sorted) == Elements(values)
    ensures |sorted| == |values|
  {
    sorted := [];
    for k := 0 to |values|
      invariant Ascending(sorted) && |sorted| == k
      invariant Elements(sorted) == Elements(values[..k])
    {
      assert values[..k + 1] == values[..k] + [values[k]];
      assert values[k] !in Elements(values[..k]);
      sorted := Insert(sorted, values[k]);
    }
    assert values[..|values|] == values;
  }

  method Insert(s: seq<Id>, x: Id) returns (t: seq<Id>)
    requires Ascending(s) && x !in Elements(s)
    ensures Ascending(t) && Elements(t) == Elements(s) + {x}
    ensures |t| == |s| + 1
  {
    var k := 0;
    while k < |s| && Before(s[k], x)
      invariant 0 <= k <= |s|
      invariant forall i :: 0 <= i < k ==> Before(s[i], x)
    {
      k := k + 1;
    }
    t := s[..k] + [x] + s[k..];
    InsertedInOrder(s, k, x);
    InsertedElements(s, k, x);
  }

  lemma InsertedInOrder(s: seq<Id>, k: nat, x: Id)
    requires Ascending(s) && k <= |s| && x !in s && forall i :: 0 <= i < k ==> Before(s[i], x)
    requires k < |s| ==> !Before(s[k], x)
    ensures Ascending(s[..k] + [x] + s[k..])
  {
    if k < |s| {
      BeforeTotal(s[k], x);
      assert s[k] in s && Before(x, s[k]);
      forall j | k < j < |s|
        ensures Before(x, s[j])
      {
        BeforeTransitive(x, s[k], s[j]);
      }
    }
  }

  lemma InsertedElements(s: seq<Id>, k: nat, x: Id)
    requires k <= |s|
    ensures Elements(s[..k] + [x] + s[k..]) == Elements(s) + {x}
  {
    assert s == s[..k] + s[k..];
  }

  /** `min(values, key=str)`. */
  method Least(values: set<Id>) returns (least: Id)
    requires values != {}
    ensures least in values
    ensures forall x :: x in values && x != least ==> Before(least, x)
  {
    least :| least in values;
    var rest := values - {least};
    while rest != {}
      invariant rest <= values && least in values && least !in rest
      invariant forall x :: x in values && x !in rest && x != least ==> Before(least, x)
    {
      var x :| x in rest;
      rest := rest - {x};
      BeforeTotal(least, x);
      if Before(x, least) {
        forall y | y in values && y !in rest && y != x && y != least
          ensures Before(x, y)
        {
          BeforeTransitive(x, least, y);
        }
        least := x;
      }
    }
  }

  /** `sorted(values, key=str)` for a set. */
  method SortSet(values: set<Id>) returns (sorted: seq<Id>)
    ensures Ascending(sorted) && Elements(sorted) == values
  {
    sorted := [];
    var rest := values;
    while rest != {}
      invariant rest <= values && Ascending(sorted) && Elements(sorted) == values - rest
    {
      var x :| x in rest;
      sorted := Insert(sorted, x);
      rest := rest - {x};
    }
  }
}
