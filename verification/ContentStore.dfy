/** The store's operations one at a time: blobs, reference manifests, the collector's sweep,
    and the re-entrant lock table of a thread (src/comfyng/storage/cas.py:120-345,
    src/comfyng/storage/gc.py:28-64, src/comfyng/storage/locks.py:38-82). */
module ContentStore {
  import opened Graphs
  import opened StoreProtocol

  datatype Blob = Blob(size: nat, modified: real)

  datatype AddResult = Added | NoDigests | MissingBlobs(missing: set<Digest>) | Conflict

  datatype Report = Report(deleted: seq<Digest>, reclaimed: nat, dry: bool)

  /** Every manifest is non-empty and covered by blobs. */
  ghost predicate Covered(blobs: map<Digest, Blob>, refs: map<RefId, Manifest>)
  {
    forall id :: id in refs ==> refs[id].digests != {} && refs[id].digests <= blobs.Keys
  }

  function ReferencesTo(refs: map<RefId, Manifest>, d: Digest): set<RefId>
  {
    set id | id in refs && d in refs[id].digests
  }

  /** What a collection removes: blobs that are old enough and that no manifest names. */
  function Garbage(blobs: map<Digest, Blob>, refs: map<RefId, Manifest>, cutoff: real): set<Digest>
  {
    set d | d in blobs && blobs[d].modified <= cutoff && ReferencesTo(refs, d) == {}
  }

  function TotalSize(blobs: map<Digest, Blob>, digests: seq<Digest>): nat
    requires forall d :: d in digests ==> d in blobs
  {
    if digests == [] then 0 else TotalSize(blobs, digests[..|digests| - 1]) + blobs[digests[|digests| - 1]].size
  }

  lemma TotalSizeGrows(blobs: map<Digest, Blob>, digests: seq<Digest>, d: Digest)
    requires d in blobs && forall e :: e in digests ==> e in blobs
    ensures TotalSize(blobs, digests + [d]) == TotalSize(blobs, digests) + blobs[d].size
  {
    assert (digests + [d])[..|digests|] == digests;
  }

  /** A collection leaves no garbage behind, so repeating it does nothing. */
  lemma CollectionIsComplete(blobs: map<Digest, Blob>, refs: map<RefId, Manifest>, cutoff: real)
    ensures Garbage(blobs - Garbage(blobs, refs, cutoff), refs, cutoff) == {}
    ensures Covered(blobs, refs) ==> Covered(blobs - Garbage(blobs, refs, cutoff), refs)
  {
    forall id, d | Covered(blobs, refs) && id in refs && d in refs[id].digests
      ensures d !in Garbage(blobs, refs, cutoff)
    {
      assert id in ReferencesTo(refs, d);
    }
  }

  function Reclaims(listing: seq<Digest>): (ops: seq<Op>)
    ensures |ops| == |listing| && forall i :: 0 <= i < |ops| ==> ops[i] == Reclaim(listing[i])
  {
    seq(|listing|, i requires 0 <= i < |listing| => Reclaim(listing[i]))
  }

  /** A collection is a sequence of legal single deletions of the interleaved store. */
  lemma {:induction false} CollectionReclaims(c: Contents, listing: seq<Digest>)
    requires forall d, id :: d in listing && id in c.refs ==> d !in c.refs[id].digests
    ensures AllLegal(c, Reclaims(listing))
    ensures Effects(c, Reclaims(listing)) == Contents(c.blobs - (set d | d in listing), c.refs)
  {
    if listing == [] {
      assert c.blobs - (set d | d in listing) == c.blobs;
    } else {
      var init, last := listing[..|listing| - 1], listing[|listing| - 1];
      assert listing == init + [last];
      assert forall d :: d in init ==> d in listing;
      CollectionReclaims(c, init);
      var ops := Reclaims(listing);
      assert |ops| > 0 && ops[..|ops| - 1] == Reclaims(init) && ops[|ops| - 1] == Reclaim(last);
      assert last in listing && Legal(Effects(c, Reclaims(init)), Reclaim(last));
      assert AllLegal(c, ops);
      RemovedInTurn(c.blobs, init, last);
      assert Effects(c, ops) == Effect(Effects(c, Reclaims(init)), Reclaim(last));
    }
  }

  lemma RemovedInTurn(blobs: set<Digest>, init: seq<Digest>, last: Digest)
    ensures blobs - (set d | d in init + [last]) == blobs - (set d | d in init) - {last}
  {
    assert forall d :: d in init + [last] <==> d in init || d == last;
  }

  lemma AscendingGrows(s: seq<Digest>, d: Digest)
    requires Ascending(s) && forall e :: e in s ==> e < d
    ensures Ascending(s + [d])
  {
    forall i | 0 <= i < |s| ensures s[i] < d { assert s[i] in s; }
  }

  /** The least element. */
  method Smallest(digests: set<Digest>) returns (d: Digest)
    requires digests != {}
    ensures d in digests && forall e :: e in digests ==> d <= e
  {
    d :| d in digests;
    var rest := digests;
    while rest != {}
      invariant rest <= digests && d in digests && forall e :: e in digests && e !in rest ==> d <= e
    {
      var e :| e in rest;
      rest := rest - {e};
      if e < d { d := e; }
    }
  }

  class CAS {
    var blobs: map<Digest, Blob>
    var refs: map<RefId, Manifest>

    ghost predicate Valid()
      reads this
    {
      Covered(blobs, refs)
    }

    /** The contents, as the interleaved store has them. */
    ghost function Held(): Contents
      reads this
    {
      Contents(blobs.Keys, refs)
    }

    constructor ()
      ensures Valid() && blobs == map[] && refs == map[]
    {
      blobs, refs := map[], map[];
    }

    /** `put`: a blob that is already there stays as it is. */
    method Put(d: Digest, size: nat, now: real)
      requires Valid()
      modifies this
      ensures Valid() && refs == old(refs) && Held() == Effect(old(Held()), Publish(d))
      ensures blobs == if d in old(blobs) then old(blobs) else old(blobs)[d := Blob(size, now)]
    {
      if d !in blobs { blobs := blobs[d := Blob(size, now)]; }
    }

    /** `add_reference`: write-once, accepting only an identical retry, and only over present blobs. */
    method AddReference(id: RefId, manifest: Manifest) returns (r: AddResult)
      requires Valid()
      modifies this
      ensures Valid() && blobs == old(blobs)
      ensures r == if manifest.digests == {} then NoDigests
                   else if !(manifest.digests <= blobs.Keys) then MissingBlobs(manifest.digests - blobs.Keys)
                   else if id in old(refs) && old(refs)[id] != manifest then Conflict else Added
      ensures r.Added? && id !in old(refs) <==> Legal(old(Held()), Refer(id, manifest))
      ensures refs == if r.Added? then old(refs)[id := manifest] else old(refs)
    {
      if manifest.digests == {} { return NoDigests; }
      var missing := set d | d in manifest.digests && d !in blobs;
      assert missing == manifest.digests - blobs.Keys;
      if missing != {} { return MissingBlobs(missing); }
      forall d | d in manifest.digests ensures d in blobs { assert d !in missing; }
      if id in refs {
        assert refs[id] == manifest ==> refs[id := manifest] == refs;
        return if refs[id] == manifest then Added else Conflict;
      }
      refs := refs[id := manifest];
      r := Added;
    }

    /** `remove_reference`. */
    method RemoveReference(id: RefId) returns (removed: bool)
      requires Valid()
      modifies this
      ensures Valid() && blobs == old(blobs) && removed == (id in old(refs)) && refs == old(refs) - {id}
      ensures Held() == Effect(old(Held()), Unrefer(id))
    {
      removed := id in refs;
      refs := refs - {id};
    }

    /** `references_for`: one pass over all manifests. */
    method ReferencesFor(d: Digest) returns (ids: set<RefId>)
      ensures ids == ReferencesTo(refs, d)
    {
      ids := {};
      var rest := refs.Keys;
      while rest != {}
        invariant rest <= refs.Keys && ids == set id | id in refs && id !in rest && d in refs[id].digests
      {
        var id :| id in rest;
        rest := rest - {id};
        if d in refs[id].digests { ids := ids + {id}; }
      }
    }

    /** `collect`: reports, in order, exactly the garbage and its size, and unless it is a dry
        run deletes exactly that. */
    method Collect(cutoff: real, dry: bool) returns (report: Report)
      requires Valid()
      modifies this
      ensures Valid() && refs == old(refs)
      ensures Lists(report.deleted, Garbage(old(blobs), refs, cutoff)) && report.dry == dry
      ensures report.reclaimed == TotalSize(old(blobs), report.deleted)
      ensures blobs == if dry then old(blobs) else old(blobs) - Garbage(old(blobs), refs, cutoff)
      ensures forall d :: d in report.deleted <==>
                d in old(blobs) && old(blobs)[d].modified <= cutoff && forall id :: id in refs ==> d !in refs[id].digests
    {
      hide Covered, Garbage, Lists;
      ghost var before := blobs;
      ghost var garbage := Garbage(blobs, refs, cutoff);
      var deleted: seq<Digest> := [];
      var reclaimed: nat := 0;
      var rest := blobs.Keys;
      CollectionIsComplete(blobs, refs, cutoff);
      StartSweeping(before, refs, cutoff);
      while rest != {}
        invariant refs == old(refs)
        invariant Sweeping(before, garbage, rest, deleted, reclaimed)
        invariant blobs == if dry then before else before - (garbage - rest)
      {
        var d := Smallest(rest);
        assert d in blobs && blobs[d] == before[d];
        IsGarbage(before, refs, cutoff, d);
        KeepBlob(before, garbage, rest, deleted, reclaimed, d);
        if blobs[d].modified <= cutoff {
          var names := ReferencesFor(d);
          if names == {} {
            DropBlob(before, garbage, rest, deleted, reclaimed, d);
            OneLess(before, garbage, rest, d);
            deleted := deleted + [d];
            reclaimed := reclaimed + blobs[d].size;
            if !dry { blobs := blobs - {d}; }
          }
        }
        rest := rest - {d};
      }
      SweepDone(before, garbage, deleted, reclaimed);
      report := Report(deleted, reclaimed, dry);
      forall d
        ensures d in deleted <==> d in before && before[d].modified <= cutoff && forall id :: id in refs ==> d !in refs[id].digests
      {
        ListsMembers(deleted, garbage, d);
        GarbageIsUnnamed(before, refs, cutoff, d);
      }
    }
  }

  lemma ListsMembers(s: seq<Digest>, digests: set<Digest>, d: Digest)
    requires Lists(s, digests)
    ensures d in s <==> d in digests
  {
  }

  /** What has been found of the garbage outside `rest`, in order. */
  ghost predicate Sweeping(blobs: map<Digest, Blob>, garbage: set<Digest>, rest: set<Digest>, deleted: seq<Digest>, reclaimed: nat)
  {
    && rest <= blobs.Keys && Lists(deleted, garbage - rest)
    && (forall d, e :: d in deleted && e in rest ==> d < e)
    && (forall d :: d in deleted ==> d in blobs) && reclaimed == TotalSize(blobs, deleted)
  }

  lemma StartSweeping(blobs: map<Digest, Blob>, refs: map<RefId, Manifest>, cutoff: real)
    ensures Sweeping(blobs, Garbage(blobs, refs, cutoff), blobs.Keys, [], 0)
    ensures blobs - (Garbage(blobs, refs, cutoff) - blobs.Keys) == blobs
  {
  }

  lemma IsGarbage(blobs: map<Digest, Blob>, refs: map<RefId, Manifest>, cutoff: real, d: Digest)
    requires d in blobs
    ensures d in Garbage(blobs, refs, cutoff) <==> blobs[d].modified <= cutoff && ReferencesTo(refs, d) == {}
  {
  }

  lemma KeepBlob(blobs: map<Digest, Blob>, garbage: set<Digest>, rest: set<Digest>, deleted: seq<Digest>, reclaimed: nat, d: Digest)
    requires Sweeping(blobs, garbage, rest, deleted, reclaimed) && d in rest
    ensures d !in garbage ==> Sweeping(blobs, garbage, rest - {d}, deleted, reclaimed) && garbage - (rest - {d}) == garbage - rest
  {
    if d !in garbage { assert garbage - (rest - {d}) == garbage - rest; }
  }

  lemma DropBlob(blobs: map<Digest, Blob>, garbage: set<Digest>, rest: set<Digest>, deleted: seq<Digest>, reclaimed: nat, d: Digest)
    requires Sweeping(blobs, garbage, rest, deleted, reclaimed) && d in rest && d in garbage && forall e :: e in rest ==> d <= e
    ensures Sweeping(blobs, garbage, rest - {d}, deleted + [d], reclaimed + blobs[d].size)
  {
    hide TotalSize, Ascending;
    assert garbage - (rest - {d}) == (garbage - rest) + {d};
    TotalSizeGrows(blobs, deleted, d);
    AscendingGrows(deleted, d);
  }

  lemma OneLess(blobs: map<Digest, Blob>, garbage: set<Digest>, rest: set<Digest>, d: Digest)
    requires d in rest && d in garbage
    ensures blobs - (garbage - rest) - {d} == blobs - (garbage - (rest - {d}))
  {
  }

  /** Garbage is what is old enough and named by nobody. */
  lemma GarbageIsUnnamed(blobs: map<Digest, Blob>, refs: map<RefId, Manifest>, cutoff: real, d: Digest)
    ensures d in Garbage(blobs, refs, cutoff) <==>
            d in blobs && blobs[d].modified <= cutoff && forall id :: id in refs ==> d !in refs[id].digests
  {
    if d in blobs && ReferencesTo(refs, d) == {} {
      forall id | id in refs
        ensures d !in refs[id].digests
      {
        assert id !in ReferencesTo(refs, d);
      }
    }
  }

  lemma SweepDone(blobs: map<Digest, Blob>, garbage: set<Digest>, deleted: seq<Digest>, reclaimed: nat)
    requires Sweeping(blobs, garbage, {}, deleted, reclaimed)
    ensures Lists(deleted, garbage) && garbage - {} == garbage
  {
    assert garbage - {} == garbage;
  }

  // ----- The lock table of one thread -----

  function DepthOf(held: map<Digest, nat>, d: Digest): nat
  {
    if d in held then held[d] else 0
  }

  /** Nested holds per digest; the file lock is taken at the first and given back at the last. */
  class DigestLockPool {
    var held: map<Digest, nat>
    /** The file locks in the order in which they were taken. */
    ghost var taken: seq<Digest>

    ghost predicate Valid()
      reads this
    {
      forall d :: d in held ==> held[d] >= 1
    }

    constructor ()
      ensures Valid() && held == map[] && taken == []
    {
      held, taken := map[], [];
    }

    method Enter(d: Digest)
      requires Valid()
      modifies this
      ensures Valid() && held == old(held)[d := DepthOf(old(held), d) + 1]
      ensures taken == old(taken) + if d in old(held) then [] else [d]
    {
      if d in held {
        held := held[d := held[d] + 1];
      } else {
        held := held[d := 1];
        taken := taken + [d];
      }
    }

    method Exit(d: Digest)
      requires Valid() && d in held
      modifies this
      ensures Valid() && taken == old(taken)
      ensures held == if old(held)[d] == 1 then old(held) - {d} else old(held)[d := old(held)[d] - 1]
    {
      held := if held[d] == 1 then held - {d} else held[d := held[d] - 1];
    }

    /** `acquire_many`: one more hold on each digest; the file locks of those not held before are
        taken, in ascending order. */
    method AcquireMany(digests: set<Digest>) returns (order: seq<Digest>)
      requires Valid()
      modifies this
      ensures Valid() && Lists(order, digests)
      ensures forall d :: DepthOf(held, d) == DepthOf(old(held), d) + if d in digests then 1 else 0
      ensures exists more :: taken == old(taken) + more && Lists(more, digests - old(held).Keys)
    {
      order := [];
      ghost var more := [];
      var rest := digests;
      assert taken == old(taken) + [];
      while rest != {}
        invariant Valid() && rest <= digests && Lists(order, digests - rest)
        invariant forall d, e :: d in order && e in rest ==> d < e
        invariant forall d :: DepthOf(held, d) == DepthOf(old(held), d) + if d in digests && d !in rest then 1 else 0
        invariant taken == old(taken) + more && Lists(more, digests - rest - old(held).Keys)
      {
        var d := Smallest(rest);
        ghost var first := d !in held;
        assert DepthOf(held, d) == DepthOf(old(held), d);
        Enter(d);
        if first {
          assert old(taken) + more + [d] == old(taken) + (more + [d]);
          AscendingGrows(more, d);
          more := more + [d];
        } else {
          assert old(taken) + more + [] == old(taken) + more;
        }
        assert digests - (rest - {d}) == (digests - rest) + {d};
        assert digests - (rest - {d}) - old(held).Keys == (digests - rest - old(held).Keys) + if first then {d} else {};
        AscendingGrows(order, d);
        order := order + [d];
        rest := rest - {d};
      }
      assert digests - rest == digests;
    }

    /** Leaving in reverse gives back exactly one hold on each digest. */
    method ReleaseMany(order: seq<Digest>)
      requires Valid() && Ascending(order) && forall d :: d in order ==> d in held
      modifies this
      ensures Valid() && forall d :: DepthOf(held, d) == DepthOf(old(held), d) - if d in order then 1 else 0
    {
      var k := |order|;
      while k > 0
        invariant 0 <= k <= |order| && Valid()
        invariant forall d :: DepthOf(held, d) == DepthOf(old(held), d) - if d in order[k..] then 1 else 0
        invariant forall d :: d in order[..k] ==> d in held
      {
        k := k - 1;
        assert order[k] in order[..k + 1] && order[k..] == [order[k]] + order[k + 1..];
        assert forall i :: k < i < |order| ==> order[k] < order[i];
        assert order[k] !in order[k + 1..];
        Exit(order[k]);
        forall d | d in order[..k]
          ensures d in held
        {
          assert d in order[..k + 1] && d != order[k];
        }
      }
      assert order[0..] == order;
    }
  }
}
