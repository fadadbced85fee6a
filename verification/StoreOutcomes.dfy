/** What each job of the interleaved store has done when it ends, and what it does before
    (src/comfyng/storage/cas.py:120-345, src/comfyng/storage/gc.py:32-64). */
module StoreOutcomes {
  import opened Graphs
  import opened StoreProtocol

  /** In this step the process finishes its work under locks. */
  ghost predicate Ends(s: Store, p: Pid, a: Act)
  {
    Enabled(s, p, a) && s.procs[p].pc.Working? && Do(s, p, a).procs[p].pc.Unlocking?
  }

  /** Contents and other processes are as they were. */
  ghost predicate SameContents(s: Store, t: Store, p: Pid)
  {
    t.blobs == s.blobs && t.refs == s.refs && t.procs.Keys == s.procs.Keys && forall q :: q in s.procs && q != p ==> t.procs[q] == s.procs[q]
  }

  /** A put ends with its blob in the store, whoever wrote it, and changes nothing else. */
  lemma PutStores(s: Store, p: Pid, a: Act, d: Digest)
    requires Inv(s) && Ends(s, p, a) && s.procs[p].pc.job == Put(d)
    ensures var t := Do(s, p, a); t.blobs == s.blobs + {d} && t.refs == s.refs && !t.procs[p].pc.aborted
  {
    KnownWork(s, p);
  }

  /** An addition fails exactly when a blob is missing or the name is taken by another manifest.
      Otherwise it ends with its manifest under its name. */
  lemma AddRefers(s: Store, p: Pid, a: Act, id: RefId, manifest: Manifest)
    requires Inv(s) && Ends(s, p, a) && s.procs[p].pc.job == Add(id, manifest)
    ensures var t := Do(s, p, a);
            && t.blobs == s.blobs && t.refs == (if t.procs[p].pc.aborted then s.refs else s.refs[id := manifest])
            && (t.procs[p].pc.aborted <==> !(manifest.digests <= s.blobs) || (id in s.refs && s.refs[id] != manifest))
  {
    KnownWork(s, p);
    var pc := s.procs[p].pc;
    if pc.body.AddLook? && pc.body.k < |pc.order| {
      assert pc.order[pc.body.k] in pc.order;
    }
  }

  /** A removal ends with its name free. */
  lemma RemoveFrees(s: Store, p: Pid, a: Act, id: RefId, stale: set<Digest>)
    requires Inv(s) && Ends(s, p, a) && s.procs[p].pc.job == Remove(id, stale)
    ensures var t := Do(s, p, a); t.blobs == s.blobs && t.refs == s.refs - {id} && !t.procs[p].pc.aborted
  {
    KnownWork(s, p);
  }

  /** A check removes its victim or nothing. It removes a blob only in a real run and only when no
      manifest names it, and leaves one only in a dry run, after a manifest that names it was
      read, or after a manifest vanished under the reader. */
  lemma CheckDecides(s: Store, p: Pid, a: Act, victim: Digest, rest: seq<Digest>, dry: bool)
    requires Inv(s) && Ends(s, p, a) && s.procs[p].pc.job == Check(victim, rest, dry)
    ensures var pc, t := s.procs[p].pc, Do(s, p, a);
            && t.refs == s.refs && (t.blobs == s.blobs || t.blobs == s.blobs - {victim})
            && (t.blobs != s.blobs ==> !dry && forall id :: id in s.refs ==> victim !in s.refs[id].digests)
            && (victim in t.blobs ==> dry || t.procs[p].pc.aborted || (pc.body.GcRead? && pc.body.found))
            && (t.procs[p].pc.aborted <==> a.ReadManifest? && a.id !in s.refs)
  {
    KnownWork(s, p);
  }

  lemma KnownWork(s: Store, p: Pid)
    requires Inv(s) && p in s.procs
    ensures Shaped(s.procs[p].pc) && Informed(s, s.procs[p].pc)
  {
  }

  /** Work that does not end leaves the contents alone and goes one stage further: a put writes
      only what is missing, an addition looks at one digest after the other, and a check reads
      every manifest there was at its start before it decides to delete. */
  lemma WorkGoesOn(s: Store, p: Pid, a: Act)
    requires Inv(s) && Enabled(s, p, a) && s.procs[p].pc.Working? && !Ends(s, p, a)
    ensures var pc, t := s.procs[p].pc, Do(s, p, a);
            var pc' := t.procs[p].pc;
            && SameContents(s, t, p) && pc'.Working? && pc'.job == pc.job && pc'.order == pc.order
            && (pc'.body.PutWrite? ==> pc.body.PutLook? && pc.job.d !in s.blobs)
            && (pc'.body.AddLook? ==> pc.body.AddLook? && pc'.body.k == pc.body.k + 1 && pc.body.k < |pc.order| && pc.order[pc.body.k] in s.blobs)
            && (pc'.body.AddPublish? ==> pc.body == AddLook(|pc.order|))
            && (pc'.body.GcRead? && pc.body.GcLook? ==> pc'.body == GcRead(s.refs.Keys, false) && pc.job.victim in s.blobs)
            && (pc'.body.GcRead? && !pc.body.GcLook? ==>
                  && pc.body.GcRead? && a.ReadManifest? && a.id in s.refs && pc'.body.unread == pc.body.unread - {a.id}
                  && (pc'.body.found <==> pc.body.found || pc.job.victim in s.refs[a.id].digests))
            && (pc'.body.GcDelete? ==> pc.body == GcRead({}, false) && !pc.job.dry)
            && !pc'.body.PutLook? && !pc'.body.RemoveUnlink? && !pc'.body.GcLook?
  {
    KnownWork(s, p);
  }

  // ----- A collection takes its listing in turn -----

  /** What a collection still has to check. */
  function ToCheck(pc: Pc): seq<Digest>
  {
    match pc
    case Sweep(todo, _) => todo
    case Locking(Check(victim, rest, _), _, _, _) => [victim] + rest
    case Working(Check(victim, rest, _), _, _) => [victim] + rest
    case Unlocking(Check(_, rest, _), _, _, _, aborted) => if aborted then [] else rest
    case _ => []
  }

  /** A collection starts with all blobs in order, and drops one at a time: the first one, because
      it is too young or because its check has ended. It drops the others only when a manifest
      vanished under it. */
  lemma CollectionTakesTurns(s: Store, p: Pid, a: Act)
    requires Inv(s) && Enabled(s, p, a)
    ensures var pc, pc' := s.procs[p].pc, Do(s, p, a).procs[p].pc;
            if a.BeginCollect? then ToCheck(pc') == a.listing && (forall d :: d in a.listing <==> d in s.blobs)
            else if a.SkipYoung? || (Ends(s, p, a) && pc.job.Check? && !pc'.aborted) then ToCheck(pc) != [] && ToCheck(pc') == ToCheck(pc)[1..]
            else if Ends(s, p, a) && pc.job.Check? then ToCheck(pc') == []
            else ToCheck(pc') == ToCheck(pc)
  {
    KnownWork(s, p);
    var pc := s.procs[p].pc;
    if pc.Sweep? && pc.todo != [] {
      assert [pc.todo[0]] + pc.todo[1..] == pc.todo;
    }
    if (pc.Locking? || pc.Working?) && pc.job.Check? {
      assert ([pc.job.victim] + pc.job.rest)[1..] == pc.job.rest;
    }
  }

  /** Other processes' steps never move this one. */
  lemma OthersStay(s: Store, p: Pid, a: Act, q: Pid)
    requires Inv(s) && Enabled(s, p, a) && q in s.procs && q != p
    ensures q in Do(s, p, a).procs && Do(s, p, a).procs[q] == s.procs[q]
  {
  }
}
