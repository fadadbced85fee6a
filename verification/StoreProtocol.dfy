/** The content store as interleaved small steps of any number of processes: writers,
    reference holders and a garbage collector that reads manifests one by one
    (src/comfyng/storage/cas.py:120-345, src/comfyng/storage/gc.py:32-64,
    src/comfyng/storage/locks.py:30-82). */
module StoreProtocol {
  import opened Graphs

  type Digest = nat
  type RefId = nat
  type Pid = nat

  /** A write-once reference manifest. */
  datatype Manifest = Manifest(digests: set<Digest>, metadata: Json)

  /** What a process does under locks. A removal locks the digests it read beforehand, which
      need not be those of the manifest any more. */
  datatype Job =
    | Put(d: Digest)
    | Add(id: RefId, manifest: Manifest)
    | Remove(id: RefId, stale: set<Digest>)
    | Check(victim: Digest, rest: seq<Digest>, dry: bool)

  /** Where it stands between taking its locks and giving them back. */
  datatype Body =
    | PutLook
    | PutWrite
    | AddLook(k: nat)
    | AddPublish
    | RemoveUnlink
    | GcLook
    | GcRead(unread: set<RefId>, found: bool)
    | GcDelete

  /** `taken` digests are locked completely; with `half`, the thread lock of the next one is
      held but not its file lock. Locks are given back in reverse, file lock first. */
  datatype Pc =
    | Idle
    | Sweep(todo: seq<Digest>, dry: bool)
    | Locking(job: Job, order: seq<Digest>, taken: nat, half: bool)
    | Working(job: Job, order: seq<Digest>, body: Body)
    | Unlocking(job: Job, order: seq<Digest>, taken: nat, half: bool, aborted: bool)

  /** A thread of an operating system process. */
  datatype Proc = Proc(os: nat, pc: Pc)

  datatype Store = Store(blobs: set<Digest>, refs: map<RefId, Manifest>, procs: map<Pid, Proc>)

  datatype Act =
    | BeginPut(d: Digest)
    | BeginAdd(id: RefId, manifest: Manifest, sorted: seq<Digest>)
    | BeginRemove(id: RefId, sorted: seq<Digest>)
    | BeginCollect(listing: seq<Digest>, dry: bool)
    | SkipYoung
    | ReadManifest(id: RefId)
    | Go

  // ----- Locks -----

  ghost predicate Ascending(s: seq<Digest>)
  {
    forall i, j :: 0 <= i < j < |s| ==> s[i] < s[j]
  }

  /** The sorted listing of a set. */
  ghost predicate Lists(s: seq<Digest>, digests: set<Digest>)
  {
    Ascending(s) && forall d :: d in s <==> d in digests
  }

  function OrderOf(pc: Pc): seq<Digest>
  {
    match pc
    case Locking(_, order, _, _) => order
    case Working(_, order, _) => order
    case Unlocking(_, order, _, _, _) => order
    case _ => []
  }

  function Taken(pc: Pc): nat
  {
    match pc
    case Locking(_, _, taken, _) => taken
    case Working(_, order, _) => |order|
    case Unlocking(_, _, taken, _, _) => taken
    case _ => 0
  }

  predicate Half(pc: Pc)
  {
    (pc.Locking? && pc.half) || (pc.Unlocking? && pc.half)
  }

  ghost predicate HoldsFile(pc: Pc, d: Digest)
  {
    exists i :: 0 <= i < Taken(pc) && i < |OrderOf(pc)| && OrderOf(pc)[i] == d
  }

  ghost predicate HoldsThread(pc: Pc, d: Digest)
  {
    HoldsFile(pc, d) || (Half(pc) && Taken(pc) < |OrderOf(pc)| && OrderOf(pc)[Taken(pc)] == d)
  }

  /** No other thread of the same process holds the thread lock. */
  ghost predicate ThreadFree(s: Store, p: Pid, d: Digest)
    requires p in s.procs
  {
    forall q :: q in s.procs && q != p && s.procs[q].os == s.procs[p].os ==> !HoldsThread(s.procs[q].pc, d)
  }

  ghost predicate FileFree(s: Store, p: Pid, d: Digest)
  {
    forall q :: q in s.procs && q != p ==> !HoldsFile(s.procs[q].pc, d)
  }

  // ----- Steps -----

  function Entry(job: Job): Body
  {
    match job
    case Put(_) => PutLook
    case Add(_, _) => AddLook(0)
    case Remove(_, _) => RemoveUnlink
    case Check(_, _, _) => GcLook
  }

  function Release(pc: Pc, aborted: bool): Pc
    requires pc.Working?
  {
    Unlocking(pc.job, pc.order, |pc.order|, false, aborted)
  }

  /** What follows once all locks are given back. */
  function Following(job: Job, aborted: bool): Pc
  {
    if job.Check? && !aborted then Sweep(job.rest, job.dry) else Idle
  }

  function At(s: Store, p: Pid, pc: Pc): Store
    requires p in s.procs
  {
    s.(procs := s.procs[p := s.procs[p].(pc := pc)])
  }

  ghost predicate Enabled(s: Store, p: Pid, a: Act)
  {
    p in s.procs &&
    var pc := s.procs[p].pc;
    match a
    case BeginPut(_) => pc.Idle?
    case BeginAdd(_, manifest, sorted) => pc.Idle? && manifest.digests != {} && Lists(sorted, manifest.digests)
    case BeginRemove(id, sorted) => pc.Idle? && id in s.refs && Lists(sorted, s.refs[id].digests)
    case BeginCollect(listing, _) => pc.Idle? && Lists(listing, s.blobs)
    case SkipYoung => pc.Sweep? && pc.todo != []
    case ReadManifest(id) => pc.Working? && pc.body.GcRead? && id in pc.body.unread
    case Go =>
      match pc
      case Idle => false
      case Sweep(_, _) => true
      case Locking(_, order, taken, half) =>
        taken < |order| ==> if half then FileFree(s, p, order[taken]) else ThreadFree(s, p, order[taken])
      case Working(_, _, body) => body.GcRead? ==> body.unread == {}
      case Unlocking(_, _, _, _, _) => true
  }

  function Work(s: Store, p: Pid): Store
    requires p in s.procs && s.procs[p].pc.Working?
  {
    var pc := s.procs[p].pc;
    var job := pc.job;
    match pc.body
    case PutLook =>
      if job.Put? && job.d !in s.blobs then At(s, p, pc.(body := PutWrite)) else At(s, p, Release(pc, false))
    case PutWrite =>
      if job.Put? then At(s.(blobs := s.blobs + {job.d}), p, Release(pc, false)) else s
    case AddLook(k) =>
      if k >= |pc.order| then At(s, p, pc.(body := AddPublish))
      else if pc.order[k] in s.blobs then At(s, p, pc.(body := AddLook(k + 1)))
      else At(s, p, Release(pc, true))
    case AddPublish =>
      if job.Add? && job.id !in s.refs then At(s.(refs := s.refs[job.id := job.manifest]), p, Release(pc, false))
      else At(s, p, Release(pc, job.Add? && s.refs[job.id] != job.manifest))
    case RemoveUnlink =>
      if job.Remove? then At(s.(refs := s.refs - {job.id}), p, Release(pc, false)) else s
    case GcLook =>
      if job.Check? && job.victim in s.blobs then At(s, p, pc.(body := GcRead(s.refs.Keys, false))) else At(s, p, Release(pc, false))
    case GcRead(unread, found) =>
      if found || !job.Check? || job.dry then At(s, p, Release(pc, false)) else At(s, p, pc.(body := GcDelete))
    case GcDelete =>
      if job.Check? then At(s.(blobs := s.blobs - {job.victim}), p, Release(pc, false)) else s
  }

  ghost function Do(s: Store, p: Pid, a: Act): Store
    requires Enabled(s, p, a)
  {
    var pc := s.procs[p].pc;
    match a
    case BeginPut(d) => At(s, p, Locking(Put(d), [d], 0, false))
    case BeginAdd(id, manifest, sorted) => At(s, p, Locking(Add(id, manifest), sorted, 0, false))
    case BeginRemove(id, sorted) => At(s, p, Locking(Remove(id, s.refs[id].digests), sorted, 0, false))
    case BeginCollect(listing, dry) => At(s, p, Sweep(listing, dry))
    case SkipYoung => At(s, p, Sweep(pc.todo[1..], pc.dry))
    case ReadManifest(id) =>
      if id in s.refs && pc.job.Check? then
        At(s, p, pc.(body := GcRead(pc.body.unread - {id}, pc.body.found || pc.job.victim in s.refs[id].digests)))
      else At(s, p, Release(pc, true))
    case Go =>
      match pc
      case Sweep(todo, dry) =>
        At(s, p, if todo == [] then Idle else Locking(Check(todo[0], todo[1..], dry), [todo[0]], 0, false))
      case Locking(job, order, taken, half) =>
        At(s, p, if taken >= |order| then Working(job, order, Entry(job))
                 else if half then Locking(job, order, taken + 1, false) else Locking(job, order, taken, true))
      case Working(_, _, _) => Work(s, p)
      case Unlocking(job, order, taken, half, aborted) =>
        At(s, p, if half then Unlocking(job, order, taken, false, aborted)
                 else if taken > 0 then Unlocking(job, order, taken - 1, true, aborted)
                 else Following(job, aborted))
  }

  // ----- The invariant -----

  /** Every digest named by an existing manifest has its blob. */
  ghost predicate Safe(s: Store)
  {
    forall id :: id in s.refs ==> s.refs[id].digests <= s.blobs
  }

  ghost predicate Exclusive(s: Store)
  {
    && (forall p, q, d | p in s.procs && q in s.procs && p != q ::
          HoldsFile(s.procs[p].pc, d) ==> !HoldsFile(s.procs[q].pc, d))
    && (forall p, q, d | p in s.procs && q in s.procs && p != q && s.procs[p].os == s.procs[q].os ::
          HoldsThread(s.procs[p].pc, d) ==> !HoldsThread(s.procs[q].pc, d))
  }

  /** The locks a job needs are taken in ascending order. */
  ghost predicate Shaped(pc: Pc)
  {
    && Ascending(OrderOf(pc)) && Taken(pc) <= |OrderOf(pc)| && (Half(pc) ==> Taken(pc) < |OrderOf(pc)|)
    && (pc.Locking? || pc.Working? ==> JobLocks(pc.job, OrderOf(pc)))
    && (pc.Working? ==> Fits(pc.job, pc.body))
  }

  ghost predicate JobLocks(job: Job, order: seq<Digest>)
  {
    match job
    case Put(d) => order == [d]
    case Add(_, manifest) => Lists(order, manifest.digests) && manifest.digests != {}
    case Remove(_, stale) => Lists(order, stale)
    case Check(victim, _, _) => order == [victim]
  }

  predicate Fits(job: Job, body: Body)
  {
    match body
    case PutLook => job.Put?
    case PutWrite => job.Put?
    case AddLook(_) => job.Add?
    case AddPublish => job.Add?
    case RemoveUnlink => job.Remove?
    case GcLook => job.Check?
    case GcRead(_, _) => job.Check?
    case GcDelete => job.Check? && !job.dry
  }

  /** What a process has learnt is still true. */
  ghost predicate Informed(s: Store, pc: Pc)
  {
    pc.Working? ==>
      match pc.body
      case AddLook(k) => k <= |pc.order| && forall i :: 0 <= i < k ==> pc.order[i] in s.blobs
      case AddPublish => forall d :: d in pc.order ==> d in s.blobs
      case GcRead(unread, found) =>
        pc.job.Check? && !found ==> forall id :: id in s.refs && pc.job.victim in s.refs[id].digests ==> id in unread
      case GcDelete => pc.job.Check? ==> forall id :: id in s.refs ==> pc.job.victim !in s.refs[id].digests
      case _ => true
  }

  ghost predicate Inv(s: Store)
  {
    && Safe(s) && Exclusive(s)
    && forall p :: p in s.procs ==> Shaped(s.procs[p].pc) && Informed(s, s.procs[p].pc)
  }

  // ----- Lock steps keep exclusion -----

  /** The process holds no more locks than before. */
  ghost predicate NoMoreLocks(before: Pc, after: Pc)
  {
    && (forall d :: HoldsFile(after, d) ==> HoldsFile(before, d))
    && (forall d :: HoldsThread(after, d) ==> HoldsThread(before, d))
  }

  lemma ExclusionKept(s: Store, t: Store, p: Pid, pc: Pc)
    requires p in s.procs && Exclusive(s) && NoMoreLocks(s.procs[p].pc, pc) && t.procs == At(s, p, pc).procs
    ensures Exclusive(t)
  {
    forall q, r, d | q in t.procs && r in t.procs && q != r && HoldsFile(t.procs[q].pc, d)
      ensures !HoldsFile(t.procs[r].pc, d)
    {
      assert HoldsFile(s.procs[q].pc, d);
    }
    forall q, r, d | q in t.procs && r in t.procs && q != r && t.procs[q].os == t.procs[r].os && HoldsThread(t.procs[q].pc, d)
      ensures !HoldsThread(t.procs[r].pc, d)
    {
      assert HoldsThread(s.procs[q].pc, d);
    }
  }

  /** One lock more: nobody else had it. */
  lemma ExclusionTakes(s: Store, t: Store, p: Pid, pc: Pc, d: Digest)
    requires p in s.procs && Exclusive(s) && t.procs == At(s, p, pc).procs
    requires forall e :: HoldsFile(pc, e) ==> HoldsFile(s.procs[p].pc, e) || (e == d && FileFree(s, p, d))
    requires forall e :: HoldsThread(pc, e) ==> HoldsThread(s.procs[p].pc, e) || (e == d && ThreadFree(s, p, d))
    ensures Exclusive(t)
  {
    forall q, r, e | q in t.procs && r in t.procs && q != r && HoldsFile(t.procs[q].pc, e)
      ensures !HoldsFile(t.procs[r].pc, e)
    {
    }
    forall q, r, e | q in t.procs && r in t.procs && q != r && t.procs[q].os == t.procs[r].os && HoldsThread(t.procs[q].pc, e)
      ensures !HoldsThread(t.procs[r].pc, e)
    {
    }
  }

  /** A step that only moves one process keeps what all others know. */
  lemma MoveOnly(s: Store, p: Pid, pc: Pc)
    requires Inv(s) && p in s.procs && Exclusive(At(s, p, pc)) && Shaped(pc) && Informed(s, pc)
    ensures Inv(At(s, p, pc))
  {
    var t := At(s, p, pc);
    forall q | q in t.procs
      ensures Shaped(t.procs[q].pc) && Informed(t, t.procs[q].pc)
    {
      if q != p { assert t.procs[q] == s.procs[q]; }
    }
  }

  lemma Quiet(s: Store, p: Pid, pc: Pc)
    requires Inv(s) && p in s.procs && NoMoreLocks(s.procs[p].pc, pc) && Shaped(pc) && Informed(s, pc)
    ensures Inv(At(s, p, pc))
  {
    ExclusionKept(s, At(s, p, pc), p, pc);
    MoveOnly(s, p, pc);
  }

  lemma LockStep(s: Store, p: Pid)
    requires Inv(s) && Enabled(s, p, Go) && s.procs[p].pc.Locking?
    ensures Inv(Do(s, p, Go))
  {
    hide Safe, Exclusive, JobLocks, Fits;
    var pc := s.procs[p].pc;
    if pc.taken >= |pc.order| {
      var next := Working(pc.job, pc.order, Entry(pc.job));
      Quiet(s, p, next);
    } else {
      var d := pc.order[pc.taken];
      var next := if pc.half then Locking(pc.job, pc.order, pc.taken + 1, false) else Locking(pc.job, pc.order, pc.taken, true);
      ExclusionTakes(s, At(s, p, next), p, next, d);
      MoveOnly(s, p, next);
    }
  }

  lemma UnlockStep(s: Store, p: Pid)
    requires Inv(s) && Enabled(s, p, Go) && s.procs[p].pc.Unlocking?
    ensures Inv(Do(s, p, Go))
  {
    hide Safe, Exclusive, Informed;
    var pc := s.procs[p].pc;
    if pc.half {
      Quiet(s, p, Unlocking(pc.job, pc.order, pc.taken, false, pc.aborted));
    } else if pc.taken > 0 {
      Quiet(s, p, Unlocking(pc.job, pc.order, pc.taken - 1, true, pc.aborted));
    } else {
      Quiet(s, p, Following(pc.job, pc.aborted));
    }
  }

  // ----- Steps on blobs and manifests -----

  /** Others that hold a lock on the same digest: there are none. */
  lemma NobodyElse(s: Store, p: Pid, q: Pid, d: Digest)
    requires Exclusive(s) && p in s.procs && q in s.procs && p != q && HoldsFile(s.procs[p].pc, d)
    ensures !HoldsFile(s.procs[q].pc, d)
  {
  }

  lemma WorkingHolds(pc: Pc, d: Digest)
    requires pc.Working? && d in pc.order
    ensures HoldsFile(pc, d)
  {
    var i :| 0 <= i < |pc.order| && pc.order[i] == d;
    assert i < Taken(pc) && OrderOf(pc)[i] == d;
  }

  lemma WriteStep(s: Store, p: Pid, pc: Pc, d: Digest)
    requires Inv(s) && p in s.procs && NoMoreLocks(s.procs[p].pc, pc) && Shaped(pc) && pc.Unlocking?
    ensures Inv(At(s.(blobs := s.blobs + {d}), p, pc))
  {
    var t := At(s.(blobs := s.blobs + {d}), p, pc);
    ExclusionKept(s, t, p, pc);
    forall q | q in t.procs
      ensures Shaped(t.procs[q].pc) && Informed(t, t.procs[q].pc)
    {
      if q != p { assert t.procs[q] == s.procs[q]; }
    }
  }

  /** Deleting a blob that no manifest names, while holding its lock: no process that has seen
      the blob still relies on it. */
  lemma DeleteStep(s: Store, p: Pid, pc: Pc)
    requires Inv(s) && p in s.procs && s.procs[p].pc.Working? && s.procs[p].pc.body.GcDelete?
    requires pc == Release(s.procs[p].pc, false)
    ensures s.procs[p].pc.job.Check? && Inv(At(s.(blobs := s.blobs - {s.procs[p].pc.job.victim}), p, pc))
  {
    var before := s.procs[p].pc;
    assert Shaped(before) && Informed(s, before);
    var victim := before.job.victim;
    var t := At(s.(blobs := s.blobs - {victim}), p, pc);
    ExclusionKept(s, t, p, pc);
    WorkingHolds(before, victim);
    forall q | q in t.procs
      ensures Shaped(t.procs[q].pc) && Informed(t, t.procs[q].pc)
    {
      if q != p { StillInformedDelete(s, t, p, q, victim); }
    }
  }

  lemma StillInformedDelete(s: Store, t: Store, p: Pid, q: Pid, victim: Digest)
    requires Inv(s) && p in s.procs && q in s.procs && p != q && HoldsFile(s.procs[p].pc, victim)
    requires t.blobs == s.blobs - {victim} && t.refs == s.refs
    ensures Informed(t, s.procs[q].pc)
  {
    var pc := s.procs[q].pc;
    assert Informed(s, pc);
    NobodyElse(s, p, q, victim);
    if pc.Working? && victim in pc.order { WorkingHolds(pc, victim); }
  }

  /** Publishing a manifest whose blobs were all seen: no collector that is deciding about one
      of them can be under way. */
  lemma PublishStep(s: Store, p: Pid, pc: Pc)
    requires Inv(s) && p in s.procs && s.procs[p].pc.Working? && s.procs[p].pc.body.AddPublish?
    requires pc == Release(s.procs[p].pc, false)
    ensures s.procs[p].pc.job.Add?
    ensures Inv(At(s.(refs := s.refs[s.procs[p].pc.job.id := s.procs[p].pc.job.manifest]), p, pc))
  {
    var before := s.procs[p].pc;
    assert Shaped(before) && Informed(s, before);
    var t := At(s.(refs := s.refs[before.job.id := before.job.manifest]), p, pc);
    ExclusionKept(s, t, p, pc);
    forall q | q in t.procs
      ensures Shaped(t.procs[q].pc) && Informed(t, t.procs[q].pc)
    {
      if q != p { StillInformedPublish(s, t, p, q); }
    }
  }

  lemma StillInformedPublish(s: Store, t: Store, p: Pid, q: Pid)
    requires Inv(s) && p in s.procs && q in s.procs && p != q && s.procs[p].pc.Working? && s.procs[p].pc.job.Add?
    requires t.blobs == s.blobs && t.refs == s.refs[s.procs[p].pc.job.id := s.procs[p].pc.job.manifest]
    ensures Informed(t, s.procs[q].pc)
  {
    var mine, pc := s.procs[p].pc, s.procs[q].pc;
    assert Informed(s, pc) && Shaped(pc) && Shaped(mine);
    if pc.Working? && pc.job.Check? {
      WorkingHolds(pc, pc.job.victim);
      if pc.job.victim in mine.job.manifest.digests {
        WorkingHolds(mine, pc.job.victim);
        NobodyElse(s, p, q, pc.job.victim);
      }
    }
  }

  lemma UnlinkStep(s: Store, p: Pid, pc: Pc, id: RefId)
    requires Inv(s) && p in s.procs && NoMoreLocks(s.procs[p].pc, pc) && Shaped(pc) && pc.Unlocking?
    ensures Inv(At(s.(refs := s.refs - {id}), p, pc))
  {
    var t := At(s.(refs := s.refs - {id}), p, pc);
    ExclusionKept(s, t, p, pc);
    forall q | q in t.procs
      ensures Shaped(t.procs[q].pc) && Informed(t, t.procs[q].pc)
    {
      if q != p {
        assert t.procs[q] == s.procs[q];
        assert Informed(s, s.procs[q].pc);
      }
    }
  }

  lemma PutStep(s: Store, p: Pid)
    requires Inv(s) && Enabled(s, p, Go) && s.procs[p].pc.Working? && s.procs[p].pc.job.Put?
    ensures Inv(Work(s, p))
  {
    var pc := s.procs[p].pc;
    assert Shaped(pc);
    if pc.body.PutLook? {
      Quiet(s, p, if pc.job.d !in s.blobs then pc.(body := PutWrite) else Release(pc, false));
    } else {
      WriteStep(s, p, Release(pc, false), pc.job.d);
    }
  }

  lemma ProcessSound(s: Store, p: Pid)
    requires Inv(s) && p in s.procs
    ensures Shaped(s.procs[p].pc) && Informed(s, s.procs[p].pc)
  {
  }

  lemma AddStep(s: Store, p: Pid)
    requires Inv(s) && Enabled(s, p, Go) && s.procs[p].pc.Working? && s.procs[p].pc.job.Add?
    ensures Inv(Work(s, p))
  {
    hide Inv, Informed;
    var pc := s.procs[p].pc;
    ProcessSound(s, p);
    if pc.body.AddLook? {
      var k := pc.body.k;
      Quiet(s, p, if k >= |pc.order| then pc.(body := AddPublish)
                  else if pc.order[k] in s.blobs then pc.(body := AddLook(k + 1)) else Release(pc, true));
    } else if pc.job.id !in s.refs {
      PublishStep(s, p, Release(pc, false));
    } else {
      Quiet(s, p, Release(pc, s.refs[pc.job.id] != pc.job.manifest));
    }
  }

  lemma CheckStep(s: Store, p: Pid)
    requires Inv(s) && Enabled(s, p, Go) && s.procs[p].pc.Working? && s.procs[p].pc.job.Check?
    ensures Inv(Work(s, p))
  {
    var pc := s.procs[p].pc;
    assert Shaped(pc) && Informed(s, pc);
    if pc.body.GcLook? {
      Quiet(s, p, if pc.job.victim in s.blobs then pc.(body := GcRead(s.refs.Keys, false)) else Release(pc, false));
    } else if pc.body.GcRead? {
      Quiet(s, p, if pc.body.found || pc.job.dry then Release(pc, false) else pc.(body := GcDelete));
    } else {
      DeleteStep(s, p, Release(pc, false));
    }
  }

  lemma WorkStep(s: Store, p: Pid)
    requires Inv(s) && Enabled(s, p, Go) && s.procs[p].pc.Working?
    ensures Inv(Work(s, p))
  {
    var pc := s.procs[p].pc;
    assert Shaped(pc);
    match pc.job
    case Put(_) => PutStep(s, p);
    case Add(_, _) => AddStep(s, p);
    case Remove(id, _) => UnlinkStep(s, p, Release(pc, false), id);
    case Check(_, _, _) => CheckStep(s, p);
  }

  lemma ReadStep(s: Store, p: Pid, id: RefId)
    requires Inv(s) && Enabled(s, p, ReadManifest(id))
    ensures Inv(Do(s, p, ReadManifest(id)))
  {
    var pc := s.procs[p].pc;
    assert Shaped(pc) && Informed(s, pc);
    if id in s.refs {
      Quiet(s, p, pc.(body := GcRead(pc.body.unread - {id}, pc.body.found || pc.job.victim in s.refs[id].digests)));
    } else {
      Quiet(s, p, Release(pc, true));
    }
  }

  /** Every step of every process keeps the invariant, safety included. */
  lemma StepKeepsInvariant(s: Store, p: Pid, a: Act)
    requires Inv(s) && Enabled(s, p, a)
    ensures Inv(Do(s, p, a))
  {
    var pc := s.procs[p].pc;
    match a
    case BeginPut(d) => Quiet(s, p, Locking(Put(d), [d], 0, false));
    case BeginAdd(id, manifest, sorted) => Quiet(s, p, Locking(Add(id, manifest), sorted, 0, false));
    case BeginRemove(id, sorted) => Quiet(s, p, Locking(Remove(id, s.refs[id].digests), sorted, 0, false));
    case BeginCollect(listing, dry) => Quiet(s, p, Sweep(listing, dry));
    case SkipYoung => Quiet(s, p, Sweep(pc.todo[1..], pc.dry));
    case ReadManifest(id) => ReadStep(s, p, id);
    case Go =>
      match pc
      case Sweep(todo, dry) =>
        Quiet(s, p, if todo == [] then Idle else Locking(Check(todo[0], todo[1..], dry), [todo[0]], 0, false));
      case Locking(_, _, _, _) => LockStep(s, p);
      case Working(_, _, _) => WorkStep(s, p);
      case Unlocking(_, _, _, _, _) => UnlockStep(s, p);
  }

  datatype Run = Begin | More(earlier: Run, p: Pid, a: Act)

  ghost predicate Arrives(s: Store, run: Run, t: Store)
  {
    match run
    case Begin => t == s
    case More(earlier, p, a) => exists m :: Arrives(s, earlier, m) && Enabled(m, p, a) && t == Do(m, p, a)
  }

  /** A store whose manifests are covered, before any process does anything. */
  ghost predicate Fresh(s: Store)
  {
    Safe(s) && forall p :: p in s.procs ==> s.procs[p].pc.Idle?
  }

  /** In every interleaving, every digest named by an existing manifest has its blob. */
  lemma {:induction false} ReferencedBlobsExist(s: Store, run: Run, t: Store)
    requires Fresh(s) && Arrives(s, run, t)
    ensures Inv(t) && Safe(t)
    decreases run
  {
    match run
    case Begin =>
    case More(earlier, p, a) =>
      var m :| Arrives(s, earlier, m) && Enabled(m, p, a) && t == Do(m, p, a);
      ReferencedBlobsExist(s, earlier, m);
      StepKeepsInvariant(m, p, a);
  }

  // ----- No deadlock -----

  /** The process is inside a lock acquisition that somebody else blocks. */
  ghost predicate Waits(s: Store, p: Pid)
  {
    && p in s.procs && s.procs[p].pc.Locking? && s.procs[p].pc.taken < |s.procs[p].pc.order| && !Enabled(s, p, Go)
  }

  /** The place of the awaited lock in the global order: a thread lock comes before the file
      lock of the same digest. */
  ghost function Awaited(pc: Pc): nat
    requires pc.Locking? && pc.taken < |pc.order|
  {
    2 * pc.order[pc.taken] + if pc.half then 1 else 0
  }

  /** Whoever holds a lock and waits, waits for a later one. */
  lemma WaitsForLater(pc: Pc, d: Digest)
    requires Shaped(pc) && pc.Locking? && pc.taken < |pc.order|
    ensures HoldsFile(pc, d) ==> Awaited(pc) > 2 * d + 1
    ensures HoldsThread(pc, d) ==> Awaited(pc) > 2 * d
  {
  }

  /** The process that holds what `p` waits for. */
  lemma Blocker(s: Store, p: Pid) returns (q: Pid)
    requires Inv(s) && Waits(s, p)
    ensures q in s.procs && q != p && !s.procs[q].pc.Idle? && !s.procs[q].pc.Sweep?
    ensures Waits(s, q) ==> Awaited(s.procs[q].pc) > Awaited(s.procs[p].pc)
  {
    var pc := s.procs[p].pc;
    var d := pc.order[pc.taken];
    if pc.half {
      q :| q in s.procs && q != p && HoldsFile(s.procs[q].pc, d);
    } else {
      q :| q in s.procs && q != p && s.procs[q].os == s.procs[p].os && HoldsThread(s.procs[q].pc, d);
    }
    if Waits(s, q) { WaitsForLater(s.procs[q].pc, d); }
  }

  /** Follow blockers upwards: some process can go on. */
  lemma {:induction false} SomebodyMoves(s: Store, p: Pid, waiting: set<Pid>) returns (q: Pid, a: Act)
    requires Inv(s) && Waits(s, p)
    requires forall r :: Waits(s, r) && Awaited(s.procs[r].pc) > Awaited(s.procs[p].pc) ==> r in waiting
    ensures Enabled(s, q, a) && !s.procs[q].pc.Idle?
    decreases waiting
  {
    q := Blocker(s, p);
    if Waits(s, q) {
      q, a := SomebodyMoves(s, q, waiting - {q});
    } else {
      a := Go;
      var pc := s.procs[q].pc;
      if pc.Working? && pc.body.GcRead? && pc.body.unread != {} {
        var id :| id in pc.body.unread;
        a := ReadManifest(id);
      }
    }
  }

  /** In every reachable state with a waiting process, some busy process can take a step. */
  lemma NoDeadlock(s: Store, run: Run, t: Store, p: Pid) returns (q: Pid, a: Act)
    requires Fresh(s) && Arrives(s, run, t) && Waits(t, p)
    ensures Enabled(t, q, a) && !t.procs[q].pc.Idle?
  {
    ReferencedBlobsExist(s, run, t);
    q, a := SomebodyMoves(t, p, t.procs.Keys);
  }

  // ----- Interleavings are sequences of whole operations -----

  /** What a store holds. */
  datatype Contents = Contents(blobs: set<Digest>, refs: map<RefId, Manifest>)

  /** An operation that changes the contents, as a whole. */
  datatype Op =
    | Publish(d: Digest)
    | Refer(id: RefId, manifest: Manifest)
    | Unrefer(id: RefId)
    | Reclaim(d: Digest)

  /** When the operation may take effect: a new reference covers present blobs, and nothing
      refers to a blob that is reclaimed. */
  ghost predicate Legal(c: Contents, op: Op)
  {
    match op
    case Publish(_) => true
    case Refer(id, manifest) => manifest.digests != {} && manifest.digests <= c.blobs && id !in c.refs
    case Unrefer(_) => true
    case Reclaim(d) => forall id :: id in c.refs ==> d !in c.refs[id].digests
  }

  function Effect(c: Contents, op: Op): Contents
  {
    match op
    case Publish(d) => c.(blobs := c.blobs + {d})
    case Refer(id, manifest) => c.(refs := c.refs[id := manifest])
    case Unrefer(id) => c.(refs := c.refs - {id})
    case Reclaim(d) => c.(blobs := c.blobs - {d})
  }

  function View(s: Store): Contents
  {
    Contents(s.blobs, s.refs)
  }

  /** The operation that takes effect in a step, if any. */
  function Commits(s: Store, p: Pid, a: Act): Option<Op>
    requires p in s.procs
  {
    var pc := s.procs[p].pc;
    if !a.Go? || !pc.Working? then None
    else match (pc.body, pc.job)
      case (PutWrite, Put(d)) => Some(Publish(d))
      case (AddPublish, Add(id, manifest)) => if id in s.refs then None else Some(Refer(id, manifest))
      case (RemoveUnlink, Remove(id, _)) => Some(Unrefer(id))
      case (GcDelete, Check(victim, _, _)) => Some(Reclaim(victim))
      case _ => None
  }

  /** A step changes the contents by exactly the operation that takes effect in it, and only
      when that operation is legal. */
  lemma StepIsAtomic(s: Store, p: Pid, a: Act)
    requires Inv(s) && Enabled(s, p, a)
    ensures Commits(s, p, a).None? ==> View(Do(s, p, a)) == View(s)
    ensures Commits(s, p, a).Some? ==>
              Legal(View(s), Commits(s, p, a).value) && View(Do(s, p, a)) == Effect(View(s), Commits(s, p, a).value)
  {
    hide Inv, Exclusive, Safe, Enabled;
    ProcessIsIn(s, p, a);
    ProcessSound(s, p);
    var pc := s.procs[p].pc;
    if a.Go? && pc.Working? {
      WorkIsAtomic(s, p);
    }
  }

  lemma ProcessIsIn(s: Store, p: Pid, a: Act)
    requires Enabled(s, p, a)
    ensures p in s.procs
  {
  }

  lemma WorkIsAtomic(s: Store, p: Pid)
    requires p in s.procs && s.procs[p].pc.Working? && Shaped(s.procs[p].pc) && Informed(s, s.procs[p].pc)
    ensures Commits(s, p, Go).None? ==> View(Work(s, p)) == View(s)
    ensures Commits(s, p, Go).Some? ==>
              Legal(View(s), Commits(s, p, Go).value) && View(Work(s, p)) == Effect(View(s), Commits(s, p, Go).value)
  {
  }

  /** The operations, each legal when its turn comes. */
  ghost predicate AllLegal(c: Contents, ops: seq<Op>)
  {
    ops == [] || (AllLegal(c, ops[..|ops| - 1]) && Legal(Effects(c, ops[..|ops| - 1]), ops[|ops| - 1]))
  }

  function Effects(c: Contents, ops: seq<Op>): Contents
  {
    if ops == [] then c else Effect(Effects(c, ops[..|ops| - 1]), ops[|ops| - 1])
  }

  /** Every interleaving has the effect of some sequence of whole, legal operations. */
  lemma {:induction false} InterleavingIsSequential(s: Store, run: Run, t: Store) returns (ops: seq<Op>)
    requires Fresh(s) && Arrives(s, run, t)
    ensures AllLegal(View(s), ops) && View(t) == Effects(View(s), ops)
    decreases run
  {
    match run
    case Begin =>
      ops := [];
    case More(earlier, p, a) =>
      var m :| Arrives(s, earlier, m) && Enabled(m, p, a) && t == Do(m, p, a);
      var before := InterleavingIsSequential(s, earlier, m);
      ReferencedBlobsExist(s, earlier, m);
      StepIsAtomic(m, p, a);
      if Commits(m, p, a).Some? {
        ops := before + [Commits(m, p, a).value];
        assert ops[..|ops| - 1] == before;
      } else {
        ops := before;
      }
  }
}
