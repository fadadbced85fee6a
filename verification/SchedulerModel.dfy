/** The scheduler as a state machine over its atomic steps
    (src/comfyng/scheduler/scheduler.py:184-569). */
module SchedulerModel {
  import opened Graphs
  import opened Budgets
  import opened Broker
  import opened Queues
  import opened Jobs
  import opened Journal

  /** Where an attempt stands: created, inside the dispatcher, or waiting to be retried. */
  datatype Phase = Starting | Dispatching | Sleeping(error: Json)

  /** An active attempt and the reason its token was cancelled for, if any. */
  datatype Task = Task(phase: Phase, cancelled: Option<string>)

  datatype Settings = Settings(queues: Queues.Config, limits: Limits, maxConcurrency: nat, policyAttempts: nat)

  datatype State = State(
    repo: Repo,
    waiting: Waiting,
    active: map<JobId, Task>,
    reservations: map<JobId, Lease>,
    ledger: Ledger,
    journal: seq<Event>,
    now: real)

  datatype Step =
    | Submit(spec: Submission)
    | Cancel(id: JobId, reason: string)
    | Retry(id: JobId)
    | Launch(id: JobId, hit: Option<Json>)
    | Start(id: JobId)
    | Return(id: JobId, value: Json, writeFails: bool)
    | Interrupt(id: JobId, reason: string)
    | Raise(id: JobId, error: Json, retryable: bool)
    | Wake(id: JobId)

  // ----- The journal -----

  /** The status events of one job, in order. */
  ghost function Trail(journal: seq<Event>, id: JobId): seq<Status>
  {
    if journal == [] then []
    else
      var last := journal[|journal| - 1];
      Trail(journal[..|journal| - 1], id) + if last.jobId == id && last.kind.StatusEvent? then [last.kind.status] else []
  }

  lemma TrailGrows(journal: seq<Event>, e: Event, id: JobId)
    ensures Trail(journal + [e], id) == Trail(journal, id) + if e.jobId == id && e.kind.StatusEvent? then [e.kind.status] else []
  {
    assert (journal + [e])[..|journal|] == journal;
  }

  ghost function Statuses(h: seq<JobRecord>): (s: seq<Status>)
    ensures |s| == |h| && forall i :: 0 <= i < |h| ==> s[i] == h[i].status
  {
    seq(|h|, i requires 0 <= i < |h| => h[i].status)
  }

  /** The journal spells out the repository's history of one job. */
  ghost predicate TrailMatches(repo: Repo, journal: seq<Event>, id: JobId)
  {
    Trail(journal, id) == if id in repo.history then Statuses(repo.history[id]) else []
  }

  // ----- Steps -----

  function ItemOf(r: JobRecord): Item
  {
    Item(r.spec.jobId, r.spec.queue, r.queuedAt, r.spec.factors)
  }

  /** A new revision, published under its status. */
  function Revise(s: State, id: JobId, r: JobRecord): State
    requires id in s.repo.history
  {
    s.(repo := Revised(s.repo, id, r), journal := s.journal + [Event(StatusEvent(r.status), id)])
  }

  /** `_transition` from whatever status the job has. */
  function Move(s: State, id: JobId, target: Status, now: real, result: Json, error: Option<Json>): State
    requires id in s.repo.records && id in s.repo.history
  {
    var r := s.repo.records[id];
    match TransitionRecord(r, r.status, target, now, result, error)
    case Ok(updated) => Revise(s, id, updated)
    case Err(_) => s
  }

  /** The `finally` block of an attempt. */
  function Finish(s: State, id: JobId): State
  {
    ReleaseLease(s, id).(active := s.active - {id})
  }

  /** `_release_reservation`. */
  function ReleaseLease(s: State, id: JobId): State
  {
    if id in s.reservations
    then s.(reservations := s.reservations - {id},
            ledger := s.ledger.(leases := Without(s.ledger.leases, s.reservations[id].id)))
    else s
  }

  function Publish(s: State, kind: EventKind, id: JobId): State
  {
    s.(journal := s.journal + [Event(kind, id)])
  }

  function Enqueued(s: State, r: JobRecord): State
  {
    s.(waiting := Queues.Put(s.waiting, ItemOf(r)))
  }

  function Submitted(c: Settings, s: State, spec: Submission, now: real): State
  {
    if !Room(c.queues, s.waiting, spec.queue) || spec.jobId in s.repo.records then s
    else
      var r := FromSubmission(spec, now);
      Publish(Publish(Enqueued(s.(repo := Created(s.repo, r)), r), JobCreated, spec.jobId), StatusEvent(QUEUED), spec.jobId)
  }

  /** `_complete_from_cache`. */
  function FromCache(s: State, id: JobId, now: real, value: Json): State
    requires id in s.repo.records && id in s.repo.history
  {
    Move(Move(Move(s, id, PREPARING, now, Null, None), id, RUNNING, now, Null, None), id, COMPLETED, now, value, None)
  }

  function Begun(s: State, id: JobId, now: real): State
    requires id in s.repo.records && id in s.repo.history
  {
    var t := Move(s, id, PREPARING, now, Null, None);
    t.(active := t.active[id := Task(Starting, None)])
  }

  function Reserved(s: State, id: JobId, d: Demand): State
  {
    var lease := Lease(s.ledger.next, d);
    s.(ledger := Ledger(s.ledger.leases + [lease], s.ledger.next + 1), reservations := s.reservations[id := lease])
  }

  const ADMISSION_ERROR := Str("resource admission rejected")
  const BACKPRESSURE_ERROR := Str("queue full")

  /** What becomes of the item popped by `_launch_next`. */
  ghost function Launched(c: Settings, s: State, id: JobId, hit: Option<Json>, now: real): State
    requires id in s.repo.records && id in s.repo.history && id in s.waiting.items
  {
    var r, item := s.repo.records[id], s.waiting.items[id].item;
    var t := s.(waiting := Removed(s.waiting, id));
    if r.spec.cacheKey.Some? && hit.Some? then FromCache(t, id, now, hit.value)
    else if r.spec.estimate.None? then Begun(t, id, now)
    else
      var e := r.spec.estimate.value;
      var grant := Grant(e, c.limits, s.ledger.leases);
      if grant.Some? then Begun(Reserved(t, id, grant.value.1), id, now)
      else if Waitable(e, c.limits).Some? then Publish(t.(waiting := Queues.Put(t.waiting, item)), JobDeferred, id)
      else Move(t, id, FAILED, now, Null, Some(ADMISSION_ERROR))
  }

  /** Exactly the launches after which the scheduler stops launching. */
  ghost predicate IsDeferral(c: Settings, s: State, id: JobId, hit: Option<Json>)
    requires id in s.repo.records
  {
    var spec := s.repo.records[id].spec;
    !(spec.cacheKey.Some? && hit.Some?) && spec.estimate.Some? && IsDeferred(spec.estimate.value, c.limits, s.ledger.leases)
  }

  function Stopped(s: State, id: JobId, now: real, reason: string): State
    requires id in s.repo.records && id in s.repo.history
  {
    Finish(Move(s, id, CANCELLED, now, Null, Some(Str(reason))), id)
  }

  function Started(s: State, id: JobId, now: real): State
    requires id in s.repo.records && id in s.repo.history && id in s.active
  {
    var t := Move(s, id, RUNNING, now, Null, None);
    if s.active[id].cancelled.Some? then Stopped(t, id, now, s.active[id].cancelled.value)
    else t.(active := t.active[id := Task(Dispatching, None)])
  }

  function Returned(s: State, id: JobId, value: Json, writeFails: bool, now: real): State
    requires id in s.repo.records && id in s.repo.history && id in s.active
  {
    if s.active[id].cancelled.Some? then Stopped(s, id, now, s.active[id].cancelled.value)
    else
      var t := if writeFails then Publish(s, CacheWriteFailed, id) else s;
      Finish(Move(t, id, COMPLETED, now, value, None), id)
  }

  /** Whether a raised error leads to another attempt. */
  predicate CanRetry(c: Settings, r: JobRecord, retryable: bool)
  {
    r.attempt + 1 < r.spec.maxAttempts && r.attempt + 1 < c.policyAttempts && retryable
  }

  function Raised(c: Settings, s: State, id: JobId, error: Json, retryable: bool, now: real): State
    requires id in s.repo.records && id in s.repo.history && id in s.active
  {
    if CanRetry(c, s.repo.records[id], retryable) then
      var t := Publish(ReleaseLease(s, id), JobRetrying, id);
      t.(active := t.active[id := Task(Sleeping(error), s.active[id].cancelled)])
    else Finish(Move(s, id, FAILED, now, Null, Some(error)), id)
  }

  /** A retry record, queued and published. */
  function Requeued(s: State, id: JobId, r: JobRecord): State
    requires id in s.repo.history
  {
    Enqueued(Revise(s, id, r), r)
  }

  function Woken(c: Settings, s: State, id: JobId, now: real): State
    requires id in s.repo.records && id in s.repo.history && id in s.active && s.active[id].phase.Sleeping?
  {
    var r, task := s.repo.records[id], s.active[id];
    if task.cancelled.Some? then Stopped(s, id, now, task.cancelled.value)
    else if !Room(c.queues, s.waiting, r.spec.queue) then Finish(Move(s, id, FAILED, now, Null, Some(BACKPRESSURE_ERROR)), id)
    else
      match RetryRecord(r, r.status, now, Some(task.phase.error))
      case Ok(updated) => Finish(Requeued(s, id, updated), id)
      case Err(_) => s
  }

  function Cancelled(s: State, id: JobId, reason: string, now: real): State
  {
    if id !in s.repo.records || id !in s.repo.history || Terminal(s.repo.records[id].status) then s
    else if s.repo.records[id].status == QUEUED then
      Move(s.(waiting := Removed(s.waiting, id)), id, CANCELLED, now, Null, Some(Str(reason)))
    else if id !in s.active || s.active[id].cancelled.Some? then s
    else s.(active := s.active[id := s.active[id].(cancelled := Some(reason))])
  }

  function Retried(c: Settings, s: State, id: JobId, now: real): State
  {
    if id !in s.repo.records || id !in s.repo.history || !Room(c.queues, s.waiting, s.repo.records[id].spec.queue) then s
    else
      match RetryRecord(s.repo.records[id], FAILED, now, None)
      case Ok(updated) => Requeued(s, id, updated)
      case Err(_) => s
  }

  ghost predicate Enabled(c: Settings, s: State, step: Step, now: real)
  {
    && now >= s.now && s.repo.records.Keys == s.repo.history.Keys
    && match step
       case Submit(spec) => ValidSubmission(spec)
       case Cancel(_, _) => true
       case Retry(_) => true
       case Launch(id, _) => |s.active| < c.maxConcurrency && Queues.Next(s.waiting, now, c.queues.rate, id) && id in s.repo.records
       case Start(id) => id in s.active && s.active[id].phase.Starting? && id in s.repo.records
       case Return(id, _, _) => id in s.active && s.active[id].phase.Dispatching? && id in s.repo.records
       case Interrupt(id, _) => id in s.active && s.active[id].phase.Dispatching? && id in s.repo.records
       case Raise(id, _, _) => id in s.active && s.active[id].phase.Dispatching? && id in s.repo.records
       case Wake(id) => id in s.active && s.active[id].phase.Sleeping? && id in s.repo.records
  }

  /** One atomic step, at the given clock reading. */
  ghost function Apply(c: Settings, s0: State, step: Step, now: real): State
    requires Enabled(c, s0, step, now)
  {
    var s := s0.(now := now);
    match step
    case Submit(spec) => Submitted(c, s, spec, now)
    case Cancel(id, reason) => Cancelled(s, id, reason, now)
    case Retry(id) => Retried(c, s, id, now)
    case Launch(id, hit) => Launched(c, s, id, hit, now)
    case Start(id) => Started(s, id, now)
    case Return(id, value, writeFails) => Returned(s, id, value, writeFails, now)
    case Interrupt(id, reason) => Stopped(s, id, now, if s.active[id].cancelled.Some? then s.active[id].cancelled.value else reason)
    case Raise(id, error, retryable) => Raised(c, s, id, error, retryable, now)
    case Wake(id) => Woken(c, s, id, now)
  }

  // ----- The invariant -----

  /** Where a job may be seen, by its status. */
  ghost predicate JobOk(s: State, id: JobId)
  {
    if id !in s.repo.records then id !in s.waiting.items && id !in s.active && id !in s.reservations
    else
      var r := s.repo.records[id];
      && (id in s.waiting.items <==> r.status == QUEUED)
      && (r.status == QUEUED ==> s.waiting.items[id].item == ItemOf(r))
      && (id in s.active <==> r.status in {PREPARING, RUNNING})
      && (id in s.active ==> PhaseOk(r, s.active[id]))
      && (id in s.reservations <==> id in s.active && !s.active[id].phase.Sleeping? && r.spec.estimate.Some?)
  }

  ghost predicate PhaseOk(r: JobRecord, task: Task)
  {
    && (task.phase.Starting? <==> r.status == PREPARING)
    && (task.phase.Sleeping? ==> r.attempt + 1 < r.spec.maxAttempts)
  }

  /** The broker's live leases are exactly the scheduler's, one per job. */
  ghost predicate LeasesMatch(reservations: map<JobId, Lease>, leases: seq<Lease>)
  {
    && (forall id :: id in reservations ==> reservations[id] in leases)
    && (forall l :: l in leases ==> exists id :: id in reservations && reservations[id] == l)
    && (forall a, b :: a in reservations && b in reservations && reservations[a].id == reservations[b].id ==> a == b)
  }

  ghost predicate TimesOk(repo: Repo, now: real)
  {
    now >= 0.0 && forall id :: id in repo.records ==> repo.records[id].updatedAt <= now
  }

  ghost predicate Books(c: Settings, s: State)
  {
    && RepoOk(s.repo) && (forall id :: TrailMatches(s.repo, s.journal, id)) && TimesOk(s.repo, s.now)
  }

  ghost predicate Stores(c: Settings, s: State)
  {
    Orderly(c.queues, s.waiting) && Sound(c.limits, s.ledger) && LeasesMatch(s.reservations, s.ledger.leases)
  }

  ghost predicate Inv(c: Settings, s: State)
  {
    && Books(c, s) && Stores(c, s) && |s.active| <= c.maxConcurrency
    && forall id :: JobOk(s, id)
  }

  /** Only the given job is touched. */
  ghost predicate OnlyJob(s: State, t: State, id: JobId)
  {
    forall k :: k != id ==> SameJob(s, t, k)
  }

  ghost predicate SameJob(s: State, t: State, k: JobId)
  {
    && (k in s.repo.records <==> k in t.repo.records) && (k in s.repo.records && k in t.repo.records ==> s.repo.records[k] == t.repo.records[k])
    && (k in s.waiting.items <==> k in t.waiting.items) && (k in s.waiting.items && k in t.waiting.items ==> s.waiting.items[k] == t.waiting.items[k])
    && (k in s.active <==> k in t.active) && (k in s.active && k in t.active ==> s.active[k] == t.active[k])
    && (k in s.reservations <==> k in t.reservations)
  }

  // ----- Books: repository, journal and clock -----

  /** The event does not tell about any job's status. */
  lemma PublishKeepsBooks(c: Settings, s: State, kind: EventKind, id: JobId)
    requires Books(c, s) && !kind.StatusEvent?
    ensures Books(c, Publish(s, kind, id))
  {
    forall k
      ensures TrailMatches(s.repo, s.journal + [Event(kind, id)], k)
    {
      TrailGrows(s.journal, Event(kind, id), k);
      assert TrailMatches(s.repo, s.journal, k);
    }
  }

  lemma StatusesGrow(h: seq<JobRecord>, r: JobRecord)
    ensures Statuses(h + [r]) == Statuses(h) + [r.status]
  {
  }

  lemma ReviseKeepsBooks(c: Settings, s: State, id: JobId, r: JobRecord)
    requires Books(c, s) && id in s.repo.records && Follows(s.repo.records[id], r) && r.updatedAt <= s.now
    ensures Books(c, Revise(s, id, r))
  {
    RevisedOk(s.repo, id, r);
    var t := Revise(s, id, r);
    forall k
      ensures TrailMatches(t.repo, t.journal, k)
    {
      TrailGrows(s.journal, Event(StatusEvent(r.status), id), k);
      StatusesGrow(s.repo.history[id], r);
      assert TrailMatches(s.repo, s.journal, k);
    }
  }

  /** A permitted move: the record takes the new status, keeps its job and attempt, and the
      books stay right. */
  lemma MoveHolds(c: Settings, s: State, id: JobId, target: Status, now: real, result: Json, error: Option<Json>) returns (t: State)
    requires Books(c, s) && id in s.repo.records && now == s.now && target in Successors(s.repo.records[id].status)
    requires result == Null || target == COMPLETED
    requires error.None? || target in {FAILED, CANCELLED}
    ensures t == Move(s, id, target, now, result, error) && Books(c, t)
    ensures t == s.(repo := t.repo, journal := t.journal) && MovedTo(s.repo, t.repo, id, target)
  {
    hide Books, TransitionRecord, Follows, Move;
    KnownTimes(c, s, id);
    var updated := Permitted(s.repo.records[id], target, now, result, error);
    MoveIsRevise(s, id, target, now, result, error, updated);
    t := Revise(s, id, updated);
    ReviseKeepsBooks(c, s, id, updated);
  }

  lemma KnownTimes(c: Settings, s: State, id: JobId)
    requires Books(c, s) && id in s.repo.records
    ensures id in s.repo.history && s.repo.records[id].updatedAt <= s.now
  {
  }

  lemma MoveIsRevise(s: State, id: JobId, target: Status, now: real, result: Json, error: Option<Json>, updated: JobRecord)
    requires id in s.repo.records && id in s.repo.history
    requires TransitionRecord(s.repo.records[id], s.repo.records[id].status, target, now, result, error) == Ok(updated)
    ensures Move(s, id, target, now, result, error) == Revise(s, id, updated)
  {
  }

  lemma Permitted(r: JobRecord, target: Status, now: real, result: Json, error: Option<Json>) returns (updated: JobRecord)
    requires target in Successors(r.status) && r.updatedAt <= now
    requires (result == Null || target == COMPLETED) && (error.None? || target in {FAILED, CANCELLED})
    ensures TransitionRecord(r, r.status, target, now, result, error) == Ok(updated) && Follows(r, updated)
    ensures updated.status == target && updated.spec == r.spec && updated.attempt == r.attempt && updated.updatedAt == now
  {
    updated := TransitionRecord(r, r.status, target, now, result, error).value;
  }

  /** One record changed its status, and nothing else about where it is queued. */
  ghost predicate MovedTo(before: Repo, after: Repo, id: JobId, target: Status)
  {
    && id in before.records && id in after.records && after.records.Keys == before.records.Keys
    && (forall k :: k in before.records && k != id ==> after.records[k] == before.records[k])
    && after.records[id].status == target && after.records[id].spec == before.records[id].spec
    && after.records[id].attempt == before.records[id].attempt
  }

  // ----- All jobs but one are in order -----

  ghost predicate Almost(c: Settings, s: State, id: JobId)
  {
    && Books(c, s) && Stores(c, s) && |s.active| <= c.maxConcurrency
    && forall k :: k != id ==> JobOk(s, k)
  }

  lemma InvSplit(c: Settings, s: State, id: JobId)
    ensures Inv(c, s) <==> Almost(c, s, id) && JobOk(s, id)
  {
  }

  /** Steps of the clock alone. */
  lemma ClockHolds(c: Settings, s: State, now: real)
    requires Inv(c, s) && now >= s.now
    ensures Inv(c, s.(now := now))
  {
    var t := s.(now := now);
    forall k
      ensures JobOk(t, k) && TrailMatches(t.repo, t.journal, k)
    {
      assert JobOk(s, k) && TrailMatches(s.repo, s.journal, k);
    }
  }

  lemma AlmostFrame(c: Settings, s: State, t: State, id: JobId)
    requires Almost(c, s, id) && Books(c, t) && Stores(c, t) && |t.active| <= c.maxConcurrency && OnlyJob(s, t, id)
    ensures Almost(c, t, id)
  {
    forall k | k != id
      ensures JobOk(t, k)
    {
      assert JobOk(s, k) && SameJob(s, t, k);
    }
  }

  lemma SameStores(c: Settings, s: State, t: State)
    requires Stores(c, s) && t.waiting == s.waiting && t.ledger == s.ledger && t.reservations == s.reservations
    ensures Stores(c, t)
  {
  }

  /** A change to the repository entry of one job. */
  lemma EntryTouchesOnly(s: State, t: State, id: JobId)
    requires t == s.(repo := t.repo, journal := t.journal)
    requires forall k :: k != id ==> (k in s.repo.records <==> k in t.repo.records)
    requires forall k :: k != id && k in s.repo.records ==> t.repo.records[k] == s.repo.records[k]
    ensures OnlyJob(s, t, id)
  {
  }

  /** A change to the queue entry of one job. */
  lemma QueueTouchesOnly(s: State, t: State, id: JobId)
    requires t == s.(waiting := t.waiting)
    requires forall k :: k != id ==> (k in s.waiting.items <==> k in t.waiting.items)
    requires forall k :: k != id && k in s.waiting.items ==> t.waiting.items[k] == s.waiting.items[k]
    ensures OnlyJob(s, t, id)
  {
  }

  /** A change to the attempt and the lease of one job. */
  lemma AttemptTouchesOnly(s: State, t: State, id: JobId)
    requires t == s.(active := t.active, reservations := t.reservations, ledger := t.ledger)
    requires forall k :: k != id ==> (k in s.active <==> k in t.active) && (k in s.reservations <==> k in t.reservations)
    requires forall k :: k != id && k in s.active ==> t.active[k] == s.active[k]
    ensures OnlyJob(s, t, id)
  {
  }

  lemma MoveAlmost(c: Settings, s: State, id: JobId, target: Status, now: real, result: Json, error: Option<Json>) returns (t: State)
    requires Almost(c, s, id) && id in s.repo.records && now == s.now && target in Successors(s.repo.records[id].status)
    requires result == Null || target == COMPLETED
    requires error.None? || target in {FAILED, CANCELLED}
    ensures t == Move(s, id, target, now, result, error) && Almost(c, t, id)
    ensures t == s.(repo := t.repo, journal := t.journal) && MovedTo(s.repo, t.repo, id, target)
  {
    t := MoveHolds(c, s, id, target, now, result, error);
    EntryTouchesOnly(s, t, id);
    SameStores(c, s, t);
    AlmostFrame(c, s, t, id);
  }

  lemma ReviseAlmost(c: Settings, s: State, id: JobId, r: JobRecord)
    requires Almost(c, s, id) && id in s.repo.records && Follows(s.repo.records[id], r) && r.updatedAt <= s.now
    ensures Almost(c, Revise(s, id, r), id)
  {
    ReviseKeepsBooks(c, s, id, r);
    EntryTouchesOnly(s, Revise(s, id, r), id);
    SameStores(c, s, Revise(s, id, r));
    AlmostFrame(c, s, Revise(s, id, r), id);
  }

  lemma PublishAlmost(c: Settings, s: State, kind: EventKind, id: JobId)
    requires Almost(c, s, id) && !kind.StatusEvent?
    ensures Almost(c, Publish(s, kind, id), id)
  {
    PublishKeepsBooks(c, s, kind, id);
    AlmostFrame(c, s, Publish(s, kind, id), id);
  }

  lemma SameBooks(c: Settings, s: State, t: State)
    requires Books(c, s) && t.repo == s.repo && t.journal == s.journal && t.now == s.now
    ensures Books(c, t)
  {
    forall k
      ensures TrailMatches(t.repo, t.journal, k)
    {
      assert TrailMatches(s.repo, s.journal, k);
    }
  }

  lemma EnqueueAlmost(c: Settings, s: State, item: Item, id: JobId)
    requires Almost(c, s, id) && item.jobId == id && id !in s.waiting.items && Room(c.queues, s.waiting, item.queue)
    ensures Almost(c, s.(waiting := Queues.Put(s.waiting, item)), id)
  {
    var t := s.(waiting := Queues.Put(s.waiting, item));
    PutKeepsOrder(c.queues, s.waiting, item);
    SameBooks(c, s, t);
    QueueTouchesOnly(s, t, id);
    AlmostFrame(c, s, t, id);
  }

  lemma RemoveAlmost(c: Settings, s: State, id: JobId)
    requires Almost(c, s, id)
    ensures Almost(c, s.(waiting := Removed(s.waiting, id)), id)
  {
    var t := s.(waiting := Removed(s.waiting, id));
    RemoveKeepsOrder(c.queues, s.waiting, id);
    SameBooks(c, s, t);
    QueueTouchesOnly(s, t, id);
    AlmostFrame(c, s, t, id);
  }

  lemma ActivateAlmost(c: Settings, s: State, id: JobId, task: Task)
    requires Almost(c, s, id) && (id in s.active || |s.active| < c.maxConcurrency)
    ensures Almost(c, s.(active := s.active[id := task]), id)
  {
    var t := s.(active := s.active[id := task]);
    ActiveCount(s.active, id, task);
    SameBooks(c, s, t);
    SameStores(c, s, t);
    AttemptTouchesOnly(s, t, id);
    AlmostFrame(c, s, t, id);
  }

  lemma ActiveCount(active: map<JobId, Task>, id: JobId, task: Task)
    ensures |active[id := task]| == |active| + if id in active then 0 else 1
    ensures |active - {id}| == |active| - if id in active then 1 else 0
  {
    assert active[id := task].Keys == active.Keys + {id};
    assert (active - {id}).Keys == active.Keys - {id};
    assert |active| == |active.Keys| && |active[id := task]| == |active[id := task].Keys|;
    assert |active - {id}| == |(active - {id}).Keys|;
  }

  lemma ReserveStores(c: Settings, s: State, id: JobId, d: Demand)
    requires Stores(c, s) && id !in s.reservations && FitsNow(d, c.limits, s.ledger.leases)
    ensures Stores(c, Reserved(s, id, d))
  {
    hide Conserved, Orderly, FitsNow, LeasesMatch;
    var lease := Lease(s.ledger.next, d);
    GrantConserves(c.limits, s.ledger.leases, lease);
    LeaseMatches(s.reservations, s.ledger.leases, id, lease);
  }

  lemma LeaseMatches(reservations: map<JobId, Lease>, leases: seq<Lease>, id: JobId, lease: Lease)
    requires LeasesMatch(reservations, leases) && id !in reservations && forall l :: l in leases ==> l.id != lease.id
    ensures LeasesMatch(reservations[id := lease], leases + [lease])
  {
    var after := reservations[id := lease];
    forall l | l in leases + [lease]
      ensures exists k :: k in after && after[k] == l
    {
      if l in leases {
        var k :| k in reservations && reservations[k] == l;
        assert after[k] == l;
      } else {
        assert after[id] == l;
      }
    }
  }

  lemma ReserveAlmost(c: Settings, s: State, id: JobId, d: Demand)
    requires Almost(c, s, id) && id !in s.reservations && FitsNow(d, c.limits, s.ledger.leases)
    ensures Almost(c, Reserved(s, id, d), id)
  {
    ReserveStores(c, s, id, d);
    SameBooks(c, s, Reserved(s, id, d));
    AttemptTouchesOnly(s, Reserved(s, id, d), id);
    AlmostFrame(c, s, Reserved(s, id, d), id);
  }

  /** Releasing the lease of a job, and nobody else's. */
  lemma ReleaseStores(c: Settings, s: State, id: JobId)
    requires Stores(c, s)
    ensures Stores(c, ReleaseLease(s, id)) && id !in ReleaseLease(s, id).reservations
  {
    if id in s.reservations {
      var lease := s.reservations[id];
      AfterIsSound(c.limits, s.ledger, Op.Release(lease.id));
      var t := ReleaseLease(s, id);
      forall l
        ensures l in t.ledger.leases <==> l in s.ledger.leases && l.id != lease.id
      {
        WithoutMembers(s.ledger.leases, lease.id, l);
      }
      forall l | l in t.ledger.leases
        ensures exists k :: k in t.reservations && t.reservations[k] == l
      {
        var k :| k in s.reservations && s.reservations[k] == l;
        assert k in t.reservations && t.reservations[k] == l;
      }
    }
  }

  lemma ReleaseAlmost(c: Settings, s: State, id: JobId)
    requires Almost(c, s, id)
    ensures Almost(c, ReleaseLease(s, id), id) && id !in ReleaseLease(s, id).reservations
  {
    ReleaseStores(c, s, id);
    SameBooks(c, s, ReleaseLease(s, id));
    AttemptTouchesOnly(s, ReleaseLease(s, id), id);
    AlmostFrame(c, s, ReleaseLease(s, id), id);
  }

  lemma FinishAlmost(c: Settings, s: State, id: JobId)
    requires Almost(c, s, id)
    ensures Almost(c, Finish(s, id), id) && id !in Finish(s, id).reservations && id !in Finish(s, id).active
  {
    ReleaseAlmost(c, s, id);
    var t := ReleaseLease(s, id);
    ActiveCount(t.active, id, Task(Starting, None));
    SameBooks(c, t, Finish(s, id));
    SameStores(c, t, Finish(s, id));
    AttemptTouchesOnly(t, Finish(s, id), id);
    AlmostFrame(c, t, Finish(s, id), id);
  }

  // ----- Every step keeps the invariant -----

  lemma EndedJobOk(t: State, id: JobId)
    requires id in t.repo.records && Terminal(t.repo.records[id].status) && id !in t.waiting.items
    ensures JobOk(Finish(t, id), id)
  {
  }

  /** The end of an attempt: a final status, and nothing left behind. */
  lemma EndHolds(c: Settings, s: State, id: JobId, target: Status, now: real, result: Json, error: Option<Json>)
    requires Almost(c, s, id) && id in s.repo.records && now == s.now && id !in s.waiting.items
    requires target in Successors(s.repo.records[id].status) && Terminal(target)
    requires result == Null || target == COMPLETED
    requires error.None? || target in {FAILED, CANCELLED}
    ensures Inv(c, Finish(Move(s, id, target, now, result, error), id))
  {
    hide Books, Stores, Almost, Move, Finish, JobOk, Inv;
    var t := MoveAlmost(c, s, id, target, now, result, error);
    FinishAlmost(c, t, id);
    EndedJobOk(t, id);
    InvSplit(c, Finish(t, id), id);
  }

  lemma SubmitHolds(c: Settings, s: State, spec: Submission, now: real)
    requires Inv(c, s) && now == s.now && ValidSubmission(spec)
    ensures Inv(c, Submitted(c, s, spec, now))
  {
    if Room(c.queues, s.waiting, spec.queue) && spec.jobId !in s.repo.records {
      var id, r := spec.jobId, FromSubmission(spec, now);
      assert JobOk(s, id);
      InvSplit(c, s, id);
      EnqueueAlmost(c, s, ItemOf(r), id);
      var q := s.(waiting := Queues.Put(s.waiting, ItemOf(r)));
      PublishAlmost(c, q, JobCreated, id);
      CreateAlmost(c, Publish(q, JobCreated, id), spec, now);
      var t := Submitted(c, s, spec, now);
      assert t == Welcomed(Publish(q, JobCreated, id), r);
      assert JobOk(t, id);
      InvSplit(c, t, id);
    }
  }

  /** A new record with its first status event. */
  function Welcomed(s: State, r: JobRecord): State
  {
    s.(repo := Created(s.repo, r), journal := s.journal + [Event(StatusEvent(r.status), r.spec.jobId)])
  }

  lemma CreateAlmost(c: Settings, s: State, spec: Submission, now: real)
    requires Almost(c, s, spec.jobId) && ValidSubmission(spec) && now == s.now && spec.jobId !in s.repo.records
    ensures Almost(c, Welcomed(s, FromSubmission(spec, now)), spec.jobId)
  {
    var r := FromSubmission(spec, now);
    var t := Welcomed(s, r);
    WelcomeKeepsBooks(c, s, spec, now);
    EntryTouchesOnly(s, t, spec.jobId);
    SameStores(c, s, t);
    AlmostFrame(c, s, t, spec.jobId);
  }

  lemma WelcomeKeepsBooks(c: Settings, s: State, spec: Submission, now: real)
    requires Books(c, s) && ValidSubmission(spec) && now == s.now && spec.jobId !in s.repo.records
    ensures Books(c, Welcomed(s, FromSubmission(spec, now)))
  {
    var r := FromSubmission(spec, now);
    CreatedOk(s.repo, spec, now);
    var t := Welcomed(s, r);
    forall k
      ensures TrailMatches(t.repo, t.journal, k)
    {
      TrailGrows(s.journal, Event(StatusEvent(r.status), spec.jobId), k);
      assert TrailMatches(s.repo, s.journal, k);
      assert k == spec.jobId ==> Statuses(t.repo.history[k]) == [QUEUED];
    }
  }

  lemma CancelHolds(c: Settings, s: State, id: JobId, reason: string, now: real)
    requires Inv(c, s) && now == s.now
    ensures Inv(c, Cancelled(s, id, reason, now))
  {
    InvSplit(c, s, id);
    assert JobOk(s, id);
    if id in s.repo.records && !Terminal(s.repo.records[id].status) {
      if s.repo.records[id].status == QUEUED {
        RemoveAlmost(c, s, id);
        var q := s.(waiting := Removed(s.waiting, id));
        var t := MoveAlmost(c, q, id, CANCELLED, now, Null, Some(Str(reason)));
        assert JobOk(t, id);
        InvSplit(c, t, id);
      } else if s.active[id].cancelled.None? {
        var task := s.active[id].(cancelled := Some(reason));
        ActivateAlmost(c, s, id, task);
        var t := s.(active := s.active[id := task]);
        assert JobOk(t, id);
        InvSplit(c, t, id);
      }
    }
  }

  lemma RequeuedJobOk(t: State, id: JobId)
    requires id in t.repo.records && t.repo.records[id].status == QUEUED
    requires id in t.waiting.items && t.waiting.items[id].item == ItemOf(t.repo.records[id])
    ensures JobOk(Finish(t, id), id)
  {
  }

  lemma KnownJob(c: Settings, s: State, id: JobId)
    requires Almost(c, s, id) && id in s.repo.records
    ensures id in s.repo.history && s.repo.records[id].spec.jobId == id
  {
    assert EntryOk(id, s.repo.records[id], s.repo.history[id]);
  }

  /** A permitted retry goes back to the queue under the next attempt. */
  lemma RequeueHolds(c: Settings, s: State, id: JobId, expected: Status, now: real, error: Option<Json>, r: JobRecord)
    requires Almost(c, s, id) && id in s.repo.records && now == s.now && id !in s.waiting.items
    requires id !in s.reservations
    requires RetryRecord(s.repo.records[id], expected, now, error) == Ok(r) && Room(c.queues, s.waiting, r.spec.queue)
    ensures Inv(c, Finish(Requeued(s, id, r), id))
  {
    hide Books, Stores, Almost, Room;
    KnownJob(c, s, id);
    assert Follows(s.repo.records[id], r);
    ReviseAlmost(c, s, id, r);
    var t := Revise(s, id, r);
    EnqueueAlmost(c, t, ItemOf(r), id);
    var u := Requeued(s, id, r);
    FinishAlmost(c, u, id);
    RequeuedJobOk(u, id);
    InvSplit(c, Finish(u, id), id);
  }

  lemma FinishNothing(s: State, id: JobId)
    requires id !in s.active && id !in s.reservations
    ensures Finish(s, id) == s
  {
    assert s.active - {id} == s.active;
  }

  lemma RetryHolds(c: Settings, s: State, id: JobId, now: real)
    requires Inv(c, s) && now == s.now
    ensures Inv(c, Retried(c, s, id, now))
  {
    InvSplit(c, s, id);
    assert JobOk(s, id);
    if id in s.repo.records && Room(c.queues, s.waiting, s.repo.records[id].spec.queue) {
      var outcome := RetryRecord(s.repo.records[id], FAILED, now, None);
      if outcome.Ok? {
        RequeueHolds(c, s, id, FAILED, now, None, outcome.value);
        FinishNothing(Requeued(s, id, outcome.value), id);
      }
    }
  }

  lemma BeginHolds(c: Settings, s: State, id: JobId, now: real)
    requires Almost(c, s, id) && id in s.repo.records && now == s.now && s.repo.records[id].status == QUEUED
    requires id !in s.waiting.items && id !in s.active && |s.active| < c.maxConcurrency
    requires id in s.reservations <==> s.repo.records[id].spec.estimate.Some?
    ensures Inv(c, Begun(s, id, now))
  {
    var t := MoveAlmost(c, s, id, PREPARING, now, Null, None);
    ActivateAlmost(c, t, id, Task(Starting, None));
    var u := t.(active := t.active[id := Task(Starting, None)]);
    assert JobOk(u, id);
    InvSplit(c, u, id);
  }

  lemma CacheHitHolds(c: Settings, s: State, id: JobId, now: real, value: Json)
    requires Almost(c, s, id) && id in s.repo.records && now == s.now && s.repo.records[id].status == QUEUED
    requires id !in s.waiting.items && id !in s.active && id !in s.reservations
    ensures Inv(c, FromCache(s, id, now, value))
  {
    hide Books, Stores, Almost, Move;
    var t := MoveAlmost(c, s, id, PREPARING, now, Null, None);
    var u := MoveAlmost(c, t, id, RUNNING, now, Null, None);
    var w := MoveAlmost(c, u, id, COMPLETED, now, value, None);
    assert JobOk(w, id);
    InvSplit(c, w, id);
  }

  lemma LaunchHolds(c: Settings, s: State, id: JobId, hit: Option<Json>, now: real)
    requires Inv(c, s) && now == s.now && id in s.waiting.items && |s.active| < c.maxConcurrency
    ensures id in s.repo.records && s.repo.records[id].status == QUEUED && Inv(c, Launched(c, s, id, hit, now))
  {
    InvSplit(c, s, id);
    assert JobOk(s, id);
    RemoveAlmost(c, s, id);
    var t := s.(waiting := Removed(s.waiting, id));
    var spec := s.repo.records[id].spec;
    if spec.cacheKey.Some? && hit.Some? {
      CacheHitHolds(c, t, id, now, hit.value);
    } else if spec.estimate.None? {
      BeginHolds(c, t, id, now);
    } else {
      LaunchWithEstimate(c, s, t, id, now);
    }
  }

  lemma LaunchWithEstimate(c: Settings, s: State, t: State, id: JobId, now: real)
    requires Inv(c, s) && now == s.now && id in s.waiting.items && |s.active| < c.maxConcurrency
    requires id in s.repo.records && s.repo.records[id].status == QUEUED && s.repo.records[id].spec.estimate.Some?
    requires t == s.(waiting := Removed(s.waiting, id)) && Almost(c, t, id)
    ensures var e := s.repo.records[id].spec.estimate.value;
            var grant := Grant(e, c.limits, s.ledger.leases);
            Inv(c, if grant.Some? then Begun(Reserved(t, id, grant.value.1), id, now)
                   else if Waitable(e, c.limits).Some? then Publish(t.(waiting := Queues.Put(t.waiting, s.waiting.items[id].item)), JobDeferred, id)
                   else Move(t, id, FAILED, now, Null, Some(ADMISSION_ERROR)))
  {
    assert JobOk(s, id);
    var e := s.repo.records[id].spec.estimate.value;
    var grant := Grant(e, c.limits, s.ledger.leases);
    if grant.Some? {
      GrantFits(e, c.limits, s.ledger.leases);
      ReserveAlmost(c, t, id, grant.value.1);
      BeginHolds(c, Reserved(t, id, grant.value.1), id, now);
    } else if Waitable(e, c.limits).Some? {
      DeferHolds(c, s, t, id);
    } else {
      var u := MoveAlmost(c, t, id, FAILED, now, Null, Some(ADMISSION_ERROR));
      assert JobOk(u, id);
      InvSplit(c, u, id);
    }
  }

  /** A deferred item goes back, behind its equals. */
  lemma DeferHolds(c: Settings, s: State, t: State, id: JobId)
    requires Inv(c, s) && id in s.waiting.items && t == s.(waiting := Removed(s.waiting, id)) && Almost(c, t, id)
    ensures Inv(c, Publish(t.(waiting := Queues.Put(t.waiting, s.waiting.items[id].item)), JobDeferred, id))
  {
    var item := s.waiting.items[id].item;
    assert JobOk(s, id);
    PutBackFits(c.queues, s.waiting, id);
    EnqueueAlmost(c, t, item, id);
    var u := t.(waiting := Queues.Put(t.waiting, item));
    PublishAlmost(c, u, JobDeferred, id);
    var w := Publish(u, JobDeferred, id);
    assert JobOk(w, id);
    InvSplit(c, w, id);
  }

  lemma StartHolds(c: Settings, s: State, id: JobId, now: real)
    requires Inv(c, s) && now == s.now && id in s.active && s.active[id].phase.Starting? && id in s.repo.records
    ensures Inv(c, Started(s, id, now))
  {
    InvSplit(c, s, id);
    assert JobOk(s, id);
    var t := MoveAlmost(c, s, id, RUNNING, now, Null, None);
    if s.active[id].cancelled.Some? {
      EndHolds(c, t, id, CANCELLED, now, Null, Some(Str(s.active[id].cancelled.value)));
    } else {
      ActivateAlmost(c, t, id, Task(Dispatching, None));
      var u := t.(active := t.active[id := Task(Dispatching, None)]);
      assert JobOk(u, id);
      InvSplit(c, u, id);
    }
  }

  lemma ReturnHolds(c: Settings, s: State, id: JobId, value: Json, writeFails: bool, now: real)
    requires Inv(c, s) && now == s.now && id in s.active && s.active[id].phase.Dispatching? && id in s.repo.records
    ensures Inv(c, Returned(s, id, value, writeFails, now))
  {
    InvSplit(c, s, id);
    assert JobOk(s, id);
    if s.active[id].cancelled.Some? {
      EndHolds(c, s, id, CANCELLED, now, Null, Some(Str(s.active[id].cancelled.value)));
    } else {
      if writeFails { PublishAlmost(c, s, CacheWriteFailed, id); }
      EndHolds(c, if writeFails then Publish(s, CacheWriteFailed, id) else s, id, COMPLETED, now, value, None);
    }
  }

  lemma RaiseHolds(c: Settings, s: State, id: JobId, error: Json, retryable: bool, now: real)
    requires Inv(c, s) && now == s.now && id in s.active && s.active[id].phase.Dispatching? && id in s.repo.records
    ensures Inv(c, Raised(c, s, id, error, retryable, now))
  {
    InvSplit(c, s, id);
    assert JobOk(s, id);
    if CanRetry(c, s.repo.records[id], retryable) {
      ReleaseAlmost(c, s, id);
      PublishAlmost(c, ReleaseLease(s, id), JobRetrying, id);
      var t := Publish(ReleaseLease(s, id), JobRetrying, id);
      var task := Task(Sleeping(error), s.active[id].cancelled);
      ActivateAlmost(c, t, id, task);
      var u := t.(active := t.active[id := task]);
      assert JobOk(u, id);
      InvSplit(c, u, id);
    } else {
      EndHolds(c, s, id, FAILED, now, Null, Some(error));
    }
  }

  lemma WakeHolds(c: Settings, s: State, id: JobId, now: real)
    requires Inv(c, s) && now == s.now && id in s.active && s.active[id].phase.Sleeping? && id in s.repo.records
    ensures Inv(c, Woken(c, s, id, now))
  {
    InvSplit(c, s, id);
    assert JobOk(s, id);
    var r := s.repo.records[id];
    if s.active[id].cancelled.Some? {
      EndHolds(c, s, id, CANCELLED, now, Null, Some(Str(s.active[id].cancelled.value)));
    } else if !Room(c.queues, s.waiting, r.spec.queue) {
      EndHolds(c, s, id, FAILED, now, Null, Some(BACKPRESSURE_ERROR));
    } else {
      var outcome := RetryRecord(r, r.status, now, Some(s.active[id].phase.error));
      assert outcome.Ok?;
      RequeueHolds(c, s, id, r.status, now, Some(s.active[id].phase.error), outcome.value);
    }
  }

  lemma EndActiveHolds(c: Settings, s: State, id: JobId, reason: string, now: real)
    requires Inv(c, s) && now == s.now && id in s.active && id in s.repo.records
    ensures Inv(c, Stopped(s, id, now, reason))
  {
    InvSplit(c, s, id);
    assert JobOk(s, id);
    EndHolds(c, s, id, CANCELLED, now, Null, Some(Str(reason)));
  }

  /** The invariant holds after every step. */
  lemma StepKeepsInvariant(c: Settings, s: State, step: Step, now: real)
    requires Inv(c, s) && Enabled(c, s, step, now)
    ensures Inv(c, Apply(c, s, step, now))
  {
    ClockHolds(c, s, now);
    var t := s.(now := now);
    match step
    case Submit(spec) => SubmitHolds(c, t, spec, now);
    case Cancel(id, reason) => CancelHolds(c, t, id, reason, now);
    case Retry(id) => RetryHolds(c, t, id, now);
    case Launch(id, hit) => LaunchHolds(c, t, id, hit, now);
    case Start(id) => StartHolds(c, t, id, now);
    case Return(id, value, writeFails) => ReturnHolds(c, t, id, value, writeFails, now);
    case Interrupt(id, reason) =>
      EndActiveHolds(c, t, id, if t.active[id].cancelled.Some? then t.active[id].cancelled.value else reason, now);
    case Raise(id, error, retryable) => RaiseHolds(c, t, id, error, retryable, now);
    case Wake(id) => WakeHolds(c, t, id, now);
  }
}
