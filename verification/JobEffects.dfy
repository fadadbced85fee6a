/** What each step of the scheduler does to its job, said of the record, the queue entry and the
    attempt, and what becomes of a result over whole runs
    (src/comfyng/scheduler/scheduler.py:184-585, src/comfyng/core/jobs.py). */
module JobEffects {
  import opened Graphs
  import opened Budgets
  import opened Broker
  import opened Queues
  import opened Jobs
  import opened Journal
  import opened SchedulerModel
  import opened SchedulerRuns
  import opened SchedulerHistory

  // ----- The reading -----

  /** The record of the same attempt, `revisions` transitions later. */
  ghost predicate Rewritten(r: JobRecord, r': JobRecord, revisions: nat, status: Status, now: real, result: Json, error: Option<Json>)
  {
    && r'.spec == r.spec && r'.attempt == r.attempt && r'.revision == r.revision + revisions
    && r'.createdAt == r.createdAt && r'.queuedAt == r.queuedAt && r'.updatedAt == now
    && r'.status == status && r'.result == result && r'.error == error
    && r'.finishedAt == (if status in {COMPLETED, FAILED, CANCELLED} then Some(now) else None)
  }

  /** The record of the next attempt, queued. */
  ghost predicate NextAttempt(r: JobRecord, r': JobRecord, now: real, error: Option<Json>)
  {
    && r'.spec == r.spec && r'.attempt == r.attempt + 1 && r'.revision == r.revision + 1
    && r'.createdAt == r.createdAt && r'.queuedAt == now && r'.updatedAt == now
    && r'.status == QUEUED && r'.result == Null && r'.error == error
    && r'.startedAt == None && r'.finishedAt == None
  }

  /** Only this job's record changed, and the new records are appended to its history. */
  ghost predicate Wrote(s: State, t: State, id: JobId, revisions: nat)
  {
    && id in s.repo.records && id in s.repo.history && id in t.repo.records && id in t.repo.history
    && t.repo.records == s.repo.records[id := t.repo.records[id]] && t.repo.history == s.repo.history[id := t.repo.history[id]]
    && |t.repo.history[id]| == |s.repo.history[id]| + revisions && s.repo.history[id] <= t.repo.history[id]
    && (revisions > 0 ==> t.repo.history[id][|t.repo.history[id]| - 1] == t.repo.records[id])
  }

  /** These events about the job were published, in this order. */
  ghost predicate Told(before: seq<Event>, after: seq<Event>, id: JobId, kinds: seq<EventKind>)
  {
    after == before + EventsOf(id, kinds)
  }

  function EventsOf(id: JobId, kinds: seq<EventKind>): (events: seq<Event>)
    ensures |events| == |kinds| && forall i :: 0 <= i < |kinds| ==> events[i] == Event(kinds[i], id)
  {
    seq(|kinds|, i requires 0 <= i < |kinds| => Event(kinds[i], id))
  }

  lemma ToldOne(before: seq<Event>, id: JobId, kind: EventKind)
    ensures Told(before, before + [Event(kind, id)], id, [kind])
  {
  }

  lemma ToldThen(before: seq<Event>, middle: seq<Event>, after: seq<Event>, id: JobId, kinds: seq<EventKind>, last: EventKind,
                 all: seq<EventKind>)
    requires Told(before, middle, id, kinds) && Told(middle, after, id, [last]) && all == kinds + [last]
    ensures Told(before, after, id, all)
  {
    assert EventsOf(id, all) == EventsOf(id, kinds) + EventsOf(id, [last]);
  }

  /** The attempt is over: final record, no task, no lease. */
  ghost predicate Ended(s: State, t: State, id: JobId, revisions: nat, status: Status, result: Json, error: Option<Json>)
  {
    && Wrote(s, t, id, revisions) && Rewritten(s.repo.records[id], t.repo.records[id], revisions, status, t.now, result, error)
    && t.active == s.active - {id} && t.reservations == s.reservations - {id} && t.waiting == s.waiting
  }

  /** Back in the queue, behind everything there. */
  ghost predicate QueuedLast(s: State, t: State, r: JobRecord)
  {
    && t.waiting.next == s.waiting.next + 1
    && t.waiting.items ==
       s.waiting.items[r.spec.jobId := Queued(Item(r.spec.jobId, r.spec.queue, r.queuedAt, r.spec.factors), s.waiting.next)]
  }

  ghost predicate SubmitEffect(c: Settings, s: State, spec: Submission, t: State)
  {
    if Room(c.queues, s.waiting, spec.queue) && spec.jobId !in s.repo.records then
      var r := JobRecord(spec, QUEUED, 0, 0, t.now, t.now, t.now, None, None, Null, None);
      && t.repo == Repo(s.repo.records[spec.jobId := r], s.repo.history[spec.jobId := [r]]) && QueuedLast(s, t, r)
      && t.active == s.active && t.reservations == s.reservations && Told(s.journal, t.journal, spec.jobId, [JobCreated, StatusEvent(QUEUED)])
    else t == s.(now := t.now)
  }

  /** A cached value completes the job on the spot. A job that has to wait stays as it is, behind
      the others. A job that can never be admitted fails. Any other is prepared. */
  ghost predicate LaunchEffect(c: Settings, s: State, id: JobId, hit: Option<Json>, t: State)
    requires id in s.repo.records && id in s.waiting.items
  {
    var spec := s.repo.records[id].spec;
    if spec.cacheKey.Some? && hit.Some? then
      && Wrote(s, t, id, 3) && Rewritten(s.repo.records[id], t.repo.records[id], 3, COMPLETED, t.now, hit.value, None)
      && t.active == s.active && t.reservations == s.reservations && t.waiting.items == s.waiting.items - {id}
      && Told(s.journal, t.journal, id, [StatusEvent(PREPARING), StatusEvent(RUNNING), StatusEvent(COMPLETED)])
    else if spec.estimate.Some? && Grant(spec.estimate.value, c.limits, s.ledger.leases).None? then
      && t.active == s.active && t.reservations == s.reservations
      && if Waitable(spec.estimate.value, c.limits).Some? then
           && t.repo == s.repo && t.waiting.items.Keys == s.waiting.items.Keys
           && t.waiting.items == s.waiting.items[id := Queued(s.waiting.items[id].item, s.waiting.next)]
           && Told(s.journal, t.journal, id, [JobDeferred])
         else
           && Wrote(s, t, id, 1) && Rewritten(s.repo.records[id], t.repo.records[id], 1, FAILED, t.now, Null, Some(ADMISSION_ERROR))
           && t.waiting.items == s.waiting.items - {id} && Told(s.journal, t.journal, id, [StatusEvent(FAILED)])
    else
      && Wrote(s, t, id, 1) && Rewritten(s.repo.records[id], t.repo.records[id], 1, PREPARING, t.now, Null, None)
      && t.active == s.active[id := Task(Starting, None)] && t.waiting.items == s.waiting.items - {id}
      && t.reservations.Keys == s.reservations.Keys + (if spec.estimate.Some? then {id} else {})
      && Told(s.journal, t.journal, id, [StatusEvent(PREPARING)])
  }

  /** A cancellation seen at the start ends the attempt. Otherwise the dispatcher has it. */
  ghost predicate StartEffect(s: State, id: JobId, t: State)
    requires id in s.active
  {
    match s.active[id].cancelled
    case Some(reason) =>
      Ended(s, t, id, 2, CANCELLED, Null, Some(Str(reason))) && Told(s.journal, t.journal, id, [StatusEvent(RUNNING), StatusEvent(CANCELLED)])
    case None =>
      && Wrote(s, t, id, 1) && Rewritten(s.repo.records[id], t.repo.records[id], 1, RUNNING, t.now, Null, None)
      && t.repo.records[id].startedAt == Some(t.now) && Told(s.journal, t.journal, id, [StatusEvent(RUNNING)])
      && t.active == s.active[id := Task(Dispatching, None)] && t.reservations == s.reservations && t.waiting == s.waiting
  }

  /** The value becomes the job's result, unless the attempt was cancelled before. */
  ghost predicate ReturnEffect(s: State, id: JobId, value: Json, writeFails: bool, t: State)
    requires id in s.active
  {
    match s.active[id].cancelled
    case Some(reason) => Ended(s, t, id, 1, CANCELLED, Null, Some(Str(reason))) && Told(s.journal, t.journal, id, [StatusEvent(CANCELLED)])
    case None =>
      && Ended(s, t, id, 1, COMPLETED, value, None)
      && Told(s.journal, t.journal, id, if writeFails then [CacheWriteFailed, StatusEvent(COMPLETED)] else [StatusEvent(COMPLETED)])
  }

  ghost predicate InterruptEffect(s: State, id: JobId, reason: string, t: State)
    requires id in s.active
  {
    && Told(s.journal, t.journal, id, [StatusEvent(CANCELLED)])
    && match s.active[id].cancelled
       case Some(earlier) => Ended(s, t, id, 1, CANCELLED, Null, Some(Str(earlier)))
       case None => Ended(s, t, id, 1, CANCELLED, Null, Some(Str(reason)))
  }

  /** A retryable error with attempts left, of the job and of the policy, puts the attempt to
      sleep without its lease. Any other fails the job. */
  ghost predicate RaiseEffect(c: Settings, s: State, id: JobId, error: Json, retryable: bool, t: State)
    requires id in s.active && id in s.repo.records
  {
    var r := s.repo.records[id];
    if retryable && r.attempt + 1 < r.spec.maxAttempts && r.attempt + 1 < c.policyAttempts then
      && t.repo == s.repo && t.waiting == s.waiting && t.reservations == s.reservations - {id}
      && t.active == s.active[id := Task(Sleeping(error), s.active[id].cancelled)] && Told(s.journal, t.journal, id, [JobRetrying])
    else Ended(s, t, id, 1, FAILED, Null, Some(error)) && Told(s.journal, t.journal, id, [StatusEvent(FAILED)])
  }

  /** A cancellation during the delay counts. A full queue fails the job. Otherwise the next
      attempt is queued, and remembers the error. */
  ghost predicate WakeEffect(c: Settings, s: State, id: JobId, t: State)
    requires id in s.active && s.active[id].phase.Sleeping? && id in s.repo.records
  {
    match s.active[id].cancelled
    case Some(reason) => Ended(s, t, id, 1, CANCELLED, Null, Some(Str(reason))) && Told(s.journal, t.journal, id, [StatusEvent(CANCELLED)])
    case None =>
      if !Room(c.queues, s.waiting, s.repo.records[id].spec.queue) then
        Ended(s, t, id, 1, FAILED, Null, Some(BACKPRESSURE_ERROR)) && Told(s.journal, t.journal, id, [StatusEvent(FAILED)])
      else
        && Wrote(s, t, id, 1) && NextAttempt(s.repo.records[id], t.repo.records[id], t.now, Some(s.active[id].phase.error))
        && t.active == s.active - {id} && t.reservations == s.reservations - {id} && QueuedLast(s, t, t.repo.records[id])
        && Told(s.journal, t.journal, id, [StatusEvent(QUEUED)])
  }

  /** A queued job ends at once, an active one has its token set if it is not set already. */
  ghost predicate CancelEffect(s: State, id: JobId, reason: string, t: State)
  {
    if id in s.waiting.items then
      && Wrote(s, t, id, 1) && Rewritten(s.repo.records[id], t.repo.records[id], 1, CANCELLED, t.now, Null, Some(Str(reason)))
      && t.waiting.items == s.waiting.items - {id} && t.active == s.active && t.reservations == s.reservations
      && Told(s.journal, t.journal, id, [StatusEvent(CANCELLED)])
    else if id in s.active && s.active[id].cancelled.None? then
      t == s.(now := t.now, active := s.active[id := Task(s.active[id].phase, Some(reason))])
    else t == s.(now := t.now)
  }

  ghost predicate RetryEffect(c: Settings, s: State, id: JobId, t: State)
  {
    if && id in s.repo.records && s.repo.records[id].status == FAILED
       && s.repo.records[id].attempt + 1 < s.repo.records[id].spec.maxAttempts && Room(c.queues, s.waiting, s.repo.records[id].spec.queue) then
      && Wrote(s, t, id, 1) && NextAttempt(s.repo.records[id], t.repo.records[id], t.now, None)
      && t.active == s.active && t.reservations == s.reservations && QueuedLast(s, t, t.repo.records[id])
      && Told(s.journal, t.journal, id, [StatusEvent(QUEUED)])
    else t == s.(now := t.now)
  }

  ghost predicate Effect(c: Settings, s: State, step: Step, t: State, now: real)
    requires Enabled(c, s, step, now)
  {
    t.now == now &&
    var s' := s.(now := now);
    match step
    case Submit(spec) => SubmitEffect(c, s', spec, t)
    case Cancel(id, reason) => CancelEffect(s', id, reason, t)
    case Retry(id) => RetryEffect(c, s', id, t)
    case Launch(id, hit) => LaunchEffect(c, s', id, hit, t)
    case Start(id) => StartEffect(s', id, t)
    case Return(id, value, writeFails) => ReturnEffect(s', id, value, writeFails, t)
    case Interrupt(id, reason) => InterruptEffect(s', id, reason, t)
    case Raise(id, error, retryable) => RaiseEffect(c, s', id, error, retryable, t)
    case Wake(id) => WakeEffect(c, s', id, t)
  }

  // ----- Every step has its effect -----

  /** One permitted transition, with the record it writes. */
  lemma MoveWrites(c: Settings, s: State, id: JobId, target: Status, now: real, result: Json, error: Option<Json>) returns (t: State)
    requires Books(c, s) && id in s.repo.records && now == s.now && target in Successors(s.repo.records[id].status)
    requires result == Null || target == COMPLETED
    requires error.None? || target in {FAILED, CANCELLED}
    ensures t == Move(s, id, target, now, result, error) && Books(c, t)
    ensures t == s.(repo := t.repo, journal := t.journal) && Wrote(s, t, id, 1) && Told(s.journal, t.journal, id, [StatusEvent(target)])
    ensures Rewritten(s.repo.records[id], t.repo.records[id], 1, target, now, result, error)
    ensures t.repo.records[id].startedAt == if target == RUNNING then Some(now) else s.repo.records[id].startedAt
  {
    hide Books, Follows, Move, Told;
    KnownTimes(c, s, id);
    ToldOne(s.journal, id, StatusEvent(target));
    var updated := TransitionRecord(s.repo.records[id], s.repo.records[id].status, target, now, result, error).value;
    MoveIsRevise(s, id, target, now, result, error, updated);
    t := MoveHolds(c, s, id, target, now, result, error);
  }

  /** The end of an attempt. */
  lemma EndWrites(c: Settings, s: State, id: JobId, target: Status, now: real, result: Json, error: Option<Json>)
    requires Books(c, s) && id in s.repo.records && now == s.now && target in Successors(s.repo.records[id].status)
    requires (result == Null || target == COMPLETED) && (error.None? || target in {FAILED, CANCELLED})
    ensures var t := Finish(Move(s, id, target, now, result, error), id);
            id in s.repo.history && t.now == now && Ended(s, t, id, 1, target, result, error) && Told(s.journal, t.journal, id, [StatusEvent(target)])
  {
    hide Books, Move, Successors, Without, Told;
    var t := MoveWrites(c, s, id, target, now, result, error);
  }

  /** What the invariant says of an active attempt. */
  lemma AttemptStatus(c: Settings, s: State, id: JobId)
    requires Inv(c, s) && id in s.active
    ensures Books(c, s) && id in s.repo.records && id in s.repo.history && id !in s.waiting.items && s.repo.records[id].spec.jobId == id
    ensures s.repo.records[id].status == if s.active[id].phase.Starting? then PREPARING else RUNNING
    ensures s.active[id].phase.Sleeping? ==> s.repo.records[id].attempt + 1 < s.repo.records[id].spec.maxAttempts
    ensures s.repo.records[id].updatedAt <= s.now
  {
    assert JobOk(s, id);
    if id in s.repo.records { assert EntryOk(id, s.repo.records[id], s.repo.history[id]); }
  }

  lemma ReturnHasEffect(c: Settings, s: State, id: JobId, value: Json, writeFails: bool, now: real)
    requires Inv(c, s) && now == s.now && id in s.active && s.active[id].phase.Dispatching? && id in s.repo.records && id in s.repo.history
    ensures Returned(s, id, value, writeFails, now).now == now && ReturnEffect(s, id, value, writeFails, Returned(s, id, value, writeFails, now))
  {
    hide Books, Move, Finish, Inv, Ended, Told;
    AttemptStatus(c, s, id);
    if s.active[id].cancelled.Some? {
      EndWrites(c, s, id, CANCELLED, now, Null, Some(Str(s.active[id].cancelled.value)));
    } else {
      var t := if writeFails then Publish(s, CacheWriteFailed, id) else s;
      if writeFails { PublishKeepsBooks(c, s, CacheWriteFailed, id); }
      EndWrites(c, t, id, COMPLETED, now, value, None);
      SameStart(s, t, Returned(s, id, value, writeFails, now), id, value);
    }
  }

  lemma SameStart(s: State, s': State, t: State, id: JobId, value: Json)
    requires s' == s || s' == Publish(s, CacheWriteFailed, id)
    requires Ended(s', t, id, 1, COMPLETED, value, None) && Told(s'.journal, t.journal, id, [StatusEvent(COMPLETED)])
    ensures Ended(s, t, id, 1, COMPLETED, value, None)
    ensures s' == s ==> Told(s.journal, t.journal, id, [StatusEvent(COMPLETED)])
    ensures s' == Publish(s, CacheWriteFailed, id) ==> Told(s.journal, t.journal, id, [CacheWriteFailed, StatusEvent(COMPLETED)])
  {
    hide Told;
    ToldOne(s.journal, id, CacheWriteFailed);
    if s' == Publish(s, CacheWriteFailed, id) {
      ToldThen(s.journal, s'.journal, t.journal, id, [CacheWriteFailed], StatusEvent(COMPLETED),
               [CacheWriteFailed, StatusEvent(COMPLETED)]);
    }
  }

  lemma InterruptHasEffect(c: Settings, s: State, id: JobId, reason: string, now: real)
    requires Inv(c, s) && now == s.now && id in s.active && s.active[id].phase.Dispatching? && id in s.repo.records && id in s.repo.history
    ensures var t := Stopped(s, id, now, if s.active[id].cancelled.Some? then s.active[id].cancelled.value else reason);
            t.now == now && InterruptEffect(s, id, reason, t)
  {
    hide Books, Move, Finish, Inv, Ended, Told;
    AttemptStatus(c, s, id);
    EndWrites(c, s, id, CANCELLED, now, Null, Some(Str(if s.active[id].cancelled.Some? then s.active[id].cancelled.value else reason)));
  }

  lemma RaiseHasEffect(c: Settings, s: State, id: JobId, error: Json, retryable: bool, now: real)
    requires Inv(c, s) && now == s.now && id in s.active && s.active[id].phase.Dispatching? && id in s.repo.records && id in s.repo.history
    ensures Raised(c, s, id, error, retryable, now).now == now
    ensures RaiseEffect(c, s, id, error, retryable, Raised(c, s, id, error, retryable, now))
  {
    hide Books, Move, Finish, Inv, Ended, Without, Told;
    AttemptStatus(c, s, id);
    ToldOne(s.journal, id, JobRetrying);
    if !CanRetry(c, s.repo.records[id], retryable) {
      EndWrites(c, s, id, FAILED, now, Null, Some(error));
    }
  }

  lemma StartHasEffect(c: Settings, s: State, id: JobId, now: real)
    requires Inv(c, s) && now == s.now && id in s.active && s.active[id].phase.Starting? && id in s.repo.records && id in s.repo.history
    ensures Started(s, id, now).now == now && StartEffect(s, id, Started(s, id, now))
  {
    hide Books, Move, Finish, Inv, Told;
    AttemptStatus(c, s, id);
    var t := MoveWrites(c, s, id, RUNNING, now, Null, None);
    if s.active[id].cancelled.Some? {
      EndWrites(c, t, id, CANCELLED, now, Null, Some(Str(s.active[id].cancelled.value)));
      ToldThen(s.journal, t.journal, Started(s, id, now).journal, id, [StatusEvent(RUNNING)], StatusEvent(CANCELLED),
               [StatusEvent(RUNNING), StatusEvent(CANCELLED)]);
    }
  }

  lemma WakeHasEffect(c: Settings, s: State, id: JobId, now: real)
    requires Inv(c, s) && now == s.now && id in s.active && s.active[id].phase.Sleeping? && id in s.repo.records && id in s.repo.history
    ensures Woken(c, s, id, now).now == now && WakeEffect(c, s, id, Woken(c, s, id, now))
  {
    hide Books, Move, Inv, Room, Without, Told;
    AttemptStatus(c, s, id);
    ToldOne(s.journal, id, StatusEvent(QUEUED));
    if s.active[id].cancelled.Some? {
      EndWrites(c, s, id, CANCELLED, now, Null, Some(Str(s.active[id].cancelled.value)));
    } else if !Room(c.queues, s.waiting, s.repo.records[id].spec.queue) {
      EndWrites(c, s, id, FAILED, now, Null, Some(BACKPRESSURE_ERROR));
    }
  }

  lemma CancelHasEffect(c: Settings, s: State, id: JobId, reason: string, now: real)
    requires Inv(c, s) && now == s.now
    ensures Cancelled(s, id, reason, now).now == now && CancelEffect(s, id, reason, Cancelled(s, id, reason, now))
  {
    hide Books, Move, Rewritten, Stores, ItemOf, Told, Wrote;
    assert JobOk(s, id);
    KnowBooks(c, s, id);
    if id in s.waiting.items {
      CancelWrites(c, s, id, reason, now);
    }
  }

  lemma CancelWrites(c: Settings, s: State, id: JobId, reason: string, now: real)
    requires Books(c, s) && now == s.now && id in s.repo.records && id in s.repo.history && s.repo.records[id].status == QUEUED
    ensures var t := Move(s.(waiting := Removed(s.waiting, id)), id, CANCELLED, now, Null, Some(Str(reason)));
            && t.now == now && Wrote(s, t, id, 1) && Told(s.journal, t.journal, id, [StatusEvent(CANCELLED)])
            && Rewritten(s.repo.records[id], t.repo.records[id], 1, CANCELLED, now, Null, Some(Str(reason)))
            && t.waiting.items == s.waiting.items - {id} && t.active == s.active && t.reservations == s.reservations
  {
    hide Books, Move, Rewritten, Told;
    var q := s.(waiting := Removed(s.waiting, id));
    SameBooks(c, s, q);
    var t := MoveWrites(c, q, id, CANCELLED, now, Null, Some(Str(reason)));
  }

  lemma KnowBooks(c: Settings, s: State, id: JobId)
    requires Inv(c, s)
    ensures Books(c, s) && s.repo.records.Keys == s.repo.history.Keys
    ensures id in s.repo.records ==> s.repo.records[id].spec.jobId == id && s.repo.records[id].updatedAt <= s.now
  {
    if id in s.repo.records { assert EntryOk(id, s.repo.records[id], s.repo.history[id]); }
  }

  lemma RetryHasEffect(c: Settings, s: State, id: JobId, now: real)
    requires Inv(c, s) && now == s.now
    ensures Retried(c, s, id, now).now == now && RetryEffect(c, s, id, Retried(c, s, id, now))
  {
    hide Inv, Room, Books, Told;
    KnowBooks(c, s, id);
    ToldOne(s.journal, id, StatusEvent(QUEUED));
  }

  lemma SubmitHasEffect(c: Settings, s: State, spec: Submission, now: real)
    requires Inv(c, s) && now == s.now
    ensures Submitted(c, s, spec, now).now == now && SubmitEffect(c, s, spec, Submitted(c, s, spec, now))
  {
    hide Inv, Room, Told;
    ToldOne(s.journal, spec.jobId, JobCreated);
    var created := s.journal + [Event(JobCreated, spec.jobId)];
    ToldOne(created, spec.jobId, StatusEvent(QUEUED));
    ToldThen(s.journal, created, created + [Event(StatusEvent(QUEUED), spec.jobId)], spec.jobId, [JobCreated], StatusEvent(QUEUED),
             [JobCreated, StatusEvent(QUEUED)]);
  }

  lemma HitHasEffect(c: Settings, s: State, id: JobId, value: Json, now: real) returns (t: State)
    requires Books(c, s) && now == s.now && id in s.repo.records && id in s.repo.history && s.repo.records[id].status == QUEUED
    ensures t == FromCache(s, id, now, value) && t == s.(repo := t.repo, journal := t.journal)
    ensures Wrote(s, t, id, 3) && Rewritten(s.repo.records[id], t.repo.records[id], 3, COMPLETED, now, value, None)
    ensures Told(s.journal, t.journal, id, [StatusEvent(PREPARING), StatusEvent(RUNNING), StatusEvent(COMPLETED)])
  {
    hide Books, Move, Told;
    var a := MoveWrites(c, s, id, PREPARING, now, Null, None);
    var b := MoveWrites(c, a, id, RUNNING, now, Null, None);
    t := MoveWrites(c, b, id, COMPLETED, now, value, None);
    ToldThen(s.journal, a.journal, b.journal, id, [StatusEvent(PREPARING)], StatusEvent(RUNNING), [StatusEvent(PREPARING), StatusEvent(RUNNING)]);
    ToldThen(s.journal, b.journal, t.journal, id, [StatusEvent(PREPARING), StatusEvent(RUNNING)], StatusEvent(COMPLETED),
             [StatusEvent(PREPARING), StatusEvent(RUNNING), StatusEvent(COMPLETED)]);
  }

  lemma LaunchHasEffect(c: Settings, s: State, id: JobId, hit: Option<Json>, now: real)
    requires Inv(c, s) && now == s.now && id in s.waiting.items && id in s.repo.records && id in s.repo.history
    ensures Launched(c, s, id, hit, now).now == now && LaunchEffect(c, s, id, hit, Launched(c, s, id, hit, now))
  {
    hide Books, Move, FromCache, Inv, Grant, Waitable, Ended, Rewritten, Stores, Told;
    ToldOne(s.journal, id, JobDeferred);
    QueuedStatus(c, s, id);
    var spec, t := s.repo.records[id].spec, s.(waiting := Removed(s.waiting, id));
    SameBooks(c, s, t);
    if spec.cacheKey.Some? && hit.Some? {
      var u := HitHasEffect(c, t, id, hit.value, now);
    } else if spec.estimate.None? {
      var u := MoveWrites(c, t, id, PREPARING, now, Null, None);
    } else {
      var grant := Grant(spec.estimate.value, c.limits, s.ledger.leases);
      if grant.Some? {
        var v := Reserved(t, id, grant.value.1);
        SameBooks(c, t, v);
        var u := MoveWrites(c, v, id, PREPARING, now, Null, None);
      } else if Waitable(spec.estimate.value, c.limits).None? {
        var u := MoveWrites(c, t, id, FAILED, now, Null, Some(ADMISSION_ERROR));
      }
    }
  }

  lemma QueuedStatus(c: Settings, s: State, id: JobId)
    requires Inv(c, s) && id in s.waiting.items && id in s.repo.records
    ensures Books(c, s) && s.repo.records[id].status == QUEUED && s.waiting.items[id].item.jobId == id
    ensures id !in s.active && id !in s.reservations
  {
    assert JobOk(s, id);
    KnowBooks(c, s, id);
  }

  /** Every step does to its job what is said of it above. */
  lemma StepHasEffect(c: Settings, s: State, step: Step, now: real)
    requires Inv(c, s) && Enabled(c, s, step, now)
    ensures Effect(c, s, step, Apply(c, s, step, now), now)
  {
    hide Submitted, Cancelled, Retried, Launched, Started, Returned, Stopped, Raised, Woken, Inv;
    hide SubmitEffect, CancelEffect, RetryEffect, LaunchEffect, StartEffect, ReturnEffect, InterruptEffect, RaiseEffect, WakeEffect;
    var t := s.(now := now);
    ClockHolds(c, s, now);
    match step {
      case Submit(spec) => SubmitHasEffect(c, t, spec, now);
      case Cancel(id, reason) => CancelHasEffect(c, t, id, reason, now);
      case Retry(id) => RetryHasEffect(c, t, id, now);
      case Launch(id, hit) => LaunchHasEffect(c, t, id, hit, now);
      case Start(id) => StartHasEffect(c, t, id, now);
      case Return(id, value, writeFails) => ReturnHasEffect(c, t, id, value, writeFails, now);
      case Interrupt(id, reason) => InterruptHasEffect(c, t, id, reason, now);
      case Raise(id, error, retryable) => RaiseHasEffect(c, t, id, error, retryable, now);
      case Wake(id) => WakeHasEffect(c, t, id, now);
    }
  }

  // ----- Results over whole runs -----

  /** A completed or cancelled record is the last one of its job. */
  lemma EndedStays(c: Settings, s: State, earlier: Run, t: State, run: Run, u: State, id: JobId)
    requires Inv(c, s) && Arrives(c, s, earlier, t) && Arrives(c, s, run, u) && Continues(run, earlier)
    requires id in t.repo.records && t.repo.records[id].status in {COMPLETED, CANCELLED}
    ensures id in u.repo.records && u.repo.records[id] == t.repo.records[id]
  {
    hide Arrives;
    RunRemembers(c, s, earlier, t, run, u);
    RunKeepsInvariant(c, s, earlier, t);
    RunKeepsInvariant(c, s, run, u);
    LastStays(c, t, u, id);
  }

  lemma LastStays(c: Settings, t: State, u: State, id: JobId)
    requires Inv(c, t) && Inv(c, u) && Remembers(t, u)
    requires id in t.repo.records && t.repo.records[id].status in {COMPLETED, CANCELLED}
    ensures id in u.repo.records && u.repo.records[id] == t.repo.records[id]
  {
    hide Stores, JobOk, TrailMatches, ValidRecord, Follows, FromSubmission;
    assert EntryOk(id, t.repo.records[id], t.repo.history[id]) && EntryOk(id, u.repo.records[id], u.repo.history[id]);
    HistoryStops(t.repo.history[id], u.repo.history[id]);
  }

  /** A history does not go on after such a record. */
  lemma HistoryStops(h: seq<JobRecord>, k: seq<JobRecord>)
    requires h != [] && h <= k && History(k) && h[|h| - 1].status in {COMPLETED, CANCELLED}
    ensures h == k
  {
    if |h| < |k| {
      assert h[|h| - 1] == k[|h| - 1] && Follows(k[|h| - 1], k[|h|]);
      TerminalIsFinal(k[|h| - 1], k[|h|]);
    }
  }

  /** The step hands this value to the job: its dispatch returns it, or its launch finds it in
      the cache. */
  ghost predicate Gives(s: State, step: Step, id: JobId, value: Json)
  {
    || (step.Return? && step.id == id && step.value == value)
    || (step.Launch? && step.id == id && step.hit == Some(value) && id in s.repo.records && s.repo.records[id].spec.cacheKey.Some?)
  }

  /** Only a step that hands a value to the job completes it, and with that value. */
  lemma CompletionHasValue(c: Settings, s: State, step: Step, now: real, id: JobId)
    requires Inv(c, s) && Enabled(c, s, step, now)
    requires id in Apply(c, s, step, now).repo.records && Apply(c, s, step, now).repo.records[id].status == COMPLETED
    requires id in s.repo.records ==> s.repo.records[id].status != COMPLETED
    ensures Gives(s, step, id, Apply(c, s, step, now).repo.records[id].result)
    ensures id in s.repo.records
  {
    hide Apply, Inv, Effect;
    StepHasEffect(c, s, step, now);
    EffectHasValue(c, s, step, Apply(c, s, step, now), now, id);
  }

  lemma EffectHasValue(c: Settings, s: State, step: Step, t: State, now: real, id: JobId)
    requires Enabled(c, s, step, now) && Effect(c, s, step, t, now) && id in t.repo.records && t.repo.records[id].status == COMPLETED
    requires id in s.repo.records ==> s.repo.records[id].status != COMPLETED
    ensures Gives(s, step, id, t.repo.records[id].result) && id in s.repo.records
  {
    hide Effect;
    if step.Return? || step.Launch? {
      AnswerCompletes(c, s, step, t, now, id);
    } else if step.Submit? || step.Cancel? || step.Retry? {
      CallsKeepCompleted(c, s, step, t, now, id);
    } else {
      AttemptsKeepCompleted(c, s, step, t, now, id);
    }
  }

  lemma AnswerCompletes(c: Settings, s: State, step: Step, t: State, now: real, id: JobId)
    requires Enabled(c, s, step, now) && Effect(c, s, step, t, now) && id in t.repo.records && t.repo.records[id].status == COMPLETED
    requires (step.Return? || step.Launch?) && (id in s.repo.records ==> s.repo.records[id].status != COMPLETED)
    ensures Gives(s, step, id, t.repo.records[id].result) && id in s.repo.records
  {
    hide Room, Grant, Waitable, Told, SubmitEffect, CancelEffect, RetryEffect, StartEffect, InterruptEffect, RaiseEffect, WakeEffect;
  }

  /** No call from outside completes a job. */
  lemma CallsKeepCompleted(c: Settings, s: State, step: Step, t: State, now: real, id: JobId)
    requires Enabled(c, s, step, now) && Effect(c, s, step, t, now) && id in t.repo.records && t.repo.records[id].status == COMPLETED
    requires step.Submit? || step.Cancel? || step.Retry?
    ensures id in s.repo.records && s.repo.records[id].status == COMPLETED
  {
    hide Room, Told, LaunchEffect, StartEffect, ReturnEffect, InterruptEffect, RaiseEffect, WakeEffect;
  }

  lemma AttemptsKeepCompleted(c: Settings, s: State, step: Step, t: State, now: real, id: JobId)
    requires Enabled(c, s, step, now) && Effect(c, s, step, t, now) && id in t.repo.records && t.repo.records[id].status == COMPLETED
    requires step.Start? || step.Interrupt? || step.Raise? || step.Wake?
    ensures id in s.repo.records && s.repo.records[id].status == COMPLETED
  {
    hide Room, Told, SubmitEffect, CancelEffect, RetryEffect, LaunchEffect, ReturnEffect;
  }

  /** Where a completed job got its result: the one step of the run after which it was completed,
      the state before it, and the value handed to the job there. */
  lemma {:induction false} CompletedBy(c: Settings, s: State, run: Run, t: State, id: JobId)
    returns (before: Run, m: State, step: Step, now: real)
    requires Inv(c, s) && s.repo.records == map[] && Arrives(c, s, run, t)
    requires id in t.repo.records && t.repo.records[id].status == COMPLETED
    ensures Continues(run, More(before, step, now)) && Arrives(c, s, before, m) && Enabled(c, m, step, now)
    ensures Gives(m, step, id, t.repo.records[id].result)
    ensures id in m.repo.records && m.repo.records[id].status != COMPLETED
    decreases run
  {
    hide Apply, Enabled, Inv, Gives;
    before, step, now := run.earlier, run.step, run.now;
    m :| Arrives(c, s, before, m) && Enabled(c, m, step, now) && t == Apply(c, m, step, now);
    RunKeepsInvariant(c, s, before, m);
    if id in m.repo.records && m.repo.records[id].status == COMPLETED {
      EndedStays(c, s, before, m, run, t, id);
      before, m, step, now := CompletedBy(c, s, run.earlier, m, id);
    } else {
      CompletionHasValue(c, m, step, now, id);
    }
  }

  lemma ReturnLeaves(c: Settings, m: State, id: JobId, value: Json, writeFails: bool, now: real) returns (u: State)
    requires Inv(c, m) && Enabled(c, m, Return(id, value, writeFails), now)
    ensures u == Apply(c, m, Return(id, value, writeFails), now) && id in m.active && id in u.repo.records
    ensures m.active[id].cancelled == None ==> u.repo.records[id].status == COMPLETED && u.repo.records[id].result == value
    ensures m.active[id].cancelled != None ==> u.repo.records[id].status == CANCELLED
  {
    hide Apply, Inv, Told;
    StepHasEffect(c, m, Return(id, value, writeFails), now);
    u := Apply(c, m, Return(id, value, writeFails), now);
  }

  /** What a dispatch returned to an attempt nobody had cancelled is the job's result ever after. */
  lemma ReturnedValueStays(c: Settings, s: State, before: Run, m: State, id: JobId, value: Json, writeFails: bool, now: real,
                           run: Run, t: State)
    requires Inv(c, s) && Arrives(c, s, before, m) && Enabled(c, m, Return(id, value, writeFails), now)
    requires Continues(run, More(before, Return(id, value, writeFails), now)) && Arrives(c, s, run, t)
    requires m.active[id].cancelled == None
    ensures id in t.repo.records && t.repo.records[id].status == COMPLETED && t.repo.records[id].result == value
  {
    hide Apply, Inv, Enabled;
    var step := Return(id, value, writeFails);
    RunKeepsInvariant(c, s, before, m);
    var u := ReturnLeaves(c, m, id, value, writeFails, now);
    assert Arrives(c, s, More(before, step, now), u);
    EndedStays(c, s, More(before, step, now), u, run, t, id);
  }

  /** A job is answered at most once: any dispatch that ever returned to a completed job returned
      its result. */
  lemma OnlyAnswer(c: Settings, s: State, before: Run, m: State, id: JobId, value: Json, writeFails: bool, now: real, run: Run, t: State)
    requires Inv(c, s) && Arrives(c, s, before, m) && Enabled(c, m, Return(id, value, writeFails), now)
    requires Continues(run, More(before, Return(id, value, writeFails), now)) && Arrives(c, s, run, t)
    requires id in t.repo.records && t.repo.records[id].status == COMPLETED
    ensures t.repo.records[id].result == value && m.active[id].cancelled == None
  {
    hide Apply, Inv, Enabled;
    var step := Return(id, value, writeFails);
    RunKeepsInvariant(c, s, before, m);
    var u := ReturnLeaves(c, m, id, value, writeFails, now);
    assert Arrives(c, s, More(before, step, now), u);
    EndedStays(c, s, More(before, step, now), u, run, t, id);
  }
}
