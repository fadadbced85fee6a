/** The scheduler object over its repository, queues, broker, cache and journal. Every method
    is one atomic step of the model, and the main loop drains all work
    (src/comfyng/scheduler/scheduler.py:113-585, src/comfyng/api/app.py:219-234). */
module Scheduler {
  import opened Graphs
  import opened Budgets
  import opened Broker
  import opened Queues
  import opened Jobs
  import opened Journal
  import opened ResultCache
  import opened SchedulerModel
  import opened SchedulerRuns
  import opened SchedulerHistory
  import opened JobEffects

  datatype SubmitResult = Accepted(record: JobRecord) | Backpressure | AlreadyExists

  datatype RetryResult = RetryAccepted(record: JobRecord) | RetryBackpressure | RetryRefused(error: JobError)

  /** How a dispatch ends: with a result, a cancellation or an error. */
  datatype DispatchOutcome =
    | Result(value: Json, cacheable: bool, size: nat, ttl: Option<real>)
    | Interrupted(reason: string)
    | Failed(error: Json, retryable: bool)

  datatype Admission = ADMITTED | DEFERRED | REJECTED

  /** The state is reached by a run from an empty scheduler. */
  ghost predicate Reached(c: Settings, start: real, run: Run, s: State)
  {
    ValidConfig(c.queues) && start >= 0.0 && Arrives(c, Initial(start), run, s)
  }

  lemma ReachedInv(c: Settings, start: real, run: Run, s: State)
    requires Reached(c, start, run, s)
    ensures Inv(c, s)
  {
    InitialHolds(c, start);
    RunKeepsInvariant(c, Initial(start), run, s);
  }

  lemma StepTaken(c: Settings, start: real, run: Run, s: State, step: Step, now: real, t: State)
    requires Reached(c, start, run, s) && Enabled(c, s, step, now) && t == Apply(c, s, step, now)
    ensures Reached(c, start, More(run, step, now), t)
  {
  }

  lemma ReachedEffect(c: Settings, start: real, run: Run, s: State, step: Step, now: real)
    requires Reached(c, start, run, s) && Enabled(c, s, step, now)
    ensures Effect(c, s, step, Apply(c, s, step, now), now)
  {
    hide Effect, Apply, Enabled, Inv;
    ReachedInv(c, start, run, s);
    StepHasEffect(c, s, step, now);
  }

  /** What a reached state says about one job. */
  lemma ReachedJob(c: Settings, start: real, run: Run, s: State, id: JobId)
    requires Reached(c, start, run, s)
    ensures s.now >= 0.0 && s.repo.records.Keys == s.repo.history.Keys && |s.active| <= c.maxConcurrency && JobOk(s, id)
    ensures id in s.repo.records ==> ValidRecord(s.repo.records[id]) && s.repo.records[id].spec.jobId == id
  {
    ReachedInv(c, start, run, s);
    if id in s.repo.records { assert EntryOk(id, s.repo.records[id], s.repo.history[id]); }
  }

  lemma MoveEffect(s: State, id: JobId, target: Status, now: real, result: Json, error: Option<Json>)
    requires id in s.repo.records && id in s.repo.history
    ensures var r := TransitionRecord(s.repo.records[id], s.repo.records[id].status, target, now, result, error);
            Move(s, id, target, now, result, error) ==
            if r.Ok? then s.(repo := Revised(s.repo, id, r.value), journal := s.journal + [Event(StatusEvent(target), id)]) else s
  {
  }

  lemma ApplyLaunch(c: Settings, s: State, id: JobId, hit: Option<Json>, now: real)
    requires Enabled(c, s, Launch(id, hit), now)
    ensures Apply(c, s, Launch(id, hit), now) == Launched(c, s.(now := now), id, hit, now)
  {
  }

  lemma ApplyAttempt(c: Settings, s: State, step: Step, now: real)
    requires Enabled(c, s, step, now) && !step.Submit? && !step.Launch? && !step.Cancel? && !step.Retry?
    ensures var t := s.(now := now);
            Apply(c, s, step, now) ==
            match step
            case Start(id) => Started(t, id, now)
            case Return(id, value, writeFails) => Returned(t, id, value, writeFails, now)
            case Interrupt(id, reason) => Stopped(t, id, now, if s.active[id].cancelled.Some? then s.active[id].cancelled.value else reason)
            case Raise(id, error, retryable) => Raised(c, t, id, error, retryable, now)
            case Wake(id) => Woken(c, t, id, now)
            case _ => t
  {
  }

  lemma ApplyExternal(c: Settings, s: State, step: Step, now: real)
    requires Enabled(c, s, step, now) && (step.Cancel? || step.Retry?)
    ensures var t := s.(now := now);
            Apply(c, s, step, now) == if step.Cancel? then Cancelled(t, step.id, step.reason, now) else Retried(c, t, step.id, now)
  {
  }

  /** An active job of a reached state: its record is known, nothing of it is queued, and its
      lease is live. */
  lemma ReachedActive(c: Settings, start: real, run: Run, s: State, id: JobId)
    requires Reached(c, start, run, s) && id in s.active
    ensures id in s.repo.records && id in s.repo.history && id !in s.waiting.items && s.repo.records[id].spec.jobId == id
    ensures s.repo.records.Keys == s.repo.history.Keys
    ensures id in s.reservations ==> s.reservations[id] in s.ledger.leases
  {
    ReachedInv(c, start, run, s);
    ReachedJob(c, start, run, s, id);
  }

  /** Internal steps that are no deferrals use up work. */
  lemma WorkFalls(c: Settings, start: real, run: Run, s: State, step: Step, now: real)
    requires Reached(c, start, run, s) && Enabled(c, s, step, now) && Internal(step)
    requires step.Launch? ==> !IsDeferral(c, s, step.id, step.hit)
    ensures 0 <= Work(Apply(c, s, step, now)) < Work(s)
  {
    ReachedInv(c, start, run, s);
    InternalStepWorks(c, s, step, now);
  }

  /** A deferral leaves all work in place and shows that somebody else is active. */
  lemma DeferralKeepsWork(c: Settings, start: real, run: Run, s: State, id: JobId, hit: Option<Json>, now: real)
    requires Reached(c, start, run, s) && Enabled(c, s, Launch(id, hit), now) && IsDeferral(c, s, id, hit)
    ensures Work(Apply(c, s, Launch(id, hit), now)) == Work(s) && Apply(c, s, Launch(id, hit), now).active != map[]
  {
    ReachedInv(c, start, run, s);
    DeferralWaits(c, s, id, hit, now);
  }

  /** What a longer run has reached remembers what the shorter one had reached. */
  lemma ReachedRemembers(c: Settings, start: real, earlier: Run, s: State, run: Run, t: State)
    requires Reached(c, start, earlier, s) && Reached(c, start, run, t) && Continues(run, earlier)
    ensures Remembers(s, t)
  {
    RunRemembers(c, Initial(start), earlier, s, run, t);
  }

  /** Jobs that were completed or cancelled are as they were. */
  lemma ReachedEndedStay(c: Settings, start: real, earlier: Run, s: State, run: Run, t: State)
    requires Reached(c, start, earlier, s) && Reached(c, start, run, t) && Continues(run, earlier)
    ensures EndedKept(s, t)
  {
    InitialHolds(c, start);
    forall id | id in s.repo.records && s.repo.records[id].status in {COMPLETED, CANCELLED}
      ensures id in t.repo.records && t.repo.records[id] == s.repo.records[id]
    {
      EndedStays(c, Initial(start), earlier, s, run, t, id);
    }
  }

  ghost predicate EndedKept(s: State, t: State)
  {
    forall id :: id in s.repo.records && s.repo.records[id].status in {COMPLETED, CANCELLED} ==>
      id in t.repo.records && t.repo.records[id] == s.repo.records[id]
  }

  /** The live value under the job's key, if it has a key and there is one. */
  function CachedValue(entries: Entries, key: Option<string>, now: real): Option<Json>
  {
    if key.Some? && key.value in entries && !Expired(entries[key.value].entry, now) then Some(entries[key.value].entry.value) else None
  }

  /** A result that is to be kept: the attempt was not cancelled, the dispatcher allows it and
      the job names a key. */
  predicate Keeps(task: Task, key: Option<string>, cacheable: bool)
  {
    task.cancelled.None? && cacheable && key.Some?
  }

  lemma WorkLeft(c: Settings, start: real, run: Run, s: State)
    requires Reached(c, start, run, s)
    ensures Work(s) >= 0
  {
    ReachedInv(c, start, run, s);
    WorkIsNatural(c, s);
  }

  /** A successful cancel of an active job dooms the attempt. */
  lemma CancelledIsDoomed(c: Settings, start: real, run: Run, s: State, id: JobId, reason: string, now: real)
    requires Reached(c, start, run, s) && Enabled(c, s, Step.Cancel(id, reason), now) && id in s.active
    ensures id in s.repo.records && Doomed(Apply(c, s, Step.Cancel(id, reason), now), id, s.repo.records[id].attempt)
  {
    ReachedInv(c, start, run, s);
    ReachedJob(c, start, run, s, id);
    CancelDooms(c, s, id, reason, now);
  }

  /** The launch of a job that needs resources, after its item was taken off the queue. */
  ghost function LaunchedWithin(c: Settings, s: State, item: Item, e: Estimate, now: real): State
    requires item.jobId in s.repo.records && item.jobId in s.repo.history
  {
    var grant := Grant(e, c.limits, s.ledger.leases);
    if grant.Some? then Begun(Reserved(s, item.jobId, grant.value.1), item.jobId, now)
    else if Waitable(e, c.limits).Some? then Publish(s.(waiting := Queues.Put(s.waiting, item)), JobDeferred, item.jobId)
    else Move(s, item.jobId, FAILED, now, Null, Some(ADMISSION_ERROR))
  }

  /** The launch of a job, after its item was taken off the queue. */
  ghost function LaunchedItem(c: Settings, s: State, item: Item, spec: Submission, hit: Option<Json>, now: real): State
    requires item.jobId in s.repo.records && item.jobId in s.repo.history
  {
    if spec.cacheKey.Some? && hit.Some? then FromCache(s, item.jobId, now, hit.value)
    else if spec.estimate.None? then Begun(s, item.jobId, now)
    else LaunchedWithin(c, s, item, spec.estimate.value, now)
  }

  ghost predicate DefersItem(c: Settings, s: State, spec: Submission, hit: Option<Json>)
  {
    !(spec.cacheKey.Some? && hit.Some?) && spec.estimate.Some? && IsDeferred(spec.estimate.value, c.limits, s.ledger.leases)
  }

  lemma LaunchedParts(c: Settings, s: State, id: JobId, hit: Option<Json>, now: real)
    requires id in s.repo.records && id in s.repo.history && id in s.waiting.items && s.waiting.items[id].item.jobId == id
    ensures Launched(c, s, id, hit, now) ==
            LaunchedItem(c, s.(waiting := Removed(s.waiting, id)), s.waiting.items[id].item, s.repo.records[id].spec, hit, now)
  {
    hide FromCache, Begun, Grant, Waitable, Reserved, Move;
  }

  lemma SameDeferral(c: Settings, s: State, id: JobId, hit: Option<Json>, now: real)
    requires id in s.repo.records
    ensures IsDeferral(c, s, id, hit) <==>
            DefersItem(c, s.(now := now, waiting := Removed(s.waiting, id)), s.repo.records[id].spec, hit)
  {
  }

  /** What `retry` answers, by the first reason that applies. */
  function RetryAnswer(c: Settings, s: State, id: JobId, now: real): RetryResult
  {
    if id !in s.repo.records then RetryRefused(NotFound)
    else if !Room(c.queues, s.waiting, s.repo.records[id].spec.queue) then RetryBackpressure
    else
      match RetryRecord(s.repo.records[id], FAILED, now, None)
      case Ok(updated) => RetryAccepted(updated)
      case Err(error) => RetryRefused(error)
  }

  /** Only a failed job is accepted, and it is queued under the next attempt number. */
  lemma RetryAcceptsFailed(c: Settings, s: State, id: JobId, now: real)
    ensures RetryAnswer(c, s, id, now).RetryAccepted? ==>
              && id in s.repo.records && s.repo.records[id].status == FAILED
              && RetryAnswer(c, s, id, now).record.status == QUEUED
              && RetryAnswer(c, s, id, now).record.attempt == s.repo.records[id].attempt + 1
  {
  }

  class Scheduler {
    const settings: Settings
    const repository: InMemoryJobRepository
    const queues: SchedulerQueues
    const broker: ResourceBroker
    const cache: InMemoryNodeResultCache
    const journal: InMemoryEventJournal
    var phases: map<JobId, Phase>
    /** For every active attempt, the reason its token was cancelled for, if any. */
    var tokens: map<JobId, Option<string>>
    var reservations: map<JobId, Lease>
    var clock: real
    /** The steps taken so far. */
    ghost var start: real
    ghost var run: Run

    /** The active attempts, with what their tokens say. */
    ghost function Tasks(): map<JobId, Task>
      reads this`phases, this`tokens
    {
      map id | id in phases && id in tokens :: Task(phases[id], tokens[id])
    }

    ghost function Value(): State
      reads this`phases, this`tokens, this`reservations, this`clock, repository, queues, broker, journal
    {
      State(repository.State(), queues.State(), Tasks(), reservations, broker.State(), journal.Events(), clock)
    }

    ghost predicate TokensOk()
      reads this`phases, this`tokens
    {
      tokens.Keys == phases.Keys
    }

    /** Every component is in order and every attempt has its token. */
    ghost predicate Parts()
      reads this`phases, this`tokens, repository, queues, broker, cache, journal
    {
      && repository.Valid() && queues.Valid() && broker.Valid() && cache.Valid() && journal.Valid() && TokensOk()
      && queues.config == settings.queues && broker.limits == settings.limits && settings.maxConcurrency >= 1
    }

    ghost predicate Valid()
      reads this, repository, queues, broker, cache, journal
    {
      Parts() && Reached(settings, start, run, Value())
    }

    constructor (settings: Settings, cache: InMemoryNodeResultCache, now: real)
      requires ValidConfig(settings.queues) && settings.maxConcurrency >= 1 && now >= 0.0 && cache.Valid()
      ensures Valid() && Value() == Initial(now) && this.settings == settings
    {
      var r := new InMemoryJobRepository();
      var q := new SchedulerQueues(settings.queues);
      var b := new ResourceBroker(settings.limits);
      var j := new InMemoryEventJournal();
      this.settings, this.cache, repository, queues, broker, journal := settings, cache, r, q, b, j;
      phases, tokens, reservations, clock := map[], map[], map[], now;
      start, run := now, Begin;
      new;
      assert Tasks() == map[];
    }

    /** `_now`: some later reading of the clock. */
    method Now()
      modifies this`clock
      ensures clock >= old(clock)
    {
      var t: real := *;
      if t >= clock { clock := t; }
    }

    /** Bookkeeping: the present state is the next one of the run. */
    ghost method Took(before: State, step: Step)
      requires Parts() && Reached(settings, start, run, before) && Enabled(settings, before, step, clock)
      requires Value() == Apply(settings, before, step, clock)
      modifies this`run
      ensures Valid() && run == More(old(run), step, clock) && Value() == old(Value())
      ensures Effect(settings, before, step, Value(), clock)
    {
      hide InMemoryJobRepository.Valid, SchedulerQueues.Valid, ResourceBroker.Valid, InMemoryNodeResultCache.Valid, InMemoryEventJournal.Valid, TokensOk, Tasks, Arrives;
      hide Effect, Apply, Enabled;
      ReachedEffect(settings, start, run, before, step, clock);
      StepTaken(settings, start, run, before, step, clock, Value());
      run := More(run, step, clock);
    }

    /** `_transition` from the job's present status. */
    method Transition(id: JobId, target: Status, result: Json, error: Option<Json>)
      requires Parts() && id in repository.records && id in repository.history
      modifies repository, journal
      ensures Parts() && id in repository.records && id in repository.history
      ensures Value() == Move(old(Value()), id, target, clock, result, error)
    {
      hide InMemoryJobRepository.Valid, SchedulerQueues.Valid, ResourceBroker.Valid, InMemoryNodeResultCache.Valid, InMemoryEventJournal.Valid, TokensOk, Tasks;
      MoveEffect(Value(), id, target, clock, result, error);
      var record := repository.Get(id);
      var r := repository.Transition(id, record.value.status, target, clock, result, error);
      if r.Ok? {
        var e := journal.Append(StatusEvent(target), id);
      }
    }

    // ----- submit -----

    /** `submit`. */
    method Submit(spec: Submission) returns (r: SubmitResult)
      requires Valid() && ValidSubmission(spec)
      modifies this`clock, this`run, repository, queues, journal
      ensures Valid() && run == More(old(run), Step.Submit(spec), clock)
      ensures Enabled(settings, old(Value()), Step.Submit(spec), clock) && Value() == Apply(settings, old(Value()), Step.Submit(spec), clock)
      ensures Effect(settings, old(Value()), Step.Submit(spec), Value(), clock)
      ensures r.Backpressure? <==> !Room(settings.queues, old(Value()).waiting, spec.queue)
      ensures r.AlreadyExists? <==> Room(settings.queues, old(Value()).waiting, spec.queue) && spec.jobId in old(Value()).repo.records
      ensures r.Accepted? ==> r.record == FromSubmission(spec, clock)
    {
      hide InMemoryJobRepository.Valid, SchedulerQueues.Valid, ResourceBroker.Valid, InMemoryNodeResultCache.Valid, InMemoryEventJournal.Valid, TokensOk, Tasks, Arrives;
      ghost var before := Value();
      ReachedJob(settings, start, run, before, spec.jobId);
      r := SubmitNow(spec);
      Took(before, Step.Submit(spec));
    }

    method SubmitNow(spec: Submission) returns (r: SubmitResult)
      requires Parts() && ValidSubmission(spec) && clock >= 0.0
      requires spec.jobId !in repository.records ==> spec.jobId !in queues.items
      modifies this`clock, repository, queues, journal
      ensures Parts() && clock >= old(clock)
      ensures Value() == Submitted(settings, old(Value()).(now := clock), spec, clock)
      ensures r.Backpressure? <==> !Room(settings.queues, old(Value()).waiting, spec.queue)
      ensures r.AlreadyExists? <==> Room(settings.queues, old(Value()).waiting, spec.queue) && spec.jobId in old(Value()).repo.records
      ensures r.Accepted? ==> r.record == FromSubmission(spec, clock)
    {
      hide InMemoryJobRepository.Valid, SchedulerQueues.Valid, ResourceBroker.Valid, InMemoryNodeResultCache.Valid, InMemoryEventJournal.Valid, TokensOk, Tasks;
      var room := queues.HasCapacity(spec.queue);
      if !room { return Backpressure; }
      Now();
      r := Enroll(spec);
    }

    /** The part of `submit` that creates, queues and publishes. */
    method Enroll(spec: Submission) returns (r: SubmitResult)
      requires repository.Valid() && queues.Valid() && journal.Valid() && ValidSubmission(spec) && clock >= 0.0
      requires Room(queues.config, queues.State(), spec.queue)
      requires spec.jobId !in repository.records ==> spec.jobId !in queues.items
      modifies repository, queues, journal
      ensures repository.Valid() && queues.Valid() && journal.Valid()
      ensures r == if spec.jobId in old(repository.records) then AlreadyExists else Accepted(FromSubmission(spec, clock))
      ensures r.AlreadyExists? ==>
                && repository.State() == old(repository.State()) && queues.State() == old(queues.State())
                && journal.Events() == old(journal.Events())
      ensures r.Accepted? ==>
                && repository.State() == Created(old(repository.State()), r.record)
                && queues.State() == Queues.Put(old(queues.State()), ItemOf(r.record))
                && journal.Events() == old(journal.Events()) + [Event(JobCreated, spec.jobId)] + [Event(StatusEvent(QUEUED), spec.jobId)]
    {
      hide InMemoryJobRepository.Valid, SchedulerQueues.Valid, ResourceBroker.Valid, InMemoryNodeResultCache.Valid, InMemoryEventJournal.Valid;
      var created := repository.Create(spec, clock);
      if created.Err? { return AlreadyExists; }
      var queued := queues.Enqueue(ItemOf(created.value));
      var e0 := journal.Append(JobCreated, spec.jobId);
      var e1 := journal.Append(StatusEvent(QUEUED), spec.jobId);
      r := Accepted(created.value);
    }

    // ----- launching -----

    /** Every queue entry belongs to a queued record. */
    ghost predicate QueuedKnown()
      reads repository, queues, this`tokens, this`reservations
    {
      forall id :: id in queues.items ==>
        && id in repository.records && id in repository.history && repository.records[id].status == QUEUED
        && queues.items[id].item == ItemOf(repository.records[id])
        && (repository.records[id].spec.estimate.Some? ==> ValidEstimate(repository.records[id].spec.estimate.value))
        && repository.records[id].spec.jobId == id && id !in tokens && id !in reservations
        && Room(queues.config, Removed(queues.State(), id), queues.items[id].item.queue)
    }

    /** `_complete_from_cache`. */
    method CompleteFromCache(id: JobId, value: Json)
      requires Parts() && id in repository.records && id in repository.history
      modifies repository, journal
      ensures Parts() && Value() == FromCache(old(Value()), id, clock, value)
    {
      hide InMemoryJobRepository.Valid, SchedulerQueues.Valid, ResourceBroker.Valid, InMemoryNodeResultCache.Valid, InMemoryEventJournal.Valid, TokensOk, Tasks;
      hide Move;
      Transition(id, PREPARING, Null, None);
      Transition(id, RUNNING, Null, None);
      Transition(id, COMPLETED, value, None);
    }

    /** The end of a launch: the record, the token and the attempt. */
    method BeginAttempt(id: JobId)
      requires Parts() && id in repository.records && id in repository.history && id !in tokens
      modifies this`phases, this`tokens, repository, journal
      ensures Parts() && Value() == Begun(old(Value()), id, clock)
    {
      hide InMemoryJobRepository.Valid, SchedulerQueues.Valid, ResourceBroker.Valid, InMemoryNodeResultCache.Valid, InMemoryEventJournal.Valid, TokensOk, Tasks;
      hide Move;
      Transition(id, PREPARING, Null, None);
      NewTask(id);
    }

    method NewTask(id: JobId)
      requires TokensOk() && id !in tokens
      modifies this`phases, this`tokens
      ensures TokensOk() && Tasks() == old(Tasks())[id := Task(Starting, None)]
    {
      ghost var tasks := Tasks();
      tokens := tokens[id := None];
      phases := phases[id := Starting];
      assert Tasks() == tasks[id := Task(Starting, None)];
    }

    /** `_launch_next`. */
    method LaunchNext() returns (launched: bool, ghost step: Option<Step>)
      requires Valid()
      modifies this, repository, queues, broker, cache, journal
      ensures Valid() && start == old(start)
      ensures step.None? ==> !launched && Value() == old(Value()) && run == old(run)
      ensures step.None? <==> |old(Value()).active| >= settings.maxConcurrency || old(Value()).waiting.items == map[]
      ensures step.Some? ==> step.value.Launch? && run == More(old(run), step.value, clock)
      ensures step.Some? ==> Enabled(settings, old(Value()), step.value, clock) && Value() == Apply(settings, old(Value()), step.value, clock)
      ensures step.Some? ==> Effect(settings, old(Value()), step.value, Value(), clock)
      ensures step.Some? ==> (launched <==> !IsDeferral(settings, old(Value()), step.value.id, step.value.hit))
      ensures step.Some? ==>
                step.value.hit == CachedValue(old(cache.entries), old(Value()).repo.records[step.value.id].spec.cacheKey, clock)
    {
      hide InMemoryJobRepository.Valid, SchedulerQueues.Valid, ResourceBroker.Valid, InMemoryNodeResultCache.Valid, InMemoryEventJournal.Valid, TokensOk, Tasks, Arrives;
      hide Room, ValidRecord, Apply, Effect, IsDeferral, Next, Launched, Reached;
      ghost var before := Value();
      CountTasks();
      if |phases| >= settings.maxConcurrency || queues.items == map[] { return false, None; }
      KnowQueued();
      ghost var id, hit;
      launched, id, hit := LaunchNow();
      ApplyLaunch(settings, before, id, hit, clock);
      Took(before, Launch(id, hit));
      step := Some(Launch(id, hit));
    }

    method LaunchNow() returns (launched: bool, ghost id: JobId, ghost hit: Option<Json>)
      requires Parts() && QueuedKnown() && queues.items != map[]
      modifies this`clock, this`phases, this`tokens, this`reservations, repository, queues, broker, cache, journal
      ensures Parts() && clock >= old(clock)
      ensures id in old(Value()).waiting.items && id in old(Value()).repo.records && id in old(Value()).repo.history
      ensures Queues.Next(old(Value()).waiting, clock, settings.queues.rate, id)
      ensures Value() == Launched(settings, old(Value()).(now := clock), id, hit, clock)
      ensures launched <==> !IsDeferral(settings, old(Value()), id, hit)
      ensures hit == CachedValue(old(cache.entries), old(Value()).repo.records[id].spec.cacheKey, clock)
    {
      hide InMemoryJobRepository.Valid, SchedulerQueues.Valid, ResourceBroker.Valid, InMemoryNodeResultCache.Valid, InMemoryEventJournal.Valid, TokensOk, Tasks;
      hide Room, ValidRecord, ValidEstimate, Precedes, Launched, IsDeferral, LaunchedItem, DefersItem;
      Now();
      var popped := queues.PopNext(clock);
      var item := popped.value;
      id := item.jobId;
      var record := repository.Get(item.jobId);
      if record.None? || record.value.status != QUEUED {
        assert false;
        return true, id, None;
      }
      launched, hit := LaunchItem(item, record.value.spec);
      LaunchedParts(settings, old(Value()).(now := clock), id, hit, clock);
      SameDeferral(settings, old(Value()), id, hit, clock);
    }

    /** What happens to an item once it is off the queue. */
    method LaunchItem(item: Item, spec: Submission) returns (launched: bool, ghost hit: Option<Json>)
      requires Parts() && item.jobId in repository.records && item.jobId in repository.history
      requires spec.estimate.Some? ==> ValidEstimate(spec.estimate.value)
      requires item.jobId !in tokens && item.jobId !in queues.items && Room(settings.queues, queues.State(), item.queue)
      modifies this`phases, this`tokens, this`reservations, repository, queues, broker, cache, journal
      ensures Parts() && Value() == LaunchedItem(settings, old(Value()), item, spec, hit, clock)
      ensures launched <==> !DefersItem(settings, old(Value()), spec, hit)
      ensures hit == CachedValue(old(cache.entries), spec.cacheKey, clock)
    {
      hide InMemoryJobRepository.Valid, SchedulerQueues.Valid, ResourceBroker.Valid, InMemoryNodeResultCache.Valid, InMemoryEventJournal.Valid, TokensOk, Tasks;
      hide Move, FromCache, Begun, LaunchedWithin, IsDeferred, Room, ValidEstimate;
      var found := ReadCache(spec.cacheKey);
      hit := found;
      if spec.cacheKey.Some? && found.Some? {
        CompleteFromCache(item.jobId, found.value);
        return true, hit;
      }
      if spec.estimate.None? {
        BeginAttempt(item.jobId);
        return true, hit;
      }
      launched := LaunchWithin(item, spec.estimate.value);
    }

    /** The cached value of a job that names a key. */
    method ReadCache(key: Option<string>) returns (value: Option<Json>)
      requires cache.Valid()
      modifies cache
      ensures cache.Valid() && value == CachedValue(old(cache.entries), key, clock)
    {
      hide InMemoryJobRepository.Valid, SchedulerQueues.Valid, ResourceBroker.Valid, InMemoryNodeResultCache.Valid, InMemoryEventJournal.Valid;
      if key.None? { return None; }
      var entry := cache.Get(key.value, clock);
      value := if entry.Some? then Some(entry.value.value) else None;
    }

    /** The launch of a job that needs resources. */
    method LaunchWithin(item: Item, e: Estimate) returns (launched: bool)
      requires Parts() && ValidEstimate(e) && item.jobId in repository.records && item.jobId in repository.history
      requires item.jobId !in tokens && item.jobId !in queues.items && Room(settings.queues, queues.State(), item.queue)
      modifies this`phases, this`tokens, this`reservations, repository, queues, broker, journal
      ensures Parts() && launched == !IsDeferred(e, settings.limits, old(Value()).ledger.leases)
      ensures Value() == LaunchedWithin(settings, old(Value()), item, e, clock)
    {
      hide InMemoryJobRepository.Valid, SchedulerQueues.Valid, ResourceBroker.Valid, InMemoryNodeResultCache.Valid, InMemoryEventJournal.Valid, TokensOk, Tasks;
      hide Move, Begun, Grant, Waitable, Room, ValidEstimate;
      var outcome := Reserve(item.jobId, e);
      match outcome
      case ADMITTED =>
        BeginAttempt(item.jobId);
        launched := true;
      case DEFERRED =>
        var r := queues.Enqueue(item);
        var event := journal.Append(JobDeferred, item.jobId);
        launched := false;
      case REJECTED =>
        Transition(item.jobId, FAILED, Null, Some(ADMISSION_ERROR));
        launched := true;
    }

    /** Ask the broker; an admitted job keeps its lease. */
    method Reserve(id: JobId, e: Estimate) returns (outcome: Admission)
      requires broker.Valid() && ValidEstimate(e)
      modifies this`reservations, broker
      ensures broker.Valid()
      ensures var grant := Grant(e, broker.limits, old(broker.leases));
              && (outcome == ADMITTED <==> grant.Some?) && (outcome == DEFERRED <==> IsDeferred(e, broker.limits, old(broker.leases)))
              && (grant.Some? ==>
                    var lease := Lease(old(broker.next), grant.value.1);
                    && broker.State() == Ledger(old(broker.leases) + [lease], old(broker.next) + 1)
                    && reservations == old(reservations)[id := lease])
              && (grant.None? ==> broker.State() == old(broker.State()) && reservations == old(reservations))
    {
      hide ResourceBroker.Valid, Grant, Waitable, ValidEstimate, Diagnostics;
      var decision := broker.Admit(e);
      match decision
      case Admitted(_, lease, _) =>
        reservations := reservations[id := lease];
        outcome := ADMITTED;
      case Deferred(_, _, _) => outcome := DEFERRED;
      case Rejected(_, _) => outcome := REJECTED;
    }

    // ----- running an attempt -----

    /** An attempt whose record is known and whose lease, if it has one, is live. */
    ghost predicate Attempt(id: JobId)
      reads this`phases, this`reservations, repository, queues, broker
    {
      && id in phases && id in repository.records && id in repository.history && id !in queues.items
      && repository.records[id].spec.jobId == id
      && (id in reservations ==> reservations[id] in broker.leases)
    }

    lemma KnowAttempt(id: JobId)
      requires Valid() && id in phases
      ensures Attempt(id) && id in Value().active && id in tokens && Value().active[id] == Task(phases[id], tokens[id])
      ensures repository.records.Keys == repository.history.Keys
    {
      ReachedActive(settings, start, run, Value(), id);
    }

    /** `_release_reservation`. */
    method ReleaseReservation(id: JobId)
      requires Parts() && (id in reservations ==> reservations[id] in broker.leases)
      modifies this`reservations, broker
      ensures Parts() && Value() == ReleaseLease(old(Value()), id) && id !in reservations
    {
      hide InMemoryJobRepository.Valid, SchedulerQueues.Valid, ResourceBroker.Valid, InMemoryNodeResultCache.Valid, InMemoryEventJournal.Valid, TokensOk, Tasks;
      if id in reservations {
        var released := broker.Release(reservations[id]);
        reservations := reservations - {id};
      }
    }

    /** The `finally` block. */
    method FinishAttempt(id: JobId)
      requires Parts() && (id in reservations ==> reservations[id] in broker.leases)
      modifies this`phases, this`tokens, this`reservations, broker
      ensures Parts() && Value() == Finish(old(Value()), id)
    {
      hide InMemoryJobRepository.Valid, SchedulerQueues.Valid, ResourceBroker.Valid, InMemoryNodeResultCache.Valid, InMemoryEventJournal.Valid, TokensOk, Tasks;
      hide ReleaseLease;
      ReleaseReservation(id);
      DropTask(id);
    }

    method DropTask(id: JobId)
      requires TokensOk()
      modifies this`phases, this`tokens
      ensures TokensOk() && Tasks() == old(Tasks()) - {id}
    {
      tokens := tokens - {id};
      phases := phases - {id};
    }

    method SetPhase(id: JobId, phase: Phase)
      requires TokensOk() && id in phases
      modifies this`phases
      ensures TokensOk() && Tasks() == old(Tasks())[id := Task(phase, tokens[id])]
    {
      phases := phases[id := phase];
    }

    /** A final transition, then the `finally` block. */
    method End(id: JobId, target: Status, result: Json, error: Option<Json>)
      requires Parts() && id in repository.records && id in repository.history
      requires id in reservations ==> reservations[id] in broker.leases
      modifies this`phases, this`tokens, this`reservations, repository, broker, journal
      ensures Parts() && Value() == Finish(Move(old(Value()), id, target, clock, result, error), id)
    {
      hide InMemoryJobRepository.Valid, SchedulerQueues.Valid, ResourceBroker.Valid, InMemoryNodeResultCache.Valid, InMemoryEventJournal.Valid, TokensOk, Tasks;
      hide Move, Finish;
      Transition(id, target, result, error);
      FinishAttempt(id);
    }

    /** A created task runs until it hands over to the dispatcher or sees its cancellation. */
    method StartAttempt(id: JobId) returns (ghost step: Step)
      requires Valid() && id in phases && phases[id].Starting?
      modifies this`phases, this`tokens, this`reservations, this`clock, this`run, repository, broker, journal
      ensures Valid() && Stepped(old(Value()), old(run), step) && step == Start(id)
    {
      hide InMemoryJobRepository.Valid, SchedulerQueues.Valid, ResourceBroker.Valid, InMemoryNodeResultCache.Valid, InMemoryEventJournal.Valid, TokensOk, Tasks, Arrives;
      hide Started;
      step := Start(id);
      ghost var before := Value();
      KnowAttempt(id);
      StartNow(id);
      ApplyAttempt(settings, before, step, clock);
      Took(before, step);
    }

    /** The state is the model's next one, and the job has the step's effect on it. */
    ghost predicate Stepped(before: State, earlier: Run, step: Step)
      reads this`phases, this`tokens, this`reservations, this`clock, this`run, repository, queues, broker, journal
    {
      && Enabled(settings, before, step, clock) && Value() == Apply(settings, before, step, clock) && run == More(earlier, step, clock)
      && Effect(settings, before, step, Value(), clock)
    }

    method StartNow(id: JobId)
      requires Parts() && Attempt(id)
      modifies this`phases, this`tokens, this`reservations, this`clock, repository, broker, journal
      ensures Parts() && clock >= old(clock) && id in old(Value()).active
      ensures Value() == Started(old(Value()).(now := clock), id, clock)
    {
      hide InMemoryJobRepository.Valid, SchedulerQueues.Valid, ResourceBroker.Valid, InMemoryNodeResultCache.Valid, InMemoryEventJournal.Valid, TokensOk, Tasks;
      hide Move, Finish;
      SameTasks();
      Now();
      Transition(id, RUNNING, Null, None);
      if tokens[id].Some? {
        End(id, CANCELLED, Null, Some(Str(tokens[id].value)));
      } else {
        SetPhase(id, Dispatching);
      }
    }
    /** What the dispatcher makes of the attempt. */
    method EndDispatch(id: JobId, outcome: DispatchOutcome) returns (ghost step: Step)
      requires Valid() && id in phases && phases[id].Dispatching?
      modifies this`phases, this`tokens, this`reservations, this`clock, this`run, repository, broker, cache, journal
      ensures Valid() && Stepped(old(Value()), old(run), step)
      ensures match outcome
              case Result(value, _, _, _) => step.Return? && step.id == id && step.value == value
              case Interrupted(reason) => step == Interrupt(id, reason)
              case Failed(error, retryable) => step == Raise(id, error, retryable)
      ensures id in old(Value()).active && id in old(Value()).repo.records
      ensures id in old(tokens) && id in old(repository.records) && id in repository.records
      ensures outcome.Result? && old(tokens)[id] == None ==>
                Closed(repository.records[id], COMPLETED, outcome.value, None) && id !in phases
      ensures outcome.Interrupted? && old(tokens)[id] == None ==>
                Closed(repository.records[id], CANCELLED, Null, Some(Str(outcome.reason))) && id !in phases
      ensures !outcome.Failed? && old(tokens)[id] != None ==>
                Closed(repository.records[id], CANCELLED, Null, Some(Str(old(tokens)[id].value))) && id !in phases
      ensures outcome.Failed? && !AttemptsLeft(old(repository.records)[id], outcome.retryable) ==>
                Closed(repository.records[id], FAILED, Null, Some(outcome.error)) && id !in phases
      ensures outcome.Failed? && AttemptsLeft(old(repository.records)[id], outcome.retryable) ==>
                && repository.records == old(repository.records) && id !in reservations
                && id in phases && phases[id] == Sleeping(outcome.error) && id in tokens && tokens[id] == old(tokens)[id]
      ensures forall k :: k in old(repository.records) && k != id ==> k in repository.records && repository.records[k] == old(repository.records)[k]
      ensures outcome.Result? ==>
                var key := old(Value()).repo.records[id].spec.cacheKey;
                var keeps := Keeps(old(Value()).active[id], key, outcome.cacheable);
                && (step.writeFails <==> keeps && outcome.size > cache.maxBytes)
                && StoredWhen(keeps && outcome.size <= cache.maxBytes, key, outcome, old(cache.entries), old(cache.puts))
      ensures !outcome.Result? ==> cache.entries == old(cache.entries) && cache.puts == old(cache.puts)
    {
      hide InMemoryJobRepository.Valid, SchedulerQueues.Valid, ResourceBroker.Valid, InMemoryNodeResultCache.Valid, InMemoryEventJournal.Valid, TokensOk, Tasks, Arrives;
      hide Returned, Stopped, Raised, Effect, Apply, AttemptsLeft, Closed;
      ghost var before := Value();
      KnowAttempt(id);
      match outcome {
        case Result(value, cacheable, size, ttl) =>
          ghost var failed := ReturnNow(id, value, cacheable, size, ttl, outcome);
          step := Return(id, value, failed);
        case Interrupted(reason) =>
          InterruptNow(id, reason);
          step := Interrupt(id, reason);
        case Failed(error, retryable) =>
          RaiseNow(id, error, retryable);
          step := Raise(id, error, retryable);
      }
      ApplyAttempt(settings, before, step, clock);
      Took(before, step);
      DispatchRead(before, step);
    }

    /** What the record of an ended attempt shows. */
    predicate Closed(r: JobRecord, status: Status, result: Json, error: Option<Json>)
      reads this`clock
    {
      r.status == status && r.result == result && r.error == error && r.finishedAt == Some(clock)
    }

    /** The error may be tried again, and neither the job nor the policy is out of attempts. */
    predicate AttemptsLeft(r: JobRecord, retryable: bool)
    {
      retryable && r.attempt + 1 < r.spec.maxAttempts && r.attempt + 1 < settings.policyAttempts
    }

    /** The effect of a dispatch's end, read off the fields. */
    lemma DispatchRead(before: State, step: Step)
      requires TokensOk() && Enabled(settings, before, step, clock) && Effect(settings, before, step, Value(), clock)
      requires step.Return? || step.Interrupt? || step.Raise?
      ensures step.id in before.active && step.id in before.repo.records && step.id in repository.records
      ensures var r, token := repository.records[step.id], before.active[step.id].cancelled;
              && (step.Return? && token == None ==> Closed(r, COMPLETED, step.value, None) && step.id !in phases)
              && (step.Interrupt? && token == None ==> Closed(r, CANCELLED, Null, Some(Str(step.reason))) && step.id !in phases)
              && (!step.Raise? && token != None ==> Closed(r, CANCELLED, Null, Some(Str(token.value))) && step.id !in phases)
              && (step.Raise? && !AttemptsLeft(before.repo.records[step.id], step.retryable) ==>
                    Closed(r, FAILED, Null, Some(step.error)) && step.id !in phases)
              && (step.Raise? && AttemptsLeft(before.repo.records[step.id], step.retryable) ==>
                    && repository.records == before.repo.records && step.id !in reservations
                    && step.id in phases && phases[step.id] == Sleeping(step.error) && step.id in tokens && tokens[step.id] == token)
      ensures forall k :: k in before.repo.records && k != step.id ==>
                k in repository.records && repository.records[k] == before.repo.records[k]
    {
      hide Apply, Room, Grant, Waitable;
      SameTasks();
    }

    /** The result is in the cache under the job's key, or the cache is as it was. */
    ghost predicate StoredWhen(stored: bool, key: Option<string>, outcome: DispatchOutcome, entries: Entries, puts: map<string, Json>)
      requires outcome.Result? && (stored ==> key.Some?)
      reads this`clock, cache
    {
      if stored then
        && key.value in cache.entries && cache.puts == puts[key.value := outcome.value]
        && cache.entries[key.value].entry == NewEntry(key.value, outcome.value, outcome.size, outcome.ttl, clock)
      else cache.entries == entries && cache.puts == puts
    }

    method ReturnNow(id: JobId, value: Json, cacheable: bool, size: nat, ttl: Option<real>, ghost outcome: DispatchOutcome)
      returns (ghost failed: bool)
      requires Parts() && Attempt(id) && outcome == Result(value, cacheable, size, ttl)
      modifies this`phases, this`tokens, this`reservations, this`clock, repository, broker, cache, journal
      ensures Parts() && clock >= old(clock) && id in old(Value()).active
      ensures Value() == Returned(old(Value()).(now := clock), id, value, failed, clock)
      ensures var key := old(repository.records)[id].spec.cacheKey;
              var keeps := Keeps(old(Value()).active[id], key, cacheable);
              && (failed <==> keeps && size > cache.maxBytes)
              && StoredWhen(keeps && size <= cache.maxBytes, key, outcome, old(cache.entries), old(cache.puts))
    {
      hide InMemoryJobRepository.Valid, SchedulerQueues.Valid, ResourceBroker.Valid, InMemoryNodeResultCache.Valid, InMemoryEventJournal.Valid, TokensOk, Tasks;
      hide Move, Finish;
      SameTasks();
      Now();
      if tokens[id].Some? {
        failed := false;
        End(id, CANCELLED, Null, Some(Str(tokens[id].value)));
      } else {
        failed := StoreResult(id, value, cacheable, size, ttl, outcome);
        End(id, COMPLETED, value, None);
      }
    }

    /** A cacheable result is stored under the job's key; a result too large for the cache is
        only reported. */
    method StoreResult(id: JobId, value: Json, cacheable: bool, size: nat, ttl: Option<real>, ghost outcome: DispatchOutcome)
      returns (ghost failed: bool)
      requires Parts() && id in repository.records && outcome == Result(value, cacheable, size, ttl)
      modifies cache, journal
      ensures Parts() && Value() == if failed then Publish(old(Value()), CacheWriteFailed, id) else old(Value())
      ensures var key := repository.records[id].spec.cacheKey;
              var keeps := cacheable && key.Some?;
              && (failed <==> keeps && size > cache.maxBytes)
              && StoredWhen(keeps && size <= cache.maxBytes, key, outcome, old(cache.entries), old(cache.puts))
    {
      hide InMemoryJobRepository.Valid, SchedulerQueues.Valid, ResourceBroker.Valid, InMemoryNodeResultCache.Valid, InMemoryEventJournal.Valid, TokensOk, Tasks;
      failed := false;
      var key := repository.records[id].spec.cacheKey;
      if cacheable && key.Some? {
        var stored := cache.Put(key.value, value, size, ttl, clock);
        if stored.TooLarge? {
          var event := journal.Append(CacheWriteFailed, id);
          failed := true;
        }
      }
    }

    method InterruptNow(id: JobId, reason: string)
      requires Parts() && Attempt(id)
      modifies this`phases, this`tokens, this`reservations, this`clock, repository, broker, journal
      ensures Parts() && clock >= old(clock) && id in old(Value()).active
      ensures var why := old(Value()).active[id].cancelled;
              Value() == Stopped(old(Value()).(now := clock), id, clock, if why.Some? then why.value else reason)
    {
      hide InMemoryJobRepository.Valid, SchedulerQueues.Valid, ResourceBroker.Valid, InMemoryNodeResultCache.Valid, InMemoryEventJournal.Valid, TokensOk, Tasks;
      hide Move, Finish;
      SameTasks();
      Now();
      End(id, CANCELLED, Null, Some(Str(if tokens[id].Some? then tokens[id].value else reason)));
    }

    method RaiseNow(id: JobId, error: Json, retryable: bool)
      requires Parts() && Attempt(id)
      modifies this`phases, this`tokens, this`reservations, this`clock, repository, broker, journal
      ensures Parts() && clock >= old(clock) && id in old(Value()).active
      ensures Value() == Raised(settings, old(Value()).(now := clock), id, error, retryable, clock)
    {
      hide InMemoryJobRepository.Valid, SchedulerQueues.Valid, ResourceBroker.Valid, InMemoryNodeResultCache.Valid, InMemoryEventJournal.Valid, TokensOk, Tasks;
      hide Move, Finish, ReleaseLease;
      SameTasks();
      Now();
      if CanRetry(settings, repository.records[id], retryable) {
        Postpone(id, error);
      } else {
        End(id, FAILED, Null, Some(error));
      }
    }

    /** The lease goes back before the retry delay starts. */
    method Postpone(id: JobId, error: Json)
      requires Parts() && id in phases && (id in reservations ==> reservations[id] in broker.leases)
      modifies this`phases, this`reservations, broker, journal
      ensures Parts() && id in old(Value()).active
      ensures var t := Publish(ReleaseLease(old(Value()), id), JobRetrying, id);
              Value() == t.(active := t.active[id := Task(Sleeping(error), old(Value()).active[id].cancelled)])
    {
      hide InMemoryJobRepository.Valid, SchedulerQueues.Valid, ResourceBroker.Valid, InMemoryNodeResultCache.Valid, InMemoryEventJournal.Valid, TokensOk, Tasks;
      hide ReleaseLease;
      SameTasks();
      ReleaseReservation(id);
      var event := journal.Append(JobRetrying, id);
      SetPhase(id, Sleeping(error));
    }

    /** The retry delay is over. */
    method WakeAttempt(id: JobId) returns (ghost step: Step)
      requires Valid() && id in phases && phases[id].Sleeping?
      modifies this`phases, this`tokens, this`reservations, this`clock, this`run, repository, queues, broker, journal
      ensures Valid() && Stepped(old(Value()), old(run), step) && step == Wake(id)
    {
      hide InMemoryJobRepository.Valid, SchedulerQueues.Valid, ResourceBroker.Valid, InMemoryNodeResultCache.Valid, InMemoryEventJournal.Valid, TokensOk, Tasks, Arrives;
      hide Woken;
      step := Wake(id);
      ghost var before := Value();
      KnowAttempt(id);
      WakeNow(id);
      ApplyAttempt(settings, before, step, clock);
      Took(before, step);
    }

    method WakeNow(id: JobId)
      requires Parts() && Attempt(id) && phases[id].Sleeping?
      modifies this`phases, this`tokens, this`reservations, this`clock, repository, queues, broker, journal
      ensures Parts() && clock >= old(clock) && id in old(Value()).active && old(Value()).active[id].phase.Sleeping?
      ensures Value() == Woken(settings, old(Value()).(now := clock), id, clock)
    {
      hide InMemoryJobRepository.Valid, SchedulerQueues.Valid, ResourceBroker.Valid, InMemoryNodeResultCache.Valid, InMemoryEventJournal.Valid, TokensOk, Tasks;
      hide Move, Finish, Requeued, Room;
      SameTasks();
      Now();
      if tokens[id].Some? {
        End(id, CANCELLED, Null, Some(Str(tokens[id].value)));
        return;
      }
      var record := repository.records[id];
      var room := queues.HasCapacity(record.spec.queue);
      if !room {
        End(id, FAILED, Null, Some(BACKPRESSURE_ERROR));
        return;
      }
      var r := RetryAndQueue(id, record.status, Some(phases[id].error));
      if r.Ok? { FinishAttempt(id); }
    }

    /** `repository.retry`, then back to the queue, then the event. */
    method RetryAndQueue(id: JobId, expected: Status, error: Option<Json>) returns (r: Outcome<JobRecord>)
      requires Parts() && id in repository.records && id in repository.history && id !in queues.items
      requires repository.records[id].spec.jobId == id && Room(settings.queues, queues.State(), repository.records[id].spec.queue)
      modifies repository, queues, journal
      ensures Parts() && r == RetryRecord(old(repository.records)[id], expected, clock, error)
      ensures Value() == if r.Ok? then Requeued(old(Value()), id, r.value) else old(Value())
    {
      hide InMemoryJobRepository.Valid, SchedulerQueues.Valid, ResourceBroker.Valid, InMemoryNodeResultCache.Valid, InMemoryEventJournal.Valid, TokensOk, Tasks;
      hide Room;
      r := repository.Retry(id, expected, clock, error);
      if r.Ok? {
        var queued := queues.Enqueue(ItemOf(r.value));
        var event := journal.Append(StatusEvent(QUEUED), id);
      }
    }
    // ----- cancel and retry -----

    /** `cancel`: a queued job is cancelled at once; an active one has its token set, and that
        attempt will neither complete nor be queued again by itself. */
    method Cancel(id: JobId, reason: string) returns (accepted: bool)
      requires Valid()
      modifies this`tokens, this`clock, this`run, repository, queues, journal
      ensures Valid() && Stepped(old(Value()), old(run), Step.Cancel(id, reason))
      ensures accepted <==>
                && id in old(Value()).repo.records && !Terminal(old(Value()).repo.records[id].status)
                && (id in old(Value()).active ==> old(Value()).active[id].cancelled.None?)
      ensures accepted && id in old(Value()).active ==> Doomed(Value(), id, old(Value()).repo.records[id].attempt)
    {
      hide InMemoryJobRepository.Valid, SchedulerQueues.Valid, ResourceBroker.Valid, InMemoryNodeResultCache.Valid, InMemoryEventJournal.Valid, TokensOk, Tasks, Arrives;
      hide Cancelled, Doomed;
      ghost var before := Value();
      ReachedJob(settings, start, run, before, id);
      SameTasks();
      accepted := CancelNow(id, reason);
      ApplyExternal(settings, before, Step.Cancel(id, reason), clock);
      if id in before.active { CancelledIsDoomed(settings, start, run, before, id, reason, clock); }
      Took(before, Step.Cancel(id, reason));
    }

    lemma SameTasks()
      requires TokensOk()
      ensures Tasks().Keys == phases.Keys == tokens.Keys && forall id :: id in phases ==> Tasks()[id] == Task(phases[id], tokens[id])
    {
    }

    method CancelNow(id: JobId, reason: string) returns (accepted: bool)
      requires Parts() && repository.records.Keys == repository.history.Keys
      requires id in repository.records && !Terminal(repository.records[id].status) ==>
                 (id in tokens <==> repository.records[id].status != QUEUED)
      modifies this`tokens, this`clock, repository, queues, journal
      ensures Parts() && clock >= old(clock)
      ensures Value() == Cancelled(old(Value()).(now := clock), id, reason, clock)
      ensures accepted <==>
                && id in old(repository.records) && !Terminal(old(repository.records)[id].status)
                && (id in old(tokens) ==> old(tokens)[id].None?)
    {
      hide InMemoryJobRepository.Valid, SchedulerQueues.Valid, ResourceBroker.Valid, InMemoryNodeResultCache.Valid, InMemoryEventJournal.Valid, TokensOk, Tasks;
      hide Move;
      SameTasks();
      var record := repository.Get(id);
      if record.None? || Terminal(record.value.status) { return false; }
      if record.value.status == QUEUED {
        CancelQueued(id, reason);
        return true;
      }
      accepted := tokens[id].None?;
      if accepted { SetToken(id, reason); }
    }

    method CancelQueued(id: JobId, reason: string)
      requires Parts() && id in repository.records && id in repository.history
      modifies this`clock, repository, queues, journal
      ensures Parts() && clock >= old(clock)
      ensures Value() == Move(old(Value()).(now := clock, waiting := Removed(old(Value()).waiting, id)), id, CANCELLED, clock, Null, Some(Str(reason)))
    {
      hide InMemoryJobRepository.Valid, SchedulerQueues.Valid, ResourceBroker.Valid, InMemoryNodeResultCache.Valid, InMemoryEventJournal.Valid, TokensOk, Tasks;
      hide Move;
      var removed := queues.Remove(id);
      Now();
      Transition(id, CANCELLED, Null, Some(Str(reason)));
    }

    method SetToken(id: JobId, reason: string)
      requires TokensOk() && id in tokens
      modifies this`tokens
      ensures TokensOk() && Tasks() == old(Tasks())[id := Task(phases[id], Some(reason))]
    {
      tokens := tokens[id := Some(reason)];
    }

    /** The manual `retry` of a failed job. */
    method RetryJob(id: JobId) returns (r: RetryResult)
      requires Valid()
      modifies this`clock, this`run, repository, queues, journal
      ensures Valid() && Stepped(old(Value()), old(run), Step.Retry(id))
      ensures r == RetryAnswer(settings, old(Value()), id, clock)
    {
      hide InMemoryJobRepository.Valid, SchedulerQueues.Valid, ResourceBroker.Valid, InMemoryNodeResultCache.Valid, InMemoryEventJournal.Valid, TokensOk, Tasks, Arrives;
      hide Retried, RetryAnswer;
      ghost var before := Value();
      ReachedJob(settings, start, run, before, id);
      r := RetryNow(id);
      ApplyExternal(settings, before, Step.Retry(id), clock);
      Took(before, Step.Retry(id));
    }

    method RetryNow(id: JobId) returns (r: RetryResult)
      requires Parts() && repository.records.Keys == repository.history.Keys
      requires id in repository.records ==> repository.records[id].spec.jobId == id
      requires id in repository.records && repository.records[id].status == FAILED ==> id !in queues.items
      modifies this`clock, repository, queues, journal
      ensures Parts() && clock >= old(clock)
      ensures Value() == Retried(settings, old(Value()).(now := clock), id, clock)
      ensures r == RetryAnswer(settings, old(Value()), id, clock)
    {
      hide InMemoryJobRepository.Valid, SchedulerQueues.Valid, ResourceBroker.Valid, InMemoryNodeResultCache.Valid, InMemoryEventJournal.Valid, TokensOk, Tasks;
      hide Requeued, Room;
      var current := repository.Get(id);
      if current.None? { return RetryRefused(NotFound); }
      var room := queues.HasCapacity(current.value.spec.queue);
      if !room { return RetryBackpressure; }
      Now();
      if current.value.status != FAILED { return RetryRefused(Conflict); }
      var retried := RetryAndQueue(id, FAILED, None);
      r := if retried.Ok? then RetryAccepted(retried.value) else RetryRefused(retried.error);
    }

    // ----- the main loop -----

    /** One step of an active attempt, whatever the dispatcher does. */
    method TaskStep(id: JobId)
      requires Valid() && id in phases
      modifies this, repository, queues, broker, cache, journal
      ensures Valid() && start == old(start) && Continues(run, old(run)) && 0 <= Work(Value()) < Work(old(Value()))
    {
      hide InMemoryJobRepository.Valid, SchedulerQueues.Valid, ResourceBroker.Valid, InMemoryNodeResultCache.Valid, InMemoryEventJournal.Valid, TokensOk, Tasks, Arrives;
      hide Work, Apply, Enabled;
      ghost var before, earlier := Value(), run;
      ghost var step;
      match phases[id] {
        case Starting => step := StartAttempt(id);
        case Dispatching =>
          var outcome: DispatchOutcome := *;
          step := EndDispatch(id, outcome);
        case Sleeping(_) => step := WakeAttempt(id);
      }
      WorkFalls(settings, start, earlier, before, step, clock);
    }

    /** The external calls that may arrive while the loop runs. */
    static predicate IsCall(step: Step)
    {
      step.Cancel? || step.Retry? || (step.Submit? && ValidSubmission(step.spec))
    }

    method TakeCall(step: Step)
      requires Valid() && IsCall(step)
      modifies this, repository, queues, broker, cache, journal
      ensures Valid() && start == old(start) && run.More? && run.step == step && run.earlier == old(run)
    {
      hide InMemoryJobRepository.Valid, SchedulerQueues.Valid, ResourceBroker.Valid, InMemoryNodeResultCache.Valid, InMemoryEventJournal.Valid, TokensOk, Tasks, Arrives;
      match step {
        case Submit(spec) => var r := this.Submit(spec);
        case Cancel(id, reason) => var r := this.Cancel(id, reason);
        case Retry(id) => var r := RetryJob(id);
      }
    }

    /** Calls are taken from the front. */
    static ghost predicate Suffix(rest: seq<Step>, calls: seq<Step>)
    {
      |rest| <= |calls| && rest == calls[|calls| - |rest|..]
    }

    /** `asyncio.wait(..., FIRST_COMPLETED)`: attempts go on and calls arrive, in any order,
        until one of the attempts that were active at first has finished. */
    method AwaitCompletion(calls: seq<Step>) returns (rest: seq<Step>)
      requires Valid() && phases != map[] && forall c :: c in calls ==> IsCall(c)
      modifies this, repository, queues, broker, cache, journal
      ensures Valid() && start == old(start) && Continues(run, old(run)) && Work(Value()) >= 0 && Suffix(rest, calls)
      ensures |rest| < |calls| || (rest == calls && Work(Value()) < Work(old(Value())))
      ensures forall c :: c in rest ==> IsCall(c)
    {
      hide InMemoryJobRepository.Valid, SchedulerQueues.Valid, ResourceBroker.Valid, InMemoryNodeResultCache.Valid, InMemoryEventJournal.Valid, TokensOk, Tasks, Arrives;
      hide Work, Reached;
      rest := calls;
      var waited := phases.Keys;
      NaturalWork();
      while waited <= phases.Keys
        invariant Valid() && start == old(start) && Continues(run, old(run)) && Work(Value()) >= 0 && waited != {} && Suffix(rest, calls)
        invariant |rest| < |calls| || (rest == calls && (Work(Value()) < Work(old(Value())) || waited <= phases.Keys))
        invariant |rest| < |calls| || Work(Value()) <= Work(old(Value()))
        invariant forall c :: c in rest ==> IsCall(c)
        decreases |rest|, Work(Value())
      {
        var arrives: bool := *;
        if rest != [] && arrives {
          ghost var earlier := run;
          TakeCall(rest[0]);
          ContinuesThrough(run, earlier, old(run));
          rest := rest[1..];
          NaturalWork();
        } else {
          var id :| id in waited;
          ghost var earlier := run;
          TaskStep(id);
          ContinuesThrough(run, earlier, old(run));
        }
      }
    }

    lemma NaturalWork()
      requires Valid()
      ensures Work(Value()) >= 0
    {
      WorkLeft(settings, start, run, Value());
    }

    /** The inner loop: launch until nothing is left, all slots are taken or a job must wait. */
    method LaunchAll() returns (blocked: bool)
      requires Valid()
      modifies this, repository, queues, broker, cache, journal
      ensures Valid() && start == old(start) && Continues(run, old(run)) && 0 <= Work(Value()) <= Work(old(Value()))
      ensures blocked ==> phases != map[]
      ensures !blocked ==> phases != map[] || queues.items == map[]
    {
      hide InMemoryJobRepository.Valid, SchedulerQueues.Valid, ResourceBroker.Valid, InMemoryNodeResultCache.Valid, InMemoryEventJournal.Valid, TokensOk, Tasks, Arrives;
      hide Work, Reached, Apply, Enabled, IsDeferral;
      blocked := false;
      NaturalWork();
      CountTasks();
      while |phases| < settings.maxConcurrency && queues.items != map[]
        invariant Valid() && start == old(start) && Continues(run, old(run)) && 0 <= Work(Value()) <= Work(old(Value())) && !blocked
        decreases Work(Value())
      {
        CountTasks();
        ghost var before, earlier := Value(), run;
        var launched, step := LaunchNext();
        ContinuesThrough(run, earlier, old(run));
        CountTasks();
        if !launched {
          DeferralKeepsWork(settings, start, earlier, before, step.value.id, step.value.hit, clock);
          return true;
        }
        WorkFalls(settings, start, earlier, before, step.value, clock);
      }
    }

    /** `run_until_idle`: however the dispatcher behaves and whatever calls arrive, as long as
        every dispatch ends and the calls are finitely many, the loop ends, reports that it is
        idle, and every job has ended. All jobs there were at first are among them, with what was
        submitted and with their histories, and those completed or cancelled before with their
        results. */
    method RunUntilIdle(calls: seq<Step>) returns (idle: bool, rest: seq<Step>)
      requires Valid() && forall c :: c in calls ==> IsCall(c)
      modifies this, repository, queues, broker, cache, journal
      ensures Valid() && idle && Value().waiting.items == map[] && Value().active == map[]
      ensures start == old(start) && Continues(run, old(run)) && Remembers(old(Value()), Value()) && Suffix(rest, calls)
      ensures EndedKept(old(Value()), Value())
      ensures forall id :: id in Value().repo.records ==> Terminal(Value().repo.records[id].status)
    {
      hide InMemoryJobRepository.Valid, SchedulerQueues.Valid, ResourceBroker.Valid, InMemoryNodeResultCache.Valid, InMemoryEventJournal.Valid, TokensOk, Tasks, Arrives;
      hide Work, Reached, Remembers, EndedKept;
      ghost var before, first := Value(), run;
      rest := calls;
      NaturalWork();
      while true
        invariant Valid() && start == old(start) && Continues(run, old(run)) && Work(Value()) >= 0 && Suffix(rest, calls)
        invariant forall c :: c in rest ==> IsCall(c)
        decreases |rest|, Work(Value())
      {
        ghost var earlier := run;
        var blocked := LaunchAll();
        ContinuesThrough(run, earlier, old(run));
        if phases != map[] {
          ghost var launched := run;
          rest := AwaitCompletion(rest);
          ContinuesThrough(run, launched, old(run));
          continue;
        }
        if queues.items == map[] {
          AllEnded();
          ReachedRemembers(settings, start, first, before, run, Value());
          ReachedEndedStay(settings, start, first, before, run, Value());
          return true, rest;
        }
        if blocked {
          assert false;
          return false, rest;
        }
      }
    }

    lemma AllEnded()
      requires Valid() && phases == map[] && queues.items == map[]
      ensures Value().active == map[]
      ensures forall id :: id in Value().repo.records ==> Terminal(Value().repo.records[id].status)
    {
      CountTasks();
      ReachedInv(settings, start, run, Value());
      IdleMeansEnded(settings, Value());
    }

    lemma CountTasks()
      requires TokensOk()
      ensures |Tasks()| == |phases| && Tasks().Keys == phases.Keys
    {
      assert Tasks().Keys == phases.Keys;
      assert |Tasks()| == |Tasks().Keys|;
    }

    lemma KnowQueued()
      requires Valid()
      ensures QueuedKnown() && repository.records.Keys == repository.history.Keys
    {
      forall id | id in queues.items
        ensures id in repository.records && id in repository.history && repository.records[id].status == QUEUED
        ensures queues.items[id].item == ItemOf(repository.records[id])
        ensures repository.records[id].spec.estimate.Some? ==> ValidEstimate(repository.records[id].spec.estimate.value)
        ensures repository.records[id].spec.jobId == id && id !in tokens && id !in reservations
        ensures Room(queues.config, Removed(queues.State(), id), queues.items[id].item.queue)
      {
        PutBackFits(queues.config, queues.State(), id);
        ReachedJob(settings, start, run, Value(), id);
      }
      ReachedJob(settings, start, run, Value(), "");
    }
  }
}
