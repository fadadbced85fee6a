/** Whole runs of the scheduler: the invariant is never lost, work always comes to an end, and
    a cancelled attempt is doomed (src/comfyng/scheduler/scheduler.py:368-585). */
module SchedulerRuns {
  import opened Graphs
  import opened Budgets
  import opened Broker
  import opened Queues
  import opened Jobs
  import opened Journal
  import opened SchedulerModel

  // ----- Runs -----

  datatype Run = Begin | More(earlier: Run, step: Step, now: real)

  ghost function Initial(now: real): State
  {
    State(Repo(map[], map[]), Waiting(map[], 1), map[], map[], Ledger([], 0), [], now)
  }

  /** `t` is where the run leads from `s`. */
  ghost predicate Arrives(c: Settings, s: State, run: Run, t: State)
  {
    match run
    case Begin => t == s
    case More(earlier, step, now) => exists m :: Arrives(c, s, earlier, m) && Enabled(c, m, step, now) && t == Apply(c, m, step, now)
  }

  lemma InitialHolds(c: Settings, now: real)
    requires ValidConfig(c.queues) && now >= 0.0
    ensures Inv(c, Initial(now))
  {
    var s := Initial(now);
    assert Members(s.waiting.items, Interactive) == {};
    forall q: QueueName
      ensures |Members(s.waiting.items, q)| == 0
    {
      assert Members(s.waiting.items, q) == {};
    }
  }

  /** The invariant holds in every state that any run reaches. */
  lemma {:induction false} RunKeepsInvariant(c: Settings, s: State, run: Run, t: State)
    requires Inv(c, s) && Arrives(c, s, run, t)
    ensures Inv(c, t)
    decreases run
  {
    match run
    case Begin =>
    case More(earlier, step, now) =>
      var m :| Arrives(c, s, earlier, m) && Enabled(c, m, step, now) && t == Apply(c, m, step, now);
      RunKeepsInvariant(c, s, earlier, m);
      StepKeepsInvariant(c, m, step, now);
  }

  /** In every reachable state the journal spells out every job's history, and no job has more
      than four records per permitted attempt. */
  lemma JournalTellsHistory(c: Settings, s: State, run: Run, t: State, id: JobId)
    requires Inv(c, s) && Arrives(c, s, run, t) && id in t.repo.history
    ensures id in t.repo.records && Trail(t.journal, id) == Statuses(t.repo.history[id])
    ensures |Trail(t.journal, id)| <= 4 * t.repo.records[id].spec.maxAttempts
  {
    RunKeepsInvariant(c, s, run, t);
    BooksTell(c, t, id);
  }

  lemma BooksTell(c: Settings, t: State, id: JobId)
    requires Books(c, t) && id in t.repo.history
    ensures id in t.repo.records && Trail(t.journal, id) == Statuses(t.repo.history[id])
    ensures |Trail(t.journal, id)| <= 4 * t.repo.records[id].spec.maxAttempts
  {
    assert TrailMatches(t.repo, t.journal, id);
    assert EntryOk(id, t.repo.records[id], t.repo.history[id]);
    HistoryIsBounded(t.repo.history[id]);
    HistoryClimbs(t.repo.history[id], |t.repo.history[id]| - 1);
  }

  // ----- Work left -----

  /** Twice the positions a job can still climb, and one more while it is in the dispatcher. */
  function WorkOf(s: State, id: JobId): int
    requires id in s.repo.records
  {
    var r := s.repo.records[id];
    2 * (4 * r.spec.maxAttempts - 1 - Position(r)) + if id in s.active && s.active[id].phase.Dispatching? then 1 else 0
  }

  function Works(s: State): map<JobId, int>
  {
    map id | id in s.repo.records :: WorkOf(s, id)
  }

  ghost function Sum(m: map<JobId, int>): int
  {
    if m == map[] then 0
    else
      var k :| k in m;
      m[k] + Sum(m - {k})
  }

  lemma {:induction false} SumWithout(m: map<JobId, int>, k: JobId)
    requires k in m
    ensures Sum(m) == m[k] + Sum(m - {k})
    decreases m
  {
    var first :| first in m && Sum(m) == m[first] + Sum(m - {first});
    if first != k {
      SumWithout(m - {first}, k);
      SumWithout(m - {k}, first);
      assert m - {first} - {k} == m - {k} - {first};
    }
  }

  lemma SumChange(m: map<JobId, int>, n: map<JobId, int>, k: JobId)
    requires k in m && n.Keys == m.Keys && forall i :: i in m && i != k ==> n[i] == m[i]
    ensures Sum(n) - Sum(m) == n[k] - m[k]
  {
    SumWithout(m, k);
    SumWithout(n, k);
    assert m - {k} == n - {k};
  }

  lemma {:induction false} SumIsNatural(m: map<JobId, int>)
    requires forall k :: k in m ==> m[k] >= 0
    ensures Sum(m) >= 0
    decreases m
  {
    if m != map[] {
      var k :| k in m;
      SumWithout(m, k);
      SumIsNatural(m - {k});
    }
  }

  ghost function Work(s: State): int
  {
    Sum(Works(s))
  }

  lemma WorkIsNatural(c: Settings, s: State)
    requires Inv(c, s)
    ensures Work(s) >= 0
  {
    forall id | id in s.repo.records
      ensures WorkOf(s, id) >= 0
    {
      assert EntryOk(id, s.repo.records[id], s.repo.history[id]);
      PositionBound(s.repo.records[id]);
    }
    SumIsNatural(Works(s));
  }

  predicate Internal(step: Step)
  {
    !step.Submit? && !step.Cancel? && !step.Retry?
  }

  /** One job has less left to do, the others are as before. */
  ghost predicate Progress(s: State, t: State, id: JobId)
  {
    && id in s.repo.records && t.repo.records.Keys == s.repo.records.Keys
    && WorkOf(t, id) < WorkOf(s, id)
    && forall k :: k in s.repo.records && k != id ==> WorkOf(t, k) == WorkOf(s, k)
  }

  lemma ProgressFalls(s: State, t: State, id: JobId)
    requires Progress(s, t, id)
    ensures Work(t) < Work(s)
  {
    SumChange(Works(s), Works(t), id);
  }

  /** A move makes progress, whatever then happens to the attempt. */
  lemma MoveProgress(before: State, after: State, id: JobId, target: Status)
    requires MovedTo(before.repo, after.repo, id, target) && target in Successors(before.repo.records[id].status)
    requires forall k :: k != id ==> (k in before.active <==> k in after.active) && (k in before.active ==> before.active[k] == after.active[k])
    requires id in after.active && after.active[id].phase.Dispatching? ==> target == RUNNING
    ensures Progress(before, after, id)
  {
  }

  lemma ChainProgress(s: State, t: State, u: State, id: JobId)
    requires Progress(s, t, id) && Progress(t, u, id)
    ensures Progress(s, u, id)
  {
  }

  lemma EndProgress(c: Settings, s: State, id: JobId, target: Status, now: real, result: Json, error: Option<Json>)
    requires Books(c, s) && id in s.repo.records && now == s.now
    requires target in Successors(s.repo.records[id].status) && Terminal(target)
    requires result == Null || target == COMPLETED
    requires error.None? || target in {FAILED, CANCELLED}
    ensures Progress(s, Finish(Move(s, id, target, now, result, error), id), id)
  {
    hide Books, Move;
    KnownTimes(c, s, id);
    var t := MoveHolds(c, s, id, target, now, result, error);
    MoveProgress(s, Finish(t, id), id, target);
  }

  lemma BeginProgress(c: Settings, s: State, id: JobId, now: real)
    requires Books(c, s) && id in s.repo.records && now == s.now && s.repo.records[id].status == QUEUED
    ensures Progress(s, Begun(s, id, now), id)
  {
    hide Books, Move;
    KnownTimes(c, s, id);
    var t := MoveHolds(c, s, id, PREPARING, now, Null, None);
    MoveProgress(s, Begun(s, id, now), id, PREPARING);
  }

  lemma CacheHitProgress(c: Settings, s: State, id: JobId, now: real, value: Json)
    requires Books(c, s) && id in s.repo.records && now == s.now && s.repo.records[id].status == QUEUED && id !in s.active
    ensures Progress(s, FromCache(s, id, now, value), id)
  {
    var t := MoveHolds(c, s, id, PREPARING, now, Null, None);
    MoveProgress(s, t, id, PREPARING);
    FinishHitProgress(c, t, id, now, value);
    ChainProgress(s, t, FromCache(s, id, now, value), id);
  }

  lemma FinishHitProgress(c: Settings, s: State, id: JobId, now: real, value: Json)
    requires Books(c, s) && id in s.repo.records && now == s.now && s.repo.records[id].status == PREPARING && id !in s.active
    ensures Progress(s, Move(Move(s, id, RUNNING, now, Null, None), id, COMPLETED, now, value, None), id)
  {
    hide Books, Move;
    KnownTimes(c, s, id);
    var t := MoveHolds(c, s, id, RUNNING, now, Null, None);
    MoveProgress(s, t, id, RUNNING);
    KnownTimes(c, t, id);
    var u := MoveHolds(c, t, id, COMPLETED, now, value, None);
    MoveProgress(t, u, id, COMPLETED);
  }

  /** Progress looks only at records and attempts. */
  lemma ProgressAside(s: State, s': State, t: State, id: JobId)
    requires Progress(s', t, id) && s'.repo == s.repo && s'.active == s.active
    ensures Progress(s, t, id)
  {
  }

  lemma LaunchProgress(c: Settings, s: State, id: JobId, hit: Option<Json>, now: real)
    requires Inv(c, s) && now == s.now && id in s.waiting.items && id in s.repo.records && !IsDeferral(c, s, id, hit)
    ensures Progress(s, Launched(c, s, id, hit, now), id)
  {
    assert JobOk(s, id);
    var t := s.(waiting := Removed(s.waiting, id));
    SameBooks(c, s, t);
    var spec := s.repo.records[id].spec;
    if spec.cacheKey.Some? && hit.Some? {
      CacheHitProgress(c, t, id, now, hit.value);
      ProgressAside(s, t, Launched(c, s, id, hit, now), id);
    } else if spec.estimate.None? {
      BeginProgress(c, t, id, now);
      ProgressAside(s, t, Launched(c, s, id, hit, now), id);
    } else {
      var grant := Grant(spec.estimate.value, c.limits, s.ledger.leases);
      if grant.Some? {
        var u := Reserved(t, id, grant.value.1);
        SameBooks(c, t, u);
        BeginProgress(c, u, id, now);
        ProgressAside(s, u, Launched(c, s, id, hit, now), id);
      } else {
        var u := MoveHolds(c, t, id, FAILED, now, Null, Some(ADMISSION_ERROR));
        MoveProgress(s, u, id, FAILED);
      }
    }
  }

  lemma StartProgress(c: Settings, s: State, id: JobId, now: real)
    requires Inv(c, s) && now == s.now && id in s.active && s.active[id].phase.Starting? && id in s.repo.records
    ensures Progress(s, Started(s, id, now), id)
  {
    assert JobOk(s, id);
    var t := MoveHolds(c, s, id, RUNNING, now, Null, None);
    StartedFrom(c, s, t, id, now);
  }

  lemma StartedFrom(c: Settings, s: State, t: State, id: JobId, now: real)
    requires id in s.repo.records && id in s.repo.history && id in s.active && s.active[id].phase.Starting? && now == s.now
    requires s.repo.records[id].status == PREPARING
    requires t == Move(s, id, RUNNING, now, Null, None) && Books(c, t) && t == s.(repo := t.repo, journal := t.journal)
    requires MovedTo(s.repo, t.repo, id, RUNNING)
    ensures Progress(s, Started(s, id, now), id)
  {
    MoveProgress(s, t, id, RUNNING);
    if s.active[id].cancelled.Some? {
      EndProgress(c, t, id, CANCELLED, now, Null, Some(Str(s.active[id].cancelled.value)));
      ChainProgress(s, t, Started(s, id, now), id);
    } else {
      MoveProgress(s, Started(s, id, now), id, RUNNING);
    }
  }

  lemma ReturnProgress(c: Settings, s: State, id: JobId, value: Json, writeFails: bool, now: real)
    requires Inv(c, s) && now == s.now && id in s.active && s.active[id].phase.Dispatching? && id in s.repo.records
    ensures Progress(s, Returned(s, id, value, writeFails, now), id)
  {
    assert JobOk(s, id);
    if s.active[id].cancelled.Some? {
      EndProgress(c, s, id, CANCELLED, now, Null, Some(Str(s.active[id].cancelled.value)));
    } else {
      var t := if writeFails then Publish(s, CacheWriteFailed, id) else s;
      if writeFails { PublishKeepsBooks(c, s, CacheWriteFailed, id); }
      EndProgress(c, t, id, COMPLETED, now, value, None);
      ProgressAside(s, t, Returned(s, id, value, writeFails, now), id);
    }
  }

  lemma RaiseProgress(c: Settings, s: State, id: JobId, error: Json, retryable: bool, now: real)
    requires Inv(c, s) && now == s.now && id in s.active && s.active[id].phase.Dispatching? && id in s.repo.records
    ensures Progress(s, Raised(c, s, id, error, retryable, now), id)
  {
    assert JobOk(s, id);
    hide Books, Stores, Move, Inv;
    if !CanRetry(c, s.repo.records[id], retryable) {
      EndProgress(c, s, id, FAILED, now, Null, Some(error)) by { InvBooks(c, s); }
    } else {
      PostponeProgress(s, id, error);
    }
  }

  lemma InvBooks(c: Settings, s: State)
    requires Inv(c, s)
    ensures Books(c, s)
  {
  }

  lemma PostponeProgress(s: State, id: JobId, error: Json)
    requires id in s.repo.records && id in s.active && s.active[id].phase.Dispatching?
    ensures var t := Publish(ReleaseLease(s, id), JobRetrying, id);
            Progress(s, t.(active := t.active[id := Task(Sleeping(error), s.active[id].cancelled)]), id)
  {
  }

  lemma WakeProgress(c: Settings, s: State, id: JobId, now: real)
    requires Inv(c, s) && now == s.now && id in s.active && s.active[id].phase.Sleeping? && id in s.repo.records
    ensures Progress(s, Woken(c, s, id, now), id)
  {
    assert JobOk(s, id);
    var r := s.repo.records[id];
    if s.active[id].cancelled.Some? {
      EndProgress(c, s, id, CANCELLED, now, Null, Some(Str(s.active[id].cancelled.value)));
    } else if !Room(c.queues, s.waiting, r.spec.queue) {
      EndProgress(c, s, id, FAILED, now, Null, Some(BACKPRESSURE_ERROR));
    } else {
      RequeueProgress(s, id, r, now, Some(s.active[id].phase.error));
    }
  }

  lemma RequeueProgress(s: State, id: JobId, r: JobRecord, now: real, error: Option<Json>)
    requires id in s.repo.records && id in s.repo.history && r == s.repo.records[id] && r.status == RUNNING
    requires id in s.active && s.active[id].phase.Sleeping? && r.attempt + 1 < r.spec.maxAttempts && r.updatedAt <= now
    ensures RetryRecord(r, r.status, now, error).Ok?
    ensures Progress(s, Finish(Requeued(s, id, RetryRecord(r, r.status, now, error).value), id), id)
  {
    var updated := RetryRecord(r, r.status, now, error).value;
    assert Position(updated) > Position(r);
  }

  lemma StepProgress(c: Settings, s: State, step: Step, now: real)
    requires Inv(c, s) && Enabled(c, s, step, now) && Internal(step) && now == s.now
    requires step.Launch? ==> !IsDeferral(c, s, step.id, step.hit)
    ensures Progress(s, Apply(c, s, step, now), step.id)
  {
    assert s.(now := now) == s;
    match step
    case Launch(id, hit) => LaunchProgress(c, s, id, hit, now);
    case Start(id) => StartProgress(c, s, id, now);
    case Return(id, value, writeFails) => ReturnProgress(c, s, id, value, writeFails, now);
    case Interrupt(id, reason) => InterruptProgress(c, s, id, reason, now);
    case Raise(id, error, retryable) => RaiseProgress(c, s, id, error, retryable, now);
    case Wake(id) => WakeProgress(c, s, id, now);
  }

  lemma InterruptProgress(c: Settings, s: State, id: JobId, reason: string, now: real)
    requires Inv(c, s) && now == s.now && id in s.active && s.active[id].phase.Dispatching? && id in s.repo.records
    ensures Progress(s, Stopped(s, id, now, if s.active[id].cancelled.Some? then s.active[id].cancelled.value else reason), id)
  {
    assert JobOk(s, id);
    EndProgress(c, s, id, CANCELLED, now, Null,
                Some(Str(if s.active[id].cancelled.Some? then s.active[id].cancelled.value else reason)));
  }

  /** Every internal step but a deferral leaves less to do: at most `Work(s)` of them can
      follow one another. */
  lemma InternalStepWorks(c: Settings, s: State, step: Step, now: real)
    requires Inv(c, s) && Enabled(c, s, step, now) && Internal(step)
    requires step.Launch? ==> !IsDeferral(c, s, step.id, step.hit)
    ensures 0 <= Work(Apply(c, s, step, now)) < Work(s)
  {
    ClockHolds(c, s, now);
    ApplyAtNow(c, s, step, now);
    InternalWorksNow(c, s.(now := now), step, now);
    SameWork(s, s.(now := now));
  }

  lemma InternalWorksNow(c: Settings, s: State, step: Step, now: real)
    requires Inv(c, s) && Enabled(c, s, step, now) && Internal(step) && now == s.now
    requires step.Launch? ==> !IsDeferral(c, s, step.id, step.hit)
    ensures 0 <= Work(Apply(c, s, step, now)) < Work(s)
  {
    StepProgress(c, s, step, now);
    StepKeepsInvariant(c, s, step, now);
    WorkIsNatural(c, Apply(c, s, step, now));
    ProgressFalls(s, Apply(c, s, step, now), step.id);
  }

  lemma ApplyAtNow(c: Settings, s: State, step: Step, now: real)
    requires Enabled(c, s, step, now)
    ensures Enabled(c, s.(now := now), step, now) && Apply(c, s.(now := now), step, now) == Apply(c, s, step, now)
  {
  }

  lemma SameWork(s: State, t: State)
    requires t.repo == s.repo && t.active == s.active
    ensures Work(t) == Work(s)
  {
    assert Works(t) == Works(s);
  }

  /** A deferral changes no record and no attempt. */
  lemma DeferralWaits(c: Settings, s: State, id: JobId, hit: Option<Json>, now: real)
    requires Inv(c, s) && Enabled(c, s, Launch(id, hit), now) && IsDeferral(c, s, id, hit)
    ensures Work(Apply(c, s, Launch(id, hit), now)) == Work(s)
    ensures Apply(c, s, Launch(id, hit), now).active == s.active && s.active != map[]
  {
    DeferralIsQuiet(c, s.(now := now), id, hit, now);
    SameWork(s, Launched(c, s.(now := now), id, hit, now));
    DeferredMeansBusy(c, s, id, hit);
  }

  lemma DeferralIsQuiet(c: Settings, s: State, id: JobId, hit: Option<Json>, now: real)
    requires id in s.repo.records && id in s.repo.history && id in s.waiting.items && IsDeferral(c, s, id, hit)
    ensures Launched(c, s, id, hit, now).repo == s.repo && Launched(c, s, id, hit, now).active == s.active
  {
  }

  /** Only a live lease can defer a job, and leases belong to active attempts. */
  lemma DeferredMeansBusy(c: Settings, s: State, id: JobId, hit: Option<Json>)
    requires Inv(c, s) && id in s.repo.records && IsDeferral(c, s, id, hit)
    ensures s.active != map[]
  {
    var e := s.repo.records[id].spec.estimate.value;
    assert EntryOk(id, s.repo.records[id], s.repo.history[id]);
    var selected := Waitable(e, c.limits).value;
    var r := Deferred(selected, Diagnostics(selected, c.limits, s.ledger.leases, true), []);
    DeferredIsTransient(e, c.limits, s.ledger.leases, 0, r);
    var l := s.ledger.leases[0];
    assert l in s.ledger.leases;
    var k :| k in s.reservations && s.reservations[k] == l;
    assert JobOk(s, k);
    assert k in s.active;
  }

  /** With nothing waiting and nothing active, every job has ended. */
  lemma IdleMeansEnded(c: Settings, s: State)
    requires Inv(c, s) && s.waiting.items == map[] && s.active == map[]
    ensures forall id :: id in s.repo.records ==> Terminal(s.repo.records[id].status)
  {
    forall id | id in s.repo.records
      ensures Terminal(s.repo.records[id].status)
    {
      assert JobOk(s, id);
    }
  }

  // ----- Cancelled attempts -----

  /** The attempt was cancelled while active, or is over without having completed. */
  ghost predicate Doomed(s: State, id: JobId, attempt: nat)
  {
    && id in s.repo.records && s.repo.records[id].attempt == attempt
    && ((id in s.active && s.active[id].cancelled.Some?) || s.repo.records[id].status in {CANCELLED, FAILED})
  }

  /** Cancelling an active job dooms its attempt; it reports success the first time. */
  lemma CancelDooms(c: Settings, s: State, id: JobId, reason: string, now: real)
    requires Inv(c, s) && Enabled(c, s, Cancel(id, reason), now)
    requires id in s.repo.records && s.repo.records[id].status in {PREPARING, RUNNING}
    ensures Doomed(Apply(c, s, Cancel(id, reason), now), id, s.repo.records[id].attempt)
  {
    assert JobOk(s, id);
  }

  /** Without a manual retry a doomed attempt stays doomed: it neither completes nor goes back
      to the queue under the next attempt number. */
  lemma StepKeepsDoom(c: Settings, s: State, step: Step, now: real, id: JobId, attempt: nat)
    requires Inv(c, s) && Enabled(c, s, step, now) && Doomed(s, id, attempt) && step != Retry(id)
    ensures Doomed(Apply(c, s, step, now), id, attempt)
  {
    ClockHolds(c, s, now);
    var t := s.(now := now);
    ApplyAtNow(c, s, step, now);
    if Subject(step) != id {
      StepConfined(c, t, step, now);
    } else if step.Submit? {
      assert Submitted(c, t, step.spec, now) == t;
    } else {
      OwnStepKeepsDoom(c, t, step, now, id, attempt);
    }
  }

  // ----- Steps of one job leave the others alone -----

  ghost predicate Aside(s: State, t: State, id: JobId)
  {
    forall k :: k != id ==>
      && (k in s.repo.records ==> k in t.repo.records && t.repo.records[k] == s.repo.records[k])
      && (k in s.active <==> k in t.active) && (k in s.active ==> t.active[k] == s.active[k])
  }

  /** What a step may do to the ledger: one new lease, and any lease gone. */
  ghost predicate LedgerMoves(s: State, t: State)
  {
    t.ledger.next >= s.ledger.next && forall l :: l in t.ledger.leases ==> l in s.ledger.leases || l.id == s.ledger.next
  }

  ghost predicate Confined(s: State, t: State, id: JobId)
  {
    Aside(s, t, id) && LedgerMoves(s, t)
  }

  /** Later steps of the same transition that take no lease. */
  lemma ConfinedOn(s: State, t: State, u: State, id: JobId)
    requires Confined(s, t, id) && Aside(t, u, id)
    requires u.ledger.next == t.ledger.next && forall l :: l in u.ledger.leases ==> l in t.ledger.leases
    ensures Confined(s, u, id)
  {
  }

  lemma MoveConfined(s: State, t: State, id: JobId, target: Status, now: real, result: Json, error: Option<Json>)
    requires Confined(s, t, id) && id in t.repo.records && id in t.repo.history
    ensures Confined(s, Move(t, id, target, now, result, error), id)
    ensures var u := Move(t, id, target, now, result, error); id in u.repo.records && id in u.repo.history && u.active == t.active
  {
    var u := Move(t, id, target, now, result, error);
    ConfinedOn(s, t, u, id);
  }

  lemma FinishConfined(s: State, t: State, id: JobId)
    requires Confined(s, t, id)
    ensures Confined(s, Finish(t, id), id)
  {
    ReleaseConfined(s, t, id);
    ConfinedOn(s, ReleaseLease(t, id), Finish(t, id), id);
  }

  lemma ReleaseConfined(s: State, t: State, id: JobId)
    requires Confined(s, t, id)
    ensures Confined(s, ReleaseLease(t, id), id)
  {
    if id in t.reservations {
      forall l | l in Without(t.ledger.leases, t.reservations[id].id)
        ensures l in t.ledger.leases
      {
        WithoutMembers(t.ledger.leases, t.reservations[id].id, l);
      }
    }
    ConfinedOn(s, t, ReleaseLease(t, id), id);
  }

  lemma EndConfined(s: State, t: State, id: JobId, target: Status, now: real, result: Json, error: Option<Json>)
    requires Confined(s, t, id) && id in t.repo.records && id in t.repo.history
    ensures Confined(s, Finish(Move(t, id, target, now, result, error), id), id)
  {
    MoveConfined(s, t, id, target, now, result, error);
    FinishConfined(s, Move(t, id, target, now, result, error), id);
  }

  lemma BeginConfined(s: State, t: State, id: JobId, now: real)
    requires Confined(s, t, id) && id in t.repo.records && id in t.repo.history
    ensures Confined(s, Begun(t, id, now), id)
  {
    MoveConfined(s, t, id, PREPARING, now, Null, None);
    ConfinedOn(s, Move(t, id, PREPARING, now, Null, None), Begun(t, id, now), id);
  }

  lemma CacheHitConfined(s: State, t: State, id: JobId, now: real, value: Json)
    requires Confined(s, t, id) && id in t.repo.records && id in t.repo.history
    ensures Confined(s, FromCache(t, id, now, value), id)
  {
    MoveConfined(s, t, id, PREPARING, now, Null, None);
    var u := Move(t, id, PREPARING, now, Null, None);
    MoveConfined(s, u, id, RUNNING, now, Null, None);
    MoveConfined(s, Move(u, id, RUNNING, now, Null, None), id, COMPLETED, now, value, None);
  }

  lemma LaunchConfined(c: Settings, s: State, id: JobId, hit: Option<Json>, now: real)
    requires id in s.repo.records && id in s.repo.history && id in s.waiting.items
    ensures Confined(s, Launched(c, s, id, hit, now), id)
  {
    var t := s.(waiting := Removed(s.waiting, id));
    var spec := s.repo.records[id].spec;
    if spec.cacheKey.Some? && hit.Some? {
      CacheHitConfined(s, t, id, now, hit.value);
    } else if spec.estimate.None? {
      BeginConfined(s, t, id, now);
    } else {
      var grant := Grant(spec.estimate.value, c.limits, s.ledger.leases);
      if grant.Some? {
        BeginConfined(s, Reserved(t, id, grant.value.1), id, now);
      } else if Waitable(spec.estimate.value, c.limits).None? {
        MoveConfined(s, t, id, FAILED, now, Null, Some(ADMISSION_ERROR));
      }
    }
  }

  lemma StartConfined(s: State, id: JobId, now: real)
    requires id in s.repo.records && id in s.repo.history && id in s.active
    ensures Confined(s, Started(s, id, now), id)
  {
    MoveConfined(s, s, id, RUNNING, now, Null, None);
    var t := Move(s, id, RUNNING, now, Null, None);
    if s.active[id].cancelled.Some? {
      EndConfined(s, t, id, CANCELLED, now, Null, Some(Str(s.active[id].cancelled.value)));
    } else {
      ConfinedOn(s, t, Started(s, id, now), id);
    }
  }

  lemma ReturnConfined(s: State, id: JobId, value: Json, writeFails: bool, now: real)
    requires id in s.repo.records && id in s.repo.history && id in s.active
    ensures Confined(s, Returned(s, id, value, writeFails, now), id)
  {
    if s.active[id].cancelled.Some? {
      EndConfined(s, s, id, CANCELLED, now, Null, Some(Str(s.active[id].cancelled.value)));
    } else {
      EndConfined(s, if writeFails then Publish(s, CacheWriteFailed, id) else s, id, COMPLETED, now, value, None);
    }
  }

  lemma RaiseConfined(c: Settings, s: State, id: JobId, error: Json, retryable: bool, now: real)
    requires id in s.repo.records && id in s.repo.history && id in s.active
    ensures Confined(s, Raised(c, s, id, error, retryable, now), id)
  {
    if CanRetry(c, s.repo.records[id], retryable) {
      ReleaseConfined(s, s, id);
      ConfinedOn(s, ReleaseLease(s, id), Raised(c, s, id, error, retryable, now), id);
    } else {
      EndConfined(s, s, id, FAILED, now, Null, Some(error));
    }
  }

  lemma RequeueConfined(s: State, id: JobId, r: JobRecord)
    requires id in s.repo.records && id in s.repo.history
    ensures Confined(s, Requeued(s, id, r), id)
  {
  }

  lemma WakeConfined(c: Settings, s: State, id: JobId, now: real)
    requires id in s.repo.records && id in s.repo.history && id in s.active && s.active[id].phase.Sleeping?
    ensures Confined(s, Woken(c, s, id, now), id)
  {
    var r := s.repo.records[id];
    if s.active[id].cancelled.Some? {
      EndConfined(s, s, id, CANCELLED, now, Null, Some(Str(s.active[id].cancelled.value)));
    } else if !Room(c.queues, s.waiting, r.spec.queue) {
      EndConfined(s, s, id, FAILED, now, Null, Some(BACKPRESSURE_ERROR));
    } else {
      var outcome := RetryRecord(r, r.status, now, Some(s.active[id].phase.error));
      if outcome.Ok? {
        RequeueConfined(s, id, outcome.value);
        FinishConfined(s, Requeued(s, id, outcome.value), id);
      }
    }
  }

  lemma CancelConfined(s: State, id: JobId, reason: string, now: real)
    ensures Confined(s, Cancelled(s, id, reason, now), id)
  {
    if id in s.repo.records && id in s.repo.history && s.repo.records[id].status == QUEUED {
      MoveConfined(s, s.(waiting := Removed(s.waiting, id)), id, CANCELLED, now, Null, Some(Str(reason)));
    }
  }

  lemma SubmitConfined(c: Settings, s: State, spec: Submission, now: real)
    ensures Confined(s, Submitted(c, s, spec, now), spec.jobId)
  {
  }

  function Subject(step: Step): JobId
  {
    if step.Submit? then step.spec.jobId else step.id
  }

  /** No step touches another job's record or attempt, and the ledger gains at most one lease. */
  lemma StepConfined(c: Settings, s: State, step: Step, now: real)
    requires Enabled(c, s, step, now) && now == s.now
    ensures Confined(s, Apply(c, s, step, now), Subject(step))
  {
    assert s.(now := now) == s;
    match step
    case Submit(spec) => SubmitConfined(c, s, spec, now);
    case Cancel(id, reason) => CancelConfined(s, id, reason, now);
    case Retry(id) =>
    case Launch(id, hit) => LaunchConfined(c, s, id, hit, now);
    case Start(id) => StartConfined(s, id, now);
    case Return(id, value, writeFails) => ReturnConfined(s, id, value, writeFails, now);
    case Interrupt(id, reason) =>
      EndConfined(s, s, id, CANCELLED, now, Null, Some(Str(if s.active[id].cancelled.Some? then s.active[id].cancelled.value else reason)));
    case Raise(id, error, retryable) => RaiseConfined(c, s, id, error, retryable, now);
    case Wake(id) => WakeConfined(c, s, id, now);
  }

  // ----- A doomed attempt's own steps -----

  lemma EndDooms(c: Settings, s: State, id: JobId, target: Status, now: real, error: Option<Json>)
    requires Books(c, s) && id in s.repo.records && now == s.now
    requires target in Successors(s.repo.records[id].status) && target in {FAILED, CANCELLED}
    ensures Doomed(Finish(Move(s, id, target, now, Null, error), id), id, s.repo.records[id].attempt)
  {
    var u := MoveHolds(c, s, id, target, now, Null, error);
  }

  lemma StartDooms(c: Settings, s: State, id: JobId, now: real)
    requires Inv(c, s) && now == s.now && id in s.active && s.active[id].phase.Starting? && id in s.repo.records
    requires s.active[id].cancelled.Some?
    ensures Doomed(Started(s, id, now), id, s.repo.records[id].attempt)
  {
    assert JobOk(s, id);
    var t := MoveHolds(c, s, id, RUNNING, now, Null, None);
    EndDooms(c, t, id, CANCELLED, now, Some(Str(s.active[id].cancelled.value)));
  }

  lemma RaiseDooms(c: Settings, s: State, id: JobId, error: Json, retryable: bool, now: real)
    requires Inv(c, s) && now == s.now && id in s.active && s.active[id].phase.Dispatching? && id in s.repo.records
    requires s.active[id].cancelled.Some?
    ensures Doomed(Raised(c, s, id, error, retryable, now), id, s.repo.records[id].attempt)
  {
    assert JobOk(s, id);
    if !CanRetry(c, s.repo.records[id], retryable) {
      EndDooms(c, s, id, FAILED, now, Some(error));
    }
  }

  lemma CancelAgainDooms(c: Settings, s: State, id: JobId, reason: string, now: real, attempt: nat)
    requires Inv(c, s) && now == s.now && Doomed(s, id, attempt)
    ensures Doomed(Cancelled(s, id, reason, now), id, attempt)
  {
    assert JobOk(s, id);
  }

  lemma OwnStepKeepsDoom(c: Settings, s: State, step: Step, now: real, id: JobId, attempt: nat)
    requires Inv(c, s) && Enabled(c, s, step, now) && Doomed(s, id, attempt) && now == s.now
    requires !step.Submit? && !step.Retry? && step.id == id
    ensures Doomed(Apply(c, s, step, now), id, attempt)
  {
    assert s.(now := now) == s;
    assert JobOk(s, id);
    match step
    case Cancel(_, reason) => CancelAgainDooms(c, s, id, reason, now, attempt);
    case Launch(_, hit) => assert false;
    case Start(_) => StartDooms(c, s, id, now);
    case Return(_, value, writeFails) => EndDooms(c, s, id, CANCELLED, now, Some(Str(s.active[id].cancelled.value)));
    case Interrupt(_, reason) => EndDooms(c, s, id, CANCELLED, now, Some(Str(s.active[id].cancelled.value)));
    case Raise(_, error, retryable) => RaiseDooms(c, s, id, error, retryable, now);
    case Wake(_) => EndDooms(c, s, id, CANCELLED, now, Some(Str(s.active[id].cancelled.value)));
  }

  ghost predicate NoRetry(run: Run, id: JobId)
  {
    run.More? ==> run.step != Retry(id) && NoRetry(run.earlier, id)
  }

  /** After a successful cancel of an active job, no run without a manual retry completes that
      attempt or queues the job again. */
  lemma {:induction false} CancelledNeverCompletes(c: Settings, s: State, run: Run, t: State, id: JobId, attempt: nat)
    requires Inv(c, s) && Doomed(s, id, attempt) && Arrives(c, s, run, t) && NoRetry(run, id)
    ensures Doomed(t, id, attempt) && t.repo.records[id].status !in {COMPLETED, QUEUED}
    decreases run
  {
    match run
    case Begin =>
      assert JobOk(s, id);
    case More(earlier, step, now) =>
      var m :| Arrives(c, s, earlier, m) && Enabled(c, m, step, now) && t == Apply(c, m, step, now);
      CancelledNeverCompletes(c, s, earlier, m, id, attempt);
      RunKeepsInvariant(c, s, earlier, m);
      StepKeepsDoom(c, m, step, now, id, attempt);
      StepKeepsInvariant(c, m, step, now);
      assert JobOk(t, id);
  }

  // ----- Leases -----

  /** A lease number that has been used and is no longer live never comes back, so every lease
      is released at most once. */
  lemma ReleasedLeaseIsGone(c: Settings, s: State, step: Step, now: real, lease: LeaseId)
    requires Inv(c, s) && Enabled(c, s, step, now)
    requires lease < s.ledger.next && !Live(s.ledger.leases, lease)
    ensures var t := Apply(c, s, step, now); lease < t.ledger.next && !Live(t.ledger.leases, lease)
  {
    var u := s.(now := now);
    ApplyAtNow(c, s, step, now);
    StepConfined(c, u, step, now);
    var t := Apply(c, u, step, now);
    forall l | l in t.ledger.leases
      ensures l.id != lease
    {
      if l !in s.ledger.leases { assert l.id == s.ledger.next; }
    }
  }

  /** Over whole runs: a lease that was given back is never live again. */
  lemma {:induction false} LeaseNeverReturns(c: Settings, s: State, run: Run, t: State, lease: LeaseId)
    requires Inv(c, s) && Arrives(c, s, run, t)
    requires lease < s.ledger.next && !Live(s.ledger.leases, lease)
    ensures lease < t.ledger.next && !Live(t.ledger.leases, lease)
    decreases run
  {
    if run.More? {
      var m :| Arrives(c, s, run.earlier, m) && Enabled(c, m, run.step, run.now) && t == Apply(c, m, run.step, run.now);
      LeaseNeverReturns(c, s, run.earlier, m, lease);
      RunKeepsInvariant(c, s, run.earlier, m);
      ReleasedLeaseIsGone(c, m, run.step, run.now, lease);
    }
  }
}
