/** What a run never loses: jobs, their submissions, their histories and the journal only grow
    (src/comfyng/scheduler/scheduler.py:184-585). */
module SchedulerHistory {
  import opened Graphs
  import opened Budgets
  import opened Broker
  import opened Queues
  import opened Jobs
  import opened Journal
  import opened SchedulerModel
  import opened SchedulerRuns

  /** Every job of the first state is still there with its submission, and its history and the
      journal have only been added to. */
  ghost predicate Remembers(s: State, t: State)
  {
    && s.repo.records.Keys <= t.repo.records.Keys && s.repo.history.Keys <= t.repo.history.Keys
    && (forall id :: id in s.repo.records ==> t.repo.records[id].spec == s.repo.records[id].spec)
    && (forall id :: id in s.repo.history ==> s.repo.history[id] <= t.repo.history[id])
    && s.journal <= t.journal
  }

  lemma RemembersThrough(s: State, t: State, u: State)
    requires Remembers(s, t) && Remembers(t, u)
    ensures Remembers(s, u)
  {
  }

  /** Changes outside repository and journal. */
  lemma RemembersBeside(s: State, t: State)
    requires t.repo == s.repo && s.journal <= t.journal
    ensures Remembers(s, t)
  {
  }

  lemma ReviseRemembers(s: State, id: JobId, r: JobRecord)
    requires id in s.repo.records && id in s.repo.history && r.spec == s.repo.records[id].spec
    ensures Remembers(s, Revise(s, id, r))
  {
  }

  lemma MoveRemembers(s: State, id: JobId, target: Status, now: real, result: Json, error: Option<Json>)
    requires id in s.repo.records && id in s.repo.history
    ensures var t := Move(s, id, target, now, result, error);
            Remembers(s, t) && id in t.repo.records && id in t.repo.history && t.active == s.active
  {
    var r := TransitionRecord(s.repo.records[id], s.repo.records[id].status, target, now, result, error);
    if r.Ok? { ReviseRemembers(s, id, r.value); }
  }

  lemma FinishRemembers(s: State, t: State, id: JobId)
    requires Remembers(s, t)
    ensures Remembers(s, Finish(t, id)) && Remembers(s, ReleaseLease(t, id))
  {
    hide Without;
    RemembersBeside(t, ReleaseLease(t, id));
    RemembersBeside(t, Finish(t, id));
  }

  lemma EndRemembers(s: State, t: State, id: JobId, target: Status, now: real, result: Json, error: Option<Json>)
    requires Remembers(s, t) && id in t.repo.records && id in t.repo.history
    ensures Remembers(s, Finish(Move(t, id, target, now, result, error), id))
  {
    hide Move, Finish, Remembers;
    var u := Move(t, id, target, now, result, error);
    MoveRemembers(t, id, target, now, result, error);
    RemembersThrough(s, t, u);
    FinishRemembers(s, u, id);
  }

  lemma HitRemembers(s: State, id: JobId, now: real, value: Json)
    requires id in s.repo.records && id in s.repo.history
    ensures Remembers(s, FromCache(s, id, now, value))
  {
    hide Move, Remembers;
    MoveRemembers(s, id, PREPARING, now, Null, None);
    var t := Move(s, id, PREPARING, now, Null, None);
    MoveRemembers(t, id, RUNNING, now, Null, None);
    var u := Move(t, id, RUNNING, now, Null, None);
    MoveRemembers(u, id, COMPLETED, now, value, None);
    RemembersThrough(s, t, u);
    RemembersThrough(s, u, Move(u, id, COMPLETED, now, value, None));
  }

  lemma BeginRemembers(s: State, t: State, id: JobId, now: real)
    requires t.repo == s.repo && t.journal == s.journal && id in t.repo.records && id in t.repo.history
    ensures Remembers(s, Begun(t, id, now))
  {
    hide Move, Remembers;
    var u := Move(t, id, PREPARING, now, Null, None);
    MoveRemembers(t, id, PREPARING, now, Null, None);
    RemembersBeside(s, t);
    RemembersBeside(u, Begun(t, id, now));
    RemembersThrough(s, t, u);
    RemembersThrough(s, u, Begun(t, id, now));
  }

  lemma LaunchRemembers(c: Settings, s: State, id: JobId, hit: Option<Json>, now: real)
    requires id in s.repo.records && id in s.repo.history && id in s.waiting.items
    ensures Remembers(s, Launched(c, s, id, hit, now))
  {
    hide Grant, Waitable, FromCache, Begun, Move, Remembers;
    var t := s.(waiting := Removed(s.waiting, id));
    var spec := s.repo.records[id].spec;
    RemembersBeside(s, t);
    if spec.cacheKey.Some? && hit.Some? {
      HitRemembers(t, id, now, hit.value);
      RemembersThrough(s, t, FromCache(t, id, now, hit.value));
    } else if spec.estimate.None? {
      BeginRemembers(s, t, id, now);
    } else {
      var grant := Grant(spec.estimate.value, c.limits, s.ledger.leases);
      if grant.Some? {
        BeginRemembers(s, Reserved(t, id, grant.value.1), id, now);
      } else if Waitable(spec.estimate.value, c.limits).Some? {
        RemembersBeside(s, Launched(c, s, id, hit, now));
      } else {
        MoveRemembers(t, id, FAILED, now, Null, Some(ADMISSION_ERROR));
        RemembersThrough(s, t, Move(t, id, FAILED, now, Null, Some(ADMISSION_ERROR)));
      }
    }
  }

  lemma StartRemembers(s: State, id: JobId, now: real)
    requires id in s.repo.records && id in s.repo.history && id in s.active
    ensures Remembers(s, Started(s, id, now))
  {
    hide Move, Finish, Remembers;
    MoveRemembers(s, id, RUNNING, now, Null, None);
    var t := Move(s, id, RUNNING, now, Null, None);
    if s.active[id].cancelled.Some? {
      EndRemembers(s, t, id, CANCELLED, now, Null, Some(Str(s.active[id].cancelled.value)));
    } else {
      RemembersBeside(t, Started(s, id, now));
      RemembersThrough(s, t, Started(s, id, now));
    }
  }

  lemma ReturnRemembers(s: State, id: JobId, value: Json, writeFails: bool, now: real)
    requires id in s.repo.records && id in s.repo.history && id in s.active
    ensures Remembers(s, Returned(s, id, value, writeFails, now))
  {
    hide Move, Finish, Remembers;
    var t := if writeFails then Publish(s, CacheWriteFailed, id) else s;
    RemembersBeside(s, s);
    RemembersBeside(s, t);
    if s.active[id].cancelled.Some? {
      EndRemembers(s, s, id, CANCELLED, now, Null, Some(Str(s.active[id].cancelled.value)));
    } else {
      EndRemembers(s, t, id, COMPLETED, now, value, None);
    }
  }

  lemma RaiseRemembers(c: Settings, s: State, id: JobId, error: Json, retryable: bool, now: real)
    requires id in s.repo.records && id in s.repo.history && id in s.active
    ensures Remembers(s, Raised(c, s, id, error, retryable, now))
  {
    hide Move, Finish, Remembers;
    RemembersBeside(s, s);
    if CanRetry(c, s.repo.records[id], retryable) {
      RemembersBeside(s, Raised(c, s, id, error, retryable, now));
    } else {
      EndRemembers(s, s, id, FAILED, now, Null, Some(error));
    }
  }

  /** A retry record of the same submission, queued. */
  lemma RequeueRemembers(s: State, id: JobId, r: JobRecord)
    requires id in s.repo.records && id in s.repo.history && r.spec == s.repo.records[id].spec
    ensures Remembers(s, Requeued(s, id, r))
  {
    ReviseRemembers(s, id, r);
  }

  lemma WakeRemembers(c: Settings, s: State, id: JobId, now: real)
    requires id in s.repo.records && id in s.repo.history && id in s.active && s.active[id].phase.Sleeping?
    ensures Remembers(s, Woken(c, s, id, now))
  {
    hide Move, Finish, Remembers, Requeued;
    RemembersBeside(s, s);
    var r := s.repo.records[id];
    if s.active[id].cancelled.Some? {
      EndRemembers(s, s, id, CANCELLED, now, Null, Some(Str(s.active[id].cancelled.value)));
    } else if !Room(c.queues, s.waiting, r.spec.queue) {
      EndRemembers(s, s, id, FAILED, now, Null, Some(BACKPRESSURE_ERROR));
    } else {
      var outcome := RetryRecord(r, r.status, now, Some(s.active[id].phase.error));
      if outcome.Ok? {
        RequeueRemembers(s, id, outcome.value);
        FinishRemembers(s, Requeued(s, id, outcome.value), id);
      }
    }
  }

  lemma CancelRemembers(s: State, id: JobId, reason: string, now: real)
    ensures Remembers(s, Cancelled(s, id, reason, now))
  {
    hide Move, Remembers;
    if id in s.repo.records && id in s.repo.history && s.repo.records[id].status == QUEUED {
      var t := s.(waiting := Removed(s.waiting, id));
      RemembersBeside(s, t);
      MoveRemembers(t, id, CANCELLED, now, Null, Some(Str(reason)));
      RemembersThrough(s, t, Move(t, id, CANCELLED, now, Null, Some(Str(reason))));
    } else {
      RemembersBeside(s, Cancelled(s, id, reason, now));
    }
  }

  lemma SubmitRemembers(c: Settings, s: State, spec: Submission, now: real)
    requires s.repo.records.Keys == s.repo.history.Keys
    ensures Remembers(s, Submitted(c, s, spec, now))
  {
  }

  lemma RetryRemembers(c: Settings, s: State, id: JobId, now: real)
    ensures Remembers(s, Retried(c, s, id, now))
  {
    if id in s.repo.records && id in s.repo.history && Room(c.queues, s.waiting, s.repo.records[id].spec.queue) {
      var r := RetryRecord(s.repo.records[id], FAILED, now, None);
      if r.Ok? { RequeueRemembers(s, id, r.value); }
    }
  }

  /** No step forgets anything. */
  lemma StepRemembers(c: Settings, s: State, step: Step, now: real)
    requires Enabled(c, s, step, now)
    ensures Remembers(s, Apply(c, s, step, now))
  {
    hide Submitted, Cancelled, Retried, Launched, Started, Returned, Stopped, Raised, Woken, Remembers;
    var t := s.(now := now);
    RemembersBeside(s, t);
    RemembersBeside(t, t);
    match step {
      case Submit(spec) => SubmitRemembers(c, t, spec, now);
      case Cancel(id, reason) => CancelRemembers(t, id, reason, now);
      case Retry(id) => RetryRemembers(c, t, id, now);
      case Launch(id, hit) => LaunchRemembers(c, t, id, hit, now);
      case Start(id) => StartRemembers(t, id, now);
      case Return(id, value, writeFails) => ReturnRemembers(t, id, value, writeFails, now);
      case Interrupt(id, reason) =>
        StopRemembers(t, id, now, if s.active[id].cancelled.Some? then s.active[id].cancelled.value else reason);
      case Raise(id, error, retryable) => RaiseRemembers(c, t, id, error, retryable, now);
      case Wake(id) => WakeRemembers(c, t, id, now);
    }
    RemembersThrough(s, t, Apply(c, s, step, now));
  }

  lemma StopRemembers(s: State, id: JobId, now: real, reason: string)
    requires id in s.repo.records && id in s.repo.history
    ensures Remembers(s, Stopped(s, id, now, reason))
  {
    hide Remembers;
    RemembersBeside(s, s);
    EndRemembers(s, s, id, CANCELLED, now, Null, Some(Str(reason)));
  }

  // ----- Runs -----

  /** The later run begins with the earlier one. */
  ghost predicate Continues(run: Run, earlier: Run)
  {
    run == earlier || (run.More? && Continues(run.earlier, earlier))
  }

  lemma {:induction false} ContinuesThrough(run: Run, middle: Run, earlier: Run)
    requires Continues(run, middle) && Continues(middle, earlier)
    ensures Continues(run, earlier)
    decreases run
  {
    if run != middle {
      ContinuesThrough(run.earlier, middle, earlier);
    }
  }

  /** A run leads to one state. */
  lemma {:induction false} ArrivesOnce(c: Settings, s: State, run: Run, t: State, u: State)
    requires Arrives(c, s, run, t) && Arrives(c, s, run, u)
    ensures t == u
    decreases run
  {
    match run
    case Begin =>
    case More(earlier, step, now) =>
      hide Apply, Enabled;
      var m :| Arrives(c, s, earlier, m) && Enabled(c, m, step, now) && t == Apply(c, m, step, now);
      var n :| Arrives(c, s, earlier, n) && Enabled(c, n, step, now) && u == Apply(c, n, step, now);
      ArrivesOnce(c, s, earlier, m, n);
  }

  /** Whatever a run went through, its end remembers. */
  lemma {:induction false} RunRemembers(c: Settings, s: State, earlier: Run, t: State, run: Run, u: State)
    requires Arrives(c, s, earlier, t) && Arrives(c, s, run, u) && Continues(run, earlier)
    ensures Remembers(t, u)
    decreases run
  {
    hide Apply, Enabled, Remembers;
    if run == earlier {
      ArrivesOnce(c, s, run, t, u);
      RemembersBeside(t, t);
    } else {
      var m :| Arrives(c, s, run.earlier, m) && Enabled(c, m, run.step, run.now) && u == Apply(c, m, run.step, run.now);
      RunRemembers(c, s, earlier, t, run.earlier, m);
      StepRemembers(c, m, run.step, run.now);
      RemembersThrough(t, m, u);
    }
  }
}
