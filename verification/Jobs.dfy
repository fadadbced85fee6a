/** Job records, their transitions, and the in-memory repository (src/comfyng/core/jobs.py). */
module Jobs {
  import opened Graphs
  import opened Budgets
  import opened Queues

  datatype Status = QUEUED | PREPARING | RUNNING | COMPLETED | FAILED | CANCELLED

  predicate Terminal(s: Status)
  {
    s in {COMPLETED, FAILED, CANCELLED}
  }

  function Successors(s: Status): set<Status>
  {
    match s
    case QUEUED => {PREPARING, FAILED, CANCELLED}
    case PREPARING => {RUNNING, FAILED, CANCELLED}
    case RUNNING => {COMPLETED, FAILED, CANCELLED}
    case _ => {}
  }

  function StatusPosition(s: Status): nat
  {
    match s
    case QUEUED => 0
    case PREPARING => 1
    case RUNNING => 2
    case _ => 3
  }

  /** The immutable part of a job. JSON null stands for an absent result. */
  datatype Submission = Submission(
    jobId: JobId,
    queue: QueueName,
    factors: Factors,
    payload: Json,
    maxAttempts: nat,
    cacheKey: Option<string>,
    estimate: Option<Estimate>)

  datatype JobRecord = JobRecord(
    spec: Submission,
    status: Status,
    attempt: nat,
    revision: nat,
    createdAt: real,
    queuedAt: real,
    updatedAt: real,
    startedAt: Option<real>,
    finishedAt: Option<real>,
    result: Json,
    error: Option<Json>)

  predicate ValidSubmission(s: Submission)
  {
    && s.maxAttempts >= 1 && ValidFactors(s.factors) && s.factors.age == 0.0
    && (s.estimate.Some? ==> ValidEstimate(s.estimate.value))
  }

  /** `JobRecord.__post_init__`. */
  predicate ValidRecord(r: JobRecord)
  {
    && ValidSubmission(r.spec) && r.attempt < r.spec.maxAttempts
    && 0.0 <= r.createdAt <= r.queuedAt <= r.updatedAt
    && (r.startedAt.Some? ==> r.createdAt <= r.startedAt.value <= r.updatedAt)
    && (r.finishedAt.Some? ==> r.finishedAt.value == r.updatedAt)
    && (r.status == RUNNING ==> r.startedAt.Some?)
    && (r.status in {QUEUED, PREPARING} ==> r.startedAt.None?)
    && (Terminal(r.status) <==> r.finishedAt.Some?)
    && (r.status != COMPLETED ==> r.result == Null)
  }

  /** `monotonic_position`. */
  function Position(r: JobRecord): nat
  {
    r.attempt * 4 + StatusPosition(r.status)
  }

  function FromSubmission(s: Submission, now: real): JobRecord
  {
    JobRecord(s, QUEUED, 0, 0, now, now, now, None, None, Null, None)
  }

  datatype JobError = NotFound | DuplicateJob | Conflict | InvalidTransition | NotRetryable | BudgetExhausted
                    | TimeBackwards | ResultNotAllowed | ErrorNotAllowed

  datatype Outcome<T> = Ok(value: T) | Err(error: JobError)

  /** `_transition_record`. */
  function TransitionRecord(r: JobRecord, expected: Status, target: Status, now: real, result: Json, error: Option<Json>): Outcome<JobRecord>
  {
    if r.status != expected then Err(Conflict)
    else if target !in Successors(r.status) then Err(InvalidTransition)
    else if now < r.updatedAt then Err(TimeBackwards)
    else if result != Null && target != COMPLETED then Err(ResultNotAllowed)
    else if error.Some? && target !in {FAILED, CANCELLED} then Err(ErrorNotAllowed)
    else Ok(r.(status := target, revision := r.revision + 1, updatedAt := now,
               startedAt := if target == RUNNING then Some(now) else r.startedAt,
               finishedAt := if Terminal(target) then Some(now) else None,
               result := result, error := error))
  }

  /** `_retry_record`. */
  function RetryRecord(r: JobRecord, expected: Status, now: real, error: Option<Json>): Outcome<JobRecord>
  {
    if r.status != expected then Err(Conflict)
    else if expected !in {FAILED, PREPARING, RUNNING} then Err(NotRetryable)
    else if r.attempt + 1 >= r.spec.maxAttempts then Err(BudgetExhausted)
    else if now < r.updatedAt then Err(TimeBackwards)
    else Ok(r.(status := QUEUED, attempt := r.attempt + 1, revision := r.revision + 1, queuedAt := now, updatedAt := now,
               startedAt := None, finishedAt := None, result := Null, error := error))
  }

  /** The moves between statuses there are. */
  const MOVES: set<(Status, Status)> :=
    {(QUEUED, PREPARING), (QUEUED, FAILED), (QUEUED, CANCELLED),
     (PREPARING, RUNNING), (PREPARING, FAILED), (PREPARING, CANCELLED),
     (RUNNING, COMPLETED), (RUNNING, FAILED), (RUNNING, CANCELLED)}

  /** A transition succeeds exactly from the expected status, along one of the moves, forwards in
      time, with a result only on completion and an error only on failure or cancellation. */
  lemma TransitionSucceedsIff(r: JobRecord, expected: Status, target: Status, now: real, result: Json, error: Option<Json>)
    ensures TransitionRecord(r, expected, target, now, result, error).Ok? <==>
            && r.status == expected && (expected, target) in MOVES && r.updatedAt <= now
            && (target != COMPLETED ==> result == Null) && (target !in {FAILED, CANCELLED} ==> error == None)
  {
    match expected {
      case QUEUED =>
      case PREPARING =>
      case RUNNING =>
      case _ =>
    }
  }

  /** A retry succeeds exactly from a failed or active status, with attempts left. */
  lemma RetrySucceedsIff(r: JobRecord, expected: Status, now: real, error: Option<Json>)
    ensures RetryRecord(r, expected, now, error).Ok? <==>
            && r.status == expected && (expected == FAILED || expected == PREPARING || expected == RUNNING)
            && r.attempt + 1 < r.spec.maxAttempts && r.updatedAt <= now
    ensures RetryRecord(r, expected, now, error).Ok? ==>
            RetryRecord(r, expected, now, error).value.status == QUEUED && RetryRecord(r, expected, now, error).value.attempt == r.attempt + 1
  {
  }

  // ----- What a revision keeps and how far it can go -----

  /** One record follows from another by a transition or a retry. */
  ghost predicate Follows(r: JobRecord, s: JobRecord)
  {
    (exists expected, target, now, result, error :: TransitionRecord(r, expected, target, now, result, error) == Ok(s)) ||
    (exists expected, now, error :: RetryRecord(r, expected, now, error) == Ok(s))
  }

  /** Every revision is a valid record of the same job, one number further and strictly later
      in the life of the job. */
  lemma RevisionAdvances(r: JobRecord, s: JobRecord)
    requires ValidRecord(r) && Follows(r, s)
    ensures ValidRecord(s) && s.spec == r.spec && s.revision == r.revision + 1
    ensures Position(s) > Position(r) && s.updatedAt >= r.updatedAt
  {
    if expected, target, now, result, error :| TransitionRecord(r, expected, target, now, result, error) == Ok(s) {
      assert s.status == target;
    } else {
      var expected, now, error :| RetryRecord(r, expected, now, error) == Ok(s);
    }
  }

  lemma PositionBound(r: JobRecord)
    requires ValidRecord(r)
    ensures Position(r) < 4 * r.spec.maxAttempts
  {
  }

  /** A job's history: its submission, then one revision after another. */
  ghost predicate History(h: seq<JobRecord>)
  {
    && |h| >= 1 && ValidRecord(h[0]) && h[0] == FromSubmission(h[0].spec, h[0].createdAt)
    && forall i :: 0 < i < |h| ==> Follows(h[i - 1], h[i])
  }

  lemma {:induction false} HistoryClimbs(h: seq<JobRecord>, i: nat)
    requires History(h) && i < |h|
    ensures ValidRecord(h[i]) && h[i].spec == h[0].spec && h[i].revision == i && Position(h[i]) >= i
    decreases i
  {
    if i > 0 {
      HistoryClimbs(h, i - 1);
      RevisionAdvances(h[i - 1], h[i]);
    }
  }

  /** So a job has at most four records per permitted attempt. */
  lemma HistoryIsBounded(h: seq<JobRecord>)
    requires History(h)
    ensures |h| <= 4 * h[0].spec.maxAttempts
  {
    HistoryClimbs(h, |h| - 1);
    PositionBound(h[|h| - 1]);
  }

  /** A terminal job other than a failed one never changes again. */
  lemma TerminalIsFinal(r: JobRecord, s: JobRecord)
    requires Follows(r, s)
    ensures r.status !in {COMPLETED, CANCELLED}
    ensures r.status == FAILED ==> s.status == QUEUED && s.attempt == r.attempt + 1
  {
  }

  // ----- The repository -----

  datatype Repo = Repo(records: map<JobId, JobRecord>, history: map<JobId, seq<JobRecord>>)

  ghost predicate RepoOk(repo: Repo)
  {
    && repo.records.Keys == repo.history.Keys
    && forall id :: id in repo.records ==> EntryOk(id, repo.records[id], repo.history[id])
  }

  ghost predicate EntryOk(id: JobId, r: JobRecord, h: seq<JobRecord>)
  {
    r.spec.jobId == id && ValidRecord(r) && History(h) && h[|h| - 1] == r
  }

  function Revised(repo: Repo, id: JobId, r: JobRecord): Repo
    requires id in repo.history
  {
    Repo(repo.records[id := r], repo.history[id := repo.history[id] + [r]])
  }

  function Created(repo: Repo, r: JobRecord): Repo
  {
    Repo(repo.records[r.spec.jobId := r], repo.history[r.spec.jobId := [r]])
  }

  lemma HistoryGrows(h: seq<JobRecord>, r: JobRecord)
    requires History(h) && Follows(h[|h| - 1], r)
    ensures History(h + [r])
  {
  }

  lemma RevisedOk(repo: Repo, id: JobId, r: JobRecord)
    requires RepoOk(repo) && id in repo.records && Follows(repo.records[id], r)
    ensures RepoOk(Revised(repo, id, r))
  {
    assert EntryOk(id, repo.records[id], repo.history[id]);
    RevisionAdvances(repo.records[id], r);
    HistoryGrows(repo.history[id], r);
    var after := Revised(repo, id, r);
    forall k | k in after.records
      ensures EntryOk(k, after.records[k], after.history[k])
    {
      if k != id { assert EntryOk(k, repo.records[k], repo.history[k]); }
    }
  }

  lemma CreatedOk(repo: Repo, s: Submission, now: real)
    requires RepoOk(repo) && ValidSubmission(s) && now >= 0.0 && s.jobId !in repo.records
    ensures RepoOk(Created(repo, FromSubmission(s, now)))
  {
    var after := Created(repo, FromSubmission(s, now));
    forall k | k in after.records
      ensures EntryOk(k, after.records[k], after.history[k])
    {
      if k != s.jobId { assert EntryOk(k, repo.records[k], repo.history[k]); }
    }
  }

  class InMemoryJobRepository {
    var records: map<JobId, JobRecord>
    var history: map<JobId, seq<JobRecord>>

    ghost function State(): Repo
      reads this
    {
      Repo(records, history)
    }

    ghost predicate Valid()
      reads this
    {
      RepoOk(State())
    }

    constructor ()
      ensures Valid() && State() == Repo(map[], map[])
    {
      records, history := map[], map[];
    }

    method Create(s: Submission, now: real) returns (r: Outcome<JobRecord>)
      requires Valid() && ValidSubmission(s) && now >= 0.0
      modifies this
      ensures Valid()
      ensures r == if s.jobId in old(records) then Err(DuplicateJob) else Ok(FromSubmission(s, now))
      ensures State() == if r.Ok? then Created(old(State()), r.value) else old(State())
    {
      if s.jobId in records { return Err(DuplicateJob); }
      CreatedOk(State(), s, now);
      var record := FromSubmission(s, now);
      records := records[s.jobId := record];
      history := history[s.jobId := [record]];
      r := Ok(record);
    }

    method Get(id: JobId) returns (r: Option<JobRecord>)
      ensures r == if id in records then Some(records[id]) else None
    {
      r := if id in records then Some(records[id]) else None;
    }

    method Transition(id: JobId, expected: Status, target: Status, now: real, result: Json, error: Option<Json>)
      returns (r: Outcome<JobRecord>)
      requires Valid()
      modifies this
      ensures Valid()
      ensures r == if id !in old(records) then Err(NotFound)
                   else TransitionRecord(old(records)[id], expected, target, now, result, error)
      ensures State() == if r.Ok? then Revised(old(State()), id, r.value) else old(State())
    {
      if id !in records { return Err(NotFound); }
      r := TransitionRecord(records[id], expected, target, now, result, error);
      if r.Ok? {
        RevisedOk(State(), id, r.value);
        records := records[id := r.value];
        history := history[id := history[id] + [r.value]];
      }
    }

    method Retry(id: JobId, expected: Status, now: real, error: Option<Json>) returns (r: Outcome<JobRecord>)
      requires Valid()
      modifies this
      ensures Valid()
      ensures r == if id !in old(records) then Err(NotFound) else RetryRecord(old(records)[id], expected, now, error)
      ensures State() == if r.Ok? then Revised(old(State()), id, r.value) else old(State())
    {
      if id !in records { return Err(NotFound); }
      r := RetryRecord(records[id], expected, now, error);
      if r.Ok? {
        RevisedOk(State(), id, r.value);
        records := records[id := r.value];
        history := history[id := history[id] + [r.value]];
      }
    }

    /** Every record the job ever had, oldest first; never more than four per attempt. */
    method HistoryOf(id: JobId) returns (r: Outcome<seq<JobRecord>>)
      requires Valid()
      ensures r == if id in history then Ok(history[id]) else Err(NotFound)
      ensures r.Ok? ==> History(r.value) && |r.value| <= 4 * r.value[0].spec.maxAttempts
    {
      if id !in history { return Err(NotFound); }
      assert EntryOk(id, records[id], history[id]);
      HistoryIsBounded(history[id]);
      r := Ok(history[id]);
    }
  }
}
