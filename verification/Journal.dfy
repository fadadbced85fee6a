/** The in-memory event journal (src/comfyng/events/journal.py:37-102). */
module Journal {
  import opened Graphs
  import opened Queues
  import opened Jobs

  datatype EventKind = JobCreated | StatusEvent(status: Status) | JobDeferred | JobRetrying | CacheWriteFailed

  datatype Event = Event(kind: EventKind, jobId: JobId)

  /** An event with its place in the journal and in its job's stream, both counted from one. */
  datatype Envelope = Envelope(sequence: nat, stream: nat, event: Event)

  function EventsOf(log: seq<Envelope>): (events: seq<Event>)
    ensures |events| == |log| && forall i :: 0 <= i < |log| ==> events[i] == log[i].event
  {
    seq(|log|, i requires 0 <= i < |log| => log[i].event)
  }

  /** How many entries of the log belong to a job. */
  function StreamLength(log: seq<Envelope>, id: JobId): nat
  {
    if log == [] then 0 else StreamLength(log[..|log| - 1], id) + if log[|log| - 1].event.jobId == id then 1 else 0
  }

  /** Sequence numbers have no gaps, neither over all events nor within one job's stream. */
  ghost predicate Numbered(log: seq<Envelope>)
  {
    forall i :: 0 <= i < |log| ==> log[i].sequence == i + 1 && log[i].stream == StreamLength(log[..i], log[i].event.jobId) + 1
  }

  /** What a replay selects. */
  predicate Selected(e: Envelope, after: nat, job: Option<JobId>, kinds: set<EventKind>)
  {
    e.sequence > after && (job.None? || e.event.jobId == job.value) && (kinds == {} || e.event.kind in kinds)
  }

  function Matching(log: seq<Envelope>, after: nat, job: Option<JobId>, kinds: set<EventKind>): seq<Envelope>
  {
    if log == [] then []
    else
      var last := log[|log| - 1];
      Matching(log[..|log| - 1], after, job, kinds) + if Selected(last, after, job, kinds) then [last] else []
  }

  lemma MatchingAppend(log: seq<Envelope>, e: Envelope, after: nat, job: Option<JobId>, kinds: set<EventKind>)
    ensures Matching(log + [e], after, job, kinds) ==
            Matching(log, after, job, kinds) + if Selected(e, after, job, kinds) then [e] else []
  {
    assert (log + [e])[..|log|] == log;
  }

  lemma {:induction false} MatchingMembers(log: seq<Envelope>, after: nat, job: Option<JobId>, kinds: set<EventKind>, e: Envelope)
    ensures e in Matching(log, after, job, kinds) <==> e in log && Selected(e, after, job, kinds)
  {
    if log != [] {
      MatchingMembers(log[..|log| - 1], after, job, kinds, e);
      assert log == log[..|log| - 1] + [log[|log| - 1]];
    }
  }

  /** A reader who replays, remembers the last sequence number seen and replays again misses
      nothing and sees nothing twice. */
  lemma {:induction false} ReplayResumes(log: seq<Envelope>, after: nat, seen: nat, job: Option<JobId>, kinds: set<EventKind>)
    requires Numbered(log) && after <= seen <= |log|
    ensures Matching(log[..seen], after, job, kinds) + Matching(log, seen, job, kinds) == Matching(log, after, job, kinds)
    decreases |log| - seen
  {
    if seen == |log| {
      assert log[..seen] == log;
      NothingAfter(log, seen, job, kinds);
    } else {
      ReplayResumes(log, after, seen + 1, job, kinds);
      ReplayOneMore(log, after, seen, job, kinds);
    }
  }

  lemma ReplayOneMore(log: seq<Envelope>, after: nat, seen: nat, job: Option<JobId>, kinds: set<EventKind>)
    requires Numbered(log) && after <= seen < |log|
    ensures Matching(log[..seen + 1], after, job, kinds) + Matching(log, seen + 1, job, kinds) ==
            Matching(log[..seen], after, job, kinds) + Matching(log, seen, job, kinds)
  {
    hide Numbered;
    var e := log[seen];
    assert e.sequence == seen + 1 by { NumberedAt(log, seen); }
    assert log[..seen + 1] == log[..seen] + [e];
    MatchingAppend(log[..seen], e, after, job, kinds);
    OneMoreMatch(log, seen, job, kinds) by { NumberedAll(log); }
    assert Selected(e, seen, job, kinds) <==> Selected(e, after, job, kinds);
    Regroup(Matching(log[..seen], after, job, kinds), if Selected(e, seen, job, kinds) then [e] else [],
            Matching(log, seen + 1, job, kinds));
  }

  lemma NumberedAt(log: seq<Envelope>, i: nat)
    requires Numbered(log) && i < |log|
    ensures log[i].sequence == i + 1
  {
  }

  lemma NumberedAll(log: seq<Envelope>)
    requires Numbered(log)
    ensures forall i :: 0 <= i < |log| ==> log[i].sequence == i + 1
  {
  }

  lemma Regroup<T>(a: seq<T>, b: seq<T>, c: seq<T>)
    ensures a + b + c == a + (b + c)
  {
  }

  lemma {:induction false} NothingAfter(log: seq<Envelope>, seen: nat, job: Option<JobId>, kinds: set<EventKind>)
    requires forall i :: 0 <= i < |log| ==> log[i].sequence <= seen
    ensures Matching(log, seen, job, kinds) == []
  {
    if log != [] {
      NothingAfter(log[..|log| - 1], seen, job, kinds);
    }
  }

  /** Moving the start past one entry drops exactly that entry, if it was selected. */
  lemma {:induction false} OneMoreMatch(log: seq<Envelope>, seen: nat, job: Option<JobId>, kinds: set<EventKind>)
    requires seen < |log| && forall i :: 0 <= i < |log| ==> log[i].sequence == i + 1
    ensures Matching(log, seen, job, kinds) ==
            (if Selected(log[seen], seen, job, kinds) then [log[seen]] else []) + Matching(log, seen + 1, job, kinds)
  {
    var init, last := log[..|log| - 1], log[|log| - 1];
    if seen == |log| - 1 {
      NothingAfter(init, seen, job, kinds);
      NothingAfter(log, seen + 1, job, kinds);
    } else {
      OneMoreMatch(init, seen, job, kinds);
      assert Selected(last, seen, job, kinds) <==> Selected(last, seen + 1, job, kinds);
    }
  }

  lemma AppendNumbered(log: seq<Envelope>, e: Envelope)
    requires Numbered(log) && e.sequence == |log| + 1 && e.stream == StreamLength(log, e.event.jobId) + 1
    ensures Numbered(log + [e])
  {
    hide StreamLength;
    var longer := log + [e];
    forall i | 0 <= i < |longer|
      ensures longer[i].sequence == i + 1 && longer[i].stream == StreamLength(longer[..i], longer[i].event.jobId) + 1
    {
      assert longer[..i] == log[..i];
      if i == |log| { assert log[..i] == log; }
    }
  }

  lemma StreamGrows(log: seq<Envelope>, e: Envelope, id: JobId)
    ensures StreamLength(log + [e], id) == StreamLength(log, id) + if e.event.jobId == id then 1 else 0
  {
    assert (log + [e])[..|log|] == log;
  }

  lemma EventsGrow(log: seq<Envelope>, e: Envelope)
    ensures EventsOf(log + [e]) == EventsOf(log) + [e.event]
  {
  }

  class InMemoryEventJournal {
    var log: seq<Envelope>
    var streams: map<JobId, nat>

    ghost predicate Valid()
      reads this
    {
      Numbered(log) && forall id :: StreamLength(log, id) == if id in streams then streams[id] else 0
    }

    ghost function Events(): seq<Event>
      reads this
    {
      EventsOf(log)
    }

    constructor ()
      ensures Valid() && log == []
    {
      log, streams := [], map[];
    }

    /** `append`. */
    method Append(kind: EventKind, id: JobId) returns (e: Envelope)
      requires Valid()
      modifies this
      ensures Valid() && log == old(log) + [e] && Events() == old(Events()) + [Event(kind, id)]
      ensures e.event == Event(kind, id) && e.sequence == |old(log)| + 1 && e.stream == StreamLength(old(log), id) + 1
    {
      var stream := (if id in streams then streams[id] else 0) + 1;
      e := Envelope(|log| + 1, stream, Event(kind, id));
      hide Numbered, StreamLength, EventsOf;
      AppendNumbered(log, e);
      EventsGrow(log, e);
      forall other
        ensures StreamLength(log + [e], other) == StreamLength(log, other) + if id == other then 1 else 0
      {
        StreamGrows(log, e, other);
      }
      log, streams := log + [e], streams[id := stream];
    }

    /** `replay`: the selected events in order, cut off at the limit. */
    method Replay(after: nat, job: Option<JobId>, kinds: set<EventKind>, limit: nat) returns (result: seq<Envelope>)
      requires Valid()
      ensures var all := Matching(log, after, job, kinds); result == if |all| <= limit then all else all[..limit]
    {
      var all := [];
      for i := 0 to |log|
        invariant all == Matching(log[..i], after, job, kinds)
      {
        assert log[..i + 1] == log[..i] + [log[i]];
        MatchingAppend(log[..i], log[i], after, job, kinds);
        if Selected(log[i], after, job, kinds) { all := all + [log[i]]; }
      }
      assert log[..|log|] == log;
      result := if |all| <= limit then all else all[..limit];
    }
  }
}
