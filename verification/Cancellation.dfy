/** The token through which a running attempt learns that it was cancelled
    (src/comfyng/scheduler/cancellation.py). */
module Cancellation {
  import opened Graphs

  datatype Checkpoint = SamplerStep | BetweenBlocks | BeforeDecode | BeforeSave

  datatype Observation = Observation(checkpoint: Checkpoint, position: Option<nat>)

  /** The last entries of a bounded history. */
  function Latest(history: seq<Observation>, limit: nat): (kept: seq<Observation>)
    ensures |kept| == if |history| <= limit then |history| else limit
    ensures kept == history[|history| - |kept|..]
  {
    if |history| <= limit then history else history[|history| - limit..]
  }

  /** Keeping only the latest entries after each addition loses nothing that would be kept
      anyway. */
  lemma LatestOfLatest(history: seq<Observation>, o: Observation, limit: nat)
    ensures Latest(Latest(history, limit) + [o], limit) == Latest(history + [o], limit)
  {
  }

  class CancellationToken {
    const limit: nat
    var reason: Option<string>
    var history: seq<Observation>
    /** All cancellations ever requested, in order. */
    ghost var requests: seq<string>
    /** All observations ever made. */
    ghost var all: seq<Observation>

    ghost predicate Valid()
      reads this
    {
      && limit >= 1 && history == Latest(all, limit)
      && reason == if requests == [] then None else Some(requests[0])
    }

    constructor (limit: nat)
      requires limit >= 1
      ensures Valid() && reason.None? && requests == [] && all == [] && this.limit == limit
    {
      this.limit, reason, history, requests, all := limit, None, [], [], [];
    }

    /** `cancel`: true for the first request ever; its reason is the one that stays. */
    method Cancel(why: string) returns (changed: bool)
      requires Valid()
      modifies this
      ensures Valid() && requests == old(requests) + [why] && all == old(all)
      ensures changed == (old(requests) == []) && reason == Some(requests[0])
    {
      changed := reason.None?;
      if changed { reason := Some(why); }
      requests := requests + [why];
    }

    /** `checkpoint`: recorded in any case; the result is the reason to stop, if there is one. */
    method Pass(checkpoint: Checkpoint, position: Option<nat>) returns (stop: Option<string>)
      requires Valid()
      modifies this
      ensures Valid() && requests == old(requests) && stop == if requests == [] then None else Some(requests[0])
      ensures all == old(all) + [Observation(checkpoint, position)]
    {
      LatestOfLatest(all, Observation(checkpoint, position), limit);
      history := Latest(history + [Observation(checkpoint, position)], limit);
      all := all + [Observation(checkpoint, position)];
      stop := reason;
    }
  }
}
